# Football team roster: a verified model of TeamManager

The football bot keeps its roster in one `TeamManager` object. This object holds:
- a main team, filled up to `max_players` as people join;
- a reserve list, where later joiners wait in arrival order;
- the event settings `max_players`, `venue` and `event_date`;
- the admin bookkeeping: `admin_ids`, `super_admin_id` and the super-admin usernames, seeded with two hard-coded names.

The model has three modules:

- `Roster` (`roster.dfy`) works on plain values. It holds the `Member` entry, the two lists as `Teams`, and `Join` and `Leave`, which say what `join_team` and `leave_team` do to the lists. Its lemmas state what that means for every user id. Each id is `Absent`, `Confirmed` (main team) or `Waitlisted` (reserve list). Joining and leaving move only the ids the source says they move. User ids stay unique across both lists. Leaving the main team promotes the longest-waiting reserve entry. The cap holds for joins.
- `Listing` (`listing.dfy`) holds the text of `format_team_list`. The main team is numbered `"1 "`, `"2 "`, … and the reserve list `"1. "`, `"2. "`, …; the source is inconsistent here and the model keeps it that way. The lines are joined with newlines.
- `Manager` (`team_manager.dfy`) holds the class `TeamManager`. Its fields are the source's attributes, with the two lists as `seq<Member>`. Each method changes only the fields in its `modifies` clause. `JoinTeam` and `LeaveTeam` are proved to leave the lists exactly as `Roster.Join` and `Roster.Leave` say, and to keep `Valid()`. `Valid()` says four things. User ids are unique across both lists. The seed super admins are still present. `super_admin_id` is `None`. `admin_ids` is empty. `leave_team`'s search loop is `FindMember`, a `while` loop. `format_team_list` is a method that builds its lines in loops.

Return strings become the outcome datatypes `JoinOutcome` and `LeaveOutcome`. `Manager.JoinMessage` and `Manager.LeaveMessage` give the exact text of each outcome.

Where the intended design of the bot and its code differ, the model follows the code:
- `max_players` can be any integer, including zero or a negative number. Such a cap sends every new joiner to the reserve list.
- `is_admin` does not treat super admins as admins.
- There is no grant-admin-by-username operation, no username validation and no external admin store.
- The main team can exceed the cap once `set_event_details` lowers it. So `|main| <= max_players` is not an object invariant. It is preserved by joining and leaving (`Roster.JoinCapacity`, `Roster.LeaveKeepsCapacity`).

The source has these defects, and the model keeps them:
- `super_admin_ids` and `super_admin_username` are never assigned (team_manager.py:16, 23, 34, 40). The branches that read them would raise `AttributeError`, so the model requires callers to stay off them.
- Nothing ever sets `super_admin_id` to anything but `None`. So `remove_admin` never protects anyone in practice, and `is_super_admin` by id is always false. `Valid()` records `super_admin_id == None`, and `IsSuperAdmin` proves it answers false on every valid object.
- The only line that adds to `admin_ids` is team_manager.py:17. It runs after line 16, which raises. So `admin_ids` stays empty and nobody can become an admin. `is_admin` by id is always false, and any call that passes a username raises at line 34. `Valid()` records `admin_ids == {}`, and `IsAdmin` proves it answers false on every valid object.

## Model

| member | source | states |
|---|---|---|
| `Manager.TeamManager.constructor` | team_manager.py:4-12 | starts with empty lists, cap 20, venue and date "Not Set", no admin ids, no super_admin_id, and exactly the two seed super-admin usernames |
| `Manager.TeamManager.AddSuperAdmin` | team_manager.py:14-19 | callable only without a user id (the id branch raises); adds the username to the super-admin usernames and changes nothing else |
| `Manager.TeamManager.RemoveSuperAdmin` | team_manager.py:21-25 | callable only without a user id; removes the username unless it is "vvmode" or "Xellision", so the seed usernames always remain (Valid) |
| `Manager.TeamManager.RemoveAdmin` | team_manager.py:27-29 | for any object: discards the id from admin_ids unless it is super_admin_id; super_admin_id's membership never changes; afterwards is_admin(id) holds only if the id was an admin and is super_admin_id; a valid object stays valid |
| `Manager.TeamManager.IsAdmin` | team_manager.py:31-35 | true exactly when a user id is given and is in admin_ids; a username is allowed only where the id test already short-circuits past the undefined attribute, and then the answer is true; on every valid object (admin_ids empty) the answer is false, so a username can never be passed there without raising |
| `Manager.TeamManager.IsSuperAdmin` | team_manager.py:37-41 | false on every valid object, because super_admin_id stays None; a username is allowed only where the id test already short-circuits past the undefined attribute |
| `Manager.TeamManager.SetEventDetails` | team_manager.py:43-46 | the three settings take the given values; both lists are unchanged, even under a lower cap, and ids stay unique |
| `Manager.TeamManager.ClearTeams` | team_manager.py:48-50 | both lists become empty; settings and all admin fields are unchanged |
| `Manager.TeamManager.JoinTeam` | team_manager.py:52-63 | outcome and new lists are exactly Roster.Join of the old lists, the current cap and the new entry; user ids stay unique |
| `Manager.TeamManager.LeaveTeam` | team_manager.py:65-75 | outcome and new lists are exactly Roster.Leave of the old lists and the id; user ids stay unique |
| `Manager.FindMember` | team_manager.py:67-68 | returns the position of the first entry with the id, or the length when no entry has it |
| `Manager.TeamManager.FormatTeamList` | team_manager.py:77-88 | the text is the newline-join of the header, the numbered main team (or the placeholder), and the reserve header and numbered reserve list when that list is non-empty |
| `Roster.IndexOf` | team_manager.py:66-68 | first position whose entry has the id, or the length of the list when there is none |
| `Roster.IndexOfConcat` | team_manager.py:66-68 | searching main then reserve finds the same entry as searching main ++ reserve |
| `Roster.JoinShape` | team_manager.py:52-63 | a known id gives AlreadyIn and no change; otherwise exactly one list grows by one, at its end, with the new entry, old order kept; main grows iff the id is new and len(main) < max_players |
| `Roster.JoinCapacity` | team_manager.py:58-63 | len(main) <= max_players before implies it after; with max_players <= 0 nobody is added to the main team |
| `Roster.JoinStatus` | team_manager.py:52-63 | an absent id becomes Confirmed when there is room and Waitlisted otherwise, a present id keeps its state, and every other id keeps its state |
| `Roster.JoinPreservesDistinct` | team_manager.py:53-63 | if ids are unique across main ++ reserve before a join they are after |
| `Roster.LeaveCombined` | team_manager.py:65-75 | main ++ reserve after leaving is main ++ reserve with the id's first entry removed, everyone else in order; NotInAnyList exactly when the id is on neither list, and then both lists are unchanged |
| `Roster.LeavePreservesDistinct` | team_manager.py:65-75 | if ids are unique across main ++ reserve before a leave they are after |
| `Roster.LeaveStatus` | team_manager.py:65-75 | the leaving id ends Absent; leaving the main team with a non-empty reserve list names and confirms reserve[0]; every other id keeps its state; the outcome is Left or NotInAnyList otherwise |
| `Roster.LeaveFromMain` | team_manager.py:69-74 | leaving the main team with a non-empty reserve list keeps the main team's length, puts reserve[0] at its end and leaves the reserve's tail; with an empty reserve list the main team shrinks by one |
| `Roster.LeaveFromReserve` | team_manager.py:66-74 | leaving the reserve list promotes nobody: main team unchanged, reserve list one shorter, outcome Left |
| `Roster.LeaveAbsent` | team_manager.py:75 | an id on neither list gives NotInAnyList and no change |
| `Roster.LeaveKeepsCapacity` | team_manager.py:65-75 | leaving never lengthens the main team |
| `Listing.DecimalStringValue` | team_manager.py:80 | the ordinal written for each line reads back as the number itself |
| `Listing.NumberedAt` | team_manager.py:79-80 | line k of an enumerated list shows entry k with ordinal k + 1 |
| `Listing.TeamListLayout` | team_manager.py:78-87 | header first; main member k on line k + 1 as "{k+1} name (@username)"; the placeholder only for an empty main team; reserve member k after the reserve header as "{k+1}. name (@username)" |

## Left out

- football_bot.py is not part of this model. It holds the Flask routes, the Telegram application, async handlers, keyboards and environment loading. All of that is transport and I/O, and its `team_members` dictionary is a separate roster.
- init_db.py is not part of this model: it is a database connection and table creation only.
- Manager.TeamManager.AddSuperAdmin: the branch with a user id reads the undefined `super_admin_ids` and raises `AttributeError`, so it is excluded by `requires userId.None?`.
- Manager.TeamManager.RemoveSuperAdmin: the same branch with a user id is excluded in the same way.
- Manager.TeamManager.IsAdmin: the username comparison reads the undefined `super_admin_username` and raises. It is excluded by requiring that a username is passed only when the id test already answers true.
- Manager.TeamManager.IsSuperAdmin: the same, under the matching short-circuit.
- Manager.TeamManager.JoinTeam and Manager.TeamManager.LeaveTeam return an outcome value rather than the message string; `JoinMessage` and `LeaveMessage` map each outcome to the source's text.
- Manager.TeamManager.LeaveTeam: the outer `for team in [main_team, reserve_team]` loop is written out as two searches, the main team first.
- Concurrency and locking: the source has none, and the model is single-threaded.
- Python's dynamic typing: arguments of other types (a non-integer `max_players`, `None` where a string is expected) are not modelled.
