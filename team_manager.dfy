/** The TeamManager object of the football bot: the roster lists, the event
    settings and the admin bookkeeping, updated in place by its methods. The
    roster methods are proved to follow Roster.Join and Roster.Leave, whose
    lemmas say what joining and leaving mean for every member. */
module Manager {
  import opened Roster
  import opened Listing

  /** Python's `None` or a value. */
  datatype Option<T> = None | Some(value: T)

  /** The usernames hard-coded as super admins, which remove_super_admin refuses
      to remove. */
  const SeedSuperAdmins: set<string> := {"vvmode", "Xellision"}
  const DefaultMaxPlayers: int := 20
  const NotSet: string := "Not Set"

  /** The message join_team returns for each outcome. */
  function JoinMessage(o: JoinOutcome): string {
    match o
    case AlreadyIn => "⚠️ You're already in the team or reserve list."
    case AddedToMain => "✅ You've been added to the main team!"
    case AddedToReserve => "🕒 Main team full. You've been added to the reserve list."
  }

  /** The message leave_team returns for each outcome. */
  function LeaveMessage(o: LeaveOutcome): string {
    match o
    case LeftAndPromoted(p) => "👋 You left. " + p.fullName + " (@" + p.username + ") promoted from reserve list."
    case Left => "👋 You've left the team."
    case NotInAnyList => "❌ You're not in any list."
  }

  /** The inner loop of leave_team: the position of the first entry of `team`
      with this user id, or |team| when there is none. */
  method FindMember(team: seq<Member>, userId: int) returns (i: nat)
    ensures i <= |team|
    ensures i < |team| ==> team[i].id == userId
    ensures forall k :: 0 <= k < i ==> team[k].id != userId
  {
    i := 0;
    while i < |team| && team[i].id != userId
      invariant i <= |team|
      invariant forall k :: 0 <= k < i ==> team[k].id != userId
    {
      i := i + 1;
    }
  }

  class TeamManager {
    /** Set to None by the constructor and never assigned again. */
    var superAdminId: Option<int>
    var superAdminUsernames: set<string>
    var adminIds: set<int>
    var mainTeam: seq<Member>
    var reserveTeam: seq<Member>
    var maxPlayers: int
    var venue: string
    var eventDate: string

    /** Every user id is on at most one list, at most once, and the hard-coded
        super admins are still there. No bound on |mainTeam|: set_event_details
        may lower maxPlayers below it. Nothing can change super_admin_id, and
        the one statement that adds to admin_ids comes after the raising line
        of add_super_admin, so every reachable object has no super-admin id
        and no admin ids. */
    ghost predicate Valid()
      reads this
    {
      && DistinctIds(mainTeam + reserveTeam)
      && SeedSuperAdmins <= superAdminUsernames
      && superAdminId == None
      && adminIds == {}
    }

    /** The two lists as a value. */
    function Lists(): Teams
      reads this
    {
      Teams(mainTeam, reserveTeam)
    }

    constructor ()
      ensures Valid()
      ensures superAdminId == None && superAdminUsernames == SeedSuperAdmins && adminIds == {}
      ensures mainTeam == [] && reserveTeam == []
      ensures maxPlayers == DefaultMaxPlayers && venue == NotSet && eventDate == NotSet
    {
      superAdminId := None;
      superAdminUsernames := SeedSuperAdmins;
      adminIds := {};
      mainTeam := [];
      reserveTeam := [];
      maxPlayers := DefaultMaxPlayers;
      venue := NotSet;
      eventDate := NotSet;
    }

    /** add_super_admin; a user id would reach the undefined super_admin_ids
        attribute and raise, so only the username form is callable. */
    method AddSuperAdmin(userId: Option<int>, username: Option<string>)
      requires Valid()
      requires userId.None?
      modifies this`superAdminUsernames
      ensures Valid()
      ensures superAdminUsernames == old(superAdminUsernames) + if username.Some? then {username.value} else {}
    {
      if username.Some? {
        superAdminUsernames := superAdminUsernames + {username.value};
      }
    }

    /** remove_super_admin; as for AddSuperAdmin, a user id would raise. The
        two hard-coded usernames are never removed. */
    method RemoveSuperAdmin(userId: Option<int>, username: Option<string>)
      requires Valid()
      requires userId.None?
      modifies this`superAdminUsernames
      ensures Valid()
      ensures superAdminUsernames ==
                if username.Some? && username.value !in SeedSuperAdmins
                then old(superAdminUsernames) - {username.value}
                else old(superAdminUsernames)
    {
      if username.Some? && username.value !in SeedSuperAdmins {
        superAdminUsernames := superAdminUsernames - {username.value};
      }
    }

    /** remove_admin: discards the id unless it is super_admin_id. Stated for
        any object, so that the protection of super_admin_id is visible even
        though Valid rules out any super_admin_id. */
    method RemoveAdmin(userId: int)
      modifies this`adminIds
      ensures old(Valid()) ==> Valid()
      ensures adminIds == if Some(userId) == superAdminId then old(adminIds) else old(adminIds) - {userId}
      ensures superAdminId.Some? ==> (superAdminId.value in adminIds <==> superAdminId.value in old(adminIds))
      ensures IsAdmin(Some(userId), None) <==> old(IsAdmin(Some(userId), None)) && Some(userId) == superAdminId
    {
      if Some(userId) != superAdminId {
        adminIds := adminIds - {userId};
      }
    }

    /** is_admin. Its username comparison reads the undefined attribute
        super_admin_username and raises, so a username may only be passed when
        the id test already answers true and short-circuits past it. */
    function IsAdmin(userId: Option<int>, username: Option<string>): (r: bool)
      reads this
      requires username.None? || (userId.Some? && userId.value in adminIds)
      ensures r <==> userId.Some? && userId.value in adminIds
      ensures username.Some? ==> r
      ensures Valid() ==> !r
    {
      userId.Some? && userId.value in adminIds
    }

    /** is_super_admin, under the same restriction as IsAdmin: a username may
        only be passed when the id already equals super_admin_id. */
    function IsSuperAdmin(userId: Option<int>, username: Option<string>): (r: bool)
      reads this
      requires username.None? || (userId.Some? && Some(userId.value) == superAdminId)
      ensures Valid() ==> !r
    {
      userId.Some? && Some(userId.value) == superAdminId
    }

    /** set_event_details: overwrites the three settings and nothing else; in
        particular a cap below the current main team evicts nobody. */
    method SetEventDetails(maxPlayers: int, venue: string, eventDate: string)
      requires Valid()
      modifies this`maxPlayers, this`venue, this`eventDate
      ensures Valid()
      ensures this.maxPlayers == maxPlayers && this.venue == venue && this.eventDate == eventDate
      ensures mainTeam == old(mainTeam) && reserveTeam == old(reserveTeam)
    {
      this.maxPlayers := maxPlayers;
      this.venue := venue;
      this.eventDate := eventDate;
    }

    /** clear_teams: empties both lists and leaves the settings and the admin
        sets as they were. */
    method ClearTeams()
      requires Valid()
      modifies this`mainTeam, this`reserveTeam
      ensures Valid()
      ensures mainTeam == [] && reserveTeam == []
      ensures maxPlayers == old(maxPlayers) && venue == old(venue) && eventDate == old(eventDate)
      ensures adminIds == old(adminIds) && superAdminUsernames == old(superAdminUsernames)
      ensures superAdminId == old(superAdminId)
    {
      mainTeam := [];
      reserveTeam := [];
    }

    /** join_team. */
    method JoinTeam(userId: int, fullName: string, username: string) returns (outcome: JoinOutcome)
      requires Valid()
      modifies this`mainTeam, this`reserveTeam
      ensures Valid()
      ensures (outcome, Lists()) == Join(old(Lists()), maxPlayers, Member(userId, fullName, username))
    {
      if HasId(mainTeam + reserveTeam, userId) {
        return AlreadyIn;
      }
      var entry := Member(userId, fullName, username);
      JoinPreservesDistinct(Lists(), maxPlayers, entry);
      if |mainTeam| < maxPlayers {
        mainTeam := mainTeam + [entry];
        return AddedToMain;
      } else {
        reserveTeam := reserveTeam + [entry];
        return AddedToReserve;
      }
    }

    /** leave_team: the search of the main team, then of the reserve list. */
    method LeaveTeam(userId: int) returns (outcome: LeaveOutcome)
      requires Valid()
      modifies this`mainTeam, this`reserveTeam
      ensures Valid()
      ensures (outcome, Lists()) == Leave(old(Lists()), userId)
    {
      LeavePreservesDistinct(Lists(), userId);
      var i := FindMember(mainTeam, userId);
      IndexOfUnique(mainTeam, userId, i);
      if i < |mainTeam| {
        mainTeam := RemoveAt(mainTeam, i);
        if reserveTeam != [] {
          var promoted := reserveTeam[0];
          reserveTeam := reserveTeam[1..];
          mainTeam := mainTeam + [promoted];
          return LeftAndPromoted(promoted);
        }
        return Left;
      }
      var j := FindMember(reserveTeam, userId);
      IndexOfUnique(reserveTeam, userId, j);
      if j < |reserveTeam| {
        reserveTeam := RemoveAt(reserveTeam, j);
        return Left;
      }
      return NotInAnyList;
    }

    /** format_team_list: builds the lines one by one and joins them. */
    method FormatTeamList() returns (text: string)
      ensures text == JoinLines(TeamListLines(mainTeam, reserveTeam))
    {
      var lines := [TeamHeader];
      var i := 0;
      while i < |mainTeam|
        invariant i <= |mainTeam|
        invariant lines == [TeamHeader] + Numbered(mainTeam[..i], MainSep)
      {
        assert mainTeam[..i + 1][..i] == mainTeam[..i];
        lines := lines + [Entry(i + 1, MainSep, mainTeam[i])];
        i := i + 1;
      }
      assert mainTeam[..i] == mainTeam;
      if mainTeam == [] {
        lines := lines + [NoMembersLine];
      }
      ghost var head := lines;
      assert head == [TeamHeader] + Numbered(mainTeam, MainSep) + (if mainTeam == [] then [NoMembersLine] else []);
      if reserveTeam != [] {
        lines := lines + [ReserveHeader];
        var prefix := lines;
        var j := 0;
        while j < |reserveTeam|
          invariant j <= |reserveTeam|
          invariant lines == prefix + Numbered(reserveTeam[..j], ReserveSep)
        {
          assert reserveTeam[..j + 1][..j] == reserveTeam[..j];
          lines := lines + [Entry(j + 1, ReserveSep, reserveTeam[j])];
          j := j + 1;
        }
        assert reserveTeam[..j] == reserveTeam;
        assert lines == head + ([ReserveHeader] + Numbered(reserveTeam, ReserveSep));
      } else {
        assert lines == head + [];
      }
      text := JoinLines(lines);
    }
  }

  /** A client of the class: capacity one, three joiners, then the first one
      leaves (FIFO promotion) and a waitlisted one leaves (no promotion). */
  method PromotionScenario(a: Member, b: Member, c: Member)
    requires a.id != b.id && b.id != c.id && a.id != c.id
  {
    var tm := new TeamManager();
    tm.SetEventDetails(1, "Pitch", "Saturday");
    var o := tm.JoinTeam(a.id, a.fullName, a.username);
    assert o == AddedToMain;
    o := tm.JoinTeam(b.id, b.fullName, b.username);
    HasIdConcat([a], [], b.id);
    assert o == AddedToReserve;
    o := tm.JoinTeam(c.id, c.fullName, c.username);
    HasIdConcat([a], [b], c.id);
    assert o == AddedToReserve;
    assert tm.mainTeam == [a] && tm.reserveTeam == [b, c];
    assert (tm.mainTeam + tm.reserveTeam)[1] == b;
    assert HasId(tm.mainTeam + tm.reserveTeam, b.id);
    o := tm.JoinTeam(b.id, b.fullName, b.username);
    assert o == AlreadyIn;
    var l := tm.LeaveTeam(a.id);
    assert l == LeftAndPromoted(b);
    assert tm.mainTeam == [b] && tm.reserveTeam == [c];
    l := tm.LeaveTeam(c.id);
    assert l == Left;
    assert tm.mainTeam == [b] && tm.reserveTeam == [];
  }

  /** A client of the class: lowering the cap below the main team keeps its
      members, and only later joiners feel the new cap. */
  method ShrinkScenario(a: Member, b: Member, c: Member, d: Member)
    requires a.id != b.id && b.id != c.id && a.id != c.id
    requires d.id != a.id && d.id != b.id && d.id != c.id
  {
    var tm := new TeamManager();
    tm.SetEventDetails(3, "Pitch", "Saturday");
    var o := tm.JoinTeam(a.id, a.fullName, a.username);
    o := tm.JoinTeam(b.id, b.fullName, b.username);
    HasIdConcat([a], [], b.id);
    o := tm.JoinTeam(c.id, c.fullName, c.username);
    HasIdConcat([a, b], [], c.id);
    assert tm.mainTeam == [a, b, c];
    tm.SetEventDetails(1, "Pitch", "Sunday");
    assert tm.mainTeam == [a, b, c];
    o := tm.JoinTeam(d.id, d.fullName, d.username);
    HasIdConcat([a, b, c], [], d.id);
    assert o == AddedToReserve;
    assert tm.mainTeam == [a, b, c] && tm.reserveTeam == [d];
  }
}
