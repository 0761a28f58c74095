/** The roster of the football bot's TeamManager, on values: the main team and
    the reserve list, what joining and leaving do to them, and what that means
    for every user id on the roster. The class in module Manager keeps the two
    lists as fields and is proved to follow Join and Leave. */
module Roster {

  /** One roster entry: the (user_id, full_name, username) tuple the bot stores. */
  datatype Member = Member(id: int, fullName: string, username: string)

  /** The main team (bounded by max_players when members join) and the reserve
      list (first come, first promoted), each in join order. */
  datatype Teams = Teams(main: seq<Member>, reserve: seq<Member>) {
    /** Everyone on the roster: the main team, then the reserve list. */
    function All(): seq<Member> { main + reserve }
  }

  /** What join_team reports (the three messages it can return). */
  datatype JoinOutcome = AlreadyIn | AddedToMain | AddedToReserve

  /** What leave_team reports; a promotion names the promoted entry. */
  datatype LeaveOutcome = LeftAndPromoted(promoted: Member) | Left | NotInAnyList

  /** Where one user id stands on the roster. */
  datatype Status = Absent | Confirmed | Waitlisted

  predicate HasId(s: seq<Member>, id: int) {
    exists k :: 0 <= k < |s| && s[k].id == id
  }

  /** No user id occurs twice. */
  predicate DistinctIds(s: seq<Member>) {
    forall i, j :: 0 <= i < j < |s| ==> s[i].id != s[j].id
  }

  function StatusOf(t: Teams, id: int): Status {
    if HasId(t.main, id) then Confirmed
    else if HasId(t.reserve, id) then Waitlisted
    else Absent
  }

  /** Position of the first entry with this id, or |s| when there is none
      (the `for i, (uid, _, _) in enumerate(team)` search of leave_team). */
  function IndexOf(s: seq<Member>, id: int): (i: nat)
    ensures i <= |s|
    ensures i < |s| ==> s[i].id == id
    ensures forall k :: 0 <= k < i ==> s[k].id != id
  {
    if s == [] then 0
    else if s[0].id == id then 0
    else 1 + IndexOf(s[1..], id)
  }

  /** The list after `pop(i)`. */
  function RemoveAt(s: seq<Member>, i: nat): (r: seq<Member>)
    requires i < |s|
    ensures |r| == |s| - 1
    ensures forall k :: 0 <= k < i ==> r[k] == s[k]
    ensures forall k :: i <= k < |r| ==> r[k] == s[k + 1]
  {
    s[..i] + s[i + 1..]
  }

  /** join_team on the two lists: a known id changes nothing; a new one goes to
      the end of the main team while it is shorter than maxPlayers, otherwise to
      the end of the reserve list. */
  function Join(t: Teams, maxPlayers: int, m: Member): (JoinOutcome, Teams)
  {
    if HasId(t.All(), m.id) then (AlreadyIn, t)
    else if |t.main| < maxPlayers then (AddedToMain, Teams(t.main + [m], t.reserve))
    else (AddedToReserve, Teams(t.main, t.reserve + [m]))
  }

  /** leave_team on the two lists: the main team is searched first, then the
      reserve list. Leaving the main team moves the front of the reserve list to
      the end of the main team; leaving the reserve list promotes nobody. */
  function Leave(t: Teams, id: int): (LeaveOutcome, Teams)
  {
    var i := IndexOf(t.main, id);
    if i < |t.main| then
      var main := RemoveAt(t.main, i);
      if t.reserve != [] then
        (LeftAndPromoted(t.reserve[0]), Teams(main + [t.reserve[0]], t.reserve[1..]))
      else
        (Left, Teams(main, t.reserve))
    else
      var j := IndexOf(t.reserve, id);
      if j < |t.reserve| then (Left, Teams(t.main, RemoveAt(t.reserve, j)))
      else (NotInAnyList, t)
  }

  // ---------------------------------------------------------------------------
  // Facts about searching

  /** The three properties of IndexOf determine it. */
  lemma IndexOfUnique(s: seq<Member>, id: int, i: nat)
    requires i <= |s|
    requires i < |s| ==> s[i].id == id
    requires forall k :: 0 <= k < i ==> s[k].id != id
    ensures IndexOf(s, id) == i
  {
  }

  lemma HasIdIndexOf(s: seq<Member>, id: int)
    ensures HasId(s, id) <==> IndexOf(s, id) < |s|
  {
    if HasId(s, id) {
      var k :| 0 <= k < |s| && s[k].id == id;
      assert IndexOf(s, id) <= k;
    }
  }

  /** Searching main ++ reserve finds the entry in the main team when there is
      one, and otherwise the one in the reserve list, shifted by |main|. */
  lemma IndexOfConcat(a: seq<Member>, b: seq<Member>, id: int)
    ensures IndexOf(a + b, id) == if IndexOf(a, id) < |a| then IndexOf(a, id) else |a| + IndexOf(b, id)
  {
    var i := IndexOf(a, id);
    if i < |a| {
      IndexOfUnique(a + b, id, i);
    } else {
      var j := IndexOf(b, id);
      assert forall k :: 0 <= k < |a| + j ==> (a + b)[k].id != id by {
        forall k | 0 <= k < |a| + j ensures (a + b)[k].id != id {
          if k >= |a| { assert (a + b)[k] == b[k - |a|]; }
        }
      }
      if j < |b| { assert (a + b)[|a| + j] == b[j]; }
      IndexOfUnique(a + b, id, |a| + j);
    }
  }

  /** Removing one entry shifts the first occurrence of any other id left by
      one when it stood after the removed entry. */
  lemma IndexOfRemoveAt(s: seq<Member>, p: nat, x: int)
    requires p < |s| && s[p].id != x
    ensures var q := IndexOf(s, x);
            IndexOf(RemoveAt(s, p), x) == if q < p then q else q - 1
  {
    var q := IndexOf(s, x);
    var r := RemoveAt(s, p);
    if q < p {
      IndexOfUnique(r, x, q);
    } else {
      assert q != p;
      assert forall k :: 0 <= k < q - 1 ==> r[k].id != x by {
        forall k | 0 <= k < q - 1 ensures r[k].id != x {
          if k >= p { assert r[k] == s[k + 1]; }
        }
      }
      IndexOfUnique(r, x, q - 1);
    }
  }

  /** A member's status is read off the position of its first entry in
      main ++ reserve: before |main| it is confirmed, after it waitlisted. */
  lemma StatusByPosition(t: Teams, x: int)
    ensures var k := IndexOf(t.All(), x);
            StatusOf(t, x) == if k < |t.main| then Confirmed
                              else if k < |t.All()| then Waitlisted
                              else Absent
  {
    IndexOfConcat(t.main, t.reserve, x);
    HasIdIndexOf(t.main, x);
    HasIdIndexOf(t.reserve, x);
  }

  lemma HasIdConcat(a: seq<Member>, b: seq<Member>, x: int)
    ensures HasId(a + b, x) <==> HasId(a, x) || HasId(b, x)
  {
    if HasId(a, x) {
      var k :| 0 <= k < |a| && a[k].id == x;
      assert (a + b)[k] == a[k];
    }
    if HasId(a + b, x) {
      var k :| 0 <= k < |a + b| && (a + b)[k].id == x;
      if k >= |a| { assert b[k - |a|] == (a + b)[k]; }
    }
    if HasId(b, x) {
      var k :| 0 <= k < |b| && b[k].id == x;
      assert (a + b)[|a| + k] == b[k];
    }
  }

  // ---------------------------------------------------------------------------
  // Uniqueness of user ids

  /** Inserting an entry whose id is new keeps the ids distinct. */
  lemma DistinctInsert(a: seq<Member>, b: seq<Member>, m: Member)
    requires DistinctIds(a + b) && !HasId(a + b, m.id)
    ensures DistinctIds(a + [m] + b)
  {
    var s := a + [m] + b;
    var ab := a + b;
    forall i, j | 0 <= i < j < |s| ensures s[i].id != s[j].id {
      if j < |a| {
        assert s[i] == ab[i] && s[j] == ab[j];
      } else if j == |a| {
        assert s[i] == ab[i];
      } else if i < |a| {
        assert s[i] == ab[i] && s[j] == ab[j - 1];
      } else if i == |a| {
        assert s[j] == ab[j - 1];
      } else {
        assert s[i] == ab[i - 1] && s[j] == ab[j - 1];
      }
    }
  }

  lemma DistinctRemoveAt(s: seq<Member>, p: nat)
    requires p < |s| && DistinctIds(s)
    ensures DistinctIds(RemoveAt(s, p))
  {
    var r := RemoveAt(s, p);
    forall i, j | 0 <= i < j < |r| ensures r[i].id != r[j].id {
      var i' := if i < p then i else i + 1;
      var j' := if j < p then j else j + 1;
      assert r[i] == s[i'] && r[j] == s[j'];
    }
  }

  /** join_team keeps every user id on at most one list, at most once. */
  lemma {:induction false} JoinPreservesDistinct(t: Teams, maxPlayers: int, m: Member)
    requires DistinctIds(t.All())
    ensures DistinctIds(Join(t, maxPlayers, m).1.All())
  {
    if !HasId(t.All(), m.id) {
      if |t.main| < maxPlayers {
        DistinctInsert(t.main, t.reserve, m);
      } else {
        DistinctInsert(t.All(), [], m);
        assert t.main + (t.reserve + [m]) == t.All() + [m] + [];
      }
    }
  }

  lemma RemoveAtConcatLeft(a: seq<Member>, b: seq<Member>, i: nat)
    requires i < |a|
    ensures RemoveAt(a + b, i) == RemoveAt(a, i) + b
  {
    assert (a + b)[..i] == a[..i];
    assert (a + b)[i + 1..] == a[i + 1..] + b;
  }

  lemma RemoveAtConcatRight(a: seq<Member>, b: seq<Member>, j: nat)
    requires j < |b|
    ensures RemoveAt(a + b, |a| + j) == a + RemoveAt(b, j)
  {
    assert (a + b)[..|a| + j] == a + b[..j];
    assert (a + b)[|a| + j + 1..] == b[j + 1..];
  }

  /** Leaving removes the first entry with that id from main ++ reserve and keeps
      everybody else in order; a promotion only moves the boundary between the
      two lists. An absent id changes nothing. */
  lemma {:induction false} LeaveCombined(t: Teams, id: int)
    ensures var k := IndexOf(t.All(), id);
            var r := Leave(t, id);
            && (r.0 == NotInAnyList <==> k == |t.All()|)
            && r.1.All() == (if k < |t.All()| then RemoveAt(t.All(), k) else t.All())
            && (k == |t.All()| ==> r.1 == t)
  {
    IndexOfConcat(t.main, t.reserve, id);
    var i := IndexOf(t.main, id);
    var all := t.All();
    if i < |t.main| {
      var main := RemoveAt(t.main, i);
      RemoveAtConcatLeft(t.main, t.reserve, i);
      if t.reserve != [] {
        assert main + [t.reserve[0]] + t.reserve[1..] == main + t.reserve;
      }
    } else {
      var j := IndexOf(t.reserve, id);
      if j < |t.reserve| {
        RemoveAtConcatRight(t.main, t.reserve, j);
      }
    }
  }

  /** leave_team keeps every user id on at most one list, at most once. */
  lemma {:induction false} LeavePreservesDistinct(t: Teams, id: int)
    requires DistinctIds(t.All())
    ensures DistinctIds(Leave(t, id).1.All())
  {
    LeaveCombined(t, id);
    var k := IndexOf(t.All(), id);
    if k < |t.All()| {
      DistinctRemoveAt(t.All(), k);
    }
  }

  // ---------------------------------------------------------------------------
  // join_team

  /** A known id is a no-op; a new id makes exactly one list grow by one, at its
      end, and the main team is the one that grows exactly when it is shorter
      than maxPlayers. */
  lemma JoinShape(t: Teams, maxPlayers: int, m: Member)
    ensures var r := Join(t, maxPlayers, m);
            && (HasId(t.All(), m.id) <==> r.0 == AlreadyIn)
            && (r.0 == AlreadyIn ==> r.1 == t)
            && (r.0 != AlreadyIn ==> |r.1.main| + |r.1.reserve| == |t.main| + |t.reserve| + 1)
            && |r.1.main| >= |t.main| && r.1.main[..|t.main|] == t.main
            && |r.1.reserve| >= |t.reserve| && r.1.reserve[..|t.reserve|] == t.reserve
            && (|r.1.main| > |t.main| <==> !HasId(t.All(), m.id) && |t.main| < maxPlayers)
            && (|r.1.main| > |t.main| ==> r.1.main[|t.main|] == m && r.1.reserve == t.reserve)
            && (|r.1.reserve| > |t.reserve| ==> r.1.reserve[|t.reserve|] == m && r.1.main == t.main)
  {
  }

  /** Joining never pushes the main team past maxPlayers, and with a cap of zero
      or less every new member lands on the reserve list. */
  lemma JoinCapacity(t: Teams, maxPlayers: int, m: Member)
    ensures var r := Join(t, maxPlayers, m);
            && (|t.main| <= maxPlayers ==> |r.1.main| <= maxPlayers)
            && (maxPlayers <= 0 ==> r.0 != AddedToMain)
  {
  }

  /** Member states under join_team: an absent id becomes confirmed when there
      is room and waitlisted otherwise; a present id keeps its state; no other
      id changes state. */
  lemma {:induction false} JoinStatus(t: Teams, maxPlayers: int, m: Member)
    ensures var r := Join(t, maxPlayers, m);
            && StatusOf(r.1, m.id) == (if StatusOf(t, m.id) != Absent then StatusOf(t, m.id)
                                       else if |t.main| < maxPlayers then Confirmed
                                       else Waitlisted)
            && (r.0 == AddedToMain <==> StatusOf(t, m.id) == Absent && StatusOf(r.1, m.id) == Confirmed)
            && (r.0 == AddedToReserve <==> StatusOf(t, m.id) == Absent && StatusOf(r.1, m.id) == Waitlisted)
            && forall x :: x != m.id ==> StatusOf(r.1, x) == StatusOf(t, x)
  {
    var r := Join(t, maxPlayers, m);
    HasIdConcat(t.main, t.reserve, m.id);
    HasIdConcat(t.main, [m], m.id);
    HasIdConcat(t.reserve, [m], m.id);
    assert [m][0] == m;
    forall x | x != m.id ensures StatusOf(r.1, x) == StatusOf(t, x) {
      HasIdConcat(t.main, [m], x);
      HasIdConcat(t.reserve, [m], x);
    }
  }

  // ---------------------------------------------------------------------------
  // leave_team

  /** Member states under leave_team: the leaving id ends up absent. When it
      left the main team and the reserve list was not empty, the front of the
      reserve list becomes confirmed and is named in the outcome; every other id
      keeps its state. */
  lemma {:induction false} LeaveStatus(t: Teams, id: int)
    requires DistinctIds(t.All())
    ensures var r := Leave(t, id);
            var promotes := StatusOf(t, id) == Confirmed && t.reserve != [];
            && StatusOf(r.1, id) == Absent
            && r.0 == (if promotes then LeftAndPromoted(t.reserve[0])
                       else if StatusOf(t, id) == Absent then NotInAnyList
                       else Left)
            && (promotes ==> StatusOf(r.1, t.reserve[0].id) == Confirmed)
            && forall x :: x != id && (promotes ==> x != t.reserve[0].id) ==>
                 StatusOf(r.1, x) == StatusOf(t, x)
  {
    var r := Leave(t, id);
    var all := t.All();
    var p := IndexOf(all, id);
    LeaveCombined(t, id);
    StatusByPosition(t, id);
    IndexOfConcat(t.main, t.reserve, id);
    HasIdIndexOf(t.main, id);
    StatusByPosition(r.1, id);
    if p < |all| {
      var rest := RemoveAt(all, p);
      assert r.1.All() == rest;
      // No second entry carries the leaving id.
      forall k | 0 <= k < |rest| ensures rest[k].id != id {
        if k >= p { assert rest[k] == all[k + 1]; }
      }
      IndexOfUnique(rest, id, |rest|);
      assert |r.1.main| == if p < |t.main| && t.reserve == [] then |t.main| - 1 else |t.main|;
      if p < |t.main| && t.reserve != [] {
        assert all[|t.main|] == t.reserve[0];
        assert t.reserve[0].id != id;
        IndexOfUnique(all, t.reserve[0].id, |t.main|) by {
          forall k | 0 <= k < |t.main| ensures all[k].id != t.reserve[0].id {
            assert all[k] == t.main[k];
          }
        }
        IndexOfRemoveAt(all, p, t.reserve[0].id);
        StatusByPosition(r.1, t.reserve[0].id);
      }
      forall x | x != id && (StatusOf(t, id) == Confirmed && t.reserve != [] ==> x != t.reserve[0].id)
        ensures StatusOf(r.1, x) == StatusOf(t, x)
      {
        IndexOfRemoveAt(all, p, x);
        StatusByPosition(t, x);
        StatusByPosition(r.1, x);
        var q := IndexOf(all, x);
        if p < |t.main| && t.reserve != [] && q == |t.main| {
          assert all[|t.main|] == t.reserve[0];
        }
      }
    }
  }

  /** Leaving the main team: its length is kept by promoting the front of a
      non-empty reserve list to its end, the reserve list becomes its tail, and
      with an empty reserve list the main team just shrinks by one. */
  lemma LeaveFromMain(t: Teams, id: int)
    requires StatusOf(t, id) == Confirmed
    ensures var r := Leave(t, id);
            && (t.reserve != [] ==> && r.0 == LeftAndPromoted(t.reserve[0])
                                    && |r.1.main| == |t.main|
                                    && r.1.main[|t.main| - 1] == t.reserve[0]
                                    && r.1.reserve == t.reserve[1..])
            && (t.reserve == [] ==> r.0 == Left && |r.1.main| == |t.main| - 1 && r.1.reserve == [])
  {
    HasIdIndexOf(t.main, id);
  }

  /** Leaving the reserve list promotes nobody: the main team is untouched and
      the reserve list shrinks by one. */
  lemma LeaveFromReserve(t: Teams, id: int)
    requires StatusOf(t, id) == Waitlisted
    ensures var r := Leave(t, id);
            r.0 == Left && r.1.main == t.main && |r.1.reserve| == |t.reserve| - 1
  {
    HasIdIndexOf(t.main, id);
    HasIdIndexOf(t.reserve, id);
  }

  /** An id on neither list is reported and nothing changes. */
  lemma LeaveAbsent(t: Teams, id: int)
    requires StatusOf(t, id) == Absent
    ensures Leave(t, id) == (NotInAnyList, t)
  {
    HasIdIndexOf(t.main, id);
    HasIdIndexOf(t.reserve, id);
  }

  /** Leaving never lengthens the main team, so a main team within the cap
      stays within it. */
  lemma LeaveKeepsCapacity(t: Teams, id: int)
    ensures |Leave(t, id).1.main| <= |t.main|
  {
  }
}
