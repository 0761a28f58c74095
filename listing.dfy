/** The text of format_team_list: a header, the main team numbered "1 ", "2 ",
    ... (or a placeholder line when it is empty), then, only when the reserve
    list is not empty, its header and its entries numbered "1. ", "2. ", ...;
    the lines are joined with newlines. */
module Listing {
  import opened Roster

  const TeamHeader: string := "👥 <b>Current Team Members:</b>"
  const NoMembersLine: string := "No team members yet."
  const ReserveHeader: string := "\n🕒 <b>Reserve List:</b>"

  /** Separator after the ordinal: the main team writes "{i} ", the reserve
      list "{i}. ". */
  const MainSep: string := " "
  const ReserveSep: string := ". "

  predicate IsDigit(c: char) { '0' <= c <= '9' }

  function DigitChar(d: nat): (c: char)
    requires d < 10
    ensures IsDigit(c) && c as int - '0' as int == d
  {
    "0123456789"[d]
  }

  /** Python's `f"{n}"` for a non-negative integer. */
  function DecimalString(n: nat): (s: string)
    ensures |s| >= 1 && forall i :: 0 <= i < |s| ==> IsDigit(s[i])
  {
    if n < 10 then [DigitChar(n)] else DecimalString(n / 10) + [DigitChar(n % 10)]
  }

  /** The number a string of decimal digits denotes. */
  function DigitsValue(s: string): nat
    requires forall i :: 0 <= i < |s| ==> IsDigit(s[i])
  {
    if s == [] then 0
    else
      assert IsDigit(s[|s| - 1]);
      DigitsValue(s[..|s| - 1]) * 10 + (s[|s| - 1] as int - '0' as int)
  }

  /** Reading the ordinal back gives the number that was written. */
  lemma {:induction false} DecimalStringValue(n: nat)
    ensures DigitsValue(DecimalString(n)) == n
  {
    var s := DecimalString(n);
    if n >= 10 {
      DecimalStringValue(n / 10);
      assert s[..|s| - 1] == DecimalString(n / 10);
    }
  }

  /** One roster line: "{ordinal}{sep}{full_name} (@{username})". */
  function Entry(ordinal: nat, sep: string, m: Member): string {
    DecimalString(ordinal) + sep + m.fullName + " (@" + m.username + ")"
  }

  /** The lines `enumerate(team, 1)` produces, built from the back so that the
      loop in FormatTeamList extends it one entry at a time. */
  function Numbered(s: seq<Member>, sep: string): seq<string> {
    if s == [] then [] else Numbered(s[..|s| - 1], sep) + [Entry(|s|, sep, s[|s| - 1])]
  }

  /** Line k of a numbered list shows entry k with ordinal k + 1. */
  lemma {:induction false} NumberedAt(s: seq<Member>, sep: string, k: nat)
    requires k < |s|
    ensures |Numbered(s, sep)| == |s|
    ensures Numbered(s, sep)[k] == Entry(k + 1, sep, s[k])
  {
    if k < |s| - 1 {
      NumberedAt(s[..|s| - 1], sep, k);
    } else if |s| > 1 {
      NumberedAt(s[..|s| - 1], sep, 0);
    }
  }

  /** All lines of the team list, before they are joined. */
  function TeamListLines(main: seq<Member>, reserve: seq<Member>): seq<string> {
    [TeamHeader] + Numbered(main, MainSep)
    + (if main == [] then [NoMembersLine] else [])
    + (if reserve != [] then [ReserveHeader] + Numbered(reserve, ReserveSep) else [])
  }

  /** `"\n".join(lines)`. */
  function JoinLines(lines: seq<string>): string {
    if lines == [] then ""
    else if |lines| == 1 then lines[0]
    else lines[0] + "\n" + JoinLines(lines[1..])
  }

  /** Where everything stands in the team list: the header first, main-team
      member k on line k + 1 as "{k+1} ...", the placeholder only for an empty
      main team, and reserve member k after the reserve header as "{k+1}. ...". */
  lemma TeamListLayout(main: seq<Member>, reserve: seq<Member>)
    ensures var lines := TeamListLines(main, reserve);
            var r0 := if main == [] then 2 else 1 + |main|;
            && |lines| == r0 + (if reserve == [] then 0 else 1 + |reserve|)
            && lines[0] == TeamHeader
            && (main == [] ==> lines[1] == NoMembersLine)
            && (forall k :: 0 <= k < |main| ==> lines[1 + k] == Entry(k + 1, MainSep, main[k]))
            && (reserve != [] ==> lines[r0] == ReserveHeader)
            && (forall k :: 0 <= k < |reserve| ==> lines[r0 + 1 + k] == Entry(k + 1, ReserveSep, reserve[k]))
  {
    var lines := TeamListLines(main, reserve);
    if main != [] { NumberedAt(main, MainSep, 0); } else { assert Numbered(main, MainSep) == []; }
    if reserve != [] { NumberedAt(reserve, ReserveSep, 0); }
    var r0 := if main == [] then 2 else 1 + |main|;
    forall k | 0 <= k < |main| ensures lines[1 + k] == Entry(k + 1, MainSep, main[k]) {
      NumberedAt(main, MainSep, k);
    }
    forall k | 0 <= k < |reserve| ensures lines[r0 + 1 + k] == Entry(k + 1, ReserveSep, reserve[k]) {
      NumberedAt(reserve, ReserveSep, k);
    }
  }
}
