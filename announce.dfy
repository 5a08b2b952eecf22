// When the timer speaks and what it says: "3", "2", "1", "go" at the end of a
// countdown, and a "N minutes N seconds" phrase whenever the counted-up time
// crosses a multiple of the report interval. A reader for the phrase shows the
// phrase carries the displayed minutes and seconds.

module Announce {
  import opened Timing
  import opened Decimal

  datatype Option<T> = None | Some(value: T)

  /** The unit after the minutes: singular exactly for 1, always with a trailing space. */
  function MinuteWord(n: nat): string {
    if n == 1 then " minute " else " minutes "
  }

  /** The unit after the seconds: singular exactly for 1. */
  function SecondWord(n: nat): string {
    if n == 1 then " second" else " seconds"
  }

  /** The minutes clause: "N minute " or "N minutes "; empty for 0. */
  function MinutesClause(mins: nat): (r: string)
    ensures r == "" <==> mins == 0
    ensures mins > 0 ==> |r| >= 2 && r[|r| - 1] == ' '
    ensures mins > 0 ==> (r[|r| - 2] == 's' <==> mins != 1)
  {
    if mins > 0 then NatToString(mins) + MinuteWord(mins) else ""
  }

  /** The seconds clause: "N second" or "N seconds"; empty for 0. */
  function SecondsClause(secs: nat): (r: string)
    ensures r == "" <==> secs == 0
    ensures secs > 0 ==> |r| >= 1 && r[|r| - 1] != ' '
    ensures secs > 0 ==> (r[|r| - 1] == 's' <==> secs != 1)
  {
    if secs > 0 then NatToString(secs) + SecondWord(secs) else ""
  }

  /** The count-up announcement: the minutes clause followed by the seconds clause. */
  function Phrase(mins: nat, secs: nat): (s: string)
    ensures s == "" <==> mins == 0 && secs == 0
  {
    MinutesClause(mins) + SecondsClause(secs)
  }

  /** The minutes clause keeps its trailing space even when no seconds clause follows. */
  lemma PhraseEnd(mins: nat, secs: nat)
    ensures mins > 0 && secs == 0 ==> Phrase(mins, secs)[|Phrase(mins, secs)| - 1] == ' '
    ensures secs > 0 ==> Phrase(mins, secs)[|Phrase(mins, secs)| - 1] != ' '
  {
    var p := Phrase(mins, secs);
    var m := MinutesClause(mins);
    var c := SecondsClause(secs);
    if secs > 0 {
      assert p[|p| - 1] == c[|c| - 1];
    } else if mins > 0 {
      assert p == m;
    }
  }

  /** The count-up text as the tick builds it: the minutes clause appended, then the seconds clause. */
  method BuildPhrase(mins: nat, secs: nat) returns (str: string)
    ensures str == Phrase(mins, secs)
  {
    str := "";
    if mins > 0 {
      str := str + (NatToString(mins) + (if mins == 1 then " minute " else " minutes "));
    }
    if secs > 0 {
      str := str + (NatToString(secs) + (if secs == 1 then " second" else " seconds"));
    }
  }

  /** Number of leading decimal digits of s. */
  function DigitRun(s: string): (k: nat)
    ensures k <= |s| && AllDigits(s[..k])
    ensures k < |s| ==> !IsDigit(s[k])
  {
    if s == [] || !IsDigit(s[0]) then 0
    else
      var k := 1 + DigitRun(s[1..]);
      assert s[..k] == [s[0]] + s[1..][..k - 1];
      k
  }

  lemma {:induction false} DigitRunOf(d: string, rest: string)
    requires AllDigits(d)
    requires rest == [] || !IsDigit(rest[0])
    ensures DigitRun(d + rest) == |d| && (d + rest)[..|d|] == d
    decreases |d|
  {
    if d != [] {
      assert (d + rest)[1..] == d[1..] + rest;
      DigitRunOf(d[1..], rest);
    } else {
      assert d + rest == rest;
    }
  }

  predicate StartsWith(s: string, prefix: string) {
    |prefix| <= |s| && s[..|prefix|] == prefix
  }

  /** Reads a leading number and returns it with the rest of the text; None if s does not start with a digit. */
  function ReadNumber(s: string): Option<(nat, string)> {
    var k := DigitRun(s);
    if k == 0 then None else Some((ParseDecimal(s[..k]), s[k..]))
  }

  lemma ReadNumberOf(n: nat, rest: string)
    requires rest == [] || !IsDigit(rest[0])
    ensures ReadNumber(NatToString(n) + rest) == Some((n, rest))
  {
    var d := NatToString(n);
    DigitRunOf(d, rest);
    ParseNatToString(n);
    assert (d + rest)[|d|..] == rest;
  }

  /**
   * What a listener takes from a phrase: its minutes and its seconds (0 where a clause
   * is absent); None unless the text is a phrase with each unit inflected for its number.
   */
  function ReadPhrase(s: string): Option<(nat, nat)> {
    if s == [] then Some((0, 0))
    else
      match ReadNumber(s)
      case None => None
      case Some((n, rest)) => ReadAfterNumber(n, rest)
  }

  /** A leading number n followed by rest: minutes if n's minutes word follows, else exactly n's seconds word. */
  function ReadAfterNumber(n: nat, rest: string): Option<(nat, nat)> {
    if n == 0 then None
    else if StartsWith(rest, MinuteWord(n)) then
      match ReadSecondsClause(rest[|MinuteWord(n)|..])
      case None => None
      case Some(secs) => Some((n, secs))
    else if rest == SecondWord(n) then Some((0, n))
    else None
  }

  /** The text after the minutes clause: empty, or a positive number and exactly its seconds word. */
  function ReadSecondsClause(s: string): Option<nat> {
    if s == [] then Some(0)
    else
      match ReadNumber(s)
      case None => None
      case Some((n, rest)) => if n > 0 && rest == SecondWord(n) then Some(n) else None
  }

  /** The phrase carries both numbers: a listener recovers the minutes and the seconds from it. */
  lemma {:induction false} ReadPhraseOf(mins: nat, secs: nat)
    ensures ReadPhrase(Phrase(mins, secs)) == Some((mins, secs))
  {
    if mins > 0 {
      ReadWithMinutes(mins, secs);
    } else {
      assert Phrase(mins, secs) == SecondsClause(secs);
      ReadSecondsOnly(secs);
    }
  }

  lemma ReadSecondsClauseOf(secs: nat)
    ensures ReadSecondsClause(SecondsClause(secs)) == Some(secs)
  {
    if secs > 0 {
      ReadNumberOf(secs, SecondWord(secs));
    }
  }

  lemma ReadSecondsOnly(secs: nat)
    ensures ReadPhrase(SecondsClause(secs)) == Some((0, secs))
  {
    if secs > 0 {
      var unit := SecondWord(secs);
      ReadNumberOf(secs, unit);
      assert unit[1] == 's' && MinuteWord(secs)[1] == 'm';
      assert !StartsWith(unit, MinuteWord(secs));
    }
  }

  lemma ReadWithMinutes(mins: nat, secs: nat)
    requires mins > 0
    ensures ReadPhrase(Phrase(mins, secs)) == Some((mins, secs))
  {
    var unit := MinuteWord(mins);
    var sc := SecondsClause(secs);
    var rest := unit + sc;
    assert Phrase(mins, secs) == NatToString(mins) + rest;
    ReadNumberOf(mins, rest);
    ReadSecondsClauseOf(secs);
    assert rest[..|unit|] == unit;
    assert rest[|unit|..] == sc;
  }

  /** After the leading number, the reader goes on with the unit that follows it. */
  lemma ReadPhraseAfterNumber(n: nat, rest: string)
    requires rest != [] && !IsDigit(rest[0])
    ensures ReadPhrase(NatToString(n) + rest) == ReadAfterNumber(n, rest)
  {
    ReadNumberOf(n, rest);
  }

  /** The reader checks the minutes' inflection: "minute" only after 1, "minutes" only after any other number. */
  lemma MinuteInflectionChecked(n: nat, sc: string)
    ensures ReadPhrase(NatToString(n) + (" minute " + sc)).Some? ==> n == 1
    ensures ReadPhrase(NatToString(n) + (" minutes " + sc)).Some? ==> n != 1
  {
    ReadPhraseAfterNumber(n, " minute " + sc);
    ReadPhraseAfterNumber(n, " minutes " + sc);
    SingularMinuteAfter(n, sc);
    PluralMinutesAfter(n, sc);
  }

  lemma SingularMinuteAfter(n: nat, sc: string)
    ensures ReadAfterNumber(n, " minute " + sc).Some? ==> n == 1
  {
    var singular := " minute " + sc;
    if n > 1 {
      assert !StartsWith(singular, " minutes ") by {
        if |singular| >= 9 { assert singular[7] == ' '; }
      }
      assert singular != " seconds" by { assert singular[1] == 'm'; }
    }
  }

  lemma PluralMinutesAfter(n: nat, sc: string)
    ensures ReadAfterNumber(n, " minutes " + sc).Some? ==> n != 1
  {
    var plural := " minutes " + sc;
    if n == 1 {
      assert !StartsWith(plural, " minute ") by { assert plural[7] == 's'; }
      assert plural != " second" by { assert plural[1] == 'm'; }
    }
  }

  /** The reader checks the seconds' inflection: "second" only after 1, "seconds" only after any other number. */
  lemma SecondInflectionChecked(n: nat)
    ensures ReadPhrase(NatToString(n) + " second").Some? ==> n == 1
    ensures ReadPhrase(NatToString(n) + " seconds").Some? ==> n != 1
  {
    ReadPhraseAfterNumber(n, " second");
    ReadPhraseAfterNumber(n, " seconds");
    if n == 1 {
      assert !StartsWith(" seconds", " minute ") by { assert " seconds"[1] == 's'; }
    } else if n != 0 {
      assert !StartsWith(" second", " minutes ");
    }
  }

  /**
   * The announcement due on a tick that moves the signed second from prev to curr,
   * with the displayed minutes and seconds; None when nothing is spoken.
   */
  function Announcement(prev: int, curr: int, interval: int, mins: nat, secs: nat): (r: Option<string>)
    ensures interval == 0 ==> r == None
    ensures r.Some? && curr <= 0 ==> prev != curr && -3 <= curr
    ensures r.Some? && curr > 0 ==> r.value == Phrase(mins, secs)
  {
    if interval == 0 then None
    else if curr <= 0 then
      if prev != curr then
        if -3 <= curr <= -1 then Some(NatToString(-curr))
        else if curr == 0 then Some("go")
        else None
      else None
    else if FloorDiv(prev, interval) != FloorDiv(curr, interval) then Some(Phrase(mins, secs))
    else None
  }

  /** Countdown phase: on a change of second, exactly "3", "2", "1" and "go" in the last four seconds. */
  lemma CountdownWords(prev: int, curr: int, interval: int, mins: nat, secs: nat)
    requires interval != 0 && prev != curr && curr <= 0
    ensures curr == -3 ==> Announcement(prev, curr, interval, mins, secs) == Some("3")
    ensures curr == -2 ==> Announcement(prev, curr, interval, mins, secs) == Some("2")
    ensures curr == -1 ==> Announcement(prev, curr, interval, mins, secs) == Some("1")
    ensures curr == 0 ==> Announcement(prev, curr, interval, mins, secs) == Some("go")
    ensures curr < -3 ==> Announcement(prev, curr, interval, mins, secs) == None
  {
  }

  /** A multiple of the interval lies in (prev, curr]. */
  ghost predicate BoundaryBetween(prev: int, curr: int, interval: int)
    requires interval > 0
  {
    exists k :: prev < Multiple(k, interval) <= curr
  }

  function Multiple(k: int, interval: int): int {
    k * interval
  }

  /**
   * Count-up phase: for time moving forward, the interval bucket changes exactly when
   * a multiple of the interval is passed.
   */
  lemma {:induction false} BucketChange(prev: int, curr: int, interval: int)
    requires interval > 0 && prev <= curr
    ensures FloorDiv(prev, interval) != FloorDiv(curr, interval) <==> BoundaryBetween(prev, curr, interval)
  {
    var p := FloorDiv(prev, interval);
    var q := FloorDiv(curr, interval);
    if p != q {
      assert Multiple(q, interval) == q * interval;
      if q < p {
        MulMonotone(q + 1, p, interval);
      } else {
        MulMonotone(p + 1, q, interval);
        assert prev < Multiple(q, interval) <= curr;
      }
    } else {
      forall k | prev < Multiple(k, interval) <= curr
        ensures false
      {
        if k <= p {
          MulMonotone(k, p, interval);
        } else {
          MulMonotone(q + 1, k, interval);
        }
      }
    }
  }

  /** Count-up phase with a positive interval: a phrase is spoken exactly when a multiple of the interval is passed. */
  lemma CountUpSpeaks(prev: int, curr: int, interval: int, mins: nat, secs: nat)
    requires interval > 0 && curr > 0 && prev <= curr
    ensures Announcement(prev, curr, interval, mins, secs).Some? <==> BoundaryBetween(prev, curr, interval)
  {
    BucketChange(prev, curr, interval);
  }

  /** A tick that stays within the same second never speaks. */
  lemma SameSecondIsSilent(s: int, interval: int, mins: nat, secs: nat)
    ensures Announcement(s, s, interval, mins, secs) == None
  {
  }

  function Utter(a: Option<string>): seq<string> {
    if a.Some? then [a.value] else []
  }

  /** What a sequence of ticks says: each tick's announcement, with the signed second carried to the next tick. */
  function Spoken(prev: int, ticks: seq<int>, interval: int): (r: seq<string>)
    ensures |r| <= |ticks|
    decreases |ticks|
  {
    if ticks == [] then []
    else
      var e := ticks[0];
      var c := ClockOf(e);
      Utter(Announcement(prev, Seconds(e), interval, c.mins, c.secs)) + Spoken(Seconds(e), ticks[1..], interval)
  }

  /** With reporting off, no sequence of ticks says anything. */
  lemma {:induction false} SilentWhenDisabled(prev: int, ticks: seq<int>)
    ensures Spoken(prev, ticks, 0) == []
    decreases |ticks|
  {
    if ticks != [] {
      SilentWhenDisabled(Seconds(ticks[0]), ticks[1..]);
    }
  }

  /**
   * A three-second countdown with one-second reports, one tick per second from the start:
   * "3", "2", "1", "go", then the count-up rule reports the first second.
   */
  lemma CountdownScenario()
    ensures Spoken(0, [-2950, -1950, -950, 50, 1050], 1) == ["3", "2", "1", "go", "1 second"]
  {
    assert Seconds(-2950) == -3 && Seconds(-1950) == -2 && Seconds(-950) == -1;
    assert Seconds(50) == 0 && Seconds(1050) == 1;
    assert ClockOf(1050) == Clock(0, 1, 5) by { AbsSecondsOfMagnitude(1050); }
    assert Phrase(0, 1) == "1 second";
    assert Spoken(0, [1050], 1) == ["1 second"];
    assert Spoken(-1, [50, 1050], 1) == ["go", "1 second"];
    assert Spoken(-2, [-950, 50, 1050], 1) == ["1", "go", "1 second"];
    assert Spoken(-3, [-1950, -950, 50, 1050], 1) == ["2", "1", "go", "1 second"];
  }

  /** One-minute reports: 59 to 60 seconds says "1 minute ", 60 to 61 seconds says nothing. */
  lemma MinuteScenario()
    ensures Spoken(59, [60000], 60) == ["1 minute "]
    ensures Spoken(60, [61000], 60) == []
  {
    assert Seconds(60000) == 60 && Seconds(61000) == 61;
    assert ClockOf(60000) == Clock(1, 0, 0) by { AbsSecondsOfMagnitude(60000); }
    assert FloorDiv(59, 60) == 0 && FloorDiv(60, 60) == 1 && FloorDiv(61, 60) == 1;
    assert Phrase(1, 0) == "1 minute ";
  }
}
