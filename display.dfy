// What the eight-slot digital display of speechtimer.js holds after a tick:
// the slot contents, which slots are dimmed as leading zeros, and the rule
// that shows or hides the minus sign.

module Display {
  import opened Timing

  /** A display slot holds a decimal digit or a separator character. */
  datatype Slot = Digit(d: nat) | Sep(c: char)

  /** `digitChars[i] > 0`: a digit slot holding a non-zero value. A separator compares false. */
  predicate Lit(s: Slot) {
    s.Digit? && s.d > 0
  }

  /**
   * The slot contents for a clock reading, least significant slot first:
   * 0-1 the hundredths, 2 '.', 3-4 the seconds, 5 ':', 6-7 the minutes.
   */
  function DigitSlots(c: Clock): (slots: seq<Slot>)
    requires c.mins < 100 && c.secs < 100 && c.cents < 100
    ensures |slots| == 8
    ensures slots[2] == Sep('.') && slots[5] == Sep(':')
    ensures forall i :: 0 <= i < 8 && i != 2 && i != 5 ==> slots[i].Digit? && slots[i].d < 10
  {
    [Digit(c.cents % 10), Digit(c.cents / 10), Sep('.'),
     Digit(c.secs % 10), Digit(c.secs / 10), Sep(':'),
     Digit(c.mins % 10), Digit(c.mins / 10)]
  }

  /** The two-digit number held by slots lo (units) and lo + 1 (tens); 0 if either is not a digit. */
  function PairValue(slots: seq<Slot>, lo: nat): nat
    requires lo + 1 < |slots|
  {
    if slots[lo].Digit? && slots[lo + 1].Digit? then slots[lo + 1].d * 10 + slots[lo].d else 0
  }

  /** The clock reading a viewer reads off an eight-slot display. */
  function ReadSlots(slots: seq<Slot>): Clock
    requires |slots| == 8
  {
    Clock(PairValue(slots, 6), PairValue(slots, 3), PairValue(slots, 0))
  }

  /** The display can be read back: it shows exactly the clock it was filled from. */
  lemma ReadDigitSlots(c: Clock)
    requires c.mins < 100 && c.secs < 100 && c.cents < 100
    ensures ReadSlots(DigitSlots(c)) == c
  {
  }

  /** No slot from k up to the most significant one (slot 7) is lit. */
  predicate DarkFrom(slots: seq<Slot>, k: int) {
    forall j :: k <= j < |slots| && 0 <= j ==> !Lit(slots[j])
  }

  /** Slot i is dimmed exactly when no slot from i up to the most significant one is lit. */
  function LowlightFlags(slots: seq<Slot>): (flags: seq<bool>)
    ensures |flags| == |slots|
    ensures forall i :: 0 <= i < |slots| ==> (flags[i] <==> DarkFrom(slots, i))
  {
    seq(|slots|, i requires 0 <= i < |slots| => DarkFrom(slots, i))
  }

  /** Dimming runs from the most significant slot down: once a slot is lit, every lower one is undimmed. */
  lemma LowlightIsPrefix(slots: seq<Slot>, i: int, j: int)
    requires 0 <= i <= j < |slots|
    ensures LowlightFlags(slots)[i] ==> LowlightFlags(slots)[j]
  {
  }

  /**
   * On a clock display the dimmed slots are the leading zeros: the minutes tens
   * while the minutes are below ten, and so on down to the last hundredth, which
   * is dimmed only when the whole display reads zero. A separator is dimmed with
   * the digit to its left.
   */
  lemma {:induction false} LowlightOfClock(c: Clock)
    requires c.mins < 100 && c.secs < 100 && c.cents < 100
    ensures var f := LowlightFlags(DigitSlots(c));
      (f[7] <==> c.mins < 10) &&
      (f[6] <==> c.mins == 0) &&
      (f[5] <==> c.mins == 0) &&
      (f[4] <==> c.mins == 0 && c.secs < 10) &&
      (f[3] <==> c.mins == 0 && c.secs == 0) &&
      (f[2] <==> c.mins == 0 && c.secs == 0) &&
      (f[1] <==> c.mins == 0 && c.secs == 0 && c.cents < 10) &&
      (f[0] <==> c.mins == 0 && c.secs == 0 && c.cents == 0)
  {
    var s := DigitSlots(c);
    var f := LowlightFlags(s);
    assert f[7] <==> !Lit(s[7]);
    assert f[6] <==> !Lit(s[7]) && !Lit(s[6]);
    assert f[5] == f[6] && f[2] == f[3];
    assert f[4] <==> f[5] && !Lit(s[4]);
    assert f[3] <==> f[4] && !Lit(s[3]);
    assert f[1] <==> f[2] && !Lit(s[1]);
    assert f[0] <==> f[1] && !Lit(s[0]);
  }

  /**
   * The minus sign after a tick, given the previous and current signed second
   * and its visibility before: the three rules run in order, the later ones winning.
   * The sign only ever changes to agree with the current second, and it always
   * does when the second crosses zero.
   */
  function NextSign(prev: int, curr: int, visible: bool): (r: bool)
    ensures r == visible || r == (curr < 0)
    ensures (prev < 0) != (curr < 0) ==> r == (curr < 0)
  {
    var afterReset := if curr == 0 && prev == 0 then false else visible;
    var afterStartNegative := if curr < 0 && prev >= 0 then true else afterReset;
    if curr >= 0 && prev < 0 then false else afterStartNegative
  }

  /** The sign rule as transitions: shown on >= 0 to < 0, hidden on < 0 to >= 0 or at 0 to 0, else kept. */
  lemma SignTransitions(prev: int, curr: int, visible: bool)
    ensures prev >= 0 && curr < 0 ==> NextSign(prev, curr, visible)
    ensures prev < 0 && curr >= 0 ==> !NextSign(prev, curr, visible)
    ensures prev == 0 && curr == 0 ==> !NextSign(prev, curr, visible)
    ensures (prev < 0) == (curr < 0) && !(prev == 0 && curr == 0) ==> NextSign(prev, curr, visible) == visible
  {
  }

  /** If the sign showed whether the previous second was negative, it now shows whether the current one is. */
  lemma SignTracksNegative(prev: int, curr: int)
    ensures NextSign(prev, curr, prev < 0) == (curr < 0)
  {
  }
}
