// The arithmetic that turns a signed elapsed time in milliseconds into the
// quantities the timer works with: the floored signed second that drives the
// sign and the announcements, the truncated magnitude in seconds that drives
// the digits, and the minutes/seconds/hundredths shown on the display.
// Both speechtimer.js and tmp/speechtimer_old2.js compute these identically.

module Timing {

  function Abs(x: int): (r: nat)
    ensures r == x || r == -x
  {
    if x < 0 then -x else x
  }

  /**
   * Elapsed milliseconds at clock reading now: the banked time plus the current segment.
   * At the start instant it is the banked time, and it is negative exactly before
   * the instant the banked time is used up.
   */
  function ElapsedAt(timeBeforePause: int, startTime: int, now: int): (e: int)
    ensures now == startTime ==> e == timeBeforePause
    ensures e < 0 <==> now < startTime - timeBeforePause
  {
    timeBeforePause + (now - startTime)
  }

  /** Math.floor(a / b) for a non-zero integer divisor of either sign. */
  function FloorDiv(a: int, b: int): (q: int)
    requires b != 0
    ensures b > 0 ==> q * b <= a < q * b + b
    ensures b < 0 ==> q * b >= a > q * b + b
  {
    if b > 0 then a / b else (-a) / (-b)
  }

  /** (elapsed / 1000) | 0: the second count truncated toward zero. */
  function TruncSeconds(elapsed: int): (q: int)
    ensures Abs(q) * 1000 <= Abs(elapsed) < Abs(q) * 1000 + 1000
    ensures q > 0 ==> elapsed > 0
    ensures q < 0 ==> elapsed < 0
  {
    if elapsed >= 0 then elapsed / 1000 else -((-elapsed) / 1000)
  }

  /** secondsElapsed: Math.floor(elapsed / 1000), rounding toward minus infinity. */
  function Seconds(elapsed: int): (s: int)
    ensures s * 1000 <= elapsed < s * 1000 + 1000
  {
    FloorDiv(elapsed, 1000)
  }

  /** absSecondsElapsed: Math.abs((elapsed / 1000) | 0), the magnitude of the truncated second. */
  function AbsSeconds(elapsed: int): (n: nat)
    ensures n * 1000 <= Abs(elapsed) < n * 1000 + 1000
  {
    Abs(TruncSeconds(elapsed))
  }

  /** The truncated magnitude is the whole seconds in |elapsed|. */
  lemma AbsSecondsOfMagnitude(elapsed: int)
    ensures AbsSeconds(elapsed) == Abs(elapsed) / 1000
  {
    var q := TruncSeconds(elapsed);
    var a := Abs(elapsed);
    assert Abs(q) * 1000 <= a < Abs(q) * 1000 + 1000;
    DivUnique(a, 1000, Abs(q));
  }

  /** Floor and truncation agree except on a negative time strictly between two whole seconds. */
  lemma FloorVersusTrunc(elapsed: int)
    ensures elapsed >= 0 || elapsed % 1000 == 0 ==> Seconds(elapsed) == TruncSeconds(elapsed)
    ensures elapsed < 0 && elapsed % 1000 != 0 ==> Seconds(elapsed) == TruncSeconds(elapsed) - 1
  {
    var s := Seconds(elapsed);
    var t := TruncSeconds(elapsed);
    if elapsed < 0 {
      assert t <= 0;
      assert -t * 1000 <= -elapsed < -t * 1000 + 1000;
      if elapsed % 1000 == 0 {
        assert elapsed == (elapsed / 1000) * 1000;
        DivUnique(-elapsed, 1000, -(elapsed / 1000));
      } else {
        assert elapsed != t * 1000;
        DivUnique(elapsed, 1000, t - 1);
      }
    }
  }

  /** A quarter second before zero: is second -1 but shows 0 whole seconds. */
  lemma QuarterSecondBeforeZero()
    ensures Seconds(-250) == -1 && AbsSeconds(-250) == 0
    ensures Seconds(-2500) == -3 && AbsSeconds(-2500) == 2
  {
  }

  /** A sign change of the signed second is a sign change of the elapsed time. */
  lemma SecondsSign(elapsed: int)
    ensures Seconds(elapsed) < 0 <==> elapsed < 0
    ensures Seconds(elapsed) == 0 <==> 0 <= elapsed < 1000
  {
  }

  /** At zero elapsed time the signed second is 0 and the display reads 00:00.00. */
  lemma ZeroElapsed()
    ensures Seconds(0) == 0 && AbsSeconds(0) == 0 && ClockOf(0) == Clock(0, 0, 0)
  {
  }

  /** Euclidean division is determined by its bounds. */
  lemma DivUnique(a: int, b: int, q: int)
    requires b > 0 && q * b <= a < q * b + b
    ensures a / b == q
  {
    var r := a / b;
    assert r * b <= a < r * b + b;
    if r < q {
      MulMonotone(r + 1, q, b);
    } else if r > q {
      MulMonotone(q + 1, r, b);
    }
  }

  lemma MulMonotone(x: int, y: int, b: int)
    requires x <= y && b > 0
    ensures x * b <= y * b
  {
    assert y * b - x * b == (y - x) * b;
  }

  /** The three numbers the display shows. */
  datatype Clock = Clock(mins: nat, secs: nat, cents: nat)

  /** cents = Math.floor((|elapsed| / 10) % 100), secs = absSeconds % 60, mins = (absSeconds / 60) % 60. */
  function ClockOf(elapsed: int): (c: Clock)
    ensures c.mins < 60 && c.secs < 60 && c.cents < 100
  {
    var absSeconds := AbsSeconds(elapsed);
    Clock((absSeconds / 60) % 60, absSeconds % 60, (Abs(elapsed) / 10) % 100)
  }

  /** Milliseconds represented by a clock reading. */
  function ClockMs(c: Clock): nat {
    ((c.mins * 60 + c.secs) * 1000) + c.cents * 10
  }

  /**
   * The display shows |elapsed| cut to hundredths, modulo one hour:
   * the minutes wrap at 60 and the hours are dropped.
   */
  lemma {:induction false} ClockShowsElapsed(elapsed: int)
    ensures ClockMs(ClockOf(elapsed)) == (Abs(elapsed) % 3600000) / 10 * 10
  {
    var a := Abs(elapsed);
    var c := ClockOf(elapsed);
    AbsSecondsOfMagnitude(elapsed);
    var s := a / 1000;
    assert c.mins == (s / 60) % 60 && c.secs == s % 60;
    // minutes and seconds: the whole seconds modulo an hour
    assert c.mins * 60 + c.secs == s % 3600 by {
      assert s == (s / 60) * 60 + s % 60;
      assert s / 60 == ((s / 60) / 60) * 60 + (s / 60) % 60;
      assert s / 3600 == (s / 60) / 60;
      DivUnique(s, 3600, (s / 60) / 60);
    }
    // hundredths: the tens of milliseconds within the current second
    assert c.cents == (a % 1000) / 10 by {
      assert a / 10 == (a / 1000) * 100 + (a % 1000) / 10;
      DivUnique(a / 10, 100, a / 1000);
    }
    var h := a % 3600000;
    assert h == (s % 3600) * 1000 + a % 1000 by {
      assert a == s * 1000 + a % 1000;
      assert s == (s / 3600) * 3600 + s % 3600;
      assert a == (s / 3600) * 3600000 + ((s % 3600) * 1000 + a % 1000);
      DivUnique(a, 3600000, s / 3600);
    }
    assert h / 10 == (s % 3600) * 100 + (a % 1000) / 10;
  }
}
