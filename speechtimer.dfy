// The timer engine of speechtimer.js: the module-level timing variables and
// the eight-slot digit display, updated in place by the start, pause, reset and
// tick handlers. The clock reading and the report interval are parameters; the
// speech sink is a log of the texts handed to speak().

module SpeechTimer {
  import opened MainButton
  import opened Timing
  import opened Display
  import opened Decimal
  import opened Announce

  class Timer {
    var startTime: int
    var elapsedTime: int
    var timeBeforePause: int
    var prevSecsElapsed: int
    /** intervalId != 0: the periodic tick is scheduled. */
    var intervalActive: bool
    var mainFunction: MainAction

    /** The eight display slots; slot 7 is the tens of minutes. */
    const digitChars: array<Slot>
    /** Whether each slot element carries the "lowlight" class. */
    const lowlighted: array<bool>
    /** Whether the minus sign is visible. */
    var signVisible: bool
    /** Every text handed to the speech sink, oldest first. */
    ghost var spoken: seq<string>

    ghost predicate Valid()
      reads this, digitChars
    {
      digitChars.Length == 8 && lowlighted.Length == 8 &&
      (intervalActive <==> mainFunction == PauseAction) &&
      (mainFunction == StartAction ==> elapsedTime == 0 && timeBeforePause == 0) &&
      (mainFunction == ResumeAction ==> timeBeforePause == elapsedTime) &&
      prevSecsElapsed == Seconds(elapsedTime) &&
      signVisible == (prevSecsElapsed < 0) &&
      digitChars[..] == DigitSlots(ClockOf(elapsedTime))
    }

    /** The elapsed time a tick at clock reading now would compute. */
    function ElapsedAtTime(now: int): int
      reads this
    {
      ElapsedAt(timeBeforePause, startTime, now)
    }

    /** The initial state: Idle, everything zero, the display reading 00:00.00 with no slot dimmed. */
    constructor ()
      ensures Valid() && fresh(digitChars) && fresh(lowlighted)
      ensures mainFunction == StartAction && !intervalActive
      ensures startTime == 0 && elapsedTime == 0 && timeBeforePause == 0 && prevSecsElapsed == 0
      ensures !signVisible && lowlighted[..] == seq(8, _ => false) && spoken == []
    {
      startTime, elapsedTime, timeBeforePause, prevSecsElapsed := 0, 0, 0, 0;
      intervalActive := false;
      mainFunction := StartAction;
      digitChars := new Slot[8](i => if i == 2 then Sep('.') else if i == 5 then Sep(':') else Digit(0));
      lowlighted := new bool[8](_ => false);
      signVisible := false;
      spoken := [];
      new;
      assert ClockOf(0) == Clock(0, 0, 0);
      assert digitChars[..] == DigitSlots(Clock(0, 0, 0));
    }

    /**
     * startTimer(startDelay): schedule the tick, place the start reference startDelay
     * milliseconds after now, and make the button pause.
     */
    method StartTimer(now: int, startDelay: int)
      requires Valid()
      modifies this
      ensures Valid()
      ensures startTime == now + startDelay && intervalActive && mainFunction == PauseAction
      ensures elapsedTime == old(elapsedTime) && timeBeforePause == old(timeBeforePause)
      ensures prevSecsElapsed == old(prevSecsElapsed) && signVisible == old(signVisible)
      ensures spoken == old(spoken)
    {
      intervalActive := true;
      startTime := now + startDelay;
      mainFunction := PauseAction;
    }

    /**
     * beginCountdown: start with the chosen countdown length in seconds. From Idle
     * the elapsed time is negative exactly until that many seconds have passed.
     */
    method BeginCountdown(now: int, afterSeconds: int)
      requires Valid()
      modifies this
      ensures Valid()
      ensures startTime == now + afterSeconds * 1000 && intervalActive && mainFunction == PauseAction
      ensures elapsedTime == old(elapsedTime) && timeBeforePause == old(timeBeforePause)
      ensures prevSecsElapsed == old(prevSecsElapsed) && signVisible == old(signVisible)
      ensures spoken == old(spoken)
      ensures old(mainFunction) == StartAction ==>
        forall t :: ElapsedAtTime(t) == t - now - afterSeconds * 1000 &&
                    (ElapsedAtTime(t) < 0 <==> t < now + afterSeconds * 1000)
    {
      StartTimer(now, afterSeconds * 1000);
    }

    /** pauseTimer: cancel the tick, bank the elapsed time and make the button resume. */
    method PauseTimer()
      requires Valid()
      modifies this
      ensures Valid()
      ensures !intervalActive && mainFunction == ResumeAction && timeBeforePause == old(elapsedTime)
      ensures startTime == old(startTime) && elapsedTime == old(elapsedTime)
      ensures prevSecsElapsed == old(prevSecsElapsed) && signVisible == old(signVisible)
      ensures spoken == old(spoken)
    {
      intervalActive := false;
      timeBeforePause := elapsedTime;
      mainFunction := ResumeAction;
    }

    /**
     * updateDigits: derive the display and the announcement from elapsedTime and
     * the previous signed second, then record the current signed second.
     */
    method UpdateDigits(reportInterval: int)
      requires digitChars.Length == 8 && lowlighted.Length == 8
      modifies this`prevSecsElapsed, this`signVisible, this`spoken, digitChars, lowlighted
      ensures prevSecsElapsed == Seconds(elapsedTime)
      ensures signVisible == NextSign(old(prevSecsElapsed), Seconds(elapsedTime), old(signVisible))
      ensures digitChars[..] == DigitSlots(ClockOf(elapsedTime))
      ensures lowlighted[..] == LowlightFlags(digitChars[..])
      ensures spoken == old(spoken) +
        Utter(Announcement(old(prevSecsElapsed), Seconds(elapsedTime), reportInterval,
                           ClockOf(elapsedTime).mins, ClockOf(elapsedTime).secs))
    {
      var absElapsedTime := Abs(elapsedTime);
      var secondsElapsed := Seconds(elapsedTime);
      var absSecondsElapsed := AbsSeconds(elapsedTime);

      // the minus sign
      if secondsElapsed == 0 && prevSecsElapsed == 0 {
        signVisible := false;
      }
      if secondsElapsed < 0 && prevSecsElapsed >= 0 {
        signVisible := true;
      }
      if secondsElapsed >= 0 && prevSecsElapsed < 0 {
        signVisible := false;
      }

      // the digits, with the leading zeros dimmed
      var cents := (absElapsedTime / 10) % 100;
      var secs := absSecondsElapsed % 60;
      var mins := (absSecondsElapsed / 60) % 60;
      assert Clock(mins, secs, cents) == ClockOf(elapsedTime);
      SetDigits(mins, secs, cents);
      DimLeadingZeros();

      // tell the time
      TellTime(secondsElapsed, mins, secs, reportInterval);

      prevSecsElapsed := secondsElapsed;
    }

    /** The eight slots written from most to least significant: minutes, ':', seconds, '.', hundredths. */
    method SetDigits(mins: nat, secs: nat, cents: nat)
      requires digitChars.Length == 8 && mins < 100 && secs < 100 && cents < 100
      modifies digitChars
      ensures digitChars[..] == DigitSlots(Clock(mins, secs, cents))
    {
      digitChars[7] := Digit(mins / 10);
      digitChars[6] := Digit(mins % 10);
      digitChars[5] := Sep(':');
      digitChars[4] := Digit(secs / 10);
      digitChars[3] := Digit(secs % 10);
      digitChars[2] := Sep('.');
      digitChars[1] := Digit(cents / 10);
      digitChars[0] := Digit(cents % 10);
    }

    /**
     * The scan from slot 7 down to slot 0 with a flag that starts set and is cleared
     * by the first non-zero digit: each slot is dimmed while the flag is still set.
     */
    method DimLeadingZeros()
      requires digitChars.Length == 8 && lowlighted.Length == 8
      modifies lowlighted
      ensures lowlighted[..] == LowlightFlags(digitChars[..])
    {
      ghost var slots := digitChars[..];
      var lowlight := true;
      var i := 7;
      while i >= 0
        invariant -1 <= i <= 7
        invariant lowlight == DarkFrom(slots, i + 1)
        invariant forall k :: i < k < 8 ==> lowlighted[k] == DarkFrom(slots, k)
      {
        if digitChars[i].Digit? && digitChars[i].d > 0 {
          lowlight := false;
        }
        lowlighted[i] := lowlight;
        i := i - 1;
      }
      assert lowlighted[..] == LowlightFlags(slots);
    }

    /**
     * The speaking part of the tick, run before prevSecsElapsed is updated: the
     * countdown words or the count-up phrase, handed to the speech sink.
     */
    method TellTime(secondsElapsed: int, mins: nat, secs: nat, reportInterval: int)
      modifies this`spoken
      ensures spoken == old(spoken) + Utter(Announcement(prevSecsElapsed, secondsElapsed, reportInterval, mins, secs))
    {
      ghost var due := Announcement(prevSecsElapsed, secondsElapsed, reportInterval, mins, secs);
      if reportInterval != 0 {
        // special cases during the countdown
        if secondsElapsed <= 0 {
          if prevSecsElapsed != secondsElapsed {
            if -3 <= secondsElapsed <= -1 {
              assert due == Some(NatToString(-secondsElapsed));
              spoken := spoken + [NatToString(-secondsElapsed)];
            }
            if secondsElapsed == 0 {
              assert due == Some("go");
              spoken := spoken + ["go"];
            }
          }
        } else {
          var prevInt := FloorDiv(prevSecsElapsed, reportInterval);
          var currInt := FloorDiv(secondsElapsed, reportInterval);
          if prevInt != currInt {
            var str := BuildPhrase(mins, secs);
            assert due == Some(str);
            spoken := spoken + [str];
          }
        }
      }
    }

    /**
     * updateTimer, the periodic tick: recompute the elapsed time from the clock and
     * update the display. The tick only fires while it is scheduled.
     */
    method UpdateTimer(now: int, reportInterval: int)
      requires Valid() && intervalActive
      modifies this, digitChars, lowlighted
      ensures Valid()
      ensures elapsedTime == old(ElapsedAtTime(now))
      ensures startTime == old(startTime) && timeBeforePause == old(timeBeforePause)
      ensures intervalActive && mainFunction == old(mainFunction)
      ensures signVisible == (elapsedTime < 0)
      ensures lowlighted[..] == LowlightFlags(digitChars[..])
      ensures spoken == old(spoken) +
        Utter(Announcement(old(prevSecsElapsed), Seconds(elapsedTime), reportInterval,
                           ClockOf(elapsedTime).mins, ClockOf(elapsedTime).secs))
    {
      var currentTime := now;
      elapsedTime := timeBeforePause + (currentTime - startTime);
      SignTracksNegative(prevSecsElapsed, Seconds(elapsedTime));
      SecondsSign(elapsedTime);
      UpdateDigits(reportInterval);
    }

    /**
     * resetTimer: cancel the tick, zero the timing variables, redraw the display,
     * undim every slot and make the button start a countdown. Nothing is spoken.
     */
    method ResetTimer(reportInterval: int)
      requires Valid()
      modifies this, digitChars, lowlighted
      ensures Valid()
      ensures !intervalActive && mainFunction == StartAction
      ensures elapsedTime == 0 && prevSecsElapsed == 0 && timeBeforePause == 0
      ensures startTime == old(startTime)
      ensures !signVisible && lowlighted[..] == seq(8, _ => false)
      ensures spoken == old(spoken)
    {
      intervalActive := false;

      elapsedTime := 0;
      prevSecsElapsed := 0;
      timeBeforePause := 0;

      ZeroElapsed();
      SameSecondIsSilent(0, reportInterval, 0, 0);
      UpdateDigits(reportInterval);

      for i := 0 to 8
        modifies lowlighted
        invariant forall k :: 0 <= k < i ==> !lowlighted[k]
      {
        lowlighted[i] := false;
      }

      mainFunction := StartAction;
    }

    /**
     * A press of the main button runs mainFunction: Idle starts the countdown, Running
     * pauses, Paused resumes, and a tick at the resume instant finds the elapsed time
     * frozen at the pause.
     */
    method Click(now: int, afterSeconds: int)
      requires Valid()
      modifies this
      ensures Valid()
      ensures old(mainFunction) == StartAction ==>
        mainFunction == PauseAction && startTime == now + afterSeconds * 1000 &&
        forall t :: ElapsedAtTime(t) == t - now - afterSeconds * 1000 &&
                    (ElapsedAtTime(t) < 0 <==> t < now + afterSeconds * 1000)
      ensures old(mainFunction) == PauseAction ==>
        mainFunction == ResumeAction && timeBeforePause == elapsedTime == old(elapsedTime)
      ensures old(mainFunction) == ResumeAction ==>
        mainFunction == PauseAction && ElapsedAtTime(now) == old(elapsedTime)
      ensures old(mainFunction) != PauseAction ==> timeBeforePause == old(timeBeforePause)
      ensures elapsedTime == old(elapsedTime) && spoken == old(spoken)
    {
      match mainFunction
      case StartAction => BeginCountdown(now, afterSeconds);
      case PauseAction => PauseTimer();
      case ResumeAction => StartTimer(now, 0);
    }
  }

  /**
   * Pause at one instant, resume at a later one and let the tick fire at the resume
   * instant: the elapsed time is the one frozen at the pause and nothing is spoken.
   */
  method PauseThenResume(t: Timer, pauseAt: int, resumeAt: int, afterSeconds: int, reportInterval: int)
    requires t.Valid() && t.mainFunction == PauseAction
    modifies t, t.digitChars, t.lowlighted
    ensures t.Valid() && t.mainFunction == PauseAction
    ensures t.elapsedTime == old(t.elapsedTime) && t.spoken == old(t.spoken)
  {
    t.Click(pauseAt, afterSeconds);
    t.Click(resumeAt, afterSeconds);
    ghost var prev := t.prevSecsElapsed;
    t.UpdateTimer(resumeAt, reportInterval);
    SameSecondIsSilent(prev, reportInterval, ClockOf(t.elapsedTime).mins, ClockOf(t.elapsedTime).secs);
  }
}
