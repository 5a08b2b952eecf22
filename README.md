# Speech timer engine in Dafny

This project models the timing and announcement engine of the speech timer. The speech timer is a browser countdown/stopwatch that shows a digital clock and speaks the time. The engine appears twice in the repository:

- `speechtimer.js` is the live script, with an eight-slot digit display and dimmed leading zeros.
- `tmp/speechtimer_old2.js` is an older variant. It has the same timer and speech logic but shows three two-character fields filled by `padlead`.

Both files keep module-level variables: `startTime`, `elapsedTime`, `timeBeforePause`, `prevSecsElapsed`, `intervalId`, and `mainFunction`. The last one is the main button's next action, so it encodes Idle, Running or Paused. The handlers `beginCountdown`, `startTimer`, `pauseTimer`, `resetTimer` and `updateTimer` (the tick) update these variables in place. `updateDigits` then does the per-tick work:

1. It floors the signed elapsed second and truncates the displayed one.
2. It splits the time into minutes, seconds and hundredths.
3. It fills the display and dims the leading zeros.
4. It shows or hides the minus sign.
5. It decides whether to speak "3", "2", "1", "go" or a "N minutes N seconds" phrase.
6. It records the current second for the next tick.

Layout:

- `decimal.dfy` (`Decimal`): decimal text of a number, the `padStart(2, '0')` padding, and a parser that reads the text back.
- `button.dfy` (`MainButton`): the button state `MainAction`, which tells Idle, Running and Paused apart.
- `timing.dfy` (`Timing`): floor and truncating division, the signed and the displayed second, and the minutes/seconds/hundredths.
- `display.dfy` (`Display`): the eight display slots, the dimming rule and the minus-sign rule.
- `announce.dfy` (`Announce`): the announcement policy, the phrase, a reader that recovers minutes and seconds from the phrase and checks each unit's singular or plural form, and the speech produced by a sequence of ticks.
- `speechtimer.dfy` (`SpeechTimer`): class `Timer`, the state and handlers of `speechtimer.js`.
- `speechtimer_old2.dfy` (`SpeechTimerOld2`): class `Timer`, the state and handlers of `tmp/speechtimer_old2.js`.

The clock reading `now`, the countdown length and the report interval are integer parameters of the handlers. A tick is an explicit call to `UpdateTimer`. `speak(text)` appends `text` to the ghost log `spoken`. The display is kept as fields:

- the `digitChars` array, the `lowlighted` flags and `signVisible` in `speechtimer.js`;
- three text fields and `signVisible` in the old variant.

Each class keeps an invariant `Valid()`, which every handler preserves:

- the tick is scheduled exactly when the button pauses (Running);
- Idle implies `elapsedTime == 0` and `timeBeforePause == 0`;
- Paused implies `timeBeforePause == elapsedTime`;
- `prevSecsElapsed` is the floored second of `elapsedTime`;
- the minus sign is visible exactly when that second is negative;
- the display shows `elapsedTime`.

Four behaviours of the code that a reader may not expect, which the model keeps:

- The minutes clause always ends in a space ("1 minute "), even when no seconds clause follows.
- In a countdown with a one-second interval, the tick after "go" reaches second 1. The count-up rule then speaks "1 second" straight after "go", because buckets 0 and 1 differ (`Announce.CountdownScenario`).
- `if (reportInterval)` treats a negative interval as enabled, not disabled. The bucket is then floored by a negative divisor (`Timing.FloorDiv`).
- `updateTimer` does not check the state itself. It only runs while `setInterval` has it scheduled, and `clearInterval` stops it synchronously, so `UpdateTimer` requires the tick to be scheduled.

## Model

| member | source | states |
|---|---|---|
| `Decimal.NatToString` | speechtimer.js:283-286 | the text `n + "..."` produces for a whole number: at least one character, digits only, a leading '0' only for 0, one character exactly below 10 |
| `Decimal.ParseNatToString` | speechtimer.js:283-286 | reading the decimal text of n back gives n |
| `Decimal.Padlead` | tmp/speechtimer_old2.js:221-225 | `padlead` gives digits only, exactly two characters for values below 100, the plain text from 10 up, and reads back as the number itself |
| `Decimal.PadleadZero` | tmp/speechtimer_old2.js:221-225 | `padlead(0)` is "00", the reset display |
| `Timing.ElapsedAt` | speechtimer.js:158 | `timeBeforePause + (now - startTime)`: equal to the banked time at the start instant, and negative exactly before the banked time is used up |
| `Timing.FloorDiv` | speechtimer.js:275-276 | `Math.floor(a / b)` for a divisor of either sign: `q*b <= a < q*b + b` for b > 0, mirrored for b < 0 |
| `Timing.TruncSeconds` | speechtimer.js:203 | the or-with-zero of `elapsed / 1000` truncates toward zero: its magnitude is the whole seconds in abs(elapsed) and its sign is that of elapsed |
| `Timing.Seconds` | speechtimer.js:202 | `secondsElapsed` is the floor: `1000*s <= elapsed < 1000*s + 1000` |
| `Timing.AbsSeconds` | speechtimer.js:203 | `absSecondsElapsed` is the number of whole seconds in abs(elapsed): `1000*n <= abs(elapsed) < 1000*n + 1000` |
| `Timing.AbsSecondsOfMagnitude` | speechtimer.js:203 | `absSecondsElapsed` equals abs(elapsed) div 1000 |
| `Timing.FloorVersusTrunc` | speechtimer.js:202-203 | floor and truncation agree for non-negative or whole-second times; otherwise the floor is one less |
| `Timing.QuarterSecondBeforeZero` | speechtimer.js:202-203 | -250 ms gives second -1 and displayed 0; -2500 ms gives -3 and 2 |
| `Timing.SecondsSign` | speechtimer.js:202 | the floored second is negative iff elapsed is, and is 0 iff 0 <= elapsed < 1000 |
| `Timing.ClockOf` | speechtimer.js:225-227 | the hundredths are below 100, and the seconds and the minutes (wrapped modulo 60) are below 60 |
| `Timing.ClockShowsElapsed` | speechtimer.js:225-227 | the minutes, seconds and hundredths together are abs(elapsed) modulo one hour, cut to hundredths |
| `Timing.ZeroElapsed` | speechtimer.js:168-172 | at elapsed 0 the floored second is 0 and the clock reads 00:00.00 |
| `Display.DigitSlots` | speechtimer.js:230-237 | eight slots: ':' at 5 and '.' at 2, and every other slot a digit 0..9 |
| `Display.ReadDigitSlots` | speechtimer.js:230-237 | reading the minutes, seconds and hundredths back off the slots gives the clock they were filled from |
| `Display.LowlightFlags` | speechtimer.js:239-248 | slot i is dimmed iff no slot from 7 down to i holds a non-zero digit (a separator is never non-zero) |
| `Display.LowlightIsPrefix` | speechtimer.js:239-248 | the dimmed slots run from the most significant end: a dimmed slot has only dimmed slots above it |
| `Display.LowlightOfClock` | speechtimer.js:239-248 | on a clock display, exactly the leading zeros are dimmed, slot by slot; separators follow the digit above them |
| `Display.NextSign` | speechtimer.js:209-219 | the three ordered sign rules: the sign either stays as it was or comes to show whether the current second is negative, and it always does the latter when the second crosses zero |
| `Display.SignTransitions` | speechtimer.js:209-219 | the sign is shown on a second going from >= 0 to < 0, hidden on < 0 to >= 0 or 0 to 0, and otherwise unchanged |
| `Display.SignTracksNegative` | speechtimer.js:209-219 | if the sign showed whether the previous second was negative, it then shows whether the current one is |
| `Announce.MinutesClause` | speechtimer.js:282-283 | empty iff there are no minutes; otherwise it ends in a space, and the unit is plural ("minutes ") iff the minutes are not 1 |
| `Announce.SecondsClause` | speechtimer.js:285-286 | empty iff there are no seconds; otherwise it ends without a space, and the unit is plural ("seconds") iff the seconds are not 1 |
| `Announce.Phrase` | speechtimer.js:280-286 | the count-up phrase is empty iff both the minutes and the seconds are 0 |
| `Announce.PhraseEnd` | speechtimer.js:282-286 | the phrase ends in a space when it has minutes but no seconds, and not when it has seconds |
| `Announce.BuildPhrase` | speechtimer.js:280-286 | appending the minutes clause and then the seconds clause to "" builds the phrase |
| `Announce.ReadPhraseOf` | speechtimer.js:280-288 | a strict reader, which accepts "minute"/"second" only after 1 and "minutes"/"seconds" only after other numbers, accepts every phrase and recovers both its minutes and its seconds |
| `Announce.MinuteInflectionChecked` | speechtimer.js:283 | that reader rejects "minute " after any number but 1 and "minutes " after 1 |
| `Announce.SecondInflectionChecked` | speechtimer.js:286 | that reader rejects "second" after any number but 1 and "seconds" after 1 |
| `Announce.Announcement` | speechtimer.js:257-291 | never with interval 0; in the countdown only on a change of second, from second -3 on; in the count-up always the phrase of the displayed time |
| `Announce.CountdownWords` | speechtimer.js:259-271 | on a change of second with reporting on: "3", "2", "1" at -3, -2, -1, "go" at 0, nothing before -3 |
| `Announce.BucketChange` | speechtimer.js:275-278 | for time moving forward, `floor(prev/i) != floor(curr/i)` iff a multiple of i lies in (prev, curr] |
| `Announce.CountUpSpeaks` | speechtimer.js:273-289 | in the count-up with a positive interval, exactly one phrase is spoken iff a multiple of the interval is passed |
| `Announce.SameSecondIsSilent` | speechtimer.js:262-278 | a tick that stays in the same second says nothing |
| `Announce.Spoken` | speechtimer.js:199-294 | the speech of a sequence of ticks, each tick's announcement in order with the second carried over: at most one text per tick |
| `Announce.SilentWhenDisabled` | speechtimer.js:257 | with interval 0, no sequence of ticks says anything |
| `Announce.CountdownScenario` | speechtimer.js:257-293 | a 3-second countdown with one-second reports says "3", "2", "1", "go", "1 second" |
| `Announce.MinuteScenario` | speechtimer.js:273-289 | with 60-second reports, 59 to 60 s says "1 minute " and 60 to 61 s says nothing |
| `SpeechTimer.Timer.constructor` | speechtimer.js:38-44 | all variables 0, Idle, tick not scheduled, display 00:00.00 with nothing dimmed and the sign hidden |
| `SpeechTimer.Timer.StartTimer` | speechtimer.js:145-152 | schedules the tick, sets `startTime = now + startDelay`, makes the button pause, and leaves the banked and elapsed time alone |
| `SpeechTimer.Timer.BeginCountdown` | speechtimer.js:128-134 | starts with delay D*1000; from Idle the elapsed time at t is `t - now - 1000*D`, negative exactly before `now + 1000*D` |
| `SpeechTimer.Timer.PauseTimer` | speechtimer.js:180-188 | cancels the tick, banks `timeBeforePause = elapsedTime` and makes the button resume |
| `SpeechTimer.Timer.UpdateDigits` | speechtimer.js:199-294 | the new sign by the transition rule, the slots of the clock, the leading zeros dimmed, the due announcement appended to the log, and `prevSecsElapsed` set to the current second |
| `SpeechTimer.Timer.SetDigits` | speechtimer.js:230-237 | the slots hold the minutes, ':', seconds, '.', hundredths, most significant first |
| `SpeechTimer.Timer.DimLeadingZeros` | speechtimer.js:239-248 | the scan with the flag leaves each slot dimmed iff no slot from 7 down to it is non-zero |
| `SpeechTimer.Timer.TellTime` | speechtimer.js:254-291 | the log grows by exactly the announcement due for the previous and current second |
| `SpeechTimer.Timer.UpdateTimer` | speechtimer.js:154-161 | `elapsedTime = timeBeforePause + (now - startTime)`; the sign is visible iff elapsed is negative; the invariant holds |
| `SpeechTimer.Timer.ResetTimer` | speechtimer.js:163-178 | cancels the tick, zeroes elapsed, previous second and banked time, hides the sign, dims nothing, returns to Idle and says nothing |
| `SpeechTimer.Timer.Click` | speechtimer.js:312 | the main button moves Idle to Running, where the elapsed time at t is `t - now - 1000*D` and negative exactly before `now + 1000*D`; Running to Paused, banking the elapsed time; and Paused to Running, where a tick at that instant finds the frozen elapsed time. Only a pause changes the banked time |
| `SpeechTimer.PauseThenResume` | speechtimer.js:145-188 | pause, resume later and tick at the resume instant: the elapsed time is the one frozen at the pause and nothing is spoken |
| `SpeechTimerOld2.Timer.constructor` | tmp/speechtimer_old2.js:34-40 | all variables 0, Idle, tick not scheduled, fields "00", sign hidden |
| `SpeechTimerOld2.Timer.StartTimer` | tmp/speechtimer_old2.js:139-146 | schedules the tick, sets `startTime = now + startDelay` and makes the button pause |
| `SpeechTimerOld2.Timer.BeginCountdown` | tmp/speechtimer_old2.js:124-130 | starts with delay D*1000; from Idle the elapsed time is negative exactly before `now + 1000*D` |
| `SpeechTimerOld2.Timer.PauseTimer` | tmp/speechtimer_old2.js:171-179 | cancels the tick, banks `timeBeforePause = elapsedTime` and makes the button resume |
| `SpeechTimerOld2.Timer.UpdateDigits` | tmp/speechtimer_old2.js:190-272 | the new sign by the transition rule, each field the two-character `padlead` of its value, the due announcement logged, and `prevSecsElapsed` set last |
| `SpeechTimerOld2.Timer.TellTime` | tmp/speechtimer_old2.js:232-269 | the log grows by exactly the announcement due for the previous and current second |
| `SpeechTimerOld2.Timer.UpdateTimer` | tmp/speechtimer_old2.js:148-155 | `elapsedTime = timeBeforePause + (now - startTime)`; the sign is visible iff elapsed is negative |
| `SpeechTimerOld2.Timer.ResetTimer` | tmp/speechtimer_old2.js:157-169 | cancels the tick, zeroes elapsed, previous second and banked time, shows "00" three times with the sign hidden, returns to Idle and says nothing |
| `SpeechTimerOld2.Timer.Click` | tmp/speechtimer_old2.js:290 | Idle to Running with the elapsed time negative exactly before `now + 1000*D`, Running to Paused, Paused to Running with the frozen elapsed time at the resume instant; only a pause changes the banked time |
| `SpeechTimerOld2.PauseThenResume` | tmp/speechtimer_old2.js:139-179 | pause and resume preserve the elapsed time exactly and say nothing at the resume tick |

## Left out

- DOM access and rendering: element lookups, `textContent`, the `lowlight` CSS class, `style.visibility` and the button label and colour in `changeMainButton`. They are modelled as fields: the slots, the dim flags, the sign flag, the three text fields and `mainFunction`.
- The initial display: the HTML's own digit text and classes are not part of this model. Both constructors start from the state a reset leaves: 00:00.00, nothing dimmed, sign hidden.
- The Web Speech API: `speak` is modelled only as appending its text to `spoken`. Voice, volume, rate and pitch, cancel-before-speak, `populateVoiceList` and `checkSupport` are browser calls outside the engine.
- Scheduling: `setInterval`, `clearInterval` and the 50 ms cadence. A tick is a call to `UpdateTimer`, and `intervalId` is the flag `intervalActive`.
- Clock precision: `performance.now()` returns fractional milliseconds. The model uses integer milliseconds. `| 0` is treated as truncation toward zero, without its 32-bit wrap-around.
- Configuration: `parseInt` of the `<select>` values, including a `NaN` interval (falsy in JavaScript). The countdown length and the report interval are integer parameters.
- Glue: `toggleSettings`, `setAllListeners` and the slider labels.
- Hours: both files comment out the hours display, so minutes wrap modulo 60 and a phrase on the hour says only the wrapped minutes (or "" at a whole hour, which is still spoken).
