# Teefax countdown timer — a Dafny model

Teefax is a Windows console countdown timer. It is started with a duration
such as `5m`, `1h20m30s` or `1.5h`, or with `--at` and a wall-clock time or
date. It counts down, showing the remaining time and a 30-cell progress bar.
At the end it plays an alarm a configurable number of times, opens a file or
runs a console command, and shows a notification. With `--loop` it runs again,
either a given number of times or until it is stopped.

This project models the logic of `main.cpp`, which is everything apart from
the Windows calls. It proves what the program guarantees about that logic.
The modules follow the program:

- `Duration` covers `MAX_MS`, `clampMs` and `unitToMilliseconds`. Values are exact reals, so the program's `long double` rounding is not modelled.
- `Convert` covers `safeStoi` twice. `SafeStoiAsWritten` is the program on its Windows target, where an out-of-range number gives the fallback. `SafeStoi` saturates into the range of `int`, as the clamps intend. The rest of the model reads numbers with `SafeStoi`. `SafeStoiAgrees` proves the two differ only on whole-string integers outside the range of `int`.
- `TimeParser` covers `parseTime`. `Scan`, `Values` and `Accumulate` are a functional specification of the scanner. `ParseTime` is the scanner's nested loops, proved equal to it.
- `TimeExamples` works through the examples in the comment on `parseTime`.
- `Remaining` covers `formatVerbleibend`, the mixed-radix split and the `append` lambda, as methods with loop invariants.
- `FormatRoundTrip` proves that `parseTime` reads back what `formatVerbleibend` writes.
- `Target` covers `millisecondsUntilTime` and `millisecondsUntilDateTime`, and the `--at` branch logic around `sscanf`. The calendar instants themselves are parameters.
- `Countdown` covers one countdown: the remaining seconds, the pre-alarm beep, the progress bar and the render-on-change loop. The clock is a sequence of polls. The end instant is computed twice. `EndAsWritten` is the program's nanosecond count, which wraps in 64 bits. The rest of the model counts down to the exact end `start + ms`.
- `Alarm` covers the alarm repeat loop.
- `Action` covers the post action (`--open` / `--cmd`) and its dispatch, as written and as intended. The rest of the model uses the intended `Dispatch`. `AsWrittenAgrees` proves the two differ only for a file name that starts with "[CMD]".
- `Arguments` covers the command-line loop of `main` and the checks after it.
- `Timer` covers the do-while loop of rounds, the `--loop` count and the `--at` rescheduling.
- `Reschedule` puts `millisecondsUntilTime` itself in place of the rescheduling answers the rounds take as a parameter.

## Model

| member | source | states |
|---|---|---|
| Duration.MaxMsIsQuarter | main.cpp:26 | `MAX_MS` is a quarter of the largest 64-bit signed value, rounded down |
| Duration.ClampMs | main.cpp:79-85 | the result lies in [0, MAX_MS]; input at most 0 gives 0; input above MAX_MS gives MAX_MS; otherwise the input is truncated toward zero (`r <= ms < r + 1`) |
| Duration.ClampMonotone | main.cpp:79-85 | clamping preserves order |
| Duration.ClampWhole | main.cpp:79-85 | on a whole number, clamping is 0 below 1 and `min(MAX_MS, x)` otherwise |
| Duration.ScaleIsProduct | main.cpp:96-103 | each unit's chain of literal factors multiplies the value by that unit's number of milliseconds |
| Duration.UnitOfMatchesAliases | main.cpp:87-103 | the unit table recognises a spelling exactly when the usage comment lists it for that unit, including the empty spelling for seconds |
| Duration.UnitToMilliseconds | main.cpp:90-108 | the result lies in [0, MAX_MS], and an unknown unit gives 0 |
| Duration.UnitCaseInsensitive | main.cpp:91-94 | the unit is lower-cased first, so any case gives the same value |
| Duration.UnitToMillisecondsScales | main.cpp:96-103 | for a known unit, the result is `value * multiplier` truncated, or MAX_MS when that is above MAX_MS |
| Duration.UnitToMillisecondsWhole | main.cpp:96-103 | for a whole number `n`, the result is exactly `min(MAX_MS, n * multiplier)` |
| Duration.UnitToMillisecondsMonotone | main.cpp:96-103 | a larger value never gives fewer milliseconds |
| Text.Lower | main.cpp:91-93 | lower-casing keeps the length and maps each character through `tolower` |
| Text.LowerIdempotent | main.cpp:91-93 | lower-casing twice is the same as lower-casing once |
| Text.SkipSpaces | main.cpp:56 | the white-space skip stops at the first non-space, and everything skipped is space |
| Text.NatToString | main.cpp:359 | the decimal text of a number is non-empty, all digits, and reads back as the number |
| Convert.WholeInteger | main.cpp:56-58 | a whole-string integer contains a digit, and a negative one contains '-' |
| Convert.ClampInt | main.cpp:59-61 | saturation into [INT_MIN, INT_MAX] leaves in-range values alone and sends others to the nearer bound |
| Convert.SafeStoiAsWritten | main.cpp:54-65 | `safeStoi` as written on the program's platform: the fallback unless the whole string is an integer |
| Convert.SafeStoi | main.cpp:54-65 | the fallback unless the whole string is an integer; an in-range integer unchanged; a larger one INT_MAX and a smaller one INT_MIN |
| Convert.WholeIntegerRoundTrip | main.cpp:56-58 | every integer's decimal text reads back as that integer |
| Convert.SkipSpacesTo | main.cpp:56 | the leading white-space skip of `stol` stops exactly where a run of spaces meets a non-space |
| Convert.WholeIntegerOfSpelling | main.cpp:56-58 | spaces, an optional '+' or '-' and at least one digit, filling the whole string, read as the signed value of the digits |
| Convert.WholeIntegerOnlySpellings | main.cpp:56-58 | every string read as a whole integer has that shape, so any other string gives the fallback |
| Convert.SafeStoiAgrees | main.cpp:54-65 | the as-written and the intended `safeStoi` agree on every string except a whole integer outside the range of `int` |
| Convert.SafeStoiRoundTrip | main.cpp:54-65 | an `int` written out and read back is unchanged, both as written and as intended |
| Convert.AsWrittenNeverClamps | main.cpp:57-61 | as written, an out-of-range value gives the fallback, so the clamps are never reached |
| Convert.AsWrittenDropsLargeValues | main.cpp:57-60 | a count above INT_MAX gives the fallback as written and INT_MAX as intended |
| TimeParser.NumberLengthIsLongestToken | main.cpp:122-126 | the digit/dot loop takes the longest prefix with digits and at most one dot |
| TimeParser.NumberLengthOfToken | main.cpp:122-126 | a token followed by neither a digit nor a dot is exactly what the loop takes |
| TimeParser.LetterLengthLetters | main.cpp:133-134 | the unit loop takes the longest run of letters |
| TimeParser.LetterLengthOfLetters | main.cpp:133-134 | a run of letters followed by a non-letter is exactly what the unit loop takes |
| TimeParser.DecimalValue | main.cpp:129-131 | a numeric token's value is never negative |
| TimeParser.DecimalValueFails | main.cpp:67-76 | a numeric token fails to convert exactly when it is empty or a lone "." |
| TimeParser.DecimalValueOfDigits | main.cpp:129-130 | a run of digits converts to its integer value |
| TimeParser.MantissaAppend | main.cpp:129-130 | appending digits to a token shifts the digits read so far one decimal place left per digit |
| TimeParser.DecimalValueOfFraction | main.cpp:129-130 | a token `a.b` of digit strings, not both empty, converts to `a + b / 10^|b|` |
| TimeParser.ScanWellFormed | main.cpp:117-135 | every scanned term is a non-empty numeric token with at most one dot, followed by letters |
| TimeParser.ScanTerm | main.cpp:117-135 | a numeric token, its letters and a rest that starts with neither give one term, then the scan of the rest |
| TimeParser.ScanStopsAt | main.cpp:127 | a character that is not a space, digit, dot or letter ends the scan, and nothing after it is read |
| TimeParser.TimeValueStopsAt | main.cpp:127 | anything after such a character does not change the parsed duration |
| TimeParser.TermValue | main.cpp:129-136 | one term is worth at most MAX_MS |
| TimeParser.TimeValue | main.cpp:112-145 | the parsed duration is never negative and never above MAX_MS |
| TimeParser.SatAdd | main.cpp:137-141 | the saturating addition is `min(MAX_MS, total + add)`, and adding 0 leaves the total unchanged |
| TimeParser.AccumulateIsSaturatedSum | main.cpp:137-141 | adding term by term with saturation gives the saturated exact sum, or 0 when a number fails to convert |
| TimeParser.AccumulateGivesTotal | main.cpp:112-145 | starting from 0, the accumulation is the saturated total |
| TimeParser.TimeValueEmpty | main.cpp:113-116 | empty input gives 0 |
| TimeParser.LoneDotGivesZero | main.cpp:129-131 | a lone "." makes the whole argument 0 |
| TimeParser.UnknownUnitAddsNothing | main.cpp:104-141 | a term with an unknown unit adds nothing and does not stop the scan |
| TimeParser.TotalCons | main.cpp:137-141 | a leading value is added to the saturated sum of the rest |
| TimeParser.WholeTermValue | main.cpp:129-136 | a whole number with a known unit is worth `min(MAX_MS, n * multiplier)` |
| TimeParser.SkipWhiteSpace | main.cpp:118 | the space-skipping loop stops at a non-space and does not change what is scanned |
| TimeParser.SkipNumber | main.cpp:120-126 | the digit/dot loop advances by the token length |
| TimeParser.SkipLetters | main.cpp:132-134 | the letter loop advances by the unit length |
| TimeParser.ScanAt | main.cpp:117-135 | one turn of the outer loop takes exactly the first scanned term off the input |
| TimeParser.AccumulateAt | main.cpp:128-141 | one turn of the outer loop adds that term's value into the running total |
| TimeParser.AccumulateFailsAt | main.cpp:130-131 | a token that fails to convert makes the result 0 |
| TimeParser.ParseTime | main.cpp:112-145 | the scanner's loops compute exactly `TimeValue(arg)` |
| TimeExamples.ExampleHoursMinutesSeconds | main.cpp:111 | "1h20m30s" is 4 830 000 ms |
| TimeExamples.ExampleHalfHour | main.cpp:111 | "1.5h" is 5 400 000 ms |
| TimeExamples.ExampleNinety | main.cpp:111 | "90s" is 90 000 ms |
| TimeExamples.ExampleCompound | main.cpp:112-145 | "1m30s" is 90 000 ms |
| TimeExamples.ExampleSpacedUnit | main.cpp:117-135 | in "2 h" the space separates the unit from its number: two seconds, after which "h" starts no number and ends the scan |
| TimeExamples.ExampleUnknownUnit | main.cpp:104-106 | "5x" is 0 |
| TimeExamples.ExampleThreeHundredYears | main.cpp:102 | "300y" is 9 460 800 000 000 ms, well below MAX_MS |
| Remaining.Radices | main.cpp:341-345 | the radices are built as 60, 60 * 60, 24 hours, 30 days and 365 days |
| Remaining.Split | main.cpp:347-352 | the components recombine to the input, and each component below the year is below its radix |
| Remaining.SplitUnique | main.cpp:347-352 | normal components are the only split of their total |
| Remaining.SplitSeconds | main.cpp:347-352 | repeated division and remainder compute the split |
| Remaining.LeadingZeros | main.cpp:356-362 | the omitted fields are exactly the zeros before the first non-zero field |
| Remaining.LeadingSnoc | main.cpp:357 | how the `first` flag evolves when one more field is appended |
| Remaining.ShownSnoc | main.cpp:357-362 | which fields are printed once one more field is appended |
| Remaining.JoinSnoc | main.cpp:358-360 | appending a field after others writes a blank, then the value and unit |
| Remaining.Append | main.cpp:356-362 | the `append` lambda keeps the stream equal to the printed fields so far, and `first` true exactly while all were zero |
| Remaining.WrittenAll | main.cpp:371 | after the last field, the stream holds the printed fields joined by blanks |
| Remaining.AppendAll | main.cpp:364-369 | the six calls of `append` produce the printed fields joined by blanks |
| Remaining.FormatRemaining | main.cpp:340-372 | `formatVerbleibend` returns `Render(totalSec)` |
| Remaining.RenderZero | main.cpp:340-372 | 0 seconds print as the empty string |
| Remaining.RenderPositive | main.cpp:356-369 | a positive input prints a non-zero first component, and the seconds always come last |
| Remaining.ShownCount | main.cpp:356-369 | under a minute only the seconds are printed; from a year on all six components are |
| FormatRoundTrip.SymbolParses | main.cpp:364-369 | every unit symbol the formatter writes is a non-empty run of letters that `unitToMilliseconds` maps back to its unit |
| FormatRoundTrip.ScanJoin | main.cpp:356-369 | the scanner splits the formatter's text back into one term per printed field |
| FormatRoundTrip.ValuesOfTerms | main.cpp:129-136 | each such term is worth its field in milliseconds, saturated |
| FormatRoundTrip.CappedSum | main.cpp:137-141 | saturating term by term gives the same result as saturating the exact sum |
| FormatRoundTrip.ShownMillis | main.cpp:356-362 | omitting leading zero fields does not change the total they stand for |
| FormatRoundTrip.FieldsMillis | main.cpp:347-352 | the six fields stand for 1000 times the seconds |
| FormatRoundTrip.RenderParses | main.cpp:340-372 | parsing the formatted text gives back `min(MAX_MS, 1000 * totalSec)`, so the round trip is exact below MAX_MS |
| Target.UntilTime | main.cpp:161-179 | 0 when the conversion fails; the clamped distance when the target is later than now; the distance plus one day when it passed less than a day ago; 0 when it lies a day or more back, as a `mktime`-normalised time such as `-30:00` can; positive exactly when the conversion succeeds and the target lies less than a day back |
| Target.UntilTimeWithinDay | main.cpp:175-178 | with instants counted in whole milliseconds, a time of day is always reached within the next 24 hours, and never in 0 ms |
| Target.UntilTimeRollsForward | main.cpp:175 | a time already passed today counts to its next occurrence |
| Target.UntilDateTime | main.cpp:183-212 | positive exactly when the target converts and is strictly in the future, and then the clamped distance |
| Target.TimeOnly | main.cpp:515-526 | a time of day needs at least hours and minutes, and missing seconds are 0 |
| Target.AfterDate | main.cpp:476-499 | the next argument is taken as the time exactly when it gives hours and minutes; otherwise the time is midnight |
| Countdown.RemainingMs | main.cpp:595-596 | the remaining milliseconds are `end - now`, floored at 0 |
| Countdown.RemainingSeconds | main.cpp:597 | the seconds shown are the remaining milliseconds divided by 1000 and rounded up |
| Countdown.RemainingSecondsMonotone | main.cpp:597 | less time left never shows more seconds |
| Countdown.RemainingSecondsIsCeiling | main.cpp:597 | the rounded-up seconds are the least whole number of seconds covering the milliseconds |
| Countdown.PreAlarm | main.cpp:603-608 | the pre-alarm beeps exactly when `0 < sec <= preAlarmSeconds` |
| Countdown.Fill | main.cpp:610-617 | the bar fill lies in [0, 30], and is full when the total is not positive |
| Countdown.FillProportional | main.cpp:610-617 | while time is left, the fill is `elapsed * 30 / total`, rounded down |
| Countdown.FillMonotone | main.cpp:610-617 | the bar never empties as time passes |
| Countdown.FrameAtShows | main.cpp:595-617 | a rendered frame shows the rounded-up seconds, a fill in [0, 30] and the pre-alarm rule |
| Countdown.RendersDecrease | main.cpp:593-600 | with a non-decreasing clock, the rendered seconds strictly decrease |
| Countdown.RenderedOnce | main.cpp:593-600 | with a non-decreasing clock, each number of seconds is rendered at most once |
| Countdown.RendersFrames | main.cpp:593-600 | every rendered frame is the frame of some poll |
| Countdown.FirstPollRenders | main.cpp:593-600 | the first poll before the end always renders |
| Countdown.RendersStep | main.cpp:593-600 | a poll renders exactly when its seconds differ from the last rendered ones |
| Countdown.TimeLeft | main.cpp:594-597 | the loop body computes the remaining milliseconds and seconds |
| Countdown.RunCountdown | main.cpp:587-632 | the countdown loop renders exactly `Renders` over the polls before the exact end `start + ms` |
| Countdown.Wrap64 | main.cpp:587 | a signed 64-bit result lies in [-2^63, 2^63 - 1], differs from the exact value by a multiple of 2^64, and equals it when it fits |
| Countdown.EndAsWritten | main.cpp:587 | the end instant counted in 64-bit nanoseconds equals `start + ms` for every duration up to 9 223 372 036 854 ms |
| Countdown.AsWrittenSkipsLongCountdown | main.cpp:586-593 | as written, "300y" wraps to an end before the start, so no frame is rendered |
| Countdown.ExactEndCountsDown | main.cpp:586-600 | with the exact end, a positive duration polled first at the start renders first its rounded-up seconds |
| Alarm.SoundOf | main.cpp:642 | the sound file is used when one was given, otherwise the built-in sound |
| Alarm.Schedule | main.cpp:640-687 | the alarm alternates plays and waits, starting with a play |
| Alarm.SoundAlarm | main.cpp:640-687 | muted, nothing happens; otherwise `2 * alarmRepeat - 1` alternating events, which is the `Schedule` |
| Alarm.AlternatingCounts | main.cpp:641-686 | an alternating schedule of odd length has one more play than waits and ends with a play |
| Alarm.AlarmCounts | main.cpp:641-686 | unmuted, `alarmRepeat` plays with `alarmRepeat - 1` waits, none after the last play |
| Action.Dispatch | main.cpp:691-698 | `--cmd` runs its command, `--open` opens its file, and no action does nothing |
| Action.StoreAsWritten | main.cpp:536-541 | `--cmd x` is stored as "[CMD]x" and `--open p` as `p`, in the same slot |
| Action.DispatchAsWritten | main.cpp:691-698 | a stored string with the tag runs the text after it, any other non-empty string is opened |
| Action.AsWrittenAgrees | main.cpp:691-698 | the string encoding dispatches as intended for every action except a file name that starts with the tag |
| Action.AsWrittenRunsTaggedFile | main.cpp:691-698 | `--open "[CMD]x"` runs command `x`, where the intended dispatch opens the file |
| Arguments.AtLeast | main.cpp:455-459 | the floor raises a value to the floor and leaves larger values alone |
| Arguments.LoopOption | main.cpp:443-451 | `--loop` sets looping and consumes the next argument as the count exactly when it reads as a positive number |
| Arguments.AtOption | main.cpp:469-535 | after a date: accepted exactly when the date and time convert to an instant after now, with the distance saturated at MAX_MS, consuming the time argument when it gives hours and minutes; after a time of day: accepted exactly when `millisecondsUntilTime` of it is positive, with that duration; a successful `--at` has a duration in (0, MAX_MS] |
| Arguments.Positional | main.cpp:548-553 | before `--at`, a positive duration replaces the duration; otherwise the first such argument is the sound file; the floors are kept |
| Arguments.ValueOption | main.cpp:452-544 | exactly the five value options are accepted; `-ar`, `-ai` and `-pa` store `safeStoi` of the value with fallbacks 1, 2, 0 raised to floors 1, 1, 0; `--open` stores the value and `--cmd` stores a command |
| Arguments.FlagStep | main.cpp:438-462 | exactly the five flags without a value are accepted; each but `--loop` sets its own field (`noSleep`, `mute`, `showMessage` off, `asyncSound`) and advances by one; `--loop` advances by one, or by two with a count |
| Arguments.AtStep | main.cpp:469-535 | `--at` is accepted exactly when `AtOption` accepts its arguments; it then stores that target and duration, advances by two or, after a date with a time, by three, and changes nothing else |
| Arguments.OptionStep | main.cpp:438-547 | an accepted option advances within the arguments and keeps the floors |
| Arguments.Step | main.cpp:436-554 | one turn of the argument loop advances within the arguments and keeps the floors |
| Arguments.Finish | main.cpp:557-562 | a command line is accepted only with `--at` or a positive duration |
| Arguments.ParseFromFloors | main.cpp:436-562 | every accepted command line keeps the floors and has a duration or `--at` |
| Arguments.ParseFloors | main.cpp:404-562 | the same holds from the defaults, and an empty command line is refused |
| Arguments.LoopCount | main.cpp:443-451 | a count after `--loop` is taken only when it is a positive number |
| Arguments.LastActionWins | main.cpp:536-541 | `--open` and `--cmd` overwrite one slot, so the last one given wins |
| Arguments.ValueOptionAtEnd | main.cpp:452-547 | an option that needs a value but comes last is refused as unknown |
| Arguments.AtDateTakesTime | main.cpp:476-499 | after a date, the next argument is taken as the time exactly when it does not start with '-' and gives hours and minutes |
| Arguments.AtSetsTarget | main.cpp:469-535 | a step on `--at` succeeds exactly when `AtOption` does, and then sets its target and a duration in (0, MAX_MS], consuming two or three arguments |
| Arguments.AtTimeStep | main.cpp:511-534 | `--at` with a time of day is accepted exactly when `millisecondsUntilTime` of it is positive, and then sets that target and duration and consumes two arguments |
| Arguments.AtDateStep | main.cpp:469-509 | `--at` with a date is accepted exactly when the date and time lie strictly after now, and then sets the target and the distance to it, saturated at MAX_MS |
| Arguments.FlagsSet | main.cpp:439-461 | `--nosleep`, `--mute`, `--nomsg` and `--async` (long and short) each set their own field and consume one argument |
| Arguments.NumberOptionSets | main.cpp:454-459 | `-ar`, `-ai` and `-pa` (and `-pa` at main.cpp:542-544) store `safeStoi` of the next argument, raised to their floors, and consume two arguments |
| Arguments.UnknownOptionRefused | main.cpp:545-547 | an argument that starts with '-' but is no known option ends the program |
| Arguments.DurationArgument | main.cpp:548-550 | before `--at`, an argument that reads as a positive duration replaces the duration |
| Arguments.NoDurationRefused | main.cpp:557-560 | without a duration or `--at` the program exits |
| Arguments.ParseArguments | main.cpp:436-562 | the argument loop computes `Parse(args)`, and an accepted result keeps the floors and has a duration or `--at` |
| Timer.RunFromStops | main.cpp:705-715 | the rounds stop with exit code 1 exactly when a reschedule fails; earlier reschedules all succeeded |
| Timer.RunFromRounds | main.cpp:705-712 | round `k` is numbered `k + 1` when looping, and its duration is the one rescheduled after the previous round |
| Timer.RoundCount | main.cpp:584-715 | when every reschedule succeeds, the number of rounds is the number the options ask for |
| Timer.Rounds | main.cpp:584-715 | `--loop k` runs exactly `k` rounds numbered 1 to `k`; without `--loop` there is one round, numbered 0; the first round counts the parsed duration |
| Reschedule.ExitCodeOfTargets | main.cpp:705-715 | with each reschedule answered by `Target.UntilTime`: the exit code is 1 exactly when the last target does not convert or lies a day or more back; later rounds count that answer; with every target good, the planned rounds run and the code is 0 |
| Timer.ExitCode | main.cpp:705-715 | the exit code is 1 exactly when computing the next time of day fails, otherwise 0; later rounds count the rescheduled duration clamped to MAX_MS |
| Timer.PerformRound | main.cpp:584-702 | one round counts down, sounds the alarm, dispatches the post action and shows the notification |
| Timer.Run | main.cpp:584-715 | the do-while loop performs exactly the planned rounds in order, and returns the planned exit code |

## Left out

- The Windows calls are not modelled: console handler, timer resolution, `preventSleep`, `showNotification`, `ShellExecuteW`, `CreateProcessW`, `PlaySoundW`/`PlaySoundA`, `Beep`, `SetThreadPriority` and `toWide`. A round records the effect it asks for: a play, a wait, a file to open, a command to run, a notification.
- The asynchronous sound thread (main.cpp:661-672) is not modelled. It is fire-and-forget concurrency.
- Alarm.SoundAlarm: a play of the built-in sound stands for its three plays 200 ms apart. A sound file is not checked for existence, and playing a missing file still counts as a play.
- Console output is left out: the usage text, the start banner, the "Durchlauf" prefix, the final "00:00" frame and the error messages. `formatVerbleibend` is modelled as the string it returns. The bar is modelled as its fill count.
- `steady_clock` and `sleep_for` are replaced by a sequence of polls. Each poll is the instant the loop condition reads and the instant the body reads. `system_clock` is replaced by a `now` parameter.
- `localtime_s`, `mktime` and `sscanf` are parameters (`Arguments.AtEnv`, `Timer.Clocks`). Only the branch logic around them is modelled.
- Target.UntilTime: counts instants in whole milliseconds. The program's `now` has sub-millisecond ticks and `duration_cast<milliseconds>` truncates, so a target less than 1 ms ahead gives 0 there. The `--at` exits at main.cpp:504-508 and main.cpp:530-534 and the reschedule exit at main.cpp:707-709 can then fire, where the model promises a positive duration.
- Target.UntilTimeWithinDay: "never in 0 ms" holds for instants in whole milliseconds. In the program a target less than 1 ms ahead truncates to 0, as for `Target.UntilTime`.
- Target.UntilDateTime: counts instants in whole milliseconds. A date less than 1 ms ahead gives 0 in the program (main.cpp:209) and 1 in the model.
- Timer.Run: the answer of `millisecondsUntilTime` after each round is a parameter (`Clocks.untilNext`). `Target.UntilTime` models that function itself, and `Reschedule.ExitCodeOfTargets` shows what the rounds and the exit code are when the parameter is that function.
- Timer.Run: `--loop` without a count runs until the user stops it. The model runs at most `horizon` rounds.
- Arguments.LoopOption: reads the count with the intended `Convert.SafeStoi`, not with `Convert.SafeStoiAsWritten`. For a count outside the range of `int` (`--loop 3000000000`), the model consumes it with `maxLoops` = INT_MAX. The program leaves it unconsumed with `maxLoops` = -1. `Convert.SafeStoiAgrees` shows this is the only kind of input where they differ.
- Arguments.LoopCount: states when a count is taken in terms of the intended `Convert.SafeStoi`. It therefore differs from the program only for a count outside the range of `int`, as for `Arguments.LoopOption`.
- Arguments.ValueOption: reads `-ar`, `-ai` and `-pa` with the intended `Convert.SafeStoi`. `-ar 99999999999` gives INT_MAX here and the fallback 1 in the program. The two agree on every value within the range of `int`.
- Arguments.ParseArguments: the loop is proved equal to `Parse`, which reads `-l`, `-ar`, `-ai` and `-pa` with the intended `Convert.SafeStoi`. On a command line whose numeric values all lie within the range of `int`, this is also what the program does.
- Timer.PerformRound: a round's post action comes from the intended `Action.Dispatch` (through `Timer.RoundAt`), not from the program's "[CMD]" string test. For `--open "[CMD]calc"` the model opens the file where the program runs `calc`. `Action.AsWrittenAgrees` shows every other action is dispatched the same way.
- Timer.Run: each round's effect comes from `Timer.PerformRound`, so it inherits the intended dispatch and the intended number reading described above.
- Countdown.RunCountdown: counts down to the exact end `start + ms`, the corrected half of the main.cpp:586-587 finding. Above 9 223 372 036 854 ms (about 292 years) the program's end wraps, which only `Countdown.EndAsWritten` models.
- Timer.PerformRound: its countdown uses the exact end, as `Countdown.RunCountdown` does. It therefore differs from the program for durations above 9 223 372 036 854 ms.
- Timer.Run: every round counts down to the exact end, as `Timer.PerformRound` does.
- Duration.ClampMs: works on exact reals. The source converts through `long double`, which can round values near MAX_MS.
- Countdown.Fill: computes the fraction with exact reals. The source's `long double` division can round a fill that is exactly a whole number of cells down by one.
- TimeParser.DecimalValue: the numeric token's value is exact. `stod` rounds it to `double`, so an ordinary value can differ by one millisecond: "1.005s" gives 1004 ms in the program (1.005 is stored just below itself) and 1005 ms in the model.
- TimeParser.DecimalValue: `stod` throws `out_of_range` when the value is outside the range of `double`, on overflow (hundreds of digits before the dot) or underflow ("0." followed by 400 zeros and a 1). `safeStod` then gives -1 and the program makes the whole argument 0, so `main.cpp:548-551` takes it as the sound file. The model keeps the exact value instead: an overflowing term with a known unit saturates the argument at MAX_MS, and an overflowing term with an unknown unit or an underflowing term adds 0 and the rest of the argument still counts.
- `safeStod` is modelled only on the tokens `parseTime` gives it, which contain only digits and at most one dot.
- Arguments.Step: tests non-options first, then looks an option up. `main` compares every argument with each option in turn. Every option starts with '-', so both take the same branch.
- Remaining.FormatRemaining: takes a natural number. Every caller passes a non-negative count of seconds.

## Findings

| source | as written | input that shows it | evidently intended | confidence | as-written member | corrected member |
|---|---|---|---|---|---|---|
| main.cpp:54-65 | on Windows, where `long` is 32 bits, `stol` throws for any value outside the `int` range, so the clamps at lines 59-60 are dead and the fallback is returned | `5s --loop 3000000000`: the fallback -1 is not positive, so `--loop` leaves the count unconsumed (main.cpp:446-450). main.cpp:548-550 then reads "3000000000" as a duration of 3 000 000 000 seconds, replacing `5s`, and with `maxLoops` at -1 the timer loops without end | a too-large value saturates to INT_MAX, as the clamps say | medium; not executed | Convert.AsWrittenDropsLargeValues | Convert.SafeStoi |
| main.cpp:586-587 | `start + chrono::milliseconds(ms)` converts `ms` to the steady clock's nanoseconds in a `long long`, which wraps for any `ms` above 9 223 372 036 854 (about 292 years), far below MAX_MS | `300y` parses to 9 460 800 000 000 ms (`TimeExamples.ExampleThreeHundredYears`). In nanoseconds that wraps to -8 985 944 073 709 551 616, so `end` lies before `start`, the loop at main.cpp:593 never runs, and the alarm sounds at once | every duration up to MAX_MS is counted down from `start` to `start + ms`, and its first frame shows the whole duration (`Countdown.ExactEndCountsDown`) | medium; not executed | Countdown.AsWrittenSkipsLongCountdown | Countdown.RunCountdown |
| main.cpp:691-698 | `--cmd` and `--open` share one string, and a command is recognised by the "[CMD]" prefix, so a file whose name starts with that prefix is run as a command | `--open "[CMD]calc"` runs `calc` instead of opening the file "[CMD]calc" | `--open` always opens the named file | low; not executed | Action.AsWrittenRunsTaggedFile | Action.Dispatch |
