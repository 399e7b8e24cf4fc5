# HLS upload demo: job tracking and remaining-time estimation

A Dafny model of the bookkeeping behind the video upload endpoint of an
ASP.NET Core HLS demo. An upload starts a background transcoding job. The job
writes its progress into three dictionaries keyed by job id:

- `_jobOutcomes`: the final result;
- `_jobProgress`: the live percentage;
- `_jobProgressPointList`: the timestamped progress samples.

A client polls the progress endpoint. A stored outcome is returned once and
then removed. Otherwise the live percentage is returned together with a
remaining-time string. That string comes from a least-squares estimate over
the samples, rendered by `ProgressEstimator.TruncateRobust`.

The model has four modules:

- `ProgressPoints` (`progress_points.dfy`): the samples and the cleaning
  pipeline. It drops non-finite percentages, clamps the rest to [0,100] and
  sorts stably by time.
- `ProgressEstimator` (`progress_estimator.dfy`): `EstimateRemaining`.
  - It is a function, `Estimate`, that either returns a result, proved
    well-formed, or throws. It throws where `TimeSpan.FromSeconds` or
    `DateTime.AddSeconds` is given a value outside its range. Each branch of
    its decision ladder is stated as a lemma.
  - It is also a method with the source's accumulation loop, proved equal to
    the function.
  - Arithmetic is exact, over `real`.
- `DurationText` (`duration_text.dfy`):
  - the `TimeSpan` text form `[d.]hh:mm:ss[.fffffff]`, with its parser;
  - `TruncateSimple` and `TruncateRobust`.

  It proves the round trip `ParseTimeSpan(FormatTimeSpan(t)) == Some(t)`. It
  also proves that `TruncateRobust` of a formatted span is the span as total
  hours, minutes and seconds.
- `JobTracking` (`job_tracking.dfy`): the controller's dictionaries.
  - `Store` is their value. One function per step gives its effect: start,
    tick, success, failure, `finally` cleanup and poll.
  - `JobTracker` is a class holding the three dictionaries as fields. Each of
    its methods is proved to move the fields exactly as the matching function
    says. `Run` is the whole background body, with its tick loop.
  - Lemmas state what polls return and which parts of the store each step
    leaves alone. One lemma proves that, in any interleaving of steps, an
    outcome is delivered at most once per completion.

`wrappers.dfy` holds the `Option` type.

Four behaviours of the code that a reader of the endpoint might not expect are proved as they are written:

- A tick that arrives after the `finally` cleanup puts live progress back.
  Nothing makes the finished state win over it (`JobTracking.LateTickRevives`).
- One might expect two samples that increase strictly in time and in
  percentage always to give an estimate. They do not when they are one tick
  apart: the `1e-9` denominator tolerance, meant for time differences that
  are too small, rejects them (`ProgressEstimator.ScenarioOneTickApart`).
- A line that rises too slowly makes `TimeSpan.FromSeconds` throw. The
  exception is not caught, so the poll faults instead of reporting progress
  (`ProgressEstimator.ScenarioRemainingOverflows`, `JobTracking.PollLive`).
- The `?? "00:00:00"` fallback of the poll never takes effect. A null
  `Remaining` prints as the empty string, so a failed estimate shows `""`
  (`JobTracking.FailedEstimateEmptyRemaining`).

## Model

| member | source | states |
|---|---|---|
| ProgressPoints.Clamp | Extensions/ProgressEstimator.cs:28 | the result lies in [0,100]: a value inside is kept, a value below is 0 and a value above is 100 |
| ProgressPoints.FilterClamp | Extensions/ProgressEstimator.cs:27-28 | the output is in range, has one point per finite input, and each of its times comes from the input |
| ProgressPoints.Clean | Extensions/ProgressEstimator.cs:26-30 | the cleaned samples are in range, sorted by time, one per finite input, a permutation of the filtered samples, and keep equal-time samples in input order |
| ProgressPoints.FilterClampConcat | Extensions/ProgressEstimator.cs:27-28 | filtering and clamping is applied point by point: it distributes over concatenation |
| ProgressPoints.FilterClampKeepsInRange | Extensions/ProgressEstimator.cs:27-28 | samples already finite and in [0,100] pass through unchanged |
| ProgressPoints.FilterClampIdempotent | Extensions/ProgressEstimator.cs:27-28 | filtering and clamping twice equals doing it once |
| ProgressPoints.FilterClampSingleton | Extensions/ProgressEstimator.cs:27-28 | a non-finite point is dropped; a finite one becomes one clamped point with the same time |
| ProgressPoints.InsertByTimePermutes | Extensions/ProgressEstimator.cs:29 | inserting adds exactly the inserted point to the multiset |
| ProgressPoints.SortByTimePermutes | Extensions/ProgressEstimator.cs:29 | `OrderBy` returns a permutation of its input |
| ProgressPoints.SortByTime | Extensions/ProgressEstimator.cs:29 | the `OrderBy(p => p.Time)` stage as a stable insertion sort by time; no contract of its own, characterised by `SortByTimePermutes`, `SortByTimeSorted` and `SortByTimeStable` |
| ProgressPoints.InsertByTimeSorted | Extensions/ProgressEstimator.cs:29 | inserting into a time-sorted sequence keeps it sorted |
| ProgressPoints.SortByTimeSorted | Extensions/ProgressEstimator.cs:29 | `OrderBy(p => p.Time)` returns a sequence sorted by time |
| ProgressPoints.InsertByTimeStable | Extensions/ProgressEstimator.cs:29 | inserting puts the new point first among the points of its time and keeps the others in order |
| ProgressPoints.SortByTimeStable | Extensions/ProgressEstimator.cs:29 | the sort is stable: for every time, the points with that time keep their input order |
| ProgressPoints.SortByTimeOfSorted | Extensions/ProgressEstimator.cs:29 | sorting a sequence that is already sorted changes nothing |
| ProgressPoints.InRangePermutation | Extensions/ProgressEstimator.cs:26-30 | a permutation of in-range samples is in range |
| ProgressPoints.CleanIdempotent | Extensions/ProgressEstimator.cs:26-30 | cleaning cleaned samples returns them unchanged |
| ProgressEstimator.Percentages | Extensions/ProgressEstimator.cs:43 | one percentage per cleaned sample, each in [0,100] |
| ProgressEstimator.ChooseLine | Extensions/ProgressEstimator.cs:64-81 | the least-squares line is used when its slope exceeds 1e-12; otherwise the line through the first sample with the first/last rate, when that rate exceeds 1e-12; otherwise no line; any chosen slope exceeds 1e-12 |
| ProgressEstimator.FromSeconds | Extensions/ProgressEstimator.cs:94 | `TimeSpan.FromSeconds` succeeds exactly when the ticks fit `TimeSpan.MaxValue`; the ticks are the floor of seconds × `TimeSpan.TicksPerSecond` |
| ProgressEstimator.EtaOutOfRange | Extensions/ProgressEstimator.cs:90-95 | the `DateTime.AddSeconds` range test: the ETA's floor lies outside 0 to `DateTime.MaxValue.Ticks`; a definition without a contract, used by `Project` and `FitThrows` |
| ProgressEstimator.Project | Extensions/ProgressEstimator.cs:84-97 | extrapolating a positive line either throws or returns a well-formed success |
| ProgressEstimator.Fit | Extensions/ProgressEstimator.cs:57-97 | whatever the fitting step returns is well-formed |
| ProgressEstimator.EstimateCleaned | Extensions/ProgressEstimator.cs:32-97 | whatever the ladder on cleaned samples returns is well-formed |
| ProgressEstimator.Estimate | Extensions/ProgressEstimator.cs:21-98 | every returned result is well-formed: success exactly when there is no message; a failure has no remaining span, no ETA and rate 0; a success has a remaining span and an ETA, and a finite rate only with an ETA inside the `DateTime` range; a null input gives "samples is null" |
| ProgressEstimator.EstimateRemaining | Extensions/ProgressEstimator.cs:21-98 | the method, with its loops, the in-place reassignment of slope and intercept and the throwing conversions, returns or throws as `Estimate(samples)` says |
| ProgressEstimator.CrossSums | Extensions/ProgressEstimator.cs:49-55 | the loop leaves Σx·y and Σx² over all samples |
| ProgressEstimator.FitSamples | Extensions/ProgressEstimator.cs:46-97 | the sums, the denominator check, the fallback, the projection and the two conversions, done step by step, return or throw as `Fit` says |
| ProgressEstimator.EstimateTooFewSamples | Extensions/ProgressEstimator.cs:32-33 | fewer than two finite samples give the "need at least 2 samples" failure, with no remaining time, no ETA and rate 0 |
| ProgressEstimator.EstimateAtHundred | Extensions/ProgressEstimator.cs:36-38 | if the last cleaned sample is at 100%, the result is success with zero remaining, the ETA at that sample and rate +∞ |
| ProgressEstimator.EstimateNoTimeVariation | Extensions/ProgressEstimator.cs:57-62 | if all cleaned samples share one time, the result is the "insufficient time variation" failure |
| ProgressEstimator.FitNonPositiveRate | Extensions/ProgressEstimator.cs:69-78 | if both the slope and the fallback rate are at most 1e-12, the result is the "non-positive progress rate" failure |
| ProgressEstimator.FitSuccess | Extensions/ProgressEstimator.cs:84-97 | on success, the rate is the chosen slope (> 1e-12) and the ETA is t0 plus the time to 100%, inside the `DateTime` range; the remaining span is 0 when that time is not after the last sample, and otherwise `FromSeconds` of the positive difference |
| ProgressEstimator.FitThrows | Extensions/ProgressEstimator.cs:84-97 | the fitting step throws exactly when a line was chosen and either the ETA leaves the `DateTime` range or, with 100% beyond the last sample, the span exceeds `TimeSpan.MaxValue`; the failures never throw |
| ProgressEstimator.FitRising | Extensions/ProgressEstimator.cs:57-84 | past the denominator check, a least-squares slope above 1e-12 is the line extrapolated |
| ProgressEstimator.LeastSquaresNormalEquations | Extensions/ProgressEstimator.cs:46-65 | slope and intercept satisfy both least-squares normal equations: it is the OLS fit |
| ProgressEstimator.DenominatorOfConstant | Extensions/ProgressEstimator.cs:57 | the denominator is 0 when all elapsed times are equal |
| ProgressEstimator.FallbackSpanPositive | Extensions/ProgressEstimator.cs:72-74 | past the denominator check on sorted samples, the last elapsed time exceeds the first (which is 0), so the `: 0` arm is never taken |
| ProgressEstimator.TimeTo100NonNegative | Extensions/ProgressEstimator.cs:80-84 | the chosen line starts at or below 100%, so the time to 100% is never negative |
| ProgressEstimator.EstimateEtaNotBeforeFirstSample | Extensions/ProgressEstimator.cs:84-97 | a successful estimate never puts the ETA before the first cleaned sample |
| ProgressEstimator.CleanTwoInOrder | Extensions/ProgressEstimator.cs:26-30 | two in-range samples in time order survive cleaning unchanged |
| ProgressEstimator.EstimateTwo | Extensions/ProgressEstimator.cs:40-43 | for two ordered samples below 100%, the estimate fits elapsed seconds [0, Δt] against their two percentages |
| ProgressEstimator.ScenarioSteadyProgress | Extensions/ProgressEstimator.cs:64-97 | 0% then 50% ten seconds later gives 5%/s, 10 s remaining and an ETA 20 s after the first sample, when that ETA is a valid `DateTime` |
| ProgressEstimator.ScenarioOneTickApart | Extensions/ProgressEstimator.cs:57-61 | 0% then 50% one tick later fails the denominator tolerance |
| ProgressEstimator.ScenarioRegressing | Extensions/ProgressEstimator.cs:69-78 | 30% then 10% gives the non-positive rate failure |
| ProgressEstimator.ScenarioRemainingOverflows | Extensions/ProgressEstimator.cs:84-94 | 0% then 0.000000001% ten seconds later needs 10¹² s to reach 100%, so `TimeSpan.FromSeconds` throws |
| DurationText.IndexOf | Extensions/ProgressEstimator.cs:113 | the result is -1 exactly when the character is absent; otherwise it is the position of its first occurrence |
| DurationText.PadDigitsValue | Extensions/ProgressEstimator.cs:126 | `:D2` padding reads back as the number, and is exactly two digits below 100 |
| DurationText.FormatTimeSpan | Controllers/VideoController.cs:161 | `TimeSpan.ToString()`: `[d.]hh:mm:ss[.fffffff]`, the day count only when there are whole days and the seven fraction digits only when the fraction is non-zero; no contract of its own, characterised by `ParseFormatTimeSpan`, `FormatNotBlank` and `ClockDigits` |
| DurationText.TruncateSimple | Extensions/ProgressEstimator.cs:110-115 | null stays null; the result is a prefix without '.' that stops at the first '.'; a string without '.' is unchanged |
| DurationText.IsWhiteSpace | Extensions/ProgressEstimator.cs:120 | `char.IsWhiteSpace` as used by `string.IsNullOrWhiteSpace`: the Unicode space separators, U+0009 to U+000D, U+0085, U+2028 and U+2029; a definition without a contract |
| DurationText.TruncateRobust | Extensions/ProgressEstimator.cs:118-131 | null and blank strings come back unchanged; a parseable span is re-rendered; anything else falls back to `TruncateSimple` |
| DurationText.ParseTimeSpan | Extensions/ProgressEstimator.cs:122 | `TimeSpan.TryParse` on the text form, `None` beyond `TimeSpan.MaxValue`; no contract of its own, characterised by `ParseTimeSpanShape` |
| DurationText.ParseClockShape | Extensions/ProgressEstimator.cs:122 | the clock parser accepts exactly `hh:mm:ss[.f…]` with hours 00–23, minutes and seconds 00–59 and one to seven fraction digits, described by position |
| DurationText.ParseTimeSpanShape | Extensions/ProgressEstimator.cs:122 | parsing succeeds exactly for text of the shape `[d.]hh:mm:ss[.f…]`, described by position, whose ticks fit `TimeSpan.MaxValue`; every text of that shape denotes some span |
| DurationText.ParseFormatTimeSpan | Extensions/ProgressEstimator.cs:122 | `TryParse(ts.ToString())` returns `ts` for every span |
| DurationText.FormatNotBlank | Extensions/ProgressEstimator.cs:120 | the text form of a span is never blank, so it never takes the early return |
| DurationText.RenderHours | Extensions/ProgressEstimator.cs:125-126 | the `$"{hours:D2}:{ts.Minutes:D2}:{ts.Seconds:D2}"` rendering with `hours` the whole hours of the span, not wrapped at a day; no contract of its own, characterised by `RenderHoursParts`, `RenderHoursTotal` and `ExampleRenderHours` |
| DurationText.TruncateRobustOfFormat | Extensions/ProgressEstimator.cs:118-127 | `TruncateRobust` of a span's text form is total hours, minutes and seconds |
| DurationText.RenderHoursParts | Extensions/ProgressEstimator.cs:125-126 | the rendering is at least two hour digits equal to the whole hours (exactly two below 100 hours, no leading zero from 10 hours on), then ':', two minute digits (< 60), ':', two second digits (< 60) |
| DurationText.DecimalNoLeadingZero | Extensions/ProgressEstimator.cs:126 | a number is written with two or more digits exactly from 10 on, and then without a leading zero |
| DurationText.ExampleRenderHours | Extensions/ProgressEstimator.cs:125-126 | a 125-hour span renders as "125:00:00" and five seconds as "00:00:05" |
| DurationText.RenderHoursTotal | Extensions/ProgressEstimator.cs:125-126 | hours, minutes and seconds of the rendering add up to the span less its fraction of a second: it drops the fraction, even past 24 hours |
| DurationText.ExampleFallback | Extensions/ProgressEstimator.cs:120-130 | "1.5 h" falls back to "1"; "" and " " come back unchanged |
| DurationText.RenderZero | Extensions/ProgressEstimator.cs:126 | a zero span renders as "00:00:00" |
| JobTracking.TickPoints | Controllers/VideoController.cs:108 | one point per tick, in order, carrying that tick's value and time |
| JobTracking.PollJob | Controllers/VideoController.cs:139-166 | the poll on the dictionaries' value: a stored outcome is removed and returned, else live progress with the remaining field (a fault when the point list is missing or the estimate throws), else progress 0; no contract of its own, characterised by the `Poll…` lemmas and `DeliveredAtMostOnce` |
| JobTracking.JobTracker.constructor | Controllers/VideoController.cs:21-27 | all three dictionaries start empty |
| JobTracking.JobTracker.Start | Controllers/VideoController.cs:70-76 | the new state is `StartJob` of the old: progress 0 and a one-point list |
| JobTracking.JobTracker.Tick | Controllers/VideoController.cs:105-108 | the new state is `TickJob` of the old |
| JobTracking.JobTracker.Succeed | Controllers/VideoController.cs:115 | the new state is `SucceedJob` of the old |
| JobTracking.JobTracker.Fail | Controllers/VideoController.cs:117-121 | the new state is `FailJob` of the old |
| JobTracking.JobTracker.Cleanup | Controllers/VideoController.cs:123-126 | the new state is `CleanupJob` of the old |
| JobTracking.JobTracker.Poll | Controllers/VideoController.cs:139-166 | the new state and the response are `PollJob` of the old state |
| JobTracking.JobTracker.Run | Controllers/VideoController.cs:65-133 | the start, the tick loop, success or failure, and the cleanup leave `RunJob` of the old state |
| JobTracking.StartFacts | Controllers/VideoController.cs:70-76 | after a start: progress 0, exactly one point at 0% with the start time, outcomes unchanged, validity kept |
| JobTracking.TickFacts | Controllers/VideoController.cs:105-108 | a tick stores the value, appends exactly one point carrying it, keeps earlier points, leaves outcomes alone and keeps validity |
| JobTracking.FailureHidesException | Controllers/VideoController.cs:117-121 | the stored failure is the fixed message, whatever the exception said |
| JobTracking.CleanupFacts | Controllers/VideoController.cs:123-126 | the cleanup removes only this job's live progress; outcomes and point lists stay, and validity is kept |
| JobTracking.PollOutcomeFirst | Controllers/VideoController.cs:142-146 | a stored outcome is returned before any live progress, and only it is removed |
| JobTracking.SecondPollNoOutcome | Controllers/VideoController.cs:144 | a second poll right after does not return the outcome again |
| JobTracking.PollLive | Controllers/VideoController.cs:149-161 | without an outcome, live progress is returned with the estimate of the job's own points, or the poll faults when that estimate throws; the store is unchanged |
| JobTracking.RemainingField | Controllers/VideoController.cs:161 | `TruncateRobust(result.Remaining.ToString() ?? "00:00:00")`, a null span printing as the empty string; no contract of its own, characterised by `FailedEstimateEmptyRemaining`, `SuccessfulEstimateRemaining` and `NothingLeftShowsZero` |
| JobTracking.PollNothing | Controllers/VideoController.cs:164-165 | with no outcome and no live progress, the poll returns progress 0 and changes nothing |
| JobTracking.PollValidNoMissingList | Controllers/VideoController.cs:151 | in a valid store, a poll faults only when the estimate throws |
| JobTracking.FailedEstimateEmptyRemaining | Controllers/VideoController.cs:161 | a failed estimate shows an empty `remaining`: the `"00:00:00"` fallback never fires |
| JobTracking.SuccessfulEstimateRemaining | Controllers/VideoController.cs:161 | a successful estimate shows its span as total hours, minutes and seconds |
| JobTracking.NothingLeftShowsZero | Controllers/VideoController.cs:161 | a success with zero remaining shows "00:00:00" |
| JobTracking.AtHundredShowsZero | Controllers/VideoController.cs:151-161 | a job whose latest point is at 100% shows "00:00:00" |
| JobTracking.TickAllFacts | Controllers/VideoController.cs:102-111 | ticks append their points in order, leave the last value as the progress, touch no other job and keep validity |
| JobTracking.RunFacts | Controllers/VideoController.cs:65-133 | a whole job leaves its outcome (the stream URL, or the fixed error) and no live progress; its point list is the 0% start point plus one per tick; other jobs are untouched and validity is kept |
| JobTracking.FinishFacts | Controllers/VideoController.cs:114-121 | success or failure sets only the outcome |
| JobTracking.StepFrame | Controllers/VideoController.cs:65-165 | a step touches only the entries of its own job id |
| JobTracking.StepKeepsPointLists | Controllers/VideoController.cs:73 | point lists are never removed |
| JobTracking.StepKeepsValid | Controllers/VideoController.cs:65-165 | every step keeps every job with live progress owning a point list, provided ticks come only for started jobs |
| JobTracking.DeliveredAtMostOnce | Controllers/VideoController.cs:142-146 | over any sequence of steps, polls deliver an outcome no more often than outcomes were stored |
| JobTracking.LateTickRevives | Controllers/VideoController.cs:105-126 | a tick after the cleanup brings live progress back, so later polls no longer report progress 0 |

## Left out

- IEEE doubles are not modelled. The estimator computes exactly over `real`: NaN and ±∞ exist only as the non-finite sample tag and the +∞ rate tag. There is no rounding, and no overflow of `n`, the sums or the slope.
- ProgressEstimator.FromSeconds: from .NET Core 3.0 on, `TimeSpan.FromSeconds` truncates seconds × `TicksPerSecond` to whole ticks, which for the non-negative values passed here is the model's floor; only the double arithmetic of that product is not modelled. `DateTime.AddSeconds` (`EtaOutOfRange`) is modelled by its range check alone: the ETA is an exact `real` count of ticks, which may be fractional. It is neither truncated to a whole tick, as .NET 7 and later do, nor rounded to whole milliseconds, as earlier versions do. The ETA is only logged, so nothing a client sees depends on it.
- ProgressEstimator.Estimate: whether a conversion throws is decided on the exact values. With doubles, a value at the very edge of the `TimeSpan` or `DateTime` range can round to the other side.
- DurationText.RenderHoursTotal: `(long)ts.TotalHours` is modelled as exact integer division. The double rounding of `TotalHours` just below a whole hour is not modelled.
- DurationText.ParseTimeSpan: it accepts only the shape `TimeSpan.ToString()` produces, `[d.]hh:mm:ss[.f…]` with 1–7 fraction digits. The other `TryParse` forms (`d`, `h:m`, one-digit fields, signs, surrounding white space, culture separators) are rejected. Only text produced by `ToString` reaches it from the controller.
- Negative `TimeSpan`s and their leading '-' are not modelled. A remaining span is a `TimeSpan` of at least 0 ticks by its type.
- The tick percentage `(int)Math.Floor(progress.TotalSeconds / totalSeconds * 100)` of Controllers/VideoController.cs:105 is not computed. The model takes the resulting `int` as the tick's input, so FFProbe's duration and the division by a zero duration are outside it.
- The tick that finds no point list: after the indexer at Controllers/VideoController.cs:108 throws, the model keeps the state the throw leaves (progress written, no point appended). Where the exception then goes inside FFMpeg's callback is not modelled.
- Concurrency is not modelled. The dictionaries are concurrent, and ticks, polls and the background body can interleave within a step. The model runs every step atomically, and `DeliveredAtMostOnce` and `StepFrame` quantify over every order of whole steps.
- JobTracking.DeliveredAtMostOnce: it holds only because a poll is one atomic step. In the controller the `TryGetValue` (Controllers/VideoController.cs:142) and the `TryRemove` (:144) are separate operations, so two polls racing between them can both return the same outcome.
- I/O and external calls are left out: the upload copy, directory creation, the `Guid` and timestamp names, FFProbe/FFMpeg, the deletion of the upload in `finally`, logging and `Console.WriteLine`. `DateTime.Now` is a parameter (`now`, `started`) and `Guid.NewGuid()` is the `id` parameter.
- The empty-upload `BadRequest` of Controllers/VideoController.cs:40-43 and the `Accepted` reply are HTTP plumbing and not modelled.
- Program.cs (hosting, static files, CORS) is not part of this model.
