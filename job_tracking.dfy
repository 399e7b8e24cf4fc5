/**
 The job bookkeeping of the video controller: three dictionaries keyed by
 job id, driven by the background transcoding body (start, progress ticks,
 success or failure, the `finally` cleanup) and read by the progress poll.

 `Store` is the value of the three dictionaries and the functions on it say
 what each step does; `JobTracker` holds the dictionaries as fields and
 has one method per step, each proved to move its fields as the matching
 function says. Every step runs atomically, one after another.
 */
module JobTracking {
  import opened Wrappers
  import opened ProgressPoints
  import ProgressEstimator
  import DurationText

  /** The error text stored for every failed job. */
  const ProcessingError := "處理影片時發生錯誤"

  type JobId = string

  /** The anonymous outcome objects `{ success = true, streamUrl }` and
      `{ success = false, error }`. */
  datatype Outcome = Succeeded(streamUrl: string) | Failed(error: string)

  /** What a poll answers: a stored outcome; `{ inProgress = true, progress,
      remaining }`; `{ inProgress = true, progress = 0 }` when nothing is
      known; or an exception escaping the action (a server error). */
  datatype PollResponse =
    | Finished(outcome: Outcome)
    | Live(progress: int, remaining: string)
    | Pending
    | Faulted

  /** The three dictionaries: `_jobOutcomes`, `_jobProgress`,
      `_jobProgressPointList`. */
  datatype Store = Store(
    outcomes: map<JobId, Outcome>,
    progress: map<JobId, int>,
    points: map<JobId, seq<ProgressPoint>>)

  const Empty := Store(map[], map[], map[])

  /** Every job with live progress has a point list, so the point-list
      indexer of the poll finds one. */
  predicate Valid(st: Store)
  {
    st.progress.Keys <= st.points.Keys
  }

  // ---------------------------------------------------------------------
  // The steps, as functions of the store

  /** The point recorded for a progress value at a time. */
  function PointAt(percent: int, now: int): ProgressPoint
  {
    ProgressPoint(Finite(percent as real), now)
  }

  /** Job start: progress 0 and a point list holding one 0% point. */
  function StartJob(st: Store, id: JobId, now: int): Store
  {
    st.(progress := st.progress[id := 0], points := st.points[id := [PointAt(0, now)]])
  }

  /** A progress tick: the progress is overwritten and one point carrying
      it is appended. When the job has no point list, the list indexer
      throws after the progress has been written; the state is then the
      one left behind by the throw. */
  function TickJob(st: Store, id: JobId, percent: int, now: int): Store
  {
    var progress := st.progress[id := percent];
    if id in st.points then
      st.(progress := progress, points := st.points[id := st.points[id] + [PointAt(percent, now)]])
    else st.(progress := progress)
  }

  /** Normal completion stores the stream address. */
  function SucceedJob(st: Store, id: JobId, streamUrl: string): Store
  {
    st.(outcomes := st.outcomes[id := Succeeded(streamUrl)])
  }

  /** Any exception stores the fixed error text; the exception's own text
      is not used. */
  function FailJob(st: Store, id: JobId, exceptionText: string): Store
  {
    st.(outcomes := st.outcomes[id := Failed(ProcessingError)])
  }

  /** The `finally` block removes the job's live progress only. */
  function CleanupJob(st: Store, id: JobId): Store
  {
    st.(progress := st.progress - {id})
  }

  // ---------------------------------------------------------------------
  // The remaining-time field of a poll

  /** `result.Remaining.ToString()`: the text form of the span, and the
      empty string for a null span. */
  function RemainingText(result: ProgressEstimator.EstimationResult): string
  {
    match result.remaining
    case None => ""
    case Some(span) => DurationText.FormatTimeSpan(span)
  }

  /** The `remaining` field: the text form truncated by `TruncateRobust`. */
  function RemainingField(result: ProgressEstimator.EstimationResult): string
  {
    var r := DurationText.TruncateRobust(Some(RemainingText(result)));
    assert r.Some? by {
      if !DurationText.WhiteSpaceOnly(RemainingText(result))
         && DurationText.ParseTimeSpan(RemainingText(result)).None? {
        assert r == DurationText.TruncateSimple(Some(RemainingText(result)));
      }
    }
    r.value
  }

  /** The answer for a job with live progress, given its estimate: an
      estimate that throws faults the poll. */
  function LiveResponse(progress: int, estimate: ProgressEstimator.Estimation): PollResponse
  {
    match estimate
    case Thrown => Faulted
    case Returned(result) => Live(progress, RemainingField(result))
  }

  /** The poll: a stored outcome is returned and removed; otherwise live
      progress is reported with its estimate; otherwise progress 0. */
  function PollJob(st: Store, id: JobId): (Store, PollResponse)
  {
    if id in st.outcomes then
      (st.(outcomes := st.outcomes - {id}), Finished(st.outcomes[id]))
    else if id in st.progress then
      if id !in st.points then (st, Faulted)
      else (st, LiveResponse(st.progress[id], ProgressEstimator.Estimate(Some(st.points[id]))))
    else (st, Pending)
  }

  // ---------------------------------------------------------------------
  // A whole background job

  /** One progress notification: the integer percentage and the time. */
  datatype TickEvent = TickEvent(percent: int, now: int)

  /** The ticks of a run, applied in order. */
  function TickAll(st: Store, id: JobId, ticks: seq<TickEvent>): Store
  {
    if ticks == [] then st
    else
      var t := ticks[|ticks| - 1];
      TickJob(TickAll(st, id, ticks[..|ticks| - 1]), id, t.percent, t.now)
  }

  /** The points a run appends, one per tick. */
  function TickPoints(ticks: seq<TickEvent>): (r: seq<ProgressPoint>)
    ensures |r| == |ticks|
    ensures forall i :: 0 <= i < |ticks| ==> r[i] == PointAt(ticks[i].percent, ticks[i].now)
  {
    if ticks == [] then []
    else TickPoints(ticks[..|ticks| - 1]) + [PointAt(ticks[|ticks| - 1].percent, ticks[|ticks| - 1].now)]
  }

  /** The background body: start, the ticks, then success or (when some
      step threw, with that exception's text) failure, then cleanup. */
  function RunJob(st: Store, id: JobId, streamUrl: string, started: int, ticks: seq<TickEvent>,
                  failure: Option<string>): Store
  {
    CleanupJob(Finish(TickAll(StartJob(st, id, started), id, ticks), id, streamUrl, failure), id)
  }

  /** Success, or failure with the exception's text. */
  function Finish(st: Store, id: JobId, streamUrl: string, failure: Option<string>): Store
  {
    match failure
    case None => SucceedJob(st, id, streamUrl)
    case Some(text) => FailJob(st, id, text)
  }

  // ---------------------------------------------------------------------
  // The controller's dictionaries and its steps

  class JobTracker {
    var jobOutcomes: map<JobId, Outcome>
    var jobProgress: map<JobId, int>
    var jobProgressPoints: map<JobId, seq<ProgressPoint>>

    function State(): Store
      reads this
    {
      Store(jobOutcomes, jobProgress, jobProgressPoints)
    }

    constructor()
      ensures State() == Empty
    {
      jobOutcomes := map[];
      jobProgress := map[];
      jobProgressPoints := map[];
    }

    method Start(id: JobId, now: int)
      modifies this
      ensures State() == StartJob(old(State()), id, now)
    {
      jobProgress := jobProgress[id := 0];
      jobProgressPoints := jobProgressPoints[id := [PointAt(0, now)]];
    }

    method Tick(id: JobId, percent: int, now: int)
      modifies this
      ensures State() == TickJob(old(State()), id, percent, now)
    {
      jobProgress := jobProgress[id := percent];
      if id in jobProgressPoints {
        jobProgressPoints := jobProgressPoints[id := jobProgressPoints[id] + [PointAt(jobProgress[id], now)]];
      }
    }

    method Succeed(id: JobId, streamUrl: string)
      modifies this
      ensures State() == SucceedJob(old(State()), id, streamUrl)
    {
      jobOutcomes := jobOutcomes[id := Succeeded(streamUrl)];
    }

    method Fail(id: JobId, exceptionText: string)
      modifies this
      ensures State() == FailJob(old(State()), id, exceptionText)
    {
      jobOutcomes := jobOutcomes[id := Failed(ProcessingError)];
    }

    method Cleanup(id: JobId)
      modifies this
      ensures State() == CleanupJob(old(State()), id)
    {
      jobProgress := jobProgress - {id};
    }

    method Poll(id: JobId) returns (response: PollResponse)
      modifies this
      ensures (State(), response) == PollJob(old(State()), id)
    {
      if id in jobOutcomes {
        var outcome := jobOutcomes[id];
        jobOutcomes := jobOutcomes - {id};
        return Finished(outcome);
      }
      if id in jobProgress {
        var progress := jobProgress[id];
        if id !in jobProgressPoints {
          return Faulted;
        }
        var estimate := ProgressEstimator.EstimateRemaining(Some(jobProgressPoints[id]));
        if estimate.Thrown? {
          return Faulted;
        }
        return Live(progress, RemainingField(estimate.result));
      }
      return Pending;
    }

    /** The background body of an upload, run to its end. */
    method Run(id: JobId, streamUrl: string, started: int, ticks: seq<TickEvent>, failure: Option<string>)
      modifies this
      ensures State() == RunJob(old(State()), id, streamUrl, started, ticks, failure)
    {
      Start(id, started);
      ghost var begun := State();
      for i := 0 to |ticks|
        invariant State() == TickAll(begun, id, ticks[..i])
      {
        assert ticks[..i + 1][..i] == ticks[..i];
        Tick(id, ticks[i].percent, ticks[i].now);
      }
      assert ticks[..|ticks|] == ticks;
      match failure {
        case None => Succeed(id, streamUrl);
        case Some(text) => Fail(id, text);
      }
      Cleanup(id);
    }
  }

  // ---------------------------------------------------------------------
  // One step at a time

  /** After a start the job is at 0 with exactly one point, at 0%. */
  lemma StartFacts(st: Store, id: JobId, now: int)
    ensures var r := StartJob(st, id, now);
      && r.progress[id] == 0
      && |r.points[id]| == 1 && r.points[id][0].percentage == Finite(0.0) && r.points[id][0].time == now
      && r.outcomes == st.outcomes
      && (Valid(st) ==> Valid(r))
  {
  }

  /** A tick stores the new value and appends exactly one point carrying
      it; the points before it stay as they were. */
  lemma TickFacts(st: Store, id: JobId, percent: int, now: int)
    requires id in st.points
    ensures var r := TickJob(st, id, percent, now);
      && r.progress[id] == percent
      && |r.points[id]| == |st.points[id]| + 1
      && r.points[id][..|st.points[id]|] == st.points[id]
      && r.points[id][|st.points[id]|] == ProgressPoint(Finite(percent as real), now)
      && r.outcomes == st.outcomes
      && (Valid(st) ==> Valid(r))
  {
    var r := TickJob(st, id, percent, now);
    assert r.points[id] == st.points[id] + [PointAt(percent, now)];
  }

  /** A failure stores the fixed message, whatever the exception said. */
  lemma FailureHidesException(st: Store, id: JobId, text1: string, text2: string)
    ensures FailJob(st, id, text1) == FailJob(st, id, text2)
    ensures FailJob(st, id, text1).outcomes[id] == Failed(ProcessingError)
  {
  }

  /** Cleanup removes the job's live progress and nothing else: its outcome
      and its point list stay, and the store stays valid. */
  lemma CleanupFacts(st: Store, id: JobId)
    ensures var r := CleanupJob(st, id);
      && id !in r.progress
      && r.outcomes == st.outcomes && r.points == st.points
      && (forall other :: other != id && other in st.progress ==> other in r.progress && r.progress[other] == st.progress[other])
      && (Valid(st) ==> Valid(r))
  {
  }

  /** A stored outcome wins over live progress: the poll returns it and
      removes it, and leaves everything else alone. */
  lemma PollOutcomeFirst(st: Store, id: JobId)
    requires id in st.outcomes
    ensures PollJob(st, id).1 == Finished(st.outcomes[id])
    ensures PollJob(st, id).0 == st.(outcomes := st.outcomes - {id})
  {
  }

  /** An outcome is delivered once: the next poll of the same id does not
      return an outcome again (unless the job completes in between). */
  lemma SecondPollNoOutcome(st: Store, id: JobId)
    ensures !PollJob(PollJob(st, id).0, id).1.Finished?
  {
  }

  /** Without an outcome, a job with live progress is reported with its
      stored progress and the remaining time estimated from its own point
      list; the store does not change. */
  lemma PollLive(st: Store, id: JobId)
    requires Valid(st) && id !in st.outcomes && id in st.progress
    ensures PollJob(st, id).0 == st
    ensures var estimate := ProgressEstimator.Estimate(Some(st.points[id]));
      PollJob(st, id).1 == (if estimate.Thrown? then Faulted else Live(st.progress[id], RemainingField(estimate.result)))
  {
  }

  /** Without an outcome or live progress (an unknown id, or a finished job
      whose outcome was already delivered) the poll reports progress 0. */
  lemma PollNothing(st: Store, id: JobId)
    requires id !in st.outcomes && id !in st.progress
    ensures PollJob(st, id) == (st, Pending)
  {
  }

  /** In a valid store a poll never fails for want of a point list: it only
      faults when the estimate itself throws. */
  lemma PollValidNoMissingList(st: Store, id: JobId)
    requires Valid(st)
    ensures PollJob(st, id).1 == Faulted ==>
      id !in st.outcomes && id in st.progress && ProgressEstimator.Estimate(Some(st.points[id])).Thrown?
  {
  }

  /** When the estimate fails there is no remaining span: its text is the
      empty string, which `TruncateRobust` keeps, so `remaining` is empty. */
  lemma FailedEstimateEmptyRemaining(progress: int, result: ProgressEstimator.EstimationResult)
    requires ProgressEstimator.WellFormed(result) && !result.success
    ensures LiveResponse(progress, ProgressEstimator.Returned(result)) == Live(progress, "")
  {
    assert RemainingText(result) == "";
  }

  /** A successful estimate shows its remaining span with total hours,
      minutes and seconds. */
  lemma SuccessfulEstimateRemaining(progress: int, result: ProgressEstimator.EstimationResult)
    requires ProgressEstimator.WellFormed(result) && result.success
    ensures LiveResponse(progress, ProgressEstimator.Returned(result)) ==
      Live(progress, DurationText.RenderHours(result.remaining.value))
  {
    DurationText.TruncateRobustOfFormat(result.remaining.value);
  }

  /** A success with nothing remaining shows "00:00:00". */
  lemma NothingLeftShowsZero(progress: int, result: ProgressEstimator.EstimationResult)
    requires ProgressEstimator.WellFormed(result) && result.success && result.remaining == Some(0)
    ensures LiveResponse(progress, ProgressEstimator.Returned(result)) == Live(progress, "00:00:00")
  {
    SuccessfulEstimateRemaining(progress, result);
    DurationText.RenderZero();
  }

  /** A job whose latest point is at 100% shows nothing left. */
  lemma AtHundredShowsZero(progress: int, s: seq<ProgressPoint>)
    requires |Clean(s)| >= 2 && ProgressEstimator.Last(Clean(s)).percentage.value >= 100.0
    ensures LiveResponse(progress, ProgressEstimator.Estimate(Some(s))) == Live(progress, "00:00:00")
  {
    ProgressEstimator.EstimateAtHundred(s);
    NothingLeftShowsZero(progress, ProgressEstimator.Estimate(Some(s)).result);
  }

  // ---------------------------------------------------------------------
  // A whole background job

  /** The ticks of a run append their points in order and leave the last
      value as the progress. */
  lemma {:induction false} TickAllFacts(st: Store, id: JobId, ticks: seq<TickEvent>)
    requires id in st.points
    ensures var r := TickAll(st, id, ticks);
      && id in r.points && r.points[id] == st.points[id] + TickPoints(ticks)
      && r.outcomes == st.outcomes
      && (ticks != [] ==> id in r.progress && r.progress[id] == ticks[|ticks| - 1].percent)
      && (forall other :: other != id ==> Entry(r, other) == Entry(st, other))
      && (Valid(st) ==> Valid(r))
  {
    if ticks != [] {
      var init := ticks[..|ticks| - 1];
      TickAllFacts(st, id, init);
      var before := TickAll(st, id, init);
      assert TickPoints(ticks) == TickPoints(init) + [PointAt(ticks[|ticks| - 1].percent, ticks[|ticks| - 1].now)];
      forall other | other != id
        ensures Entry(TickAll(st, id, ticks), other) == Entry(st, other)
      {
        TickFrame(before, id, ticks[|ticks| - 1].percent, ticks[|ticks| - 1].now, other);
      }
    }
  }

  /** A whole job leaves its outcome, no live progress, and the point list
      `[0% at start] + one point per tick`; the other jobs are untouched and
      the store stays valid. */
  lemma RunFacts(st: Store, id: JobId, streamUrl: string, started: int, ticks: seq<TickEvent>,
                 failure: Option<string>)
    ensures var r := RunJob(st, id, streamUrl, started, ticks, failure);
      && id in r.outcomes
      && r.outcomes[id] == (if failure.None? then Succeeded(streamUrl) else Failed(ProcessingError))
      && id !in r.progress
      && id in r.points && r.points[id] == [PointAt(0, started)] + TickPoints(ticks)
      && (forall other :: other != id ==> Entry(r, other) == Entry(st, other))
      && (Valid(st) ==> Valid(r))
  {
    var begun := StartJob(st, id, started);
    var ticked := TickAll(begun, id, ticks);
    var done := Finish(ticked, id, streamUrl, failure);
    var r := CleanupJob(done, id);
    StartFacts(st, id, started);
    TickAllFacts(begun, id, ticks);
    FinishFacts(ticked, id, streamUrl, failure);
    CleanupFacts(done, id);
    forall other | other != id ensures Entry(r, other) == Entry(st, other) {
      StartFrame(st, id, started, other);
      FinishFrame(ticked, id, streamUrl, failure, other);
      CleanupFrame(done, id, other);
    }
  }

  lemma FinishFacts(st: Store, id: JobId, streamUrl: string, failure: Option<string>)
    ensures var r := Finish(st, id, streamUrl, failure);
      && id in r.outcomes
      && r.outcomes[id] == (if failure.None? then Succeeded(streamUrl) else Failed(ProcessingError))
      && r.progress == st.progress && r.points == st.points
  {
  }

  lemma StartFrame(st: Store, id: JobId, now: int, other: JobId)
    requires other != id
    ensures Entry(StartJob(st, id, now), other) == Entry(st, other)
  {
  }

  lemma FinishFrame(st: Store, id: JobId, streamUrl: string, failure: Option<string>, other: JobId)
    requires other != id
    ensures Entry(Finish(st, id, streamUrl, failure), other) == Entry(st, other)
  {
  }

  lemma CleanupFrame(st: Store, id: JobId, other: JobId)
    requires other != id
    ensures Entry(CleanupJob(st, id), other) == Entry(st, other)
  {
  }

  // ---------------------------------------------------------------------
  // Any interleaving of steps

  /** What the store holds for one id. */
  datatype JobEntry = JobEntry(outcome: Option<Outcome>, progress: Option<int>, points: Option<seq<ProgressPoint>>)

  function Lookup<V>(m: map<JobId, V>, id: JobId): Option<V>
  {
    if id in m then Some(m[id]) else None
  }

  function Entry(st: Store, id: JobId): JobEntry
  {
    JobEntry(Lookup(st.outcomes, id), Lookup(st.progress, id), Lookup(st.points, id))
  }

  lemma TickFrame(st: Store, id: JobId, percent: int, now: int, other: JobId)
    requires other != id
    ensures Entry(TickJob(st, id, percent, now), other) == Entry(st, other)
  {
  }

  /** One step of any job, or one poll. */
  datatype Step =
    | StartStep(id: JobId, now: int)
    | TickStep(id: JobId, percent: int, now: int)
    | SuccessStep(id: JobId, streamUrl: string)
    | FailureStep(id: JobId, exceptionText: string)
    | CleanupStep(id: JobId)
    | PollStep(id: JobId)

  function Next(st: Store, step: Step): Store
  {
    match step
    case StartStep(id, now) => StartJob(st, id, now)
    case TickStep(id, percent, now) => TickJob(st, id, percent, now)
    case SuccessStep(id, url) => SucceedJob(st, id, url)
    case FailureStep(id, text) => FailJob(st, id, text)
    case CleanupStep(id) => CleanupJob(st, id)
    case PollStep(id) => PollJob(st, id).0
  }

  /** A step changes only the entries of its own id. */
  lemma StepFrame(st: Store, step: Step, other: JobId)
    requires other != step.id
    ensures Entry(Next(st, step), other) == Entry(st, other)
  {
  }

  /** Point lists are never removed. */
  lemma StepKeepsPointLists(st: Store, step: Step)
    ensures st.points.Keys <= Next(st, step).points.Keys
  {
  }

  /** Every step keeps the store valid, provided a tick only comes for a job
      that has a point list (as it does in a run, which starts first). */
  lemma StepKeepsValid(st: Store, step: Step)
    requires Valid(st)
    requires step.TickStep? ==> step.id in st.points
    ensures Valid(Next(st, step))
  {
  }

  /** The store after a sequence of steps. */
  function After(st: Store, steps: seq<Step>): Store
    decreases |steps|
  {
    if steps == [] then st else After(Next(st, steps[0]), steps[1..])
  }

  /** How many polls of `id` in `steps` return an outcome. */
  function Deliveries(st: Store, steps: seq<Step>, id: JobId): nat
    decreases |steps|
  {
    if steps == [] then 0
    else
      var now := if steps[0] == PollStep(id) && PollJob(st, id).1.Finished? then 1 else 0;
      now + Deliveries(Next(st, steps[0]), steps[1..], id)
  }

  /** How many completions (success or failure) of `id` are in `steps`. */
  function Completions(steps: seq<Step>, id: JobId): nat
  {
    if steps == [] then 0
    else
      (if (steps[0].SuccessStep? || steps[0].FailureStep?) && steps[0].id == id then 1 else 0)
      + Completions(steps[1..], id)
  }

  /** Each outcome is delivered at most once: in any sequence of steps the
      polls of a job return an outcome no more often than outcomes were
      stored for it (one already present at the start, plus one per
      completion). */
  lemma {:induction false} DeliveredAtMostOnce(st: Store, steps: seq<Step>, id: JobId)
    ensures Deliveries(st, steps, id) <= (if id in st.outcomes then 1 else 0) + Completions(steps, id)
    decreases |steps|
  {
    if steps != [] {
      DeliveredAtMostOnce(Next(st, steps[0]), steps[1..], id);
      if steps[0].id != id {
        StepFrame(st, steps[0], id);
      }
    }
  }

  /** A tick that arrives after the cleanup brings the live progress back:
      once the outcome has been delivered, polls report the job as in
      progress again instead of progress 0. */
  lemma LateTickRevives(st: Store, id: JobId, percent: int, now: int)
    requires id in st.points
    ensures var r := TickJob(CleanupJob(st, id), id, percent, now);
      && id in r.progress && r.progress[id] == percent
      && PollJob(r.(outcomes := r.outcomes - {id}), id).1 != Pending
  {
  }
}
