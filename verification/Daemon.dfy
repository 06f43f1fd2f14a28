/** How the daemon routes a run's outcome to the health marker and to the last-run record on /cache,
    with the executor and the shutdown interleaved, across restarts. */
module Daemon {
  import opened Options

  datatype Trigger = Startup | Interval | External

  predicate Scheduled(t: Trigger) {
    t.Startup? || t.Interval?
  }

  // ----- the health signal of a finished job -----

  datatype Signal = Untouched | Set(healthy: bool)

  function MarkerAction(cancelled: bool, failed: bool): Signal {
    if cancelled then Untouched else Set(!failed)
  }

  /** A lock skip performed no scan and carries no signal. */
  function JobHealthSignal(cancelled: bool, ran: bool, failed: bool): Signal {
    if !ran && !failed then Untouched else MarkerAction(cancelled, failed)
  }

  // ----- the two things written -----

  datatype Latch = Latch(healthy: bool, draining: bool) {
    /** A healthy write is blocked once the drain has begun. */
    function Set(h: bool): Latch {
      this.(healthy := h && !draining)
    }

    function BeginDrain(): Latch {
      Latch(false, true)
    }
  }

  datatype RunRecord = RunRecord(ok: bool, time: int)

  /** What one attempt to write the record did: it may fail and leave the old record. */
  datatype WriteResult = Written(time: int) | WriteFailed

  function Stamped(before: Option<RunRecord>, ok: bool, w: WriteResult): Option<RunRecord> {
    match w
    case Written(time) => Some(RunRecord(ok, time))
    case WriteFailed => before
  }

  class HealthLatch {
    var latch: Latch

    constructor (healthy: bool)
      ensures latch == Latch(healthy, false)
    {
      latch := Latch(healthy, false);
    }

    method Set(h: bool)
      modifies this
      ensures latch == old(latch).Set(h)
    {
      latch := latch.Set(h);
    }

    method BeginDrain()
      modifies this
      ensures latch == old(latch).BeginDrain()
    {
      latch := latch.BeginDrain();
    }
  }

  class StampFile {
    var record: Option<RunRecord>

    constructor (record: Option<RunRecord>)
      ensures this.record == record
    {
      this.record := record;
    }

    method Record(ok: bool, w: WriteResult) returns (err: bool)
      modifies this
      ensures record == Stamped(old(record), ok, w) && err == w.WriteFailed?
    {
      record := Stamped(record, ok, w);
      err := w.WriteFailed?;
    }

    /** No record, or one at least an interval old. A failed scan holds its slot like any other. */
    predicate Due(interval: int, now: int)
      reads this
    {
      record == None || now - record.value.time >= interval
    }
  }

  class DaemonProcess {
    const health: HealthLatch
    const stamp: StampFile

    constructor (health: HealthLatch, stamp: StampFile)
      ensures this.health == health && this.stamp == stamp
    {
      this.health := health;
      this.stamp := stamp;
    }

    /** A finished run reaches the marker unless it was interrupted or skipped, and the record only if
        it was a scheduled run that reached the marker. */
    method RecordOutcome(trig: Trigger, cancelled: bool, ran: bool, failed: bool, w: WriteResult)
      modifies health, stamp
      ensures health.latch == if Completes(cancelled, ran, failed) then old(health.latch).Set(!failed) else old(health.latch)
      ensures stamp.record
              == if Completes(cancelled, ran, failed) && Scheduled(trig) then Stamped(old(stamp.record), !failed, w)
                 else old(stamp.record)
    {
      var signal := JobHealthSignal(cancelled, ran, failed);
      if signal.Untouched? {
        return;
      }
      health.Set(signal.healthy);
      if trig != Startup && trig != Interval {
        return;
      }
      var _ := stamp.Record(signal.healthy, w);
    }

    /** Built-in mode's boot calls. */
    method BuiltinBootState(interval: int, now: int) returns (due: bool, healthy: bool, last: Option<RunRecord>)
      ensures due == DueAt(stamp.record, interval, now)
      ensures healthy == BootHealthy(stamp.record, interval, now)
      ensures last == stamp.record
    {
      due := stamp.Due(interval, now);
      last := stamp.record;
      healthy := !due && last.Some? && last.value.ok;
    }
  }

  /** The run neither was cut short by a shutdown nor skipped for the lock. */
  predicate Completes(cancelled: bool, ran: bool, failed: bool) {
    !cancelled && (ran || failed)
  }

  predicate DueAt(record: Option<RunRecord>, interval: int, now: int) {
    record.Some? ==> now >= record.value.time + interval
  }

  predicate BootHealthy(record: Option<RunRecord>, interval: int, now: int) {
    record.Some? && record.value.ok && now < record.value.time + interval
  }

  // ----- executor and shutdown, step by step -----

  datatype Mode = Builtin(interval: int) | ExternalMode

  datatype Executor =
    | Waiting
    | Running(trig: Trigger)
    | Finished(trig: Trigger, ran: bool, failed: bool)
    | Judged(trig: Trigger, cancelled: bool, ran: bool, failed: bool)   // ctx.Err() has been read
    | Marked(trig: Trigger, ran: bool, failed: bool)                    // the latch has been set

  /** How one run ended, seen from outside: cut off by the death of the process or not, interrupted or
      not, and whether a write of its record was attempted. */
  datatype Ending = Ending(trig: Trigger, died: bool, cancelled: bool, ran: bool, failed: bool, write: Option<WriteResult>)

  /** `history` lists the endings of all runs over all lives of the container, this life's from
      `lifeStart` on; `boot` is the marker this life began with. */
  datatype State = State(latch: Latch, cancelled: bool, exec: Executor, stamp: Option<RunRecord>,
                         history: seq<Ending>, lifeStart: nat, boot: bool)

  datatype Step =
    | Start(trig: Trigger)
    | Finish(ran: bool, failed: bool)
    | ReadContext
    | SetMarker
    | WriteStamp(w: WriteResult)
    | Cancel
    | Drain
    | Restart(mode: Mode, now: int)   // the old process may have died anywhere

  function Boot(mode: Mode, now: int, stamp: Option<RunRecord>): bool {
    match mode
    case Builtin(interval) => BootHealthy(stamp, interval, now)
    case ExternalMode => true
  }

  /** What the death of the process leaves of the run in progress. */
  function CutShort(exec: Executor): seq<Ending> {
    match exec
    case Finished(trig, ran, failed) => [Ending(trig, true, false, ran, failed, None)]
    case Judged(trig, cancelled, ran, failed) => [Ending(trig, true, cancelled, ran, failed, None)]
    case Marked(trig, ran, failed) => [Ending(trig, true, false, ran, failed, None)]
    case _ => []
  }

  function MarkNext(s: State): State
    requires s.exec.Judged?
  {
    var run := s.exec;
    match JobHealthSignal(run.cancelled, run.ran, run.failed)
    case Untouched =>
      s.(exec := Waiting, history := s.history + [Ending(run.trig, false, run.cancelled, run.ran, run.failed, None)])
    case Set(h) => s.(exec := Marked(run.trig, run.ran, run.failed), latch := s.latch.Set(h))
  }

  function StampNext(s: State, w: WriteResult): State
    requires s.exec.Marked?
  {
    var run := s.exec;
    var write := if Scheduled(run.trig) then Some(w) else None;
    s.(exec := Waiting,
       stamp := if Scheduled(run.trig) then Stamped(s.stamp, !run.failed, w) else s.stamp,
       history := s.history + [Ending(run.trig, false, false, run.ran, run.failed, write)])
  }

  /** One step; a step that cannot happen changes nothing. */
  function Next(s: State, step: Step): State {
    match step
    case Start(trig) => if s.exec.Waiting? then s.(exec := Running(trig)) else s
    case Finish(ran, failed) => if s.exec.Running? then s.(exec := Finished(s.exec.trig, ran, failed)) else s
    case ReadContext =>
      if s.exec.Finished? then s.(exec := Judged(s.exec.trig, s.cancelled, s.exec.ran, s.exec.failed)) else s
    case SetMarker => if s.exec.Judged? then MarkNext(s) else s
    case WriteStamp(w) => if s.exec.Marked? then StampNext(s, w) else s
    case Cancel => s.(cancelled := true)
    case Drain => if s.cancelled then s.(latch := s.latch.BeginDrain()) else s
    case Restart(mode, now) =>
      var boot := Boot(mode, now, s.stamp);
      var history := s.history + CutShort(s.exec);
      State(Latch(boot, false), false, Waiting, s.stamp, history, |history|, boot)
  }

  /** The first life: nothing recorded yet. */
  function First(mode: Mode, now: int): State {
    State(Latch(Boot(mode, now, None), false), false, Waiting, None, [], 0, Boot(mode, now, None))
  }

  function Run(mode: Mode, now: int, steps: seq<Step>): State {
    if steps == [] then First(mode, now) else Next(Run(mode, now, steps[..|steps| - 1]), steps[|steps| - 1])
  }

  // ----- what every run keeps -----

  /** The record the last successful write of any life left. */
  function LastRecorded(h: seq<Ending>): Option<RunRecord> {
    if h == [] then None
    else
      var e := h[|h| - 1];
      match e.write
      case Some(Written(time)) => Some(RunRecord(!e.failed, time))
      case _ => LastRecorded(h[..|h| - 1])
  }

  /** The outcome of the last run that completed, whatever started it. */
  function LastOutcome(h: seq<Ending>, boot: bool): bool {
    if h == [] then boot
    else
      var e := h[|h| - 1];
      if !e.died && Completes(e.cancelled, e.ran, e.failed) then !e.failed else LastOutcome(h[..|h| - 1], boot)
  }

  /** A run whose outcome is on the marker but not yet on the record. */
  function Pending(exec: Executor): seq<Ending> {
    if exec.Marked? then [Ending(exec.trig, false, false, exec.ran, exec.failed, None)] else []
  }

  ghost predicate Inv(s: State) {
    && (s.latch.draining ==> s.cancelled)
    && s.lifeStart <= |s.history|
    && (s.exec.Marked? ==> Completes(false, s.exec.ran, s.exec.failed))
    && s.stamp == LastRecorded(s.history)
    && s.latch.healthy == (LastOutcome(s.history[s.lifeStart..] + Pending(s.exec), s.boot) && !s.latch.draining)
    && (forall i :: 0 <= i < |s.history| ==>
          var e := s.history[i];
          e.write.Some? <==> !e.died && Scheduled(e.trig) && Completes(e.cancelled, e.ran, e.failed))
  }

  lemma {:induction false} OutcomeAppend(h: seq<Ending>, e: Ending, boot: bool)
    ensures LastOutcome(h + [e], boot)
            == if !e.died && Completes(e.cancelled, e.ran, e.failed) then !e.failed else LastOutcome(h, boot)
    ensures LastRecorded(h + [e])
            == match e.write case Some(Written(time)) => Some(RunRecord(!e.failed, time)) case _ => LastRecorded(h)
  {
    assert (h + [e])[..|h|] == h;
  }

  lemma {:induction false} StepKeepsInv(s: State, step: Step)
    requires Inv(s)
    ensures Inv(Next(s, step))
  {
    hide LastOutcome, LastRecorded;
    var life := s.history[s.lifeStart..];
    assert life + [] == life;
    match step
    case SetMarker =>
      if s.exec.Judged? {
        var run := s.exec;
        var e := Ending(run.trig, false, run.cancelled, run.ran, run.failed, None);
        assert (s.history + [e])[s.lifeStart..] == life + [e];
        OutcomeAppend(life, e, s.boot);
        OutcomeAppend(s.history, e, s.boot);
        assert life + [e] + [] == life + [e];
      }
    case WriteStamp(w) =>
      if s.exec.Marked? {
        var run := s.exec;
        var e := Ending(run.trig, false, false, run.ran, run.failed, if Scheduled(run.trig) then Some(w) else None);
        assert (s.history + [e])[s.lifeStart..] == life + [e];
        OutcomeAppend(life, e, s.boot);
        OutcomeAppend(life, Pending(run)[0], s.boot);
        OutcomeAppend(s.history, e, s.boot);
        assert life + [e] + [] == life + [e];
      }
    case Restart(mode, now) =>
      RestartKeepsInv(s, mode, now);
    case _ =>
  }

  lemma {:induction false} RestartKeepsInv(s: State, mode: Mode, now: int)
    requires Inv(s)
    ensures Inv(Next(s, Restart(mode, now)))
  {
    hide LastRecorded;
    var t := Next(s, Restart(mode, now));
    assert t.history[t.lifeStart..] + Pending(t.exec) == [];
    if CutShort(s.exec) == [] {
      assert t.history == s.history;
    } else {
      OutcomeAppend(s.history, CutShort(s.exec)[0], s.boot);
    }
  }

  lemma {:induction false} RunsKeepInv(mode: Mode, now: int, steps: seq<Step>)
    ensures Inv(Run(mode, now, steps))
  {
    hide Next, Inv;
    if steps == [] {
      FirstInv(mode, now);
    } else {
      RunsKeepInv(mode, now, steps[..|steps| - 1]);
      StepKeepsInv(Run(mode, now, steps[..|steps| - 1]), steps[|steps| - 1]);
    }
  }

  lemma {:induction false} FirstInv(mode: Mode, now: int)
    ensures Inv(First(mode, now))
  {
  }

  // ----- what the steps of a run say -----

  /** The process of step `i` is still the one at the end. */
  predicate SameLife(steps: seq<Step>, i: nat) {
    forall j :: i < j < |steps| ==> !steps[j].Restart?
  }

  /** A shutdown signal has reached the present process. */
  predicate CancelledNow(steps: seq<Step>) {
    exists i :: 0 <= i < |steps| && steps[i] == Cancel && SameLife(steps, i)
  }

  /** The present process has begun to drain, which it does on a signal only. */
  predicate Drained(steps: seq<Step>) {
    exists i :: 0 <= i < |steps| && steps[i] == Drain && CancelledNow(steps[..i]) && SameLife(steps, i)
  }

  lemma {:induction false} LifeGoesOn(steps: seq<Step>)
    requires steps != []
    ensures var r, step := steps[..|steps| - 1], steps[|steps| - 1];
            && (CancelledNow(steps) <==> !step.Restart? && (step == Cancel || CancelledNow(r)))
            && (Drained(steps) <==> !step.Restart? && ((step == Drain && CancelledNow(r)) || Drained(r)))
  {
    var n := |steps| - 1;
    var r := steps[..n];
    assert forall i :: 0 <= i < n ==> r[i] == steps[i] && r[..i] == steps[..i];
    assert forall i :: 0 <= i < n ==> (SameLife(steps, i) <==> SameLife(r, i) && !steps[n].Restart?) by {
      forall i | 0 <= i < n && SameLife(steps, i) ensures SameLife(r, i) && !steps[n].Restart? {
        assert forall j :: i < j < n ==> !steps[j].Restart?;
      }
    }
    assert SameLife(steps, n);
    if CancelledNow(r) && !steps[n].Restart? {
      var i :| 0 <= i < n && r[i] == Cancel && SameLife(r, i);
      assert steps[i] == Cancel && SameLife(steps, i);
    }
    if Drained(r) && !steps[n].Restart? {
      var i :| 0 <= i < n && r[i] == Drain && CancelledNow(r[..i]) && SameLife(r, i);
      assert steps[i] == Drain && CancelledNow(steps[..i]) && SameLife(steps, i);
    }
  }

  /** The context and the drain as the model's state knows them are those of the steps. */
  lemma {:induction false} StateKnowsLife(mode: Mode, now: int, steps: seq<Step>)
    ensures Run(mode, now, steps).cancelled <==> CancelledNow(steps)
    ensures Run(mode, now, steps).latch.draining <==> Drained(steps)
  {
    hide CancelledNow, Drained;
    if steps == [] {
      NoLife();
    } else {
      LifeGoesOn(steps);
      StateKnowsLife(mode, now, steps[..|steps| - 1]);
    }
  }

  lemma {:induction false} NoLife()
    ensures !CancelledNow([]) && !Drained([])
  {
  }

  /** In every interleaving of runs, shutdown and restarts, the marker is the outcome of this life's
      last completed run (or the boot call), and is never healthy once this life has begun to drain,
      however late a run that was judged before the shutdown reaches the latch. */
  lemma {:induction false} MarkerFollowsOutcomes(mode: Mode, now: int, steps: seq<Step>)
    ensures var s := Run(mode, now, steps);
            && s.lifeStart <= |s.history|
            && s.latch.healthy == (LastOutcome(s.history[s.lifeStart..] + Pending(s.exec), s.boot) && !Drained(steps))
  {
    hide Run, Drained;
    RunsKeepInv(mode, now, steps);
    StateKnowsLife(mode, now, steps);
  }

  /** Once a drain step follows a signal in one life, no later step of that life makes the marker
      healthy. */
  lemma {:induction false} DrainStaysUnhealthy(mode: Mode, now: int, a: seq<Step>, b: seq<Step>)
    requires exists i :: 0 <= i < |a| && a[i] == Cancel && forall j :: i < j < |a| ==> !a[j].Restart?
    requires forall j :: 0 <= j < |b| ==> !b[j].Restart?
    ensures !Run(mode, now, a + [Drain] + b).latch.healthy
  {
    hide Run;
    var steps := a + [Drain] + b;
    var i :| 0 <= i < |a| && a[i] == Cancel && forall j :: i < j < |a| ==> !a[j].Restart?;
    assert SameLife(a, i) && steps[..|a|] == a && steps[|a|] == Drain;
    forall j | |a| < j < |steps| ensures !steps[j].Restart? {
      assert steps[j] == b[j - |a| - 1];
    }
    assert SameLife(steps, |a|);
    MarkerFollowsOutcomes(mode, now, steps);
  }

  /** Some step of the run read the context when `i` runs had ended and this one had finished with this
      outcome, and the signal had then reached the process or not, as `cancelled` says. */
  predicate JudgedBy(mode: Mode, now: int, steps: seq<Step>, i: int, trig: Trigger, cancelled: bool, ran: bool,
                     failed: bool)
  {
    exists k :: 0 <= k < |steps| && steps[k] == ReadContext
                && Run(mode, now, steps[..k]).exec == Finished(trig, ran, failed)
                && |Run(mode, now, steps[..k]).history| == i
                && (cancelled <==> CancelledNow(steps[..k]))
  }

  lemma {:induction false} JudgedStays(mode: Mode, now: int, steps: seq<Step>, i: int, trig: Trigger, cancelled: bool,
                                       ran: bool, failed: bool)
    requires steps != [] && JudgedBy(mode, now, steps[..|steps| - 1], i, trig, cancelled, ran, failed)
    ensures JudgedBy(mode, now, steps, i, trig, cancelled, ran, failed)
  {
    hide Run, CancelledNow;
    var r := steps[..|steps| - 1];
    var k :| 0 <= k < |r| && r[k] == ReadContext
             && Run(mode, now, r[..k]).exec == Finished(trig, ran, failed)
             && |Run(mode, now, r[..k]).history| == i
             && (cancelled <==> CancelledNow(r[..k]));
    assert r[..k] == steps[..k] && r[k] == steps[k];
  }

  ghost predicate AllJudged(mode: Mode, now: int, steps: seq<Step>, s: State) {
    && (forall i :: 0 <= i < |s.history| ==>
          var e := s.history[i]; e.died || JudgedBy(mode, now, steps, i, e.trig, e.cancelled, e.ran, e.failed))
    && (s.exec.Judged? ==>
          JudgedBy(mode, now, steps, |s.history|, s.exec.trig, s.exec.cancelled, s.exec.ran, s.exec.failed))
    && (s.exec.Marked? ==> JudgedBy(mode, now, steps, |s.history|, s.exec.trig, false, s.exec.ran, s.exec.failed))
  }

  lemma {:induction false} AllJudgedStays(mode: Mode, now: int, steps: seq<Step>, s: State)
    requires steps != [] && AllJudged(mode, now, steps[..|steps| - 1], s)
    ensures AllJudged(mode, now, steps, s)
  {
    hide JudgedBy;
    var r := steps[..|steps| - 1];
    forall i, trig, cancelled, ran, failed | JudgedBy(mode, now, r, i, trig, cancelled, ran, failed)
      ensures JudgedBy(mode, now, steps, i, trig, cancelled, ran, failed)
    {
      JudgedStays(mode, now, steps, i, trig, cancelled, ran, failed);
    }
  }

  lemma {:induction false} NextJudged(mode: Mode, now: int, steps: seq<Step>, s: State, step: Step)
    requires AllJudged(mode, now, steps, s)
    requires step == ReadContext && s.exec.Finished? ==>
               JudgedBy(mode, now, steps, |s.history|, s.exec.trig, s.cancelled, s.exec.ran, s.exec.failed)
    ensures AllJudged(mode, now, steps, Next(s, step))
  {
    hide JudgedBy;
  }

  /** Every run that ended on its own was judged once, after it finished, by the context of its own
      process: it is on record as interrupted exactly when a signal had reached that process by then. */
  lemma {:induction false} RunsJudgedByContext(mode: Mode, now: int, steps: seq<Step>)
    ensures AllJudged(mode, now, steps, Run(mode, now, steps))
  {
    hide AllJudged, Next, CancelledNow, JudgedBy;
    if steps == [] {
      NothingJudged(mode, now);
    } else {
      var r, step := steps[..|steps| - 1], steps[|steps| - 1];
      var s := Run(mode, now, r);
      RunsJudgedByContext(mode, now, r);
      StateKnowsLife(mode, now, r);
      AllJudgedStays(mode, now, steps, s);
      if step == ReadContext && s.exec.Finished? {
        JudgedHere(mode, now, steps, s);
      }
      NextJudged(mode, now, steps, s, step);
    }
  }

  lemma {:induction false} NothingJudged(mode: Mode, now: int)
    ensures AllJudged(mode, now, [], First(mode, now))
  {
  }

  lemma {:induction false} JudgedHere(mode: Mode, now: int, steps: seq<Step>, s: State)
    requires steps != [] && steps[|steps| - 1] == ReadContext
    requires s == Run(mode, now, steps[..|steps| - 1]) && s.exec.Finished?
    requires s.cancelled <==> CancelledNow(steps[..|steps| - 1])
    ensures JudgedBy(mode, now, steps, |s.history|, s.exec.trig, s.cancelled, s.exec.ran, s.exec.failed)
  {
    hide Run, CancelledNow;
    var k := |steps| - 1;
    assert steps[k] == ReadContext && Run(mode, now, steps[..k]) == s;
  }

  lemma {:induction false} RunNext(mode: Mode, now: int, steps: seq<Step>, step: Step)
    ensures Run(mode, now, steps + [step]) == Next(Run(mode, now, steps), step)
  {
    hide Next;
    assert (steps + [step])[..|steps|] == steps;
  }

  lemma {:induction false} RunThree(mode: Mode, now: int, steps: seq<Step>, a: Step, b: Step, c: Step)
    ensures Run(mode, now, steps + [a, b, c]) == Next(Next(Next(Run(mode, now, steps), a), b), c)
  {
    hide Next, Run;
    RunNext(mode, now, steps, a);
    RunNext(mode, now, steps + [a], b);
    RunNext(mode, now, steps + [a] + [b], c);
    assert steps + [a] + [b] + [c] == steps + [a, b, c];
  }

  /** A run that finishes behind a signal of its own life leaves marker and record alone. */
  lemma {:induction false} InterruptedRunUnwritten(mode: Mode, now: int, steps: seq<Step>, w: WriteResult)
    requires CancelledNow(steps) && Run(mode, now, steps).exec.Finished?
    ensures var s, t := Run(mode, now, steps), Run(mode, now, steps + [ReadContext, SetMarker, WriteStamp(w)]);
            t.latch == s.latch && t.stamp == s.stamp && t.exec == Waiting
  {
    hide CancelledNow, Run;
    StateKnowsLife(mode, now, steps);
    RunThree(mode, now, steps, ReadContext, SetMarker, WriteStamp(w));
  }

  /** Over any sequence of runs and restarts the record is the outcome of the last run whose write
      succeeded, and exactly the startup and interval runs that completed attempt one. */
  lemma {:induction false} RecordFollowsScheduledRuns(mode: Mode, now: int, steps: seq<Step>)
    ensures var s := Run(mode, now, steps);
            && s.stamp == LastRecorded(s.history)
            && (forall i :: 0 <= i < |s.history| ==>
                  var e := s.history[i];
                  e.write.Some? <==> !e.died && e.trig != External && !e.cancelled && (e.ran || e.failed))
  {
    hide Run;
    RunsKeepInv(mode, now, steps);
  }

  /** A restart in built-in mode is healthy exactly when the last recorded scan succeeded less than an
      interval ago; then, and only when such a record of either outcome exists, no startup scan is due. */
  lemma {:induction false} BootFollowsRecord(mode: Mode, now: int, steps: seq<Step>, interval: int, later: int)
    ensures var s := Run(mode, now, steps);
            var t := Next(s, Restart(Builtin(interval), later));
            var last := LastRecorded(s.history);
            && (t.latch.healthy <==> last.Some? && last.value.ok && later - last.value.time < interval)
            && (DueAt(t.stamp, interval, later) <==> last == None || later - last.value.time >= interval)
            && (t.latch.healthy ==> !DueAt(t.stamp, interval, later))
  {
    hide Run;
    RunsKeepInv(mode, now, steps);
  }

  /** The first life, and every restart, in external mode begins healthy; the first one in built-in
      mode does not. */
  lemma {:induction false} BootByMode(s: State, interval: int, now: int)
    ensures First(ExternalMode, now).latch.healthy && Next(s, Restart(ExternalMode, now)).latch.healthy
    ensures !First(Builtin(interval), now).latch.healthy
  {
  }

  /** From trigger to record, when nothing comes between: a run that is neither interrupted nor skipped
      sets the marker, and the record as well unless it was requested from outside. */
  lemma {:induction false} WholeRunRouted(mode: Mode, now: int, steps: seq<Step>, trig: Trigger, ran: bool, failed: bool,
                                          time: int)
    requires Run(mode, now, steps).exec == Waiting
    ensures var s := Run(mode, now, steps);
            var t := Run(mode, now, steps + [Start(trig), Finish(ran, failed), ReadContext]
                                    + [SetMarker, WriteStamp(Written(time))]);
            && t.exec == Waiting
            && (!CancelledNow(steps) && (ran || failed) ==>
                  t.latch.healthy == (!failed && !Drained(steps))
                  && t.stamp == if trig == External then s.stamp else Some(RunRecord(!failed, time)))
            && (CancelledNow(steps) || (!ran && !failed) ==> t.latch == s.latch && t.stamp == s.stamp)
  {
    hide CancelledNow, Drained, Run;
    var three := steps + [Start(trig), Finish(ran, failed), ReadContext];
    StateKnowsLife(mode, now, steps);
    RunThree(mode, now, steps, Start(trig), Finish(ran, failed), ReadContext);
    RunNext(mode, now, three, SetMarker);
    RunNext(mode, now, three + [SetMarker], WriteStamp(Written(time)));
    assert three + [SetMarker, WriteStamp(Written(time))] == three + [SetMarker] + [WriteStamp(Written(time))];
  }
}
