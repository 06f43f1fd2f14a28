/** The scan lock and the report files on a shared /cache, as steps of any number of processes. A
    process may stop at any point: the kernel then drops its lock and its files stay behind. */
module CacheLock {
  import opened Options

  type Pid = nat
  type FileName = nat

  /** The order in which a job's two deferred calls run when it returns. */
  datatype Deferred = RemoveThenUnlock | UnlockThenRemove

  datatype Phase =
    | Idle
    | Locked                                              // a job with the lock and no report yet
    | Scanning(file: FileName)                            // scan, decode and action run on the report
    | Returning(file: FileName)                           // the job is over, its deferred calls are not
    | Leaving                                             // only the deferred unlock is left
    | Unlocked(file: FileName)                            // only the deferred remove is left
    | SweepLocked
    | Sweeping(todo: set<FileName>, left: set<FileName>)  // matches still to unlink, and those that would not go

  /** `crashes` and `failures` count the two ways a report can be left behind. */
  datatype State = State(lock: Option<Pid>, files: set<FileName>, procs: map<Pid, Phase>, crashes: nat, failures: nat) {
    function PhaseOf(p: Pid): Phase {
      if p in procs then procs[p] else Idle
    }

    function To(p: Pid, phase: Phase): State {
      this.(procs := procs[p := phase])
    }

    function Released(p: Pid): State {
      if lock == Some(p) then this.(lock := None) else this
    }
  }

  const EMPTY_CACHE := State(None, {}, map[], 0, 0)

  datatype Step =
    | TryLock(p: Pid, sweep: bool)          // a scan job or the startup sweep; skips when the lock is taken
    | FailEarly(p: Pid)                     // bad arguments, or no temp file: only the unlock is deferred
    | CreateReport(p: Pid, f: FileName)     // a name no present file has; removed names may come back
    | Return(p: Pid)
    | RemoveReport(p: Pid, ok: bool)
    | Unlock(p: Pid)
    | Glob(p: Pid)
    | Unlink(p: Pid, f: FileName, ok: bool)
    | Crash(p: Pid)

  predicate Enabled(order: Deferred, s: State, step: Step) {
    match step
    case TryLock(p, _) => s.PhaseOf(p).Idle?
    case FailEarly(p) => s.PhaseOf(p).Locked?
    case CreateReport(p, f) => s.PhaseOf(p).Locked? && f !in s.files
    case Return(p) => s.PhaseOf(p).Scanning?
    case RemoveReport(p, _) => if order.RemoveThenUnlock? then s.PhaseOf(p).Returning? else s.PhaseOf(p).Unlocked?
    case Unlock(p) =>
      || s.PhaseOf(p).Leaving? || (s.PhaseOf(p).Sweeping? && s.PhaseOf(p).todo == {})
      || (order.UnlockThenRemove? && s.PhaseOf(p).Returning?)
    case Glob(p) => s.PhaseOf(p).SweepLocked?
    case Unlink(p, f, _) => s.PhaseOf(p).Sweeping? && f in s.PhaseOf(p).todo
    case Crash(p) => !s.PhaseOf(p).Idle?
  }

  function Apply(order: Deferred, s: State, step: Step): State
    requires Enabled(order, s, step)
  {
    match step
    case TryLock(p, sweep) =>
      if s.lock == None then s.(lock := Some(p)).To(p, if sweep then SweepLocked else Locked) else s
    case FailEarly(p) => s.To(p, Leaving)
    case CreateReport(p, f) => s.(files := s.files + {f}).To(p, Scanning(f))
    case Return(p) => s.To(p, Returning(s.PhaseOf(p).file))
    case RemoveReport(p, ok) =>
      var next := if order.RemoveThenUnlock? then Leaving else Idle;
      if ok then s.(files := s.files - {s.PhaseOf(p).file}).To(p, next)
      else s.(failures := s.failures + 1).To(p, next)
    case Unlock(p) =>
      s.Released(p).To(p, if s.PhaseOf(p).Returning? then Unlocked(s.PhaseOf(p).file) else Idle)
    case Glob(p) => s.To(p, Sweeping(s.files, {}))
    case Unlink(p, f, ok) =>
      var sweep := s.PhaseOf(p);
      if ok then s.(files := s.files - {f}).To(p, Sweeping(sweep.todo - {f}, sweep.left))
      else s.To(p, Sweeping(sweep.todo - {f}, sweep.left + {f}))
    case Crash(p) => s.(crashes := s.crashes + 1).Released(p).To(p, Idle)
  }

  function After(order: Deferred, s: State, step: Step): State {
    if Enabled(order, s, step) then Apply(order, s, step) else s
  }

  /** Any interleaving: steps that cannot happen are passed over. */
  function Run(order: Deferred, steps: seq<Step>): State {
    if steps == [] then EMPTY_CACHE else After(order, Run(order, steps[..|steps| - 1]), steps[|steps| - 1])
  }

  // ----- what every run keeps -----

  /** Between TryLock and Unlock. */
  predicate InsideLock(phase: Phase) {
    !phase.Idle? && !phase.Unlocked?
  }

  predicate HasReport(phase: Phase) {
    phase.Scanning? || phase.Returning?
  }

  /** The process inside the lock is the lock's holder. */
  ghost predicate HolderInside(s: State) {
    forall p: Pid :: InsideLock(s.PhaseOf(p)) <==> s.lock == Some(p)
  }

  /** No report disappears under the job that works on it. */
  ghost predicate ReportsPresent(s: State) {
    forall p: Pid :: HasReport(s.PhaseOf(p)) ==> s.PhaseOf(p).file in s.files
  }

  /** A sweep sees every report there is: those it has yet to unlink and those it failed to. */
  ghost predicate SweepsExact(s: State) {
    forall p: Pid :: s.PhaseOf(p).Sweeping? ==>
        s.files == s.PhaseOf(p).todo + s.PhaseOf(p).left && s.PhaseOf(p).todo !! s.PhaseOf(p).left
  }

  ghost predicate Inv(s: State) {
    HolderInside(s) && ReportsPresent(s) && SweepsExact(s) && forall p: Pid :: !s.PhaseOf(p).Unlocked?
  }

  /** The process that takes a step. */
  function Actor(step: Step): Pid {
    step.p
  }

  /** Nobody but the actor changes phase. */
  lemma {:induction false} OthersKeepPhase(order: Deferred, s: State, step: Step, q: Pid)
    requires Enabled(order, s, step) && q != Actor(step)
    ensures Apply(order, s, step).PhaseOf(q) == s.PhaseOf(q)
  {
  }

  lemma {:induction false} StepKeepsHolder(s: State, step: Step)
    requires Inv(s) && Enabled(RemoveThenUnlock, s, step)
    ensures HolderInside(Apply(RemoveThenUnlock, s, step))
    ensures forall p: Pid :: !Apply(RemoveThenUnlock, s, step).PhaseOf(p).Unlocked?
  {
    var t := Apply(RemoveThenUnlock, s, step);
    forall q: Pid ensures (InsideLock(t.PhaseOf(q)) <==> t.lock == Some(q)) && !t.PhaseOf(q).Unlocked? {
      if q != Actor(step) {
        OthersKeepPhase(RemoveThenUnlock, s, step, q);
      }
    }
  }

  lemma {:induction false} StepKeepsReports(s: State, step: Step)
    requires Inv(s) && Enabled(RemoveThenUnlock, s, step)
    ensures ReportsPresent(Apply(RemoveThenUnlock, s, step)) && SweepsExact(Apply(RemoveThenUnlock, s, step))
  {
    var t := Apply(RemoveThenUnlock, s, step);
    var p := Actor(step);
    forall q: Pid
      ensures HasReport(t.PhaseOf(q)) ==> t.PhaseOf(q).file in t.files
      ensures t.PhaseOf(q).Sweeping? ==>
                t.files == t.PhaseOf(q).todo + t.PhaseOf(q).left && t.PhaseOf(q).todo !! t.PhaseOf(q).left
    {
      if q != p {
        OthersKeepPhase(RemoveThenUnlock, s, step, q);
        // Only a process inside the lock touches files, and then no other one has a report or sweeps.
        assert InsideLock(s.PhaseOf(p)) ==> !InsideLock(s.PhaseOf(q));
      }
    }
  }

  /** The safety of the cache over every interleaving of any number of processes: the one process
      inside the lock is its holder, every live report is present, and a sweep accounts for every file. */
  lemma {:induction false} RunsSafe(steps: seq<Step>)
    ensures Inv(Run(RemoveThenUnlock, steps))
  {
    hide Apply, Enabled, Inv;
    if steps == [] {
      EmptySafe();
    } else {
      var s := Run(RemoveThenUnlock, steps[..|steps| - 1]);
      var step := steps[|steps| - 1];
      RunsSafe(steps[..|steps| - 1]);
      if Enabled(RemoveThenUnlock, s, step) {
        StepSafe(s, step);
      }
    }
  }

  lemma {:induction false} EmptySafe()
    ensures Inv(EMPTY_CACHE)
  {
  }

  lemma {:induction false} StepSafe(s: State, step: Step)
    requires Inv(s) && Enabled(RemoveThenUnlock, s, step)
    ensures Inv(Apply(RemoveThenUnlock, s, step))
  {
    hide Apply, Enabled;
    StepKeepsHolder(s, step);
    StepKeepsReports(s, step);
  }

  /** At most one process is between lock and unlock. */
  lemma {:induction false} MutualExclusion(steps: seq<Step>, p: Pid, q: Pid)
    requires InsideLock(Run(RemoveThenUnlock, steps).PhaseOf(p)) && InsideLock(Run(RemoveThenUnlock, steps).PhaseOf(q))
    ensures p == q
  {
    hide Run;
    RunsSafe(steps);
  }

  /** Whatever file a step deletes, no other process has a live report by that name. */
  lemma {:induction false} DeletionsSpareLiveReports(steps: seq<Step>, step: Step, f: FileName, q: Pid)
    requires var s := Run(RemoveThenUnlock, steps);
             Enabled(RemoveThenUnlock, s, step) && f in s.files && f !in Apply(RemoveThenUnlock, s, step).files
    requires q != Actor(step)
    ensures !HasReport(Run(RemoveThenUnlock, steps).PhaseOf(q))
  {
    hide Run;
    RunsSafe(steps);
  }

  /** A sweep that unlinked everything it matched leaves no report behind. */
  lemma {:induction false} CompleteSweepEmpties(steps: seq<Step>, p: Pid)
    requires Run(RemoveThenUnlock, steps).PhaseOf(p) == Sweeping({}, {})
    ensures Run(RemoveThenUnlock, steps).files == {}
  {
    hide Run;
    RunsSafe(steps);
  }

  // ----- how many reports can be left behind -----

  /** One for each crash, one for each failed removal, and the one a job still works on. */
  ghost predicate OrphansBounded(s: State) {
    |s.files| <= s.crashes + s.failures + (if s.lock.Some? && HasReport(s.PhaseOf(s.lock.value)) then 1 else 0)
  }

  lemma {:induction false} StepBoundsOrphans(s: State, step: Step)
    requires Inv(s) && Enabled(RemoveThenUnlock, s, step) && OrphansBounded(s)
    ensures OrphansBounded(Apply(RemoveThenUnlock, s, step))
  {
    var t := Apply(RemoveThenUnlock, s, step);
    var p := Actor(step);
    assert InsideLock(s.PhaseOf(p)) <==> s.lock == Some(p);
    StepKeepsHolder(s, step);
    assert InsideLock(t.PhaseOf(p)) <==> t.lock == Some(p);
    if s.lock.Some? && s.lock.value != p {
      OthersKeepPhase(RemoveThenUnlock, s, step, s.lock.value);
    }
  }

  /** Reports never pile up but by crashes and failed removals. */
  lemma {:induction false} RunsBoundOrphans(steps: seq<Step>)
    ensures OrphansBounded(Run(RemoveThenUnlock, steps))
  {
    hide Apply, Enabled, Inv, OrphansBounded;
    if steps == [] {
      assert OrphansBounded(EMPTY_CACHE) by { NoOrphans(); }
    } else {
      var s := Run(RemoveThenUnlock, steps[..|steps| - 1]);
      var step := steps[|steps| - 1];
      RunsBoundOrphans(steps[..|steps| - 1]);
      RunsSafe(steps[..|steps| - 1]);
      if Enabled(RemoveThenUnlock, s, step) {
        StepBoundsOrphans(s, step);
      }
    }
  }

  lemma {:induction false} NoOrphans()
    ensures OrphansBounded(EMPTY_CACHE)
  {
  }

  // ----- what a process can do undisturbed -----

  function AfterAll(s: State, steps: seq<Step>): State {
    if steps == [] then s else After(RemoveThenUnlock, AfterAll(s, steps[..|steps| - 1]), steps[|steps| - 1])
  }

  lemma {:induction false} AfterMore(s: State, steps: seq<Step>, step: Step)
    ensures AfterAll(s, steps + [step]) == After(RemoveThenUnlock, AfterAll(s, steps), step)
    ensures AfterAll(s, []) == s
  {
    hide After;
    assert (steps + [step])[..|steps|] == steps;
  }

  /** A job that finds the lock free and is not disturbed gives the lock back and leaves the cache as it
      found it, wherever it ends. */
  lemma {:induction false} JobLeavesCache(s: State, p: Pid, f: FileName)
    requires s.lock == None && s.PhaseOf(p).Idle? && f !in s.files
    ensures var held := AfterAll(s, [TryLock(p, false)]); held.lock == Some(p) && held.files == s.files
    ensures var t := AfterAll(s, [TryLock(p, false)] + [FailEarly(p)] + [Unlock(p)]);
            t.lock == None && t.files == s.files && t.PhaseOf(p).Idle?
    ensures var working := AfterAll(s, [TryLock(p, false)] + [CreateReport(p, f)]);
            working.files == s.files + {f} && working.PhaseOf(p) == Scanning(f)
    ensures var working := [TryLock(p, false)] + [CreateReport(p, f)];
            var t := AfterAll(s, working + [Return(p)] + [RemoveReport(p, true)] + [Unlock(p)]);
            t.lock == None && t.files == s.files && t.PhaseOf(p).Idle?
  {
    hide AfterAll;
    var a, b, c := [TryLock(p, false)], [TryLock(p, false)] + [FailEarly(p)], [TryLock(p, false)] + [CreateReport(p, f)];
    AfterMore(s, [], TryLock(p, false));
    assert [] + [TryLock(p, false)] == a;
    AfterMore(s, a, FailEarly(p));
    AfterMore(s, b, Unlock(p));
    AfterMore(s, a, CreateReport(p, f));
    AfterMore(s, c, Return(p));
    AfterMore(s, c + [Return(p)], RemoveReport(p, true));
    AfterMore(s, c + [Return(p)] + [RemoveReport(p, true)], Unlock(p));
  }

  /** A taken lock is no wait: the attempt changes nothing, for a job and for a sweep alike. And the
      death of its holder frees the lock and leaves the files. */
  lemma {:induction false} LockTakenOrFreed(s: State, p: Pid, q: Pid, sweep: bool)
    requires s.lock == Some(p) && !s.PhaseOf(p).Idle?
    ensures After(RemoveThenUnlock, s, TryLock(q, sweep)) == s
    ensures var t := After(RemoveThenUnlock, s, Crash(p)); t.lock == None && t.files == s.files && t.PhaseOf(p).Idle?
  {
  }

  /** A sweep that has the lock can always finish: there are steps of its own that remove every file it
      has yet to unlink, and then give the lock back. */
  lemma {:induction false} SweepFinishes(s: State, p: Pid) returns (steps: seq<Step>)
    requires s.lock == Some(p) && s.PhaseOf(p).Sweeping?
    ensures forall i :: 0 <= i < |steps| ==> Actor(steps[i]) == p
    ensures AfterAll(s, steps).files == s.files - s.PhaseOf(p).todo
    ensures AfterAll(s, steps).lock == None && AfterAll(s, steps).PhaseOf(p).Idle?
    decreases s.PhaseOf(p).todo
  {
    hide AfterAll;
    if s.PhaseOf(p).todo == {} {
      steps := [] + [Unlock(p)];
      AfterMore(s, [], Unlock(p));
    } else {
      var f :| f in s.PhaseOf(p).todo;
      var t := After(RemoveThenUnlock, s, Unlink(p, f, true));
      var rest := SweepFinishes(t, p);
      steps := [Unlink(p, f, true)] + rest;
      AfterFirst(s, Unlink(p, f, true), rest);
    }
  }

  lemma {:induction false} AfterFirst(s: State, step: Step, rest: seq<Step>)
    ensures AfterAll(s, [step] + rest) == AfterAll(After(RemoveThenUnlock, s, step), rest)
  {
    hide After;
    if rest == [] {
      assert [step] + rest == [] + [step];
      AfterMore(s, [], step);
      AfterMore(After(RemoveThenUnlock, s, step), [], step);
    } else {
      var n := |rest| - 1;
      assert ([step] + rest)[..n + 1] == [step] + rest[..n];
      AfterFirst(s, step, rest[..n]);
    }
  }

  /** The startup sweep, from taking the free lock to giving it back, can leave the cache without a
      report whatever was left behind. */
  lemma {:induction false} SweepCanEmpty(s: State, p: Pid) returns (steps: seq<Step>)
    requires s.lock == None && s.PhaseOf(p).Idle?
    ensures AfterAll(s, steps).files == {} && AfterAll(s, steps).lock == None && AfterAll(s, steps).PhaseOf(p).Idle?
  {
    hide AfterAll;
    var locked := After(RemoveThenUnlock, s, TryLock(p, true));
    var globbed := After(RemoveThenUnlock, locked, Glob(p));
    var rest := SweepFinishes(globbed, p);
    AfterFirst(locked, Glob(p), rest);
    AfterFirst(s, TryLock(p, true), [Glob(p)] + rest);
    steps := [TryLock(p, true)] + ([Glob(p)] + rest);
  }

  // ----- the order of the deferred calls matters -----

  /** The job's lock goes first and its report stays; a sweep takes the report; another job gets the
      freed name; the first job's late remove hits it. */
  const EARLY_UNLOCK: seq<Step> := [TryLock(0, false), CreateReport(0, 7), Return(0), Unlock(0)]
  const SWEEP: seq<Step> := [TryLock(1, true), Glob(1), Unlink(1, 7, true), Unlock(1)]
  const LATE_REMOVE: seq<Step> := [TryLock(2, false), CreateReport(2, 7), TryLock(3, false), RemoveReport(0, true)]

  lemma {:induction false} FourMore(order: Deferred, done: seq<Step>, a: Step, b: Step, c: Step, d: Step)
    ensures Run(order, done + [a, b, c, d])
            == After(order, After(order, After(order, After(order, Run(order, done), a), b), c), d)
  {
    hide After;
    var all := done + [a, b, c, d];
    var n := |done|;
    assert all[..n] == done && all[..n + 1][..n] == done;
    assert all[..n + 2][..n + 1] == all[..n + 1] && all[..n + 3][..n + 2] == all[..n + 2] && all[..n + 4] == all;
    assert Run(order, all[..n + 1]) == After(order, Run(order, done), a);
    assert Run(order, all[..n + 2]) == After(order, Run(order, all[..n + 1]), b);
    assert Run(order, all[..n + 3]) == After(order, Run(order, all[..n + 2]), c);
  }

  /** With the unlock first, a job's late remove can take away a report another job is working on,
      which RunsSafe excludes for the order the job uses. */
  lemma {:induction false} UnlockFirstLosesReport()
    ensures var s := Run(UnlockThenRemove, EARLY_UNLOCK + SWEEP + LATE_REMOVE);
            s.PhaseOf(2) == Scanning(7) && 7 !in s.files
  {
    var o := UnlockThenRemove;
    FourMore(o, [], EARLY_UNLOCK[0], EARLY_UNLOCK[1], EARLY_UNLOCK[2], EARLY_UNLOCK[3]);
    FourMore(o, EARLY_UNLOCK, SWEEP[0], SWEEP[1], SWEEP[2], SWEEP[3]);
    FourMore(o, EARLY_UNLOCK + SWEEP, LATE_REMOVE[0], LATE_REMOVE[1], LATE_REMOVE[2], LATE_REMOVE[3]);
    assert [] + EARLY_UNLOCK == EARLY_UNLOCK;
  }
}
