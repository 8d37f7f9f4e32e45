/**
 The two StatusBar counters, from a bump in the worker to the number on the page.

 The worker debounces bumps into UPDATEs of the session row; an UPDATE that returns is
 published as one frame, if Redis takes it. The page throttles frames into "+N" flashes.
 */
module StatsCounters {
  import opened Prelude

  /** File changes and browser test calls. */
  datatype Counts = Counts(files: int, tests: int)

  const ZERO := Counts(0, 0)

  function Add(a: Counts, b: Counts): Counts {
    Counts(a.files + b.files, a.tests + b.tests)
  }

  /** `total` is the sum of the four, counter by counter. */
  predicate IsSum(total: Counts, a: Counts, b: Counts, c: Counts, d: Counts) {
    && total.files == a.files + b.files + c.files + d.files
    && total.tests == a.tests + b.tests + c.tests + d.tests
  }

  predicate NonNegative(c: Counts) {
    c.files >= 0 && c.tests >= 0
  }

  /** `counts` are the totals the UPDATE returned, `delta` what it added. */
  datatype StatsFrame = StatsFrame(counts: Counts, delta: Counts)

  function SumDeltas(frames: seq<StatsFrame>): Counts {
    if |frames| == 0 then ZERO
    else Add(SumDeltas(frames[..|frames| - 1]), frames[|frames| - 1].delta)
  }

  // ---------- Worker ----------

  /** A flush task: over, in its sleep, told to end in its sleep, or waiting for its UPDATE. */
  datatype Task = Done | Sleeping | Cancelled | Updating(delta: Counts)

  /**
   `tasks` are all flush tasks ever started and `current` is `_stats_flush_task`; a task it no longer names runs on.
   A teardown is `stopping` the task it cancelled until that is over, and `finalizing` while its own flush is under
   way. The last three fields are bookkeeping for the conservation law: everything bumped, the deltas of UPDATEs
   that took no effect, and those of UPDATEs that took effect without a frame to say so.
   */
  datatype Worker = Worker(
    pending: Counts, tasks: seq<Task>, current: Option<nat>, stopping: Option<nat>, finalizing: Option<Counts>,
    db: Counts, frames: seq<StatsFrame>, bumped: Counts, dropped: Counts, unannounced: Counts)

  function Fresh(base: Counts): Worker {
    Worker(ZERO, [], None, None, None, base, [], ZERO, ZERO, ZERO)
  }

  /**
   What comes of an UPDATE, cancelled or not. `Silent` has taken effect, but it raised all the same, or was cancelled
   after that, or its publication failed; `Lost` has not.
   */
  datatype UpdateResult = Published | Silent | Lost

  /** `TimerFires`, `TaskUpdate` and `TaskStops` name their task. */
  datatype WorkerStep =
    | BumpFiles(n: int)
    | BumpTests(n: int)
    | TimerFires(i: nat)
    | TaskUpdate(i: nat, result: UpdateResult)
    | TaskStops(i: nat)
    | FinalizeStats
    | FinalizeResumes
    | FinalUpdate(result: UpdateResult)

  /** `_stats_flush_task` is there and not done. */
  predicate HasTask(w: Worker) {
    w.current.Some? && w.current.value < |w.tasks| && w.tasks[w.current.value] != Done
  }

  function Schedule(w: Worker): Worker {
    if HasTask(w) then w else w.(tasks := w.tasks + [Sleeping], current := Some(|w.tasks|))
  }

  function Bump(w: Worker, n: Counts): Worker {
    Schedule(w.(pending := Add(w.pending, n), bumped := Add(w.bumped, n)))
  }

  /** What the UPDATE of `delta` leaves behind. */
  function Settle(w: Worker, delta: Counts, result: UpdateResult): Worker {
    match result
    case Published =>
      var total := Add(w.db, delta);
      w.(db := total, frames := w.frames + [StatsFrame(total, delta)])
    case Silent => w.(db := Add(w.db, delta), unannounced := Add(w.unannounced, delta))
    case Lost => w.(dropped := Add(w.dropped, delta))
  }

  function Put(w: Worker, i: nat, task: Task): Worker
    requires i < |w.tasks|
  {
    w.(tasks := w.tasks[i := task])
  }

  /** A cancelled task leaves its sleep; one that waits for its UPDATE ends as that does. */
  function CancelTask(w: Worker): Worker
    requires HasTask(w)
  {
    if w.tasks[w.current.value].Sleeping? then Put(w, w.current.value, Cancelled) else w
  }

  /** The task that the teardown waits for is over. */
  predicate HasStopped(w: Worker) {
    w.stopping.Some? && w.stopping.value < |w.tasks| && w.tasks[w.stopping.value] == Done
  }

  function TakePending(w: Worker): Worker {
    if w.pending == ZERO then w else w.(pending := ZERO, finalizing := Some(w.pending))
  }

  function WorkerNext(w: Worker, step: WorkerStep): Worker {
    match step
    case BumpFiles(n) => if n <= 0 then w else Bump(w, Counts(n, 0))
    case BumpTests(n) => if n <= 0 then w else Bump(w, Counts(0, n))
    case TimerFires(i) =>
      if i >= |w.tasks| || !w.tasks[i].Sleeping? then w
      else if w.pending == ZERO then Put(w, i, Done)
      else Put(w.(pending := ZERO), i, Updating(w.pending))
    case TaskUpdate(i, result) =>
      if i >= |w.tasks| || !w.tasks[i].Updating? then w else Settle(Put(w, i, Done), w.tasks[i].delta, result)
    case TaskStops(i) => if i < |w.tasks| && w.tasks[i].Cancelled? then Put(w, i, Done) else w
    case FinalizeStats =>
      if w.finalizing.Some? || w.stopping.Some? then w
      else if HasTask(w) then CancelTask(w).(stopping := w.current)
      else TakePending(w.(current := None))
    case FinalizeResumes =>
      if HasStopped(w) then TakePending(w.(stopping := None, current := None)) else w
    case FinalUpdate(result) =>
      if w.finalizing.None? then w else Settle(w.(finalizing := None), w.finalizing.value, result)
  }

  function TaskDelta(task: Task): Counts {
    if task.Updating? then task.delta else ZERO
  }

  function TaskDeltas(tasks: seq<Task>): Counts {
    if |tasks| == 0 then ZERO else Add(TaskDeltas(tasks[..|tasks| - 1]), TaskDelta(tasks[|tasks| - 1]))
  }

  function FinalDelta(finalizing: Option<Counts>): Counts {
    if finalizing.Some? then finalizing.value else ZERO
  }

  function InFlight(w: Worker): Counts {
    Add(TaskDeltas(w.tasks), FinalDelta(w.finalizing))
  }

  /** Nothing bumped is ever lost track of. */
  predicate Balanced(base: Counts, w: Worker) {
    IsSum(Add(base, w.bumped), w.db, InFlight(w), w.pending, w.dropped)
  }

  /** Every change of the row was published or is known not to be. */
  predicate Announced(base: Counts, w: Worker) {
    && IsSum(w.db, base, SumDeltas(w.frames), w.unannounced, ZERO)
    && (w.unannounced == ZERO && w.frames != [] ==> w.frames[|w.frames| - 1].counts == w.db)
    && forall i :: 0 <= i < |w.frames| ==> Gain(w.frames[i].delta)
  }

  predicate Gain(c: Counts) {
    NonNegative(c) && c != ZERO
  }

  predicate Signs(w: Worker) {
    && NonNegative(w.pending)
    && NonNegative(w.unannounced)
    && (forall i :: 0 <= i < |w.tasks| && w.tasks[i].Updating? ==> Gain(w.tasks[i].delta))
    && (w.finalizing.Some? ==> Gain(w.finalizing.value))
    && (w.stopping.Some? ==> w.finalizing.None?)
    && (w.current.Some? ==> w.current.value < |w.tasks|)
  }

  lemma {:induction false} SumOneMore(frames: seq<StatsFrame>, frame: StatsFrame)
    ensures SumDeltas(frames + [frame]) == Add(SumDeltas(frames), frame.delta)
  {
    assert (frames + [frame])[..|frames|] == frames;
  }

  lemma {:induction false} DeltasOneMore(tasks: seq<Task>, task: Task)
    ensures TaskDeltas(tasks + [task]) == Add(TaskDeltas(tasks), TaskDelta(task))
  {
    assert (tasks + [task])[..|tasks|] == tasks;
  }

  lemma {:induction false} DeltasPut(tasks: seq<Task>, i: nat, task: Task)
    requires i < |tasks|
    ensures Add(TaskDeltas(tasks[i := task]), TaskDelta(tasks[i])) == Add(TaskDeltas(tasks), TaskDelta(task))
  {
    var last := |tasks| - 1;
    if i < last {
      DeltasPut(tasks[..last], i, task);
      assert tasks[i := task][..last] == tasks[..last][i := task];
    } else {
      assert tasks[i := task][..last] == tasks[..last];
    }
  }

  lemma {:induction false} AddNothing(c: Counts)
    ensures Add(c, ZERO) == c
  {
  }

  lemma {:induction false} ScheduleKeepsInFlight(w: Worker)
    ensures InFlight(Schedule(w)) == InFlight(w)
  {
    if !HasTask(w) {
      DeltasOneMore(w.tasks, Sleeping);
      AddNothing(TaskDeltas(w.tasks));
      assert TaskDeltas(Schedule(w).tasks) == TaskDeltas(w.tasks);
    }
  }

  lemma {:induction false} BumpKeepsBalance(base: Counts, w: Worker, n: Counts)
    requires Balanced(base, w)
    ensures Balanced(base, Bump(w, n))
  {
    var w' := Bump(w, n);
    ScheduleKeepsInFlight(w.(pending := Add(w.pending, n), bumped := Add(w.bumped, n)));
    assert InFlight(w') == InFlight(w) && w'.db == w.db && w'.dropped == w.dropped;
    assert w'.pending.files == w.pending.files + n.files && w'.pending.tests == w.pending.tests + n.tests;
    assert w'.bumped.files == w.bumped.files + n.files && w'.bumped.tests == w.bumped.tests + n.tests;
  }

  lemma {:induction false} SettleKeepsBalance(base: Counts, w: Worker, delta: Counts, result: UpdateResult)
    requires IsSum(Add(base, w.bumped), Add(w.db, delta), InFlight(w), w.pending, w.dropped)
    ensures Balanced(base, Settle(w, delta, result))
  {
  }

  lemma {:induction false} TimerKeepsBalance(base: Counts, w: Worker, i: nat)
    requires Balanced(base, w)
    ensures Balanced(base, WorkerNext(w, TimerFires(i)))
  {
    var w' := WorkerNext(w, TimerFires(i));
    if i < |w.tasks| && w.tasks[i].Sleeping? {
      DeltasPut(w.tasks, i, w'.tasks[i]);
      assert TaskDelta(w.tasks[i]) == ZERO && TaskDelta(w'.tasks[i]) == w.pending && w'.pending == ZERO;
      assert InFlight(w').files == InFlight(w).files + w.pending.files;
      assert InFlight(w').tests == InFlight(w).tests + w.pending.tests;
    }
  }

  lemma {:induction false} Shift(a: Counts, b: Counts, delta: Counts, more: Counts)
    requires Add(a, delta) == Add(b, ZERO)
    ensures Add(Add(a, more), delta) == Add(b, more)
  {
    assert a.files + delta.files == b.files && a.tests + delta.tests == b.tests;
  }

  /** A task that ends leaves its delta to be settled. */
  lemma {:induction false} TaskEnds(w: Worker, i: nat)
    requires i < |w.tasks|
    ensures Add(InFlight(Put(w, i, Done)), TaskDelta(w.tasks[i])) == InFlight(w)
  {
    DeltasPut(w.tasks, i, Done);
    Shift(TaskDeltas(w.tasks[i := Done]), TaskDeltas(w.tasks), TaskDelta(w.tasks[i]), FinalDelta(w.finalizing));
  }

  lemma {:induction false} NothingPut(w: Worker, i: nat, task: Task)
    requires i < |w.tasks| && TaskDelta(w.tasks[i]) == ZERO && TaskDelta(task) == ZERO
    ensures TaskDeltas(Put(w, i, task).tasks) == TaskDeltas(w.tasks)
  {
    DeltasPut(w.tasks, i, task);
    AddNothing(TaskDeltas(w.tasks));
    AddNothing(TaskDeltas(w.tasks[i := task]));
  }

  lemma {:induction false} QuietKeepsBalance(base: Counts, w: Worker, i: nat, task: Task)
    requires Balanced(base, w)
    requires i < |w.tasks| && TaskDelta(w.tasks[i]) == ZERO && TaskDelta(task) == ZERO
    ensures Balanced(base, Put(w, i, task))
  {
    NothingPut(w, i, task);
    assert InFlight(Put(w, i, task)) == InFlight(w);
  }

  lemma {:induction false} StopKeepsBalance(base: Counts, w: Worker, i: nat)
    requires Balanced(base, w)
    ensures Balanced(base, WorkerNext(w, TaskStops(i)))
  {
    if i < |w.tasks| && w.tasks[i].Cancelled? {
      QuietKeepsBalance(base, w, i, Done);
    }
  }

  lemma {:induction false} CancelKeepsBalance(base: Counts, w: Worker)
    requires Balanced(base, w) && HasTask(w)
    ensures Balanced(base, CancelTask(w))
  {
    if w.tasks[w.current.value].Sleeping? {
      QuietKeepsBalance(base, w, w.current.value, Cancelled);
    }
  }

  lemma {:induction false} TakeKeepsBalance(base: Counts, w: Worker)
    requires Balanced(base, w) && w.finalizing.None?
    ensures Balanced(base, TakePending(w))
  {
    var w' := TakePending(w);
    assert FinalDelta(w.finalizing) == ZERO && FinalDelta(w'.finalizing) == w.pending && w'.pending == ZERO;
    assert InFlight(w').files == InFlight(w).files + w.pending.files;
    assert InFlight(w').tests == InFlight(w).tests + w.pending.tests;
  }

  lemma {:induction false} SameCountsBalance(base: Counts, w: Worker, next: Worker)
    requires Balanced(base, w)
    requires next == w.(current := next.current, stopping := next.stopping)
    ensures Balanced(base, next)
  {
  }

  lemma {:induction false} FinalizeKeepsBalance(base: Counts, w: Worker)
    requires Balanced(base, w)
    ensures Balanced(base, WorkerNext(w, FinalizeStats))
  {
    if w.finalizing.Some? || w.stopping.Some? {
      return;
    }
    if HasTask(w) {
      CancelKeepsBalance(base, w);
      SameCountsBalance(base, CancelTask(w), WorkerNext(w, FinalizeStats));
    } else {
      SameCountsBalance(base, w, w.(current := None));
      TakeKeepsBalance(base, w.(current := None));
      assert WorkerNext(w, FinalizeStats) == TakePending(w.(current := None));
    }
  }

  lemma {:induction false} ResumeKeepsBalance(base: Counts, w: Worker)
    requires Balanced(base, w) && w.finalizing.None?
    ensures Balanced(base, WorkerNext(w, FinalizeResumes))
  {
    if HasStopped(w) {
      SameCountsBalance(base, w, w.(stopping := None, current := None));
      TakeKeepsBalance(base, w.(stopping := None, current := None));
    }
  }

  lemma {:induction false} UpdateKeepsBalance(base: Counts, w: Worker, i: nat, result: UpdateResult)
    requires Balanced(base, w)
    ensures Balanced(base, WorkerNext(w, TaskUpdate(i, result)))
  {
    if i >= |w.tasks| || !w.tasks[i].Updating? {
      return;
    }
    var w' := Put(w, i, Done);
    TaskEnds(w, i);
    assert InFlight(w).files == w.tasks[i].delta.files + InFlight(w').files;
    assert InFlight(w).tests == w.tasks[i].delta.tests + InFlight(w').tests;
    SettleKeepsBalance(base, w', w.tasks[i].delta, result);
  }

  lemma {:induction false} FinalSettles(base: Counts, w: Worker, result: UpdateResult)
    requires Balanced(base, w) && w.finalizing.Some?
    ensures Balanced(base, Settle(w.(finalizing := None), w.finalizing.value, result))
  {
    var w' := w.(finalizing := None);
    assert InFlight(w') == TaskDeltas(w.tasks);
    assert InFlight(w).files == w.finalizing.value.files + InFlight(w').files;
    assert InFlight(w).tests == w.finalizing.value.tests + InFlight(w').tests;
    SettleKeepsBalance(base, w', w.finalizing.value, result);
  }

  lemma {:induction false} FinalUpdateKeepsBalance(base: Counts, w: Worker, result: UpdateResult)
    requires Balanced(base, w)
    ensures Balanced(base, WorkerNext(w, FinalUpdate(result)))
  {
    if w.finalizing.Some? {
      var settled := Settle(w.(finalizing := None), w.finalizing.value, result);
      FinalSettles(base, w, result);
      SameCountsBalance(base, settled, WorkerNext(w, FinalUpdate(result)));
    } else {
      SameCountsBalance(base, w, WorkerNext(w, FinalUpdate(result)));
    }
  }

  lemma {:induction false} StepKeepsBalance(base: Counts, w: Worker, step: WorkerStep)
    requires Balanced(base, w) && Signs(w)
    ensures Balanced(base, WorkerNext(w, step))
  {
    match step
    case BumpFiles(n) => BumpKeepsBalance(base, w, Counts(n, 0));
    case BumpTests(n) => BumpKeepsBalance(base, w, Counts(0, n));
    case TimerFires(i) => TimerKeepsBalance(base, w, i);
    case TaskUpdate(i, result) => UpdateKeepsBalance(base, w, i, result);
    case TaskStops(i) => StopKeepsBalance(base, w, i);
    case FinalizeStats => FinalizeKeepsBalance(base, w);
    case FinalizeResumes =>
      if HasStopped(w) {
        ResumeKeepsBalance(base, w);
      }
    case FinalUpdate(result) => FinalUpdateKeepsBalance(base, w, result);
  }

  lemma {:induction false} StepKeepsSigns(w: Worker, step: WorkerStep)
    requires Signs(w)
    ensures Signs(WorkerNext(w, step))
  {
  }

  lemma {:induction false} SettleKeepsAnnounced(base: Counts, w: Worker, delta: Counts, result: UpdateResult)
    requires Announced(base, w) && NonNegative(w.unannounced) && Gain(delta)
    ensures Announced(base, Settle(w, delta, result))
  {
    SumOneMore(w.frames, StatsFrame(Add(w.db, delta), delta));
    assert Add(w.unannounced, delta) != ZERO;
  }

  lemma {:induction false} QuietKeepsAnnounced(base: Counts, w: Worker, next: Worker)
    requires Announced(base, w)
    requires next.frames == w.frames && next.db == w.db && next.unannounced == w.unannounced
    ensures Announced(base, next)
  {
  }

  lemma {:induction false} StepKeepsAnnounced(base: Counts, w: Worker, step: WorkerStep)
    requires Announced(base, w) && Signs(w)
    ensures Announced(base, WorkerNext(w, step))
  {
    match step
    case TaskUpdate(i, result) =>
      if i < |w.tasks| && w.tasks[i].Updating? {
        SettleKeepsAnnounced(base, Put(w, i, Done), w.tasks[i].delta, result);
      }
    case FinalUpdate(result) =>
      if w.finalizing.Some? {
        SettleKeepsAnnounced(base, w.(finalizing := None), w.finalizing.value, result);
      }
    case _ => QuietKeepsAnnounced(base, w, WorkerNext(w, step));
  }

  // ---------- What single steps do ----------

  /** A bump is pending at once, and starts a task exactly when there is none or the current one is over. */
  lemma {:induction false} BumpExactly(w: Worker, n: int, ofFiles: bool)
    requires w.current.Some? ==> w.current.value < |w.tasks|
    ensures var next := WorkerNext(w, if ofFiles then BumpFiles(n) else BumpTests(n));
            var delta := Counts(if ofFiles then n else 0, if ofFiles then 0 else n);
            && (n <= 0 ==> next == w)
            && (n > 0 ==>
                  && next.pending == Add(w.pending, delta) && next.bumped == Add(w.bumped, delta)
                  && (if w.current.Some? && !w.tasks[w.current.value].Done?
                      then next.tasks == w.tasks && next.current == w.current
                      else next.tasks == w.tasks + [Sleeping] && next.current == Some(|w.tasks|))
                  && next == w.(pending := next.pending, bumped := next.bumped, tasks := next.tasks,
                                current := next.current))
  {
  }

  /** A debounce that ends with nothing pending is the end of its task; else the UPDATE takes all that is pending. */
  lemma {:induction false} TimerExactly(w: Worker, i: nat)
    requires i < |w.tasks| && w.tasks[i] == Sleeping
    ensures WorkerNext(w, TimerFires(i))
         == if w.pending == ZERO then w.(tasks := w.tasks[i := Done])
            else w.(tasks := w.tasks[i := Updating(w.pending)], pending := ZERO)
  {
  }

  /** The teardown waits for the task it cancelled, and for no other, before it takes what is pending. */
  lemma {:induction false} TeardownExactly(w: Worker, result: UpdateResult)
    requires w.finalizing.None? && w.stopping.None? && w.current.Some?
    requires w.current.value < |w.tasks| && !w.tasks[w.current.value].Done?
    ensures var i := w.current.value;
            var cancelled := WorkerNext(w, FinalizeStats);
            var ended := WorkerNext(WorkerNext(cancelled, TaskStops(i)), TaskUpdate(i, result));
            var resumed := WorkerNext(ended, FinalizeResumes);
            && cancelled.stopping == Some(i) && cancelled.pending == w.pending && cancelled.current == w.current
            && WorkerNext(cancelled, FinalizeResumes) == cancelled
            && WorkerNext(cancelled, TimerFires(i)) == cancelled
            && ended.tasks == w.tasks[i := Done]
            && resumed.stopping == None && resumed.current == None && resumed.pending == ZERO
            && resumed.finalizing == (if w.pending == ZERO then None else Some(w.pending))
            && resumed.tasks == ended.tasks && resumed.frames == ended.frames && resumed.db == ended.db
  {
  }

  // ---------- A bump nobody will flush ----------

  predicate NobodySleeps(tasks: seq<Task>) {
    forall i :: 0 <= i < |tasks| ==> !tasks[i].Sleeping?
  }

  /** Something is pending, no task will wake up to take it and no teardown is about to. */
  predicate Stranded(w: Worker) {
    w.pending != ZERO && w.stopping.None? && NobodySleeps(w.tasks)
  }

  predicate IsBump(step: WorkerStep) {
    (step.BumpFiles? || step.BumpTests?) && step.n > 0
  }

  /** The bump comes while the UPDATE of the current task is under way. */
  predicate Strands(w: Worker, step: WorkerStep) {
    IsBump(step) && HasTask(w) && w.stopping.None? && NobodySleeps(w.tasks)
  }

  /** An UPDATE, of a task or of the teardown, has taken effect and is not published. */
  predicate HidesGain(w: Worker, step: WorkerStep) {
    || (step.TaskUpdate? && step.result == Silent && step.i < |w.tasks| && w.tasks[step.i].Updating?)
    || (step == FinalUpdate(Silent) && w.finalizing.Some?)
  }

  /** A bump once that UPDATE is over starts a new task; a teardown takes what is pending, now or when it resumes. */
  predicate Rescues(w: Worker, step: WorkerStep) {
    (IsBump(step) && !HasTask(w)) || (step.FinalizeStats? && w.finalizing.None?)
  }

  lemma {:induction false} BumpStrandsExactly(w: Worker, n: Counts)
    requires Signs(w) && Gain(n)
    ensures Stranded(Bump(w, n)) <==> HasTask(w) && w.stopping.None? && NobodySleeps(w.tasks)
  {
    var w' := Bump(w, n);
    assert w'.pending != ZERO;
    if !HasTask(w) {
      assert w'.tasks[|w.tasks|] == Sleeping;
    }
  }

  lemma {:induction false} PutKeepsSleepers(tasks: seq<Task>, i: nat, task: Task)
    requires i < |tasks| && !tasks[i].Sleeping? && !task.Sleeping?
    ensures NobodySleeps(tasks[i := task]) <==> NobodySleeps(tasks)
  {
    var after := tasks[i := task];
    assert forall j :: 0 <= j < |tasks| ==> (after[j].Sleeping? <==> tasks[j].Sleeping?);
  }

  lemma {:induction false} UpdateStrandsNothing(w: Worker, i: nat, result: UpdateResult)
    ensures Stranded(WorkerNext(w, TaskUpdate(i, result))) <==> Stranded(w)
  {
    if i < |w.tasks| && w.tasks[i].Updating? {
      PutKeepsSleepers(w.tasks, i, Done);
      assert WorkerNext(w, TaskUpdate(i, result)).tasks == w.tasks[i := Done];
    }
  }

  lemma {:induction false} StopStrandsNothing(w: Worker, i: nat)
    ensures Stranded(WorkerNext(w, TaskStops(i))) <==> Stranded(w)
  {
    if i < |w.tasks| && w.tasks[i].Cancelled? {
      PutKeepsSleepers(w.tasks, i, Done);
    }
  }

  /** Exactly when a step strands what is pending, and exactly what ends it. */
  lemma {:induction false} StrandedExactly(w: Worker, step: WorkerStep)
    requires Signs(w)
    ensures Stranded(WorkerNext(w, step)) <==> Strands(w, step) || (Stranded(w) && !Rescues(w, step))
  {
    match step
    case BumpFiles(n) =>
      if n > 0 {
        BumpStrandsExactly(w, Counts(n, 0));
      }
    case BumpTests(n) =>
      if n > 0 {
        BumpStrandsExactly(w, Counts(0, n));
      }
    case TaskUpdate(i, result) => UpdateStrandsNothing(w, i, result);
    case TaskStops(i) => StopStrandsNothing(w, i);
    case _ =>
  }

  // ---------- The sink's counters ----------

  /** The sink's counters and the session row they end in. */
  class DebouncedCounters {
    var pending: Counts
    var tasks: seq<Task>
    var current: Option<nat>
    var stopping: Option<nat>
    var finalizing: Option<Counts>
    var db: Counts
    var frames: seq<StatsFrame>
    ghost var bumped: Counts
    ghost var dropped: Counts
    ghost var unannounced: Counts

    constructor (base: Counts)
      ensures State() == Fresh(base)
    {
      pending, tasks, current, stopping, finalizing, db, frames := ZERO, [], None, None, None, base, [];
      bumped, dropped, unannounced := ZERO, ZERO, ZERO;
    }

    ghost function State(): Worker
      reads this
    {
      Worker(pending, tasks, current, stopping, finalizing, db, frames, bumped, dropped, unannounced)
    }

    method BumpFileDelta(n: int)
      modifies this
      ensures State() == WorkerNext(old(State()), BumpFiles(n))
    {
      if n <= 0 {
        return;
      }
      pending := pending.(files := pending.files + n);
      bumped := Add(bumped, Counts(n, 0));
      ScheduleFlush();
    }

    method BumpPlaywrightDelta(n: int)
      modifies this
      ensures State() == WorkerNext(old(State()), BumpTests(n))
    {
      if n <= 0 {
        return;
      }
      pending := pending.(tests := pending.tests + n);
      bumped := Add(bumped, Counts(0, n));
      ScheduleFlush();
    }

    method ScheduleFlush()
      modifies this
      ensures State() == Schedule(old(State()))
    {
      if current.Some? && current.value < |tasks| && tasks[current.value] != Done {
        return;
      }
      current := Some(|tasks|);
      tasks := tasks + [Sleeping];
    }

    /** The debounce sleep is over: take what is pending and start the UPDATE. */
    method FlushAfterDebounce(i: nat)
      requires i < |tasks| && tasks[i].Sleeping?
      modifies this
      ensures State() == WorkerNext(old(State()), TimerFires(i))
    {
      var taken := pending;
      pending := ZERO;
      tasks := tasks[i := if taken == ZERO then Done else Updating(taken)];
    }

    method UpdateEnds(i: nat, result: UpdateResult)
      requires i < |tasks| && tasks[i].Updating?
      modifies this
      ensures State() == WorkerNext(old(State()), TaskUpdate(i, result))
    {
      var delta := tasks[i].delta;
      tasks := tasks[i := Done];
      EndUpdate(delta, result);
    }

    method EndUpdate(delta: Counts, result: UpdateResult)
      modifies this
      ensures State() == Settle(old(State()), delta, result)
    {
      if result == Lost {
        dropped := Add(dropped, delta);
        return;
      }
      db := Add(db, delta);
      if result == Silent {
        unannounced := Add(unannounced, delta);
      } else {
        frames := frames + [StatsFrame(db, delta)];
      }
    }

    /** A task cancelled in its sleep is over, with what is pending left alone. */
    method StopsInItsSleep(i: nat)
      requires i < |tasks| && tasks[i].Cancelled?
      modifies this
      ensures State() == WorkerNext(old(State()), TaskStops(i))
    {
      tasks := tasks[i := Done];
    }

    /** The teardown up to its wait for the cancelled task, if there is one; `waits` says so. */
    method Finalize() returns (waits: bool)
      requires finalizing.None? && stopping.None?
      modifies this
      ensures State() == WorkerNext(old(State()), FinalizeStats) && waits == stopping.Some?
    {
      waits := current.Some? && current.value < |tasks| && tasks[current.value] != Done;
      if waits {
        stopping := current;
        if tasks[current.value].Sleeping? {
          tasks := tasks[current.value := Cancelled];
        }
      } else {
        FlushRest();
      }
    }

    /** The wait is over. A task that a bump started after the cancelled one ended is forgotten, and runs on. */
    method ResumeFinalize()
      requires stopping.Some? && stopping.value < |tasks| && tasks[stopping.value] == Done
      modifies this
      ensures State() == WorkerNext(old(State()), FinalizeResumes)
    {
      stopping := None;
      FlushRest();
    }

    method FlushRest()
      modifies this
      ensures State() == TakePending(old(State()).(current := None))
    {
      current := None;
      if pending != ZERO {
        finalizing := Some(pending);
        pending := ZERO;
      }
    }
  }

  // ---------- Browser ----------

  /** `flashed` is bookkeeping: the sum of all "+N" flashes so far. */
  datatype Browser = Browser(buffer: Counts, latest: Counts, timer: bool, shown: Counts, flashKey: nat, flashed: Counts)

  function Hydrated(base: Counts): Browser {
    Browser(ZERO, ZERO, false, base, 0, ZERO)
  }

  function Flush(b: Browser): Browser {
    if b.buffer == ZERO then b
    else b.(buffer := ZERO, shown := b.latest, flashKey := b.flashKey + 1, flashed := Add(b.flashed, b.buffer))
  }

  function Receive(b: Browser, frame: StatsFrame): Browser {
    var buffered := b.(buffer := Add(b.buffer, frame.delta), latest := frame.counts);
    if b.timer then buffered else Flush(buffered).(timer := true)
  }

  function ThrottleFires(b: Browser): Browser {
    if !b.timer then b else Flush(b.(timer := false))
  }

  /** The page's buffer and timer. */
  class StatsThrottle {
    var buffer: Counts
    var latest: Counts
    var timer: bool
    var shown: Counts
    var flashKey: nat
    ghost var flashed: Counts

    constructor (base: Counts)
      ensures State() == Hydrated(base)
    {
      buffer, latest, timer, shown, flashKey, flashed := ZERO, ZERO, false, base, 0, ZERO;
    }

    ghost function State(): Browser
      reads this
    {
      Browser(buffer, latest, timer, shown, flashKey, flashed)
    }

    method FlushStats()
      modifies this
      ensures State() == Flush(old(State()))
    {
      if buffer == ZERO {
        return;
      }
      shown, flashKey := latest, flashKey + 1;
      flashed := Add(flashed, buffer);
      buffer := ZERO;
    }

    method OnStatsUpdated(frame: StatsFrame)
      modifies this
      ensures State() == Receive(old(State()), frame)
    {
      buffer := Add(buffer, frame.delta);
      latest := frame.counts;
      if !timer {
        FlushStats();
        timer := true;
      }
    }

    method OnTimeout()
      requires timer
      modifies this
      ensures State() == ThrottleFires(old(State()))
    {
      timer := false;
      FlushStats();
    }
  }

  /** `received` are the frames delivered so far. */
  ghost predicate BrowserInvariant(base: Counts, b: Browser, received: seq<StatsFrame>) {
    && IsSum(SumDeltas(received), b.flashed, b.buffer, ZERO, ZERO)
    && NonNegative(b.buffer)
    && (!b.timer ==> b.buffer == ZERO)
    && (received == [] ==> b.shown == base && b.buffer == ZERO)
    && (received != [] ==> b.latest == received[|received| - 1].counts && (b.buffer == ZERO ==> b.shown == b.latest))
  }

  lemma {:induction false} ReceiveKeepsInvariant(base: Counts, b: Browser, received: seq<StatsFrame>, frame: StatsFrame)
    requires BrowserInvariant(base, b, received)
    requires Gain(frame.delta)
    ensures BrowserInvariant(base, Receive(b, frame), received + [frame])
  {
    assert (received + [frame])[..|received|] == received;
  }

  lemma {:induction false} TimeoutKeepsInvariant(base: Counts, b: Browser, received: seq<StatsFrame>)
    requires BrowserInvariant(base, b, received)
    ensures BrowserInvariant(base, ThrottleFires(b), received)
  {
  }

  function Received(b: Browser, frames: seq<StatsFrame>): Browser {
    if |frames| == 0 then b else Receive(Received(b, frames[..|frames| - 1]), frames[|frames| - 1])
  }

  /** While its timer runs the page only gathers. */
  lemma {:induction false} TimedPagesGather(b: Browser, frames: seq<StatsFrame>)
    requires b.timer
    ensures Received(b, frames)
         == b.(buffer := Add(b.buffer, SumDeltas(frames)),
               latest := if |frames| == 0 then b.latest else frames[|frames| - 1].counts)
  {
    if |frames| > 0 {
      TimedPagesGather(b, frames[..|frames| - 1]);
    }
  }

  /** The frame that finds no timer is flashed at once, and starts it. */
  lemma {:induction false} LeadingFlash(b: Browser, frame: StatsFrame)
    requires !b.timer && b.buffer == ZERO && Gain(frame.delta)
    ensures Receive(b, frame)
         == Browser(ZERO, frame.counts, true, frame.counts, b.flashKey + 1, Add(b.flashed, frame.delta))
  {
    assert Add(ZERO, frame.delta) == frame.delta;
  }

  /** The timer flashes what was gathered, if anything was, all at once and with the newest counts. */
  lemma {:induction false} TrailingFlash(b: Browser)
    requires b.timer
    ensures ThrottleFires(b)
         == if b.buffer == ZERO then b.(timer := false)
            else Browser(ZERO, b.latest, false, b.latest, b.flashKey + 1, Add(b.flashed, b.buffer))
  {
  }

  /** One period of the throttle: one flash for the first frame, and at most one for all that follow. */
  lemma {:induction false} OneThrottlePeriod(b: Browser, first: StatsFrame, more: seq<StatsFrame>)
    requires !b.timer && b.buffer == ZERO && Gain(first.delta)
    ensures var gathered := Received(Receive(b, first), more);
            && gathered.timer && gathered.shown == first.counts && gathered.flashKey == b.flashKey + 1
            && gathered.flashed == Add(b.flashed, first.delta)
            && gathered.buffer == Add(ZERO, SumDeltas(more))
            && gathered.latest == if |more| == 0 then first.counts else more[|more| - 1].counts
  {
    LeadingFlash(b, first);
    TimedPagesGather(Receive(b, first), more);
  }

  // ---------- End to end ----------

  datatype SystemStep = InWorker(step: WorkerStep) | Deliver | Timeout

  datatype System = System(worker: Worker, delivered: nat, browser: Browser)

  function SystemNext(s: System, step: SystemStep): System {
    match step
    case InWorker(ws) => s.(worker := WorkerNext(s.worker, ws))
    case Deliver =>
      if s.delivered >= |s.worker.frames| then s
      else s.(delivered := s.delivered + 1, browser := Receive(s.browser, s.worker.frames[s.delivered]))
    case Timeout => s.(browser := ThrottleFires(s.browser))
  }

  function SystemRun(base: Counts, steps: seq<SystemStep>): System {
    if |steps| == 0 then System(Fresh(base), 0, Hydrated(base))
    else SystemNext(SystemRun(base, steps[..|steps| - 1]), steps[|steps| - 1])
  }

  lemma {:induction false} StartIsBalanced(base: Counts)
    ensures Balanced(base, Fresh(base))
  {
  }

  lemma {:induction false} SystemStepIsBalanced(base: Counts, s: System, step: SystemStep)
    requires Balanced(base, s.worker) && Signs(s.worker)
    ensures Balanced(base, SystemNext(s, step).worker)
  {
    if step.InWorker? {
      StepKeepsBalance(base, s.worker, step.step);
    } else {
      assert SystemNext(s, step).worker == s.worker;
    }
  }

  lemma {:induction false} WorkerIsBalanced(base: Counts, steps: seq<SystemStep>)
    ensures Balanced(base, SystemRun(base, steps).worker)
  {
    if |steps| == 0 {
      StartIsBalanced(base);
    } else {
      var s, step := SystemRun(base, steps[..|steps| - 1]), steps[|steps| - 1];
      WorkerIsBalanced(base, steps[..|steps| - 1]);
      WorkerAnnounces(base, steps[..|steps| - 1]);
      SystemStepIsBalanced(base, s, step);
    }
  }

  lemma {:induction false} WorkerAnnounces(base: Counts, steps: seq<SystemStep>)
    ensures Announced(base, SystemRun(base, steps).worker) && Signs(SystemRun(base, steps).worker)
  {
    if |steps| > 0 {
      var s, step := SystemRun(base, steps[..|steps| - 1]), steps[|steps| - 1];
      WorkerAnnounces(base, steps[..|steps| - 1]);
      if step.InWorker? {
        StepKeepsSigns(s.worker, step.step);
        StepKeepsAnnounced(base, s.worker, step.step);
      }
    }
  }

  lemma {:induction false} FramesOnlyGrow(w: Worker, step: WorkerStep, n: nat)
    requires n <= |w.frames|
    ensures |WorkerNext(w, step).frames| >= |w.frames|
    ensures WorkerNext(w, step).frames[..n] == w.frames[..n]
  {
  }

  ghost predicate Delivered(base: Counts, s: System) {
    s.delivered <= |s.worker.frames| && BrowserInvariant(base, s.browser, s.worker.frames[..s.delivered])
  }

  lemma {:induction false} StepStaysDelivered(base: Counts, s: System, step: SystemStep)
    requires Delivered(base, s)
    requires forall i :: 0 <= i < |s.worker.frames| ==> Gain(s.worker.frames[i].delta)
    ensures Delivered(base, SystemNext(s, step))
  {
    match step
    case InWorker(ws) => FramesOnlyGrow(s.worker, ws, s.delivered);
    case Deliver =>
      if s.delivered < |s.worker.frames| {
        var frame := s.worker.frames[s.delivered];
        ReceiveKeepsInvariant(base, s.browser, s.worker.frames[..s.delivered], frame);
        assert s.worker.frames[..s.delivered + 1] == s.worker.frames[..s.delivered] + [frame];
      }
    case Timeout => TimeoutKeepsInvariant(base, s.browser, s.worker.frames[..s.delivered]);
  }

  lemma {:induction false} BrowserFollows(base: Counts, steps: seq<SystemStep>)
    ensures Delivered(base, SystemRun(base, steps))
  {
    if |steps| > 0 {
      BrowserFollows(base, steps[..|steps| - 1]);
      WorkerAnnounces(base, steps[..|steps| - 1]);
      StepStaysDelivered(base, SystemRun(base, steps[..|steps| - 1]), steps[|steps| - 1]);
    }
  }

  /** At every step of every interleaving: bumps = count gain + in flight + pending + dropped. */
  lemma {:induction false} CountersAreConserved(base: Counts, steps: seq<SystemStep>)
    ensures var s := SystemRun(base, steps);
            && s.delivered <= |s.worker.frames|
            && IsSum(Add(base, s.worker.bumped), s.worker.db, InFlight(s.worker), s.worker.pending, s.worker.dropped)
            && IsSum(SumDeltas(s.worker.frames[..s.delivered]), s.browser.flashed, s.browser.buffer, ZERO, ZERO)
            && (!s.browser.timer ==> s.browser.buffer == ZERO)
  {
    WorkerIsBalanced(base, steps);
    BrowserFollows(base, steps);
  }

  lemma {:induction false} Telescopes(total: Counts, base: Counts, gain: Counts, rest: Counts, flashed: Counts)
    requires IsSum(total, base, gain, rest, ZERO) && IsSum(gain, flashed, ZERO, ZERO, ZERO)
    ensures IsSum(total, base, flashed, rest, ZERO)
    ensures Add(base, flashed) == total <==> rest == ZERO
  {
  }

  lemma {:induction false} DrainedPageAgrees(base: Counts, w: Worker, b: Browser)
    requires Announced(base, w) && BrowserInvariant(base, b, w.frames) && !b.timer
    ensures IsSum(w.db, base, b.flashed, w.unannounced, ZERO)
    ensures Add(base, b.flashed) == w.db <==> w.unannounced == ZERO
    ensures b.shown == if w.frames == [] then base else w.frames[|w.frames| - 1].counts
  {
    Telescopes(w.db, base, SumDeltas(w.frames), w.unannounced, b.flashed);
  }

  lemma {:induction false} NothingPublishedYet(base: Counts, w: Worker)
    requires Announced(base, w) && w.frames == [] && w.unannounced == ZERO
    ensures w.db == base
  {
  }

  /**
   Once all frames are in and the page's timer is off, the page shows the last published totals and has flashed all
   of the gain but what unpublished UPDATEs added; it shows the row and flashed the gain if there is none.
   */
  lemma {:induction false} DrainedCountsAgree(base: Counts, steps: seq<SystemStep>)
    requires var s := SystemRun(base, steps);
             s.delivered == |s.worker.frames| && !s.browser.timer
    ensures var s := SystemRun(base, steps);
            && IsSum(s.worker.db, base, s.browser.flashed, s.worker.unannounced, ZERO)
            && (Add(base, s.browser.flashed) == s.worker.db <==> s.worker.unannounced == ZERO)
            && s.browser.shown ==
               (if s.worker.frames == [] then base else s.worker.frames[|s.worker.frames| - 1].counts)
            && (s.worker.unannounced == ZERO ==> s.browser.shown == s.worker.db)
  {
    var s := SystemRun(base, steps);
    WorkerAnnounces(base, steps);
    BrowserFollows(base, steps);
    assert s.worker.frames[..s.delivered] == s.worker.frames;
    DrainedPageAgrees(base, s.worker, s.browser);
    if s.worker.frames == [] && s.worker.unannounced == ZERO {
      NothingPublishedYet(base, s.worker);
    }
  }

  /** From every reachable state, deliveries and one tick of the timer drain the page, with the worker as it is. */
  lemma {:induction false} PagesDrain(base: Counts, steps: seq<SystemStep>) returns (more: seq<SystemStep>)
    ensures var before, after := SystemRun(base, steps), SystemRun(base, steps + more);
            after.worker == before.worker && after.delivered == |after.worker.frames| && !after.browser.timer
    decreases |SystemRun(base, steps).worker.frames| - SystemRun(base, steps).delivered
  {
    var s := SystemRun(base, steps);
    if s.delivered < |s.worker.frames| {
      assert (steps + [Deliver])[..|steps|] == steps;
      var rest := PagesDrain(base, steps + [Deliver]);
      more := [Deliver] + rest;
      assert steps + more == (steps + [Deliver]) + rest;
    } else {
      CountersAreConserved(base, steps);
      more := [Timeout];
      assert (steps + [Timeout])[..|steps|] == steps;
    }
  }

  // ---------- Which runs hide a gain, and which strand a bump ----------

  function WorkerAt(base: Counts, steps: seq<SystemStep>, k: nat): Worker {
    SystemRun(base, if k < |steps| then steps[..k] else steps).worker
  }

  predicate HidesAt(base: Counts, steps: seq<SystemStep>, k: nat) {
    k < |steps| && steps[k].InWorker? && HidesGain(WorkerAt(base, steps, k), steps[k].step)
  }

  predicate StrandsAt(base: Counts, steps: seq<SystemStep>, k: nat) {
    k < |steps| && steps[k].InWorker? && Strands(WorkerAt(base, steps, k), steps[k].step)
  }

  predicate RescuesAt(base: Counts, steps: seq<SystemStep>, k: nat) {
    k < |steps| && steps[k].InWorker? && Rescues(WorkerAt(base, steps, k), steps[k].step)
  }

  lemma {:induction false} WorkerAtNext(base: Counts, steps: seq<SystemStep>, k: nat)
    requires k < |steps|
    ensures var w := WorkerAt(base, steps, k);
            && Signs(w)
            && WorkerAt(base, steps, k + 1) == if steps[k].InWorker? then WorkerNext(w, steps[k].step) else w
  {
    WorkerAnnounces(base, steps[..k]);
    var upto := if k + 1 < |steps| then steps[..k + 1] else steps;
    assert upto[..k] == steps[..k] && upto[k] == steps[k] && |upto| == k + 1;
  }

  lemma {:induction false} HidingAdds(w: Worker, step: WorkerStep)
    requires Signs(w)
    ensures WorkerNext(w, step).unannounced != ZERO <==> w.unannounced != ZERO || HidesGain(w, step)
  {
  }

  /** The page misses some of the gain exactly in the runs in which an UPDATE that took effect is not published. */
  lemma {:induction false} UnannouncedExactly(base: Counts, steps: seq<SystemStep>)
    ensures SystemRun(base, steps).worker.unannounced != ZERO <==> exists i: nat :: HidesAt(base, steps, i)
  {
    var on, off := (k: nat) => HidesAt(base, steps, k), (k: nat) => false;
    var isOn := (k: nat) => WorkerAt(base, steps, k).unannounced != ZERO;
    forall k | 0 <= k < |steps|
      ensures isOn(k + 1) <==> on(k) || (isOn(k) && !off(k))
    {
      WorkerAtNext(base, steps, k);
      if steps[k].InWorker? {
        HidingAdds(WorkerAt(base, steps, k), steps[k].step);
      }
    }
    StartIsQuiet(base, steps);
    SwitchIsOnSince(on, off, isOn, |steps|);
    assert forall i: nat :: OnSince(on, off, |steps|, i) <==> HidesAt(base, steps, i);
  }

  lemma {:induction false} StartIsQuiet(base: Counts, steps: seq<SystemStep>)
    ensures WorkerAt(base, steps, 0) == Fresh(base)
  {
    assert |steps| > 0 ==> steps[..0] == [];
  }

  /** Step `i` strands what is pending, and nothing after it ends that. */
  ghost predicate StrandedSince(base: Counts, steps: seq<SystemStep>, i: nat) {
    StrandsAt(base, steps, i) && forall j :: i < j < |steps| ==> !RescuesAt(base, steps, j)
  }

  /**
   What is pending is stranded exactly since a bump that came while the current task's UPDATE was under way, until a
   bump after that UPDATE or the teardown.
   */
  lemma {:induction false} StrandedRuns(base: Counts, steps: seq<SystemStep>)
    ensures Stranded(SystemRun(base, steps).worker) <==> exists i: nat :: StrandedSince(base, steps, i)
  {
    var on, off := (k: nat) => StrandsAt(base, steps, k), (k: nat) => RescuesAt(base, steps, k);
    var isOn := (k: nat) => Stranded(WorkerAt(base, steps, k));
    forall k | 0 <= k < |steps|
      ensures isOn(k + 1) <==> on(k) || (isOn(k) && !off(k))
    {
      WorkerAtNext(base, steps, k);
      if steps[k].InWorker? {
        StrandedExactly(WorkerAt(base, steps, k), steps[k].step);
      }
    }
    StartIsQuiet(base, steps);
    SwitchIsOnSince(on, off, isOn, |steps|);
    forall i: nat
      ensures OnSince(on, off, |steps|, i) <==> StrandedSince(base, steps, i)
    {
      assert forall j: nat :: off(j) == RescuesAt(base, steps, j);
    }
  }

  lemma {:induction false} OneMore(base: Counts, steps: seq<SystemStep>, step: WorkerStep)
    ensures SystemRun(base, steps + [InWorker(step)]) == SystemNext(SystemRun(base, steps), InWorker(step))
  {
    assert (steps + [InWorker(step)])[..|steps|] == steps;
  }

  function FirstUnderWay(base: Counts): Worker {
    Fresh(base).(tasks := [Updating(Counts(1, 0))], current := Some(0), bumped := Counts(1, 0))
  }

  lemma {:induction false} FirstBump(base: Counts)
    ensures WorkerNext(Fresh(base), BumpFiles(1))
         == FirstUnderWay(base).(tasks := [Sleeping], pending := Counts(1, 0))
  {
    var w := Fresh(base).(pending := Counts(1, 0), bumped := Counts(1, 0));
    assert w.tasks == [] && w.tasks + [Sleeping] == [Sleeping];
    assert Bump(Fresh(base), Counts(1, 0)) == Schedule(w);
    assert Schedule(w) == w.(tasks := [Sleeping], current := Some(0));
  }

  lemma {:induction false} FirstTimer(base: Counts)
    ensures WorkerNext(FirstUnderWay(base).(tasks := [Sleeping], pending := Counts(1, 0)), TimerFires(0))
         == FirstUnderWay(base)
  {
    assert [Sleeping][0 := Updating(Counts(1, 0))] == [Updating(Counts(1, 0))];
  }

  lemma {:induction false} FirstUpdateEnds(base: Counts)
    ensures var w := WorkerNext(FirstUnderWay(base), TaskUpdate(0, Silent));
            w.db == Add(base, Counts(1, 0)) && w.frames == []
  {
  }

  function UpToUpdate(): seq<SystemStep> {
    [InWorker(BumpFiles(1))] + [InWorker(TimerFires(0))]
  }

  /** A first UPDATE is under way. */
  lemma {:induction false} FirstUpdate(base: Counts)
    ensures SystemRun(base, UpToUpdate()) == System(FirstUnderWay(base), 0, Hydrated(base))
  {
    FirstBump(base);
    FirstTimer(base);
    OneMore(base, [InWorker(BumpFiles(1))], TimerFires(0));
    OneMore(base, [], BumpFiles(1));
    assert [] + [InWorker(BumpFiles(1))] == [InWorker(BumpFiles(1))];
  }

  /** And there are such runs. */
  lemma {:induction false} BumpDuringUpdateIsStranded(base: Counts)
    ensures var steps := UpToUpdate() + [InWorker(BumpFiles(1))];
            Stranded(SystemRun(base, steps).worker)
            && Stranded(SystemRun(base, steps + [InWorker(TaskUpdate(0, Published))]).worker)
  {
    var steps := UpToUpdate() + [InWorker(BumpFiles(1))];
    FirstUpdate(base);
    OneMore(base, UpToUpdate(), BumpFiles(1));
    OneMore(base, steps, TaskUpdate(0, Published));
    StrandedExactly(SystemRun(base, UpToUpdate()).worker, BumpFiles(1));
    UpdateStrandsNothing(SystemRun(base, steps).worker, 0, Published);
  }

  /** An UPDATE that raises after it took effect hides its gain, with nothing cancelled and all frames in. */
  lemma {:induction false} SilentUpdateHidesGain(base: Counts)
    ensures var s := SystemRun(base, UpToUpdate() + [InWorker(TaskUpdate(0, Silent))]);
            && s.worker.db == Add(base, Counts(1, 0)) && s.worker.frames == []
            && s.browser.shown == base && !s.browser.timer
  {
    FirstUpdate(base);
    FirstUpdateEnds(base);
    OneMore(base, UpToUpdate(), TaskUpdate(0, Silent));
  }
}
