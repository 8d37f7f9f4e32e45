/** The worker's main loop: backpressure on the stream, one task and one connection a message, and the drain. */
module Runner {
  import opened Prelude

  type MessageId = nat

  /** One `_handle_job` task: waiting for a connection, processing, acknowledging, or over. */
  datatype Task =
    | Waiting
    | Working
    | Acking(began: bool, ok: bool)
    | Over(began: bool, ok: bool, acked: bool)

  datatype Event = Took(m: MessageId) | Began(m: MessageId) | Finished(m: MessageId, ok: bool) | Acked(m: MessageId)

  /** Where the loop stands; `Draining` waits for the tasks it found in flight when it left the loop. */
  datatype Main = AtGate | Reading | Draining(waitsFor: set<MessageId>) | Closed

  /** `maxRuns` is `max_global_runs`; the pool has two more connections. */
  datatype Settings = Settings(maxRuns: int, once: bool)

  /** `held` are the messages whose task holds a pool connection. `log` is everything that happened. */
  datatype State =
    State(main: Main, tasks: map<MessageId, Task>, inFlight: set<MessageId>, held: set<MessageId>, log: seq<Event>)

  const STARTED := State(AtGate, map[], {}, {}, [])

  datatype Step =
    | PassGate
    | Reap
    | LeaveLoop
    | ReadMessage(m: MessageId)
    | ReadNothing
    | Discard(m: MessageId)
    | Connect(m: MessageId)
    | ConnectFails(m: MessageId)
    | Finish(m: MessageId, ok: bool)
    | Ack(m: MessageId, ok: bool)
    | ClosePool

  function Cap(settings: Settings): nat {
    if settings.maxRuns > 0 then settings.maxRuns else 0
  }

  function PoolSize(settings: Settings): int {
    settings.maxRuns + 2
  }

  predicate IsOver(st: State, m: MessageId) {
    m in st.tasks && st.tasks[m].Over?
  }

  predicate AllOver(st: State, ms: set<MessageId>) {
    forall m :: m in ms ==> IsOver(st, m)
  }

  function StillRunning(st: State): set<MessageId> {
    set m | m in st.inFlight && !IsOver(st, m)
  }

  /** The loop itself. An error or a cancellation at any of its awaits makes it leave for the drain. */
  function Loop(settings: Settings, st: State, step: Step): State {
    match step
    case PassGate =>
      if st.main == AtGate && |st.inFlight| < settings.maxRuns then st.(main := Reading) else st
    case Reap =>
      if st.main == AtGate && |st.inFlight| >= settings.maxRuns then
        st.(inFlight := StillRunning(st))
      else st
    case LeaveLoop =>
      if st.main == AtGate || st.main == Reading then st.(main := Draining(st.inFlight)) else st
    case ReadMessage(m) =>
      if st.main != Reading || m in st.tasks then st
      else st.(main := AtGate, tasks := st.tasks[m := Waiting], inFlight := st.inFlight + {m},
               log := st.log + [Took(m)])
    case ReadNothing =>
      if st.main != Reading then st
      else if settings.once && st.inFlight == {} then st.(main := Draining({}))
      else st.(main := AtGate)
    case ClosePool =>
      if st.main.Draining? && AllOver(st, st.main.waitsFor) then st.(main := Closed) else st
    case _ => st
  }

  /** A task, and the callback that forgets it once it is over. */
  function Job(settings: Settings, st: State, step: Step): State {
    match step
    case Discard(m) =>
      if IsOver(st, m) then st.(inFlight := st.inFlight - {m}) else st
    case Connect(m) =>
      if m in st.tasks && st.tasks[m] == Waiting && |st.held| < PoolSize(settings) then
        st.(tasks := st.tasks[m := Working], held := st.held + {m}, log := st.log + [Began(m)])
      else st
    case ConnectFails(m) =>
      if m in st.tasks && st.tasks[m] == Waiting then
        st.(tasks := st.tasks[m := Acking(false, false)], log := st.log + [Finished(m, false)])
      else st
    case Finish(m, ok) =>
      if m in st.tasks && st.tasks[m] == Working then
        st.(tasks := st.tasks[m := Acking(true, ok)], held := st.held - {m}, log := st.log + [Finished(m, ok)])
      else st
    case Ack(m, ok) =>
      if m in st.tasks && st.tasks[m].Acking? then
        st.(tasks := st.tasks[m := Over(st.tasks[m].began, st.tasks[m].ok, ok)],
            log := if ok then st.log + [Acked(m)] else st.log)
      else st
    case _ => st
  }

  predicate IsJobStep(step: Step) {
    step.Discard? || step.Connect? || step.ConnectFails? || step.Finish? || step.Ack?
  }

  function Next(settings: Settings, st: State, step: Step): State {
    if IsJobStep(step) then Job(settings, st, step) else Loop(settings, st, step)
  }

  function Run(settings: Settings, steps: seq<Step>): State {
    if |steps| == 0 then STARTED
    else Next(settings, Run(settings, steps[..|steps| - 1]), steps[|steps| - 1])
  }

  // ---------- What one message goes through ----------

  /** What happened to one message, in order. */
  function EventsOf(log: seq<Event>, m: MessageId): seq<Event> {
    if |log| == 0 then []
    else
      var before := EventsOf(log[..|log| - 1], m);
      if log[|log| - 1].m == m then before + [log[|log| - 1]] else before
  }

  lemma {:induction false} EventsOfOneMore(log: seq<Event>, event: Event, m: MessageId)
    ensures EventsOf(log + [event], m) == EventsOf(log, m) + (if event.m == m then [event] else [])
  {
    assert (log + [event])[..|log|] == log;
  }

  /** Taken, processed on a connection if one was had, and only then acknowledged, if Redis took it. */
  function LifeOf(m: MessageId, task: Task): seq<Event> {
    match task
    case Waiting => [Took(m)]
    case Working => [Took(m), Began(m)]
    case Acking(began, ok) => Processed(m, began, ok)
    case Over(began, ok, acked) => if acked then Processed(m, began, ok) + [Acked(m)] else Processed(m, began, ok)
  }

  function Processed(m: MessageId, began: bool, ok: bool): seq<Event> {
    if began then [Took(m), Began(m), Finished(m, ok)] else [Took(m), Finished(m, ok)]
  }

  predicate LogFits(st: State, m: MessageId) {
    EventsOf(st.log, m) == if m in st.tasks then LifeOf(m, st.tasks[m]) else []
  }

  predicate Counted(settings: Settings, st: State) {
    |st.inFlight| <= Cap(settings) && (st.main == Reading ==> |st.inFlight| < Cap(settings))
  }

  ghost predicate Placed(st: State) {
    && (forall m :: m in st.inFlight ==> m in st.tasks)
    && (forall m :: m in st.tasks && !st.tasks[m].Over? ==> m in st.inFlight)
    && (forall m :: m in st.held <==> m in st.tasks && st.tasks[m] == Working)
  }

  ghost predicate Bounded(settings: Settings, st: State) {
    Counted(settings, st) && Placed(st)
  }

  predicate Drains(st: State) {
    match st.main
    case Draining(waitsFor) => forall m :: m in st.tasks && !st.tasks[m].Over? ==> m in waitsFor
    case Closed => forall m :: m in st.tasks ==> st.tasks[m].Over?
    case _ => true
  }

  lemma {:induction false} LoopKeepsCount(settings: Settings, st: State, step: Step)
    requires Counted(settings, st)
    ensures Counted(settings, Loop(settings, st, step))
  {
    SubsetIsNoLarger(StillRunning(st), st.inFlight);
  }

  lemma {:induction false} JobKeepsCount(settings: Settings, st: State, step: Step)
    requires Counted(settings, st)
    ensures Counted(settings, Job(settings, st, step))
  {
    if step.Discard? {
      SubsetIsNoLarger(st.inFlight - {step.m}, st.inFlight);
    } else {
      assert Job(settings, st, step).inFlight == st.inFlight;
    }
  }

  lemma {:induction false} LoopKeepsPlaces(settings: Settings, st: State, step: Step)
    requires Placed(st)
    ensures Placed(Loop(settings, st, step))
  {
  }

  lemma {:induction false} JobKeepsPlaces(settings: Settings, st: State, step: Step)
    requires Placed(st)
    ensures Placed(Job(settings, st, step))
  {
  }

  lemma {:induction false} StepKeepsDrain(settings: Settings, st: State, step: Step)
    requires Placed(st) && Drains(st)
    ensures Drains(Next(settings, st, step))
  {
  }

  lemma {:induction false} LoopFitsLog(settings: Settings, st: State, step: Step, m: MessageId)
    requires LogFits(st, m)
    ensures LogFits(Loop(settings, st, step), m)
  {
    if step.ReadMessage? {
      EventsOfOneMore(st.log, Took(step.m), m);
    }
  }

  lemma {:induction false} LogGrows(st: State, next: State, event: Event, task: Task, m: MessageId)
    requires LogFits(st, m) && event.m in st.tasks
    requires next.log == st.log + [event] && next.tasks == st.tasks[event.m := task]
    requires LifeOf(event.m, task) == LifeOf(event.m, st.tasks[event.m]) + [event]
    ensures LogFits(next, m)
  {
    EventsOfOneMore(st.log, event, m);
  }

  lemma {:induction false} JobFitsLog(settings: Settings, st: State, step: Step, m: MessageId)
    requires LogFits(st, m)
    ensures LogFits(Job(settings, st, step), m)
  {
    var next := Job(settings, st, step);
    if next.log != st.log {
      var event := next.log[|st.log|];
      LogGrows(st, next, event, next.tasks[step.m], m);
    }
  }

  ghost predicate Inv(settings: Settings, st: State) {
    Bounded(settings, st) && Drains(st) && forall m :: LogFits(st, m)
  }

  lemma {:induction false} InvHolds(settings: Settings, steps: seq<Step>)
    ensures Inv(settings, Run(settings, steps))
  {
    if |steps| > 0 {
      var before, step := Run(settings, steps[..|steps| - 1]), steps[|steps| - 1];
      InvHolds(settings, steps[..|steps| - 1]);
      LoopKeepsCount(settings, before, step);
      LoopKeepsPlaces(settings, before, step);
      JobKeepsCount(settings, before, step);
      JobKeepsPlaces(settings, before, step);
      StepKeepsDrain(settings, before, step);
      forall m
        ensures LogFits(Next(settings, before, step), m)
      {
        LoopFitsLog(settings, before, step, m);
        JobFitsLog(settings, before, step, m);
      }
    }
  }

  // ---------- Main results ----------

  /**
   However loop and tasks interleave, no more than `max_global_runs` jobs are unfinished, and the pool keeps at
   least two connections free, so that no task ever waits for one.
   */
  lemma {:induction false} RunningJobsAreBounded(settings: Settings, steps: seq<Step>, running: set<MessageId>)
    requires forall m :: m in running ==> m in Run(settings, steps).tasks && !IsOver(Run(settings, steps), m)
    ensures |running| <= Cap(settings)
    ensures PoolSize(settings) == settings.maxRuns + 2
    ensures Run(settings, steps).held != {} ==> |Run(settings, steps).held| + 2 <= PoolSize(settings)
    ensures running != {} ==> |Run(settings, steps).held| < PoolSize(settings)
  {
    InvHolds(settings, steps);
    var st := Run(settings, steps);
    SubsetIsNoLarger(running, st.inFlight);
    SubsetIsNoLarger(st.held, st.inFlight);
    if m :| m in running {
      SubsetIsNoLarger({m}, running);
    }
  }

  lemma {:induction false} AcknowledgedOnce(m: MessageId, task: Task)
    ensures multiset(LifeOf(m, task))[Acked(m)] == if task.Over? && task.acked then 1 else 0
  {
    if task.Over? && task.acked {
      assert multiset(Processed(m, task.began, task.ok))[Acked(m)] == 0;
    }
  }

  /** Nothing happens to a message twice, and it is acknowledged only after its processing ended. */
  lemma {:induction false} EachMessageLivesOnce(settings: Settings, steps: seq<Step>, m: MessageId)
    ensures var st := Run(settings, steps);
            EventsOf(st.log, m) == if m in st.tasks then LifeOf(m, st.tasks[m]) else []
    ensures multiset(EventsOf(Run(settings, steps).log, m))[Acked(m)]
         == (var st := Run(settings, steps); if IsOver(st, m) && st.tasks[m].acked then 1 else 0)
  {
    InvHolds(settings, steps);
    var st := Run(settings, steps);
    assert LogFits(st, m);
    if m in st.tasks {
      AcknowledgedOnce(m, st.tasks[m]);
    }
  }

  /** When the pool is closed every message ever taken has been processed to its end, and no task is left. */
  lemma {:induction false} ThePoolClosesLast(settings: Settings, steps: seq<Step>)
    requires Run(settings, steps).main == Closed
    ensures var st := Run(settings, steps);
            && st.held == {}
            && (forall m :: m in st.tasks ==> IsOver(st, m))
            && (forall m :: Took(m) in st.log ==> exists ok :: Finished(m, ok) in st.log)
  {
    InvHolds(settings, steps);
    var st := Run(settings, steps);
    forall m | Took(m) in st.log
      ensures exists ok :: Finished(m, ok) in st.log
    {
      assert LogFits(st, m);
      EventsAreLogged(st.log, m, Took(m));
      assert IsOver(st, m);
      var finished := Finished(m, st.tasks[m].ok);
      assert finished in LifeOf(m, st.tasks[m]);
      EventsAreLogged(st.log, m, finished);
    }
  }

  // ---------- That it gets on ----------

  function Both(settings: Settings, st: State, first: Step, second: Step): State {
    Next(settings, Next(settings, st, first), second)
  }

  /** A message that is read becomes a task in flight, and the loop is back at its gate. */
  lemma {:induction false} ReadingTakes(settings: Settings, st: State, m: MessageId)
    requires st.main == Reading && m !in st.tasks
    ensures Next(settings, st, ReadMessage(m))
         == State(AtGate, st.tasks[m := Waiting], st.inFlight + {m}, st.held, st.log + [Took(m)])
  {
  }

  /** In every reachable state a waiting task gets a connection at once; it works, gives it back and acknowledges. */
  lemma {:induction false} TasksGetThrough(settings: Settings, steps: seq<Step>, m: MessageId, ok: bool, acked: bool)
    requires m in Run(settings, steps).tasks && Run(settings, steps).tasks[m] == Waiting
    ensures var st := Run(settings, steps);
            var done := Both(settings, Both(settings, st, Connect(m), Finish(m, ok)), Ack(m, acked), Discard(m));
            && done.tasks == st.tasks[m := Over(true, ok, acked)] && done.main == st.main
            && done.inFlight == st.inFlight - {m} && done.held == st.held
            && done.log == st.log + [Began(m), Finished(m, ok)] + if acked then [Acked(m)] else []
  {
    Connects(settings, steps, m);
    var working := Next(settings, Run(settings, steps), Connect(m));
    var finished := Next(settings, working, Finish(m, ok));
    assert finished.tasks == Run(settings, steps).tasks[m := Acking(true, ok)];
  }

  lemma {:induction false} Connects(settings: Settings, steps: seq<Step>, m: MessageId)
    requires m in Run(settings, steps).tasks && Run(settings, steps).tasks[m] == Waiting
    ensures var st := Run(settings, steps);
            && m !in st.held
            && Next(settings, st, Connect(m))
               == State(st.main, st.tasks[m := Working], st.inFlight, st.held + {m}, st.log + [Began(m)])
  {
    RunningJobsAreBounded(settings, steps, {m});
    InvHolds(settings, steps);
    assert Placed(Run(settings, steps));
  }

  /** A job that gets no connection is over as failed, and is acknowledged all the same. */
  lemma {:induction false} FailedConnectionsEndTheJob(settings: Settings, st: State, m: MessageId, acked: bool)
    requires m in st.tasks && st.tasks[m] == Waiting
    ensures var done := Both(settings, st, ConnectFails(m), Ack(m, acked));
            && done.tasks == st.tasks[m := Over(false, false, acked)] && done.held == st.held
            && done.log == st.log + [Finished(m, false)] + (if acked then [Acked(m)] else [])
            && done.inFlight == st.inFlight && done.main == st.main
  {
    var failed := Next(settings, st, ConnectFails(m));
    assert failed.tasks[m] == Acking(false, false);
  }

  /** At the gate the loop reads again as soon as a place is free, or one of the jobs in flight is over. */
  lemma {:induction false} TheGateOpens(settings: Settings, steps: seq<Step>)
    requires Run(settings, steps).main == AtGate && settings.maxRuns > 0
    ensures var st := Run(settings, steps);
            && (|st.inFlight| < settings.maxRuns ==> Next(settings, st, PassGate) == st.(main := Reading))
            && (|st.inFlight| >= settings.maxRuns ==> Next(settings, st, PassGate) == st)
            && (forall m :: m in st.inFlight && m in st.tasks && st.tasks[m].Over? ==>
                  var reaped := Both(settings, st, Reap, PassGate);
                  reaped.main == Reading && (m in reaped.inFlight ==> |st.inFlight| < settings.maxRuns))
  {
    var st := Run(settings, steps);
    InvHolds(settings, steps);
    forall m | m in st.inFlight && m in st.tasks && st.tasks[m].Over?
      ensures var reaped := Both(settings, st, Reap, PassGate);
              reaped.main == Reading && (m in reaped.inFlight ==> |st.inFlight| < settings.maxRuns)
    {
      SubsetIsNoLarger(StillRunning(st), st.inFlight);
    }
  }

  /** Reaping, which takes place only when no place is free, forgets exactly the jobs that are over. */
  lemma {:induction false} ReapingForgetsTheOver(settings: Settings, st: State, m: MessageId)
    ensures var reaped, reaps := Next(settings, st, Reap), st.main == AtGate && |st.inFlight| >= settings.maxRuns;
            && reaped == st.(inFlight := reaped.inFlight)
            && (m in reaped.inFlight <==> m in st.inFlight && !(reaps && m in st.tasks && st.tasks[m].Over?))
  {
  }

  /** An empty answer ends a single-shot worker with nothing in flight, and no other. */
  lemma {:induction false} IdleWorkersStop(settings: Settings, st: State)
    requires st.main == Reading
    ensures Next(settings, st, ReadNothing)
         == st.(main := if settings.once && st.inFlight == {} then Draining({}) else AtGate)
  {
  }

  /** The loop can be left wherever it waits; then the pool is closed exactly when all that was in flight is over. */
  lemma {:induction false} TheDrainEnds(settings: Settings, st: State)
    requires st.main == AtGate || st.main == Reading
    ensures var left := Next(settings, st, LeaveLoop);
            && left == st.(main := Draining(st.inFlight))
            && Next(settings, left, ClosePool)
               == if forall m :: m in st.inFlight ==> m in st.tasks && st.tasks[m].Over?
                  then left.(main := Closed) else left
  {
  }

  lemma {:induction false} EventsAreLogged(log: seq<Event>, m: MessageId, event: Event)
    requires event.m == m
    ensures event in EventsOf(log, m) <==> event in log
  {
    if |log| > 0 {
      EventsAreLogged(log[..|log| - 1], m, event);
      assert log == log[..|log| - 1] + [log[|log| - 1]];
    }
  }

  /** Nothing moves once the pool is closed, but for callbacks. */
  lemma {:induction false} ClosedIsFinal(settings: Settings, steps: seq<Step>, step: Step)
    requires Run(settings, steps).main == Closed
    ensures Next(settings, Run(settings, steps), step) == Run(settings, steps).(
              inFlight := Next(settings, Run(settings, steps), step).inFlight)
  {
    InvHolds(settings, steps);
  }

  // ---------- The loop itself ----------

  lemma {:induction false} OneMore(settings: Settings, steps: seq<Step>, step: Step)
    ensures Run(settings, steps + [step]) == Next(settings, Run(settings, steps), step)
  {
    assert (steps + [step])[..|steps|] == steps;
  }

  /** What `xreadgroup` comes back with. */
  datatype Answer = Message(m: MessageId) | NoMessage | Raises

  /**
   One pass of the loop as its surroundings have it: what the tasks do during each wait for a free place,
   what they do while the stream is read, and the answer.
   */
  datatype Pass = Pass(waits: seq<seq<Step>>, reading: seq<Step>, answer: Answer)

  class WorkerLoop {
    const settings: Settings
    var main: Main
    var tasks: map<MessageId, Task>
    var inFlight: set<MessageId>
    var held: set<MessageId>
    var log: seq<Event>
    ghost var steps: seq<Step>

    constructor (settings: Settings)
      ensures this.settings == settings && Valid() && main == AtGate && steps == []
    {
      this.settings := settings;
      main, tasks, inFlight, held, log, steps := AtGate, map[], {}, {}, [], [];
    }

    function Snapshot(): State
      reads this
    {
      State(main, tasks, inFlight, held, log)
    }

    ghost predicate Valid()
      reads this
    {
      Snapshot() == Run(settings, steps)
    }

    ghost method Record(step: Step)
      requires Snapshot() == Next(settings, Run(settings, steps), step)
      modifies this`steps
      ensures Valid() && steps == old(steps) + [step]
    {
      OneMore(settings, steps, step);
      steps := steps + [step];
    }

    /** A task gets one step further. */
    method TaskStep(step: Step)
      requires Valid() && IsJobStep(step)
      modifies this
      ensures Valid() && main == old(main) && steps == old(steps) + [step]
    {
      match step {
        case Discard(m) =>
          if IsOver(Snapshot(), m) {
            inFlight := inFlight - {m};
          }
        case Connect(m) =>
          if m in tasks && tasks[m] == Waiting && |held| < PoolSize(settings) {
            tasks, held, log := tasks[m := Working], held + {m}, log + [Began(m)];
          }
        case ConnectFails(m) =>
          if m in tasks && tasks[m] == Waiting {
            tasks, log := tasks[m := Acking(false, false)], log + [Finished(m, false)];
          }
        case Finish(m, ok) =>
          if m in tasks && tasks[m] == Working {
            tasks, held, log := tasks[m := Acking(true, ok)], held - {m}, log + [Finished(m, ok)];
          }
        case Ack(m, ok) =>
          if m in tasks && tasks[m].Acking? {
            log := if ok then log + [Acked(m)] else log;
            tasks := tasks[m := Over(tasks[m].began, tasks[m].ok, ok)];
          }
        case _ =>
      }
      Record(step);
    }

    /** The tasks run while the loop waits. */
    method LetTasksRun(work: seq<Step>)
      requires Valid() && forall i :: 0 <= i < |work| ==> IsJobStep(work[i])
      modifies this
      ensures Valid() && main == old(main)
    {
      for i := 0 to |work|
        invariant Valid() && main == old(main)
      {
        TaskStep(work[i]);
      }
    }

    /** Do not read until there is a place; with nothing to wait for, or no more waits, it gives up. */
    method WaitForPlace(waits: seq<seq<Step>>) returns (free: bool)
      requires Valid() && main == AtGate
      requires forall i, j :: 0 <= i < |waits| && 0 <= j < |waits[i]| ==> IsJobStep(waits[i][j])
      modifies this
      ensures Valid() && main == AtGate
      ensures free <==> |inFlight| < settings.maxRuns
    {
      var k := 0;
      while |inFlight| >= settings.maxRuns && k < |waits|
        invariant 0 <= k <= |waits| && Valid() && main == AtGate
        decreases |waits| - k
      {
        if inFlight == {} {
          return false;
        }
        LetTasksRun(waits[k]);
        var before := Snapshot();
        if |inFlight| >= settings.maxRuns {
          inFlight := StillRunning(before);
        }
        Record(Reap);
        k := k + 1;
      }
      free := |inFlight| < settings.maxRuns;
    }

    /** A message becomes a task; without one, a single-shot worker with nothing in flight is done. */
    method TakeAnswer(answer: Answer) returns (goesOn: bool)
      requires Valid() && main == Reading
      modifies this
      ensures Valid()
      ensures goesOn ==> main == AtGate
      ensures !goesOn ==> main == Reading || main == Draining({})
      ensures answer.Message? && answer.m !in old(tasks) ==> goesOn && inFlight == old(inFlight) + {answer.m}
    {
      match answer
      case Raises =>
        goesOn := false;
      case NoMessage =>
        goesOn := !settings.once || inFlight != {};
        main := if goesOn then AtGate else Draining({});
        Record(ReadNothing);
      case Message(m) =>
        goesOn := m !in tasks;
        if goesOn {
          main, tasks, inFlight, log := AtGate, tasks[m := Waiting], inFlight + {m}, log + [Took(m)];
          Record(ReadMessage(m));
        }
    }

    /** One pass; `goesOn` is false when the loop is left. */
    method TakeOne(pass: Pass) returns (goesOn: bool)
      requires Valid() && main == AtGate
      requires forall i, j :: 0 <= i < |pass.waits| && 0 <= j < |pass.waits[i]| ==> IsJobStep(pass.waits[i][j])
      requires forall i :: 0 <= i < |pass.reading| ==> IsJobStep(pass.reading[i])
      modifies this
      ensures Valid()
      ensures goesOn ==> main == AtGate
      ensures !goesOn ==> main == AtGate || main == Reading || main == Draining({})
    {
      var free := WaitForPlace(pass.waits);
      if !free {
        return false;
      }
      main := Reading;
      Record(PassGate);
      LetTasksRun(pass.reading);
      goesOn := TakeAnswer(pass.answer);
    }

    /** The `finally` clause: what is in flight is drained before the pool is closed. */
    method DrainAndClose(drain: seq<Step>) returns (drained: bool)
      requires Valid() && (main == AtGate || main == Reading || main == Draining({}))
      requires forall i :: 0 <= i < |drain| ==> IsJobStep(drain[i])
      modifies this
      ensures Valid() && (drained <==> main == Closed)
    {
      if !main.Draining? {
        main := Draining(inFlight);
        Record(LeaveLoop);
      }
      LetTasksRun(drain);
      drained := AllOver(Snapshot(), main.waitsFor);
      if drained {
        main := Closed;
        Record(ClosePool);
      }
    }

    /**
     `run_worker` through these passes and its drain. `drained` tells whether the work given for the drain was
     enough to end every task; only then is the pool closed.
     */
    method RunWorker(passes: seq<Pass>, drain: seq<Step>) returns (drained: bool)
      requires Valid() && main == AtGate
      requires forall p, i, j :: 0 <= p < |passes| && 0 <= i < |passes[p].waits| && 0 <= j < |passes[p].waits[i]| ==>
                 IsJobStep(passes[p].waits[i][j])
      requires forall p, i :: 0 <= p < |passes| && 0 <= i < |passes[p].reading| ==> IsJobStep(passes[p].reading[i])
      requires forall i :: 0 <= i < |drain| ==> IsJobStep(drain[i])
      modifies this
      ensures Valid() && |inFlight| <= Cap(settings)
      ensures drained <==> main == Closed
      ensures drained ==> held == {} && forall m :: m in tasks ==> tasks[m].Over?
      ensures forall m :: LogFits(Snapshot(), m)
    {
      var goesOn := true;
      for p := 0 to |passes|
        invariant Valid() && (goesOn ==> main == AtGate)
        invariant main == AtGate || main == Reading || main == Draining({})
      {
        if goesOn {
          goesOn := TakeOne(passes[p]);
        }
      }
      drained := DrainAndClose(drain);
      InvHolds(settings, steps);
    }
  }
}
