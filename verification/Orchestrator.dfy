/** One session job in the worker: the agent chain of its mode, run after run. */
module Orchestrator {
  import opened Prelude

  datatype AgentKind = Codex | Discovery

  datatype Mode = BuildPlanned | BuildDirect | DiscoverThenBuild | OtherMode

  function AgentsByMode(mode: Mode): seq<AgentKind> {
    if mode == DiscoverThenBuild then [Discovery, Codex] else [Codex]
  }

  datatype SessionStatus = Queued | Running | Completed | Interrupted | Failed

  predicate IsActive(status: SessionStatus) {
    status == Queued || status == Running
  }

  /** One call to Postgres or Redis: whether an interrupt commits just before it, and what becomes of it. */
  datatype Access = Access(interrupts: bool, effect: Effect)

  predicate AllWork(world: nat -> Access, from: nat, to: nat) {
    forall n :: from <= n < to ==> world(n).effect.Works?
  }

  lemma {:induction false} WorkJoins(world: nat -> Access, from: nat, mid: nat, to: nat)
    requires from <= mid <= to
    ensures AllWork(world, from, to) <==> AllWork(world, from, mid) && AllWork(world, mid, to)
  {
  }

  lemma {:induction false} OneWorks(world: nat -> Access, n: nat)
    ensures AllWork(world, n, n + 1) <==> world(n).effect.Works?
  {
  }

  /** An interrupt commits just before one of these accesses. */
  predicate Interrupts(world: nat -> Access, from: nat, to: nat) {
    exists n :: from <= n < to && world(n).interrupts
  }

  lemma {:induction false} InterruptsJoin(world: nat -> Access, from: nat, mid: nat, to: nat)
    requires from <= mid <= to
    ensures Interrupts(world, from, to) <==> Interrupts(world, from, mid) || Interrupts(world, mid, to)
  {
  }

  lemma {:induction false} OneInterrupt(world: nat -> Access, n: nat)
    ensures Interrupts(world, n, n + 1) <==> world(n).interrupts
  {
  }

  /** What interrupts alone make of a status that nobody else writes. */
  function Stopped(world: nat -> Access, from: nat, to: nat, status: SessionStatus): SessionStatus {
    if Interrupts(world, from, to) then Interrupted else status
  }

  datatype OutcomeStatus = Done | Skipped | AgentFailed | AgentInterrupted

  /**
   What an agent's run yields; an agent that raises yields `AgentFailed`. `serializable` is
   whether `output` can be written as JSON, `brief` the compiled brief it may carry.
   */
  datatype RunOutcome =
    RunOutcome(status: OutcomeStatus, serializable: bool, brief: string, finalMessage: Option<string>)

  predicate Stops(status: OutcomeStatus) {
    status == AgentFailed || status == AgentInterrupted
  }

  /** `planMode` is Codex's own mode: plan first, or execute directly. */
  datatype RunInput = RunInput(message: string, planMode: bool)

  datatype RunStatus = InProgress | Ended(status: OutcomeStatus)

  datatype RunRow = RunRow(sequence: nat, kind: AgentKind, input: RunInput, status: RunStatus)

  datatype Frame =
    | SessionStarted
    | RunStarted(kind: AgentKind, sequence: nat)
    | RunCompleted(kind: AgentKind, status: OutcomeStatus)
    | SessionCompleted(final: SessionStatus)

  function InitialInput(mode: Mode, kind: AgentKind, message: string): RunInput {
    RunInput(message, kind == Discovery || mode != BuildDirect)
  }

  /** Discovery to codex: the compiled brief, when there is one, becomes the message. */
  function ThreadingForward(kind: AgentKind, prev: Option<RunOutcome>, input: RunInput): RunInput {
    if kind == Codex && prev.Some? && prev.value.brief != "" then input.(message := prev.value.brief) else input
  }

  function InputOf(mode: Mode, message: string, outcomes: nat -> RunOutcome, i: nat): RunInput
    requires i < |AgentsByMode(mode)|
  {
    var kind := AgentsByMode(mode)[i];
    ThreadingForward(kind, if i == 0 then None else Some(outcomes(i - 1)), InitialInput(mode, kind, message))
  }

  /** The frames of runs that were both started and completed. */
  function RunFrames(runs: seq<RunRow>): seq<Frame> {
    if |runs| == 0 then []
    else
      var last := runs[|runs| - 1];
      RunFrames(runs[..|runs| - 1])
      + [RunStarted(last.kind, last.sequence),
         RunCompleted(last.kind, if last.status.Ended? then last.status.status else Done)]
  }

  /** Runs numbered from 1, following the mode's agent list, each with the input the chain gives it. */
  predicate FollowsChain(mode: Mode, message: string, outcomes: nat -> RunOutcome, runs: seq<RunRow>) {
    && |runs| <= |AgentsByMode(mode)|
    && forall i :: 0 <= i < |runs| ==>
         && runs[i].sequence == i + 1
         && runs[i].kind == AgentsByMode(mode)[i]
         && runs[i].input == InputOf(mode, message, outcomes, i)
  }

  /** The run ended, with what its agent returned, and the chain may go on. */
  predicate WentOn(outcomes: nat -> RunOutcome, runs: seq<RunRow>, i: nat)
    requires i < |runs|
  {
    runs[i].status == Ended(outcomes(i).status) && !Stops(outcomes(i).status) && outcomes(i).serializable
  }

  predicate AllWentOn(outcomes: nat -> RunOutcome, runs: seq<RunRow>) {
    forall i :: 0 <= i < |runs| ==> WentOn(outcomes, runs, i)
  }

  /** How the body of the `try` comes to its end. */
  datatype ChainEnd = AllRan | AlreadyInterrupted | RunStopped | Crashed

  /** The rows and frames a chain can end with; frames are those after `SessionStarted`. */
  predicate ChainResult(
    mode: Mode, message: string, outcomes: nat -> RunOutcome, runs: seq<RunRow>, frames: seq<Frame>, end: ChainEnd)
  {
    && FollowsChain(mode, message, outcomes, runs)
    && match end
       case AllRan =>
         |runs| == |AgentsByMode(mode)| && AllWentOn(outcomes, runs) && frames == RunFrames(runs)
       case AlreadyInterrupted =>
         |runs| < |AgentsByMode(mode)| && AllWentOn(outcomes, runs) && frames == RunFrames(runs)
       case RunStopped =>
         && |runs| > 0
         && AllWentOn(outcomes, runs[..|runs| - 1])
         && runs[|runs| - 1].status == Ended(outcomes(|runs| - 1).status)
         && Stops(outcomes(|runs| - 1).status)
         && outcomes(|runs| - 1).serializable
         && frames == RunFrames(runs)
       case Crashed =>
         || (|runs| < |AgentsByMode(mode)| && AllWentOn(outcomes, runs) && frames == RunFrames(runs))
         || (&& |runs| > 0
             && AllWentOn(outcomes, runs[..|runs| - 1])
             && CutOff(outcomes(|runs| - 1), runs[|runs| - 1], frames, RunFrames(runs[..|runs| - 1])))
  }

  /** What a run leaves whose pass raised once its row was there; `before` are the frames of the runs before it. */
  predicate CutOff(outcome: RunOutcome, row: RunRow, frames: seq<Frame>, before: seq<Frame>) {
    || (row.status == InProgress && frames == before)
    || ((row.status == InProgress || row.status == Ended(outcome.status))
        && frames == before + [RunStarted(row.kind, row.sequence)])
  }

  /** What a pass adds that raises: its row may not be there, or be there unannounced. */
  predicate CrashedPass(outcome: RunOutcome, row: RunRow, rows: seq<RunRow>, sent: seq<Frame>) {
    || (rows == [] && sent == [])
    || (rows == [row] && sent == [])
    || ((rows == [row] || rows == [row.(status := Ended(outcome.status))])
        && sent == [RunStarted(row.kind, row.sequence)])
  }

  function FinalStatus(outcomes: nat -> RunOutcome, runs: nat, end: ChainEnd): SessionStatus {
    match end
    case AllRan => Completed
    case AlreadyInterrupted => Interrupted
    case RunStopped => if runs > 0 && outcomes(runs - 1).status == AgentInterrupted then Interrupted else Failed
    case Crashed => Failed
  }

  /** A chain that could still go on, and the row of its next run. */
  predicate NextRow(
    mode: Mode, message: string, outcomes: nat -> RunOutcome, runs: seq<RunRow>, frames: seq<Frame>, row: RunRow)
  {
    && ChainResult(mode, message, outcomes, runs, frames, AlreadyInterrupted)
    && row == RunRow(|runs| + 1, AgentsByMode(mode)[|runs|], InputOf(mode, message, outcomes, |runs|), InProgress)
  }

  lemma {:induction false} RowIsCutOff(
    mode: Mode, message: string, outcomes: nat -> RunOutcome, runs: seq<RunRow>, frames: seq<Frame>, row: RunRow)
    requires FollowsChain(mode, message, outcomes, runs + [row]) && AllWentOn(outcomes, runs)
    requires CutOff(outcomes(|runs|), row, frames, RunFrames(runs))
    ensures ChainResult(mode, message, outcomes, runs + [row], frames, Crashed)
  {
    var runs' := runs + [row];
    assert runs'[..|runs'| - 1] == runs && runs'[|runs'| - 1] == row;
  }

  lemma {:induction false} ChainCrashes(
    mode: Mode, message: string, outcomes: nat -> RunOutcome, runs: seq<RunRow>, frames: seq<Frame>, row: RunRow,
    rows: seq<RunRow>, sent: seq<Frame>)
    requires NextRow(mode, message, outcomes, runs, frames, row)
    requires CrashedPass(outcomes(|runs|), row, rows, sent)
    ensures ChainResult(mode, message, outcomes, runs + rows, frames + sent, Crashed)
  {
    if rows == [] {
      assert runs + rows == runs && frames + sent == frames;
    } else {
      assert rows == [rows[0]] && (sent == [] ==> frames + sent == frames);
      FollowsOneMore(mode, message, outcomes, runs, rows[0]);
      RowIsCutOff(mode, message, outcomes, runs, frames + sent, rows[0]);
    }
  }

  /** The next run ends, and so does the chain unless it can go on. */
  lemma {:induction false} ChainExtends(
    mode: Mode, message: string, outcomes: nat -> RunOutcome, runs: seq<RunRow>, frames: seq<Frame>, row: RunRow)
    requires NextRow(mode, message, outcomes, runs, frames, row) && outcomes(|runs|).serializable
    ensures var status := outcomes(|runs|).status;
            ChainResult(mode, message, outcomes, runs + [row.(status := Ended(status))],
              frames + [RunStarted(row.kind, row.sequence), RunCompleted(row.kind, status)],
              if Stops(status) then RunStopped
              else if |runs| + 1 < |AgentsByMode(mode)| then AlreadyInterrupted else AllRan)
  {
    var done := row.(status := Ended(outcomes(|runs|).status));
    FollowsOneMore(mode, message, outcomes, runs, done);
    var runs' := runs + [done];
    assert runs'[..|runs'| - 1] == runs && runs'[|runs'| - 1] == done;
    if !Stops(done.status.status) {
      WentOnOneMore(outcomes, runs, done);
    }
  }

  /** How the chain ends after a pass; `AlreadyInterrupted` while there is an agent left. */
  function EndOfPass(mode: Mode, outcome: RunOutcome, runs: nat, crashed: bool): ChainEnd {
    if crashed then Crashed
    else if Stops(outcome.status) then RunStopped
    else if runs < |AgentsByMode(mode)| then AlreadyInterrupted else AllRan
  }

  /** What a pass adds, the agent having yielded `outcome`. */
  predicate PassAdds(outcome: RunOutcome, row: RunRow, rows: seq<RunRow>, sent: seq<Frame>, crashed: bool) {
    if crashed then
      CrashedPass(outcome, row, rows, sent)
    else
      && outcome.serializable
      && rows == [row.(status := Ended(outcome.status))]
      && sent == [RunStarted(row.kind, row.sequence), RunCompleted(row.kind, outcome.status)]
  }

  lemma {:induction false} ChainAfterPass(
    mode: Mode, message: string, outcomes: nat -> RunOutcome, runs: seq<RunRow>, frames: seq<Frame>, row: RunRow,
    rows: seq<RunRow>, sent: seq<Frame>, crashed: bool)
    requires NextRow(mode, message, outcomes, runs, frames, row)
    requires PassAdds(outcomes(|runs|), row, rows, sent, crashed)
    ensures ChainResult(mode, message, outcomes, runs + rows, frames + sent,
                        EndOfPass(mode, outcomes(|runs|), |runs| + 1, crashed))
  {
    if crashed {
      ChainCrashes(mode, message, outcomes, runs, frames, row, rows, sent);
    } else {
      ChainExtends(mode, message, outcomes, runs, frames, row);
    }
  }

  lemma {:induction false} FollowsOneMore(
    mode: Mode, message: string, outcomes: nat -> RunOutcome, runs: seq<RunRow>, row: RunRow)
    requires FollowsChain(mode, message, outcomes, runs) && |runs| < |AgentsByMode(mode)|
    requires row.sequence == |runs| + 1 && row.kind == AgentsByMode(mode)[|runs|]
    requires row.input == InputOf(mode, message, outcomes, |runs|)
    ensures FollowsChain(mode, message, outcomes, runs + [row])
  {
  }

  lemma {:induction false} WentOnOneMore(outcomes: nat -> RunOutcome, runs: seq<RunRow>, row: RunRow)
    requires AllWentOn(outcomes, runs) && outcomes(|runs|).serializable && !Stops(outcomes(|runs|).status)
    requires row.status == Ended(outcomes(|runs|).status)
    ensures AllWentOn(outcomes, runs + [row])
  {
    forall i | 0 <= i < |runs| + 1
      ensures WentOn(outcomes, runs + [row], i)
    {
      assert i < |runs| ==> WentOn(outcomes, runs, i);
    }
  }

  /** Which status a job announces, told from the accesses that worked; `closing` is the one after its last write. */
  function Announced(
    world: nat -> Access, outcomes: nat -> RunOutcome, runs: nat, end: ChainEnd, closing: nat): Option<SessionStatus>
    requires closing >= 2
  {
    if end == AlreadyInterrupted then Some(Interrupted)
    else if !world(closing - 1).effect.Works? then None
    else if !world(closing - 2).effect.Works? then Some(Failed)
    else Some(FinalStatus(outcomes, runs, end))
  }

  /** Between `from` and `closing` it crashed exactly when an access raised or the last output could not be written. */
  predicate CrashesExactly(world: nat -> Access, from: nat, closing: nat, end: ChainEnd, writable: bool)
    requires closing >= 2
  {
    && (end == Crashed ==> !AllWork(world, from, closing - 1) || !writable)
    && (AllWork(world, from, closing) ==> (end == Crashed <==> !writable))
  }

  /** It announces `completed` exactly when the whole chain ran and every access worked. */
  predicate CompletesExactly(
    world: nat -> Access, from: nat, closing: nat, end: ChainEnd, announced: Option<SessionStatus>)
  {
    announced == Some(Completed) <==> end == AllRan && AllWork(world, from, closing)
  }

  lemma {:induction false} ExactFromTheStart(
    world: nat -> Access, start: nat, from: nat, closing: nat, end: ChainEnd, announced: Option<SessionStatus>,
    writable: bool)
    requires start <= from < closing && closing >= 2 && AllWork(world, start, from)
    requires CrashesExactly(world, from, closing, end, writable)
    requires CompletesExactly(world, from, closing, end, announced)
    ensures CrashesExactly(world, start, closing, end, writable)
    ensures CompletesExactly(world, start, closing, end, announced)
  {
    WorkJoins(world, start, from, closing);
    WorkJoins(world, start, from, closing - 1);
  }

  lemma {:induction false} ExactForTheChain(
    world: nat -> Access, outcomes: nat -> RunOutcome, runs: nat, from: nat, last: nat, closing: nat, end: ChainEnd,
    writable: bool)
    requires 2 <= from < last && closing == WritesUntil(world, last, end)
    requires end == Crashed <==> !AllWork(world, from, last) || !writable
    ensures CrashesExactly(world, from, closing, end, writable)
    ensures CompletesExactly(world, from, closing, end, Announced(world, outcomes, runs, end, closing))
    ensures end != Crashed ==> world(last - 1).effect.Works?
  {
    WorkJoins(world, from, last, closing);
    if closing == last + 2 {
      WorkJoins(world, last, last + 1, closing);
      OneWorks(world, last);
      OneWorks(world, last + 1);
    } else if closing == last + 1 {
      OneWorks(world, last);
    }
    if AllWork(world, from, last) {
      assert world(last - 1).effect.Works?;
    }
  }

  /** One write; another after one that raised; none when the interrupt has been recorded. */
  function WritesUntil(world: nat -> Access, last: nat, end: ChainEnd): nat {
    last + if end == AlreadyInterrupted then 0 else if end == Crashed || world(last).effect.Works? then 1 else 2
  }

  /** The frames are those of the chain, closed by one `session_completed` unless even that write raised. */
  predicate ClosedFrames(
    mode: Mode, message: string, outcomes: nat -> RunOutcome, runs: seq<RunRow>, frames: seq<Frame>, end: ChainEnd,
    announced: Option<SessionStatus>)
  {
    var last := |frames| - if announced.Some? then 1 else 0;
    && last >= 1 && frames[0] == SessionStarted
    && ChainResult(mode, message, outcomes, runs, frames[1..last], end)
    && (announced.Some? ==> frames[last] == SessionCompleted(announced.value))
  }

  lemma {:induction false} FramesAreClosed(
    mode: Mode, message: string, outcomes: nat -> RunOutcome, runs: seq<RunRow>, chain: seq<Frame>, end: ChainEnd,
    announced: Option<SessionStatus>)
    requires |chain| > 0 && chain[0] == SessionStarted && ChainResult(mode, message, outcomes, runs, chain[1..], end)
    ensures ClosedFrames(mode, message, outcomes, runs, chain + Announcement(announced), end, announced)
  {
    var frames := chain + Announcement(announced);
    assert frames[1..|chain|] == chain[1..];
  }

  function Announcement(announced: Option<SessionStatus>): seq<Frame> {
    if announced.Some? then [SessionCompleted(announced.value)] else []
  }

  /** Still active only when the last write raised without effect; an interrupt can come after the announcement. */
  predicate StatusAfter(status: SessionStatus, announced: Option<SessionStatus>, lastWrite: Effect) {
    if announced.Some? then status == announced.value || status == Interrupted
    else IsActive(status) ==> lastWrite.RaisesUndone?
  }

  /** How many accesses come before the `try`: the row, the earlier messages, the mark as running, the seed intent. */
  function Opening(mode: Mode): nat {
    if mode == DiscoverThenBuild then 4 else 3
  }

  /**
   How a closed job reads from outside. When its last write worked at the first attempt, the last frame tells what
   became of the last run, or that the chain crashed or was found interrupted; when only the second worked, it says
   `failed`.
   */
  predicate ClosesRightly(
    world: nat -> Access, runs: seq<RunRow>, frames: seq<Frame>, status: SessionStatus, end: ChainEnd, closing: nat)
    requires closing >= 2 && |frames| > 0
  {
    var last := frames[|frames| - 1];
    var written, second := world(closing - 1).effect.Works?, !world(closing - 2).effect.Works?;
    && (end == AlreadyInterrupted ==> last == SessionCompleted(Interrupted))
    && (end != AlreadyInterrupted && !written ==> !last.SessionCompleted?)
    && (end != AlreadyInterrupted && written && second ==> last == SessionCompleted(Failed))
    && (end != AlreadyInterrupted && written && !second ==>
          && last.SessionCompleted?
          && (last.final == Completed <==> end == AllRan)
          && (last.final == Interrupted <==> end != Crashed && LastEnded(runs, AgentInterrupted))
          && (last.final == Failed <==> end == Crashed || LastEnded(runs, AgentFailed)))
    && (last.SessionCompleted? ==> status == last.final || status == Interrupted)
  }

  predicate LastEnded(runs: seq<RunRow>, status: OutcomeStatus) {
    |runs| > 0 && runs[|runs| - 1].status == Ended(status)
  }

  lemma {:induction false} ChainFramesAnnounceNothing(
    mode: Mode, message: string, outcomes: nat -> RunOutcome, runs: seq<RunRow>, frames: seq<Frame>, end: ChainEnd)
    requires ChainResult(mode, message, outcomes, runs, frames, end) && |frames| > 0
    ensures !frames[|frames| - 1].SessionCompleted?
  {
    if |runs| > 0 {
      RunFramesEnd(runs);
      RunFramesEnd(runs[..|runs| - 1]);
    }
  }

  lemma {:induction false} RunFramesEnd(runs: seq<RunRow>)
    ensures |RunFrames(runs)| > 0 ==> RunFrames(runs)[|RunFrames(runs)| - 1].RunCompleted?
  {
  }

  /** Which ends leave the last row how. */
  lemma {:induction false} LastRowOf(
    mode: Mode, message: string, outcomes: nat -> RunOutcome, runs: seq<RunRow>, frames: seq<Frame>, end: ChainEnd)
    requires ChainResult(mode, message, outcomes, runs, frames, end)
    ensures end == AllRan || end == AlreadyInterrupted ==>
              !LastEnded(runs, AgentFailed) && !LastEnded(runs, AgentInterrupted)
    ensures end == RunStopped ==>
              && |runs| > 0
              && (LastEnded(runs, AgentInterrupted) <==> outcomes(|runs| - 1).status == AgentInterrupted)
              && (LastEnded(runs, AgentFailed) <==> outcomes(|runs| - 1).status == AgentFailed)
              && Stops(outcomes(|runs| - 1).status)
  {
    if |runs| > 0 && (end == AllRan || end == AlreadyInterrupted) {
      assert WentOn(outcomes, runs, |runs| - 1);
    }
  }

  lemma {:induction false} ClosedFramesCloseRightly(
    mode: Mode, message: string, world: nat -> Access, outcomes: nat -> RunOutcome, runs: seq<RunRow>,
    frames: seq<Frame>, status: SessionStatus, end: ChainEnd, closing: nat)
    requires closing >= 2
    requires var announced := Announced(world, outcomes, |runs|, end, closing);
             && ClosedFrames(mode, message, outcomes, runs, frames, end, announced)
             && StatusAfter(status, announced, world(closing - 1).effect)
    ensures |frames| > 0 && ClosesRightly(world, runs, frames, status, end, closing)
  {
    var announced := Announced(world, outcomes, |runs|, end, closing);
    if announced.None? {
      if |frames| > 1 {
        ChainFramesAnnounceNothing(mode, message, outcomes, runs, frames[1..|frames|], end);
      }
    } else {
      LastRowOf(mode, message, outcomes, runs, frames[1..|frames| - 1], end);
    }
  }

  /** `PassedOver` by the guard, `Died` before the `try`, or past it; `closing` is the slot owner's query. */
  datatype Finish = PassedOver | Died | Finished(end: ChainEnd, closing: nat)

  /**
   The session's rows, the frames the worker publishes, whose loss it does not notice, and its quota slot.
   `world(n)` is the worker's n-th access to another system.
   */
  class SessionJob {
    const mode: Mode
    const message: string
    const outcomes: nat -> RunOutcome
    const world: nat -> Access
    var clock: nat
    var status: SessionStatus
    var finalMessage: Option<string>
    var runs: seq<RunRow>
    var frames: seq<Frame>
    var slotHeld: bool

    constructor (mode: Mode, message: string, outcomes: nat -> RunOutcome, world: nat -> Access, status: SessionStatus)
      ensures this.mode == mode && this.message == message && this.outcomes == outcomes && this.world == world
      ensures clock == 0 && this.status == status && finalMessage == None && runs == [] && frames == [] && slotHeld
    {
      this.mode, this.message, this.outcomes, this.world := mode, message, outcomes, world;
      this.clock, this.status, this.finalMessage := 0, status, None;
      this.runs, this.frames, this.slotHeld := [], [], true;
    }

    /** The next access; the API may commit an interrupt before it. */
    method Reach() returns (effect: Effect)
      modifies this`clock, this`status
      ensures clock == old(clock) + 1 && effect == world(old(clock)).effect
      ensures status == Stopped(world, old(clock), clock, old(status))
    {
      OneInterrupt(world, clock);
      if world(clock).interrupts {
        status := Interrupted;
      }
      effect := world(clock).effect;
      clock := clock + 1;
    }

    /** The message is kept if there is none to write. */
    method FinalizeSession(final: SessionStatus, message: Option<string>) returns (raised: bool)
      modifies this`clock, this`status, this`finalMessage, this`frames
      ensures clock == old(clock) + 1 && raised == !world(old(clock)).effect.Works?
      ensures var undone := world(old(clock)).effect.RaisesUndone?;
              && status == (if undone then Stopped(world, old(clock), clock, old(status)) else final)
              && finalMessage == if undone || message.None? then old(finalMessage) else message
      ensures frames == old(frames) + if raised then [] else [SessionCompleted(final)]
    {
      var effect := Reach();
      if !effect.RaisesUndone? {
        status := final;
        finalMessage := if message.Some? then message else finalMessage;
      }
      raised := !effect.Works?;
      if !raised {
        frames := frames + [SessionCompleted(final)];
      }
    }

    /** The row a run is inserted with. */
    function NewRow(i: nat): RunRow
      requires i < |AgentsByMode(mode)|
    {
      RunRow(i + 1, AgentsByMode(mode)[i], InputOf(mode, message, outcomes, i), InProgress)
    }

    /**
     One pass of the loop: insert the run row, announce it, run the agent, record its outcome.
     An output that cannot be written as JSON raises before the row changes.
     */
    method RunAgent(i: nat, prev: Option<RunOutcome>) returns (crashed: bool)
      requires i == |runs| < |AgentsByMode(mode)|
      requires prev == if i == 0 then None else Some(outcomes(i - 1))
      modifies this`clock, this`status, this`runs, this`frames
      ensures old(clock) <= clock
      ensures crashed <==> !AllWork(world, old(clock), clock) || !outcomes(i).serializable
      ensures old(runs) <= runs && old(frames) <= frames
      ensures PassAdds(outcomes(i), NewRow(i), runs[i..], frames[|old(frames)|..], crashed)
      ensures crashed && AllWork(world, old(clock), clock) ==> |runs| == i + 1
      ensures status == Stopped(world, old(clock), clock, old(status)) && (!crashed ==> clock == old(clock) + 2)
      ensures i <= |runs| <= i + 1 && clock <= old(clock) + 2
    {
      ghost var from := clock;
      var kind := AgentsByMode(mode)[i];
      var input := ThreadingForward(kind, prev, InitialInput(mode, kind, message));
      var effect := Reach();
      if !effect.RaisesUndone? {
        runs := runs + [RunRow(i + 1, kind, input, InProgress)];
      }
      if !effect.Works? {
        return true;
      }
      frames := frames + [RunStarted(kind, i + 1)];
      var outcome := outcomes(i);
      if !outcome.serializable {
        return true;
      }
      effect := Reach();
      InterruptsJoin(world, from, from + 1, clock);
      if !effect.RaisesUndone? {
        runs := runs[..i] + [runs[i].(status := Ended(outcome.status))];
      }
      if !effect.Works? {
        return true;
      }
      frames := frames + [RunCompleted(kind, outcome.status)];
      crashed := false;
    }

    /** Where the chain stands: after `SessionStarted`, the rows and frames of a chain that ended this way. */
    predicate ChainAt(end: ChainEnd)
      reads this
    {
      |frames| > 0 && frames[0] == SessionStarted && ChainResult(mode, message, outcomes, runs, frames[1..], end)
    }

    /** The last run's output, if it was asked for, could be written. */
    predicate LastIsWritable()
      reads this
    {
      |runs| > 0 ==> outcomes(|runs| - 1).serializable
    }

    /** One pass, as what it makes of the chain. */
    method RunPass(i: nat, prev: Option<RunOutcome>) returns (crashed: bool)
      requires i == |runs| < |AgentsByMode(mode)| && ChainAt(AlreadyInterrupted)
      requires prev == if i == 0 then None else Some(outcomes(i - 1))
      modifies this`clock, this`status, this`runs, this`frames
      ensures old(clock) <= clock
      ensures crashed <==> !AllWork(world, old(clock), clock) || !outcomes(i).serializable
      ensures !crashed || AllWork(world, old(clock), clock) ==> |runs| == i + 1
      ensures ChainAt(EndOfPass(mode, outcomes(i), i + 1, crashed))
      ensures status == Stopped(world, old(clock), clock, old(status)) && (!crashed ==> clock == old(clock) + 2)
      ensures i <= |runs| <= i + 1 && clock <= old(clock) + 2
    {
      ghost var rows, sent := runs, frames[1..];
      crashed := RunAgent(i, prev);
      ChainAfterPass(mode, message, outcomes, rows, sent, NewRow(i), runs[i..], frames[|sent| + 1..], crashed);
      assert runs == rows + runs[i..] && frames[1..] == sent + frames[|sent| + 1..];
    }

    /** The body of the loop; it yields how the chain ends here, if it does. */
    method LoopBody(i: nat, prev: Option<RunOutcome>) returns (end: Option<ChainEnd>)
      requires i == |runs| < |AgentsByMode(mode)| && ChainAt(AlreadyInterrupted) && LastIsWritable()
      requires prev == if i == 0 then None else Some(outcomes(i - 1))
      modifies this`clock, this`status, this`runs, this`frames
      ensures old(clock) < clock
      ensures end == Some(Crashed) <==> !AllWork(world, old(clock), clock) || !LastIsWritable()
      ensures end.Some? ==> ChainAt(end.value)
      ensures end.None? ==>
                |runs| == i + 1 && ChainAt(if i + 1 < |AgentsByMode(mode)| then AlreadyInterrupted else AllRan)
      ensures status == Stopped(world, old(clock), clock, old(status)) && (end.None? ==> clock == old(clock) + 3)
      // It goes no further exactly when its first access works and finds the interrupt.
      ensures end == Some(AlreadyInterrupted) <==>
              world(old(clock)).effect.Works? && Stopped(world, old(clock), old(clock) + 1, old(status)) == Interrupted
      ensures end == Some(AlreadyInterrupted) ==> clock == old(clock) + 1 && runs == old(runs) && frames == old(frames)
      ensures i <= |runs| <= i + 1 && clock <= old(clock) + 3 && (end == Some(RunStopped) ==> |runs| == i + 1)
      ensures |runs| == i + 1 ==> world(old(clock)).effect.Works?
    {
      ghost var from := clock;
      var effect := Reach();
      OneWorks(world, clock - 1);
      if !effect.Works? {
        return Some(Crashed);
      }
      if status == Interrupted {
        return Some(AlreadyInterrupted);
      }
      var crashed := RunPass(i, prev);
      WorkJoins(world, from, from + 1, clock);
      InterruptsJoin(world, from, from + 1, clock);
      if crashed {
        return Some(Crashed);
      }
      end := if Stops(outcomes(i).status) then Some(RunStopped) else None;
    }

    /** No pass so far began with an interrupt on record: each took three accesses, the first of them a read. */
    predicate Undisturbed(from: nat, before: SessionStatus, passes: nat) {
      passes > 0 ==> Stopped(world, from, from + 3 * (passes - 1) + 1, before) != Interrupted
    }

    /** The `for` loop over the mode's agents, entered at access `from` with status `before`. */
    method RunChain() returns (end: ChainEnd)
      requires runs == [] && frames == [SessionStarted]
      modifies this`clock, this`status, this`runs, this`frames
      ensures old(clock) < clock
      ensures end == Crashed <==> !AllWork(world, old(clock), clock) || !LastIsWritable()
      ensures ChainAt(end)
      ensures end == AlreadyInterrupted ==> status == Interrupted
      ensures FindsInterrupt(old(clock), old(status), end)
    {
      var agents, prev := AgentsByMode(mode), None;
      ghost var from, before := clock, status;
      for i := 0 to |agents|
        invariant |runs| == i && prev == if i == 0 then None else Some(outcomes(i - 1))
        invariant clock == from + 3 * i && status == Stopped(world, from, clock, before)
        invariant AllWork(world, from, clock) && LastIsWritable()
        invariant ChainAt(if i < |agents| then AlreadyInterrupted else AllRan)
        invariant Undisturbed(from, before, i)
      {
        ghost var start := clock;
        var stop := LoopBody(i, prev);
        WorkJoins(world, from, start, clock);
        InterruptsJoin(world, from, start, clock);
        InterruptsJoin(world, from, start, start + 1);
        WorkJoins(world, from, start, start + 1);
        OneWorks(world, start);
        if stop.Some? {
          assert stop.value == RunStopped ==> !WentOn(outcomes, runs, i);
          assert !LastIsWritable() ==> !WentOn(outcomes, runs, |runs| - 1);
          WorkJoins(world, from, clock, from + 3 * (i + 1) + 1);
          return stop.value;
        }
        prev := Some(outcomes(i));
      }
      end := AllRan;
    }

    /**
     No run is added once an interrupt is on record, and the chain is found interrupted exactly when one is at the read
     before its next run.
     */
    predicate FindsInterrupt(from: nat, before: SessionStatus, end: ChainEnd)
      reads this
    {
      && Undisturbed(from, before, |runs|)
      && (end == AlreadyInterrupted <==>
            && |runs| < |AgentsByMode(mode)| && AllWentOn(outcomes, runs)
            && AllWork(world, from, from + 3 * |runs| + 1)
            && Stopped(world, from, from + 3 * |runs| + 1, before) == Interrupted)
    }

    /** What the last agent had to say, for a chain that ran whole. */
    function Summary(end: ChainEnd): Option<string>
      reads this
    {
      if end == AllRan && |runs| > 0 then outcomes(|runs| - 1).finalMessage else None
    }

    /** The end of the `try`, and the `except` branch for whatever raised in it. */
    method CloseSession(end: ChainEnd)
      requires clock >= 2 && (end == AllRan || end == RunStopped ==> world(clock - 1).effect.Works?)
      modifies this`clock, this`status, this`finalMessage, this`frames
      ensures clock == WritesUntil(world, old(clock), end)
      ensures var announced := Announced(world, outcomes, |runs|, end, clock);
              && frames == old(frames) + Announcement(announced)
              && (end != AlreadyInterrupted || old(status) == Interrupted ==>
                    StatusAfter(status, announced, world(clock - 1).effect))
      ensures finalMessage ==
              if Summary(end).None? || world(clock - 2).effect.RaisesUndone? then old(finalMessage) else Summary(end)
    {
      if end == AlreadyInterrupted {
        frames := frames + [SessionCompleted(Interrupted)];
        return;
      }
      var raised := end == Crashed;
      if !raised {
        raised := FinalizeSession(FinalStatus(outcomes, |runs|, end), Summary(end));
      }
      if raised {
        var lost := FinalizeSession(Failed, None);
      }
    }

    /** The query for the slot's owner works, and so, as far as Redis goes, does the release. */
    predicate GivesBack(closing: nat) {
      world(closing).effect.Works? && !world(closing + 1).effect.RaisesUndone?
    }

    /** The `finally` clause: the slot goes back unless its owner cannot be asked for or Redis refuses. */
    method GiveBackSlot()
      modifies this`clock, this`status, this`slotHeld
      ensures status == old(status) || status == Interrupted
      ensures slotHeld == (old(slotHeld) && !GivesBack(old(clock)))
    {
      var effect := Reach();
      if !effect.Works? {
        return;
      }
      effect := Reach();
      if !effect.RaisesUndone? {
        slotHeld := false;
      }
    }

    /** The row can be read, and is neither queued nor running by then. */
    predicate IsPassedOver(start: nat, before: SessionStatus) {
      && world(start).effect.Works?
      && (before in {Completed, Interrupted, Failed} || world(start).interrupts)
    }

    /** Up to the `try`: the guard on the status, the mark as running and the reads around it. */
    method StartSession() returns (early: Option<Finish>)
      requires runs == [] && frames == []
      modifies this`clock, this`status, this`frames
      ensures old(clock) < clock && early in {None, Some(PassedOver), Some(Died)}
      ensures early == Some(Died) <==> !AllWork(world, old(clock), clock)
      ensures early == Some(PassedOver) ==> !IsActive(status) && frames == [] && clock == old(clock) + 1
      ensures early == Some(PassedOver) <==> IsPassedOver(old(clock), old(status))
      ensures early == Some(Died) ==> frames <= [SessionStarted] && status in {old(status), Running, Interrupted}
      ensures early == None ==>
                && clock == old(clock) + Opening(mode) && frames == [SessionStarted]
                && status == Stopped(world, clock - 1, clock, Running)
    {
      var effect := Reach();
      if !effect.Works? {
        return Some(Died);
      }
      if !IsActive(status) {
        return Some(PassedOver);
      }
      if mode == DiscoverThenBuild {
        effect := Reach();
        if !effect.Works? {
          return Some(Died);
        }
      }
      effect := Reach();
      if !effect.RaisesUndone? {
        status := Running;
      }
      if !effect.Works? {
        return Some(Died);
      }
      frames := frames + [SessionStarted];
      effect := Reach();
      early := if effect.Works? then None else Some(Died);
    }

    /** How a chain that was entered at access `from` was closed. */
    predicate ClosedAs(from: nat, end: ChainEnd, closing: nat)
      requires closing >= 2
      reads this
    {
      var announced := Announced(world, outcomes, |runs|, end, closing);
      && ClosedFrames(mode, message, outcomes, runs, frames, end, announced)
      && StatusAfter(status, announced, world(closing - 1).effect)
      && CrashesExactly(world, from, closing, end, LastIsWritable())
      && CompletesExactly(world, from, closing, end, announced)
    }

    /** The final message after that: the summary of a chain that ran whole, once a write of it took effect. */
    function MessageAfter(before: Option<string>, end: ChainEnd, closing: nat): Option<string>
      requires closing >= 2
      reads this
    {
      if Summary(end).None? || world(closing - 2).effect.RaisesUndone? then before else Summary(end)
    }

    /** The last agent's message stands for a chain that ran whole, once written; else the old one stays. */
    predicate MessageIsRight(before: Option<string>, end: ChainEnd, closing: nat)
      requires closing >= 2
      reads this
    {
      if end == AllRan && |runs| > 0 && outcomes(|runs| - 1).finalMessage.Some?
         && world(closing - 2).effect != RaisesUndone
      then finalMessage == outcomes(|runs| - 1).finalMessage
      else finalMessage == before
    }

    /** The announcement after a chain that was entered at access `from`, if there is one. */
    method CloseChain(end: ChainEnd, ghost from: nat)
      requires 2 <= from < clock && ChainAt(end) && (end == AlreadyInterrupted ==> status == Interrupted)
      requires end == Crashed <==> !AllWork(world, from, clock) || !LastIsWritable()
      modifies this`clock, this`status, this`finalMessage, this`frames
      ensures from < clock && ClosedAs(from, end, clock)
      ensures finalMessage == MessageAfter(old(finalMessage), end, clock)
    {
      ghost var closing := WritesUntil(world, clock, end);
      ExactForTheChain(world, outcomes, |runs|, from, clock, closing, end, LastIsWritable());
      ghost var announced := Announced(world, outcomes, |runs|, end, closing);
      FramesAreClosed(mode, message, outcomes, runs, frames, end, announced);
      CloseSession(end);
      assert ClosedFrames(mode, message, outcomes, runs, frames, end, announced);
    }

    /** The `try` statement with its `finally`. */
    method RunGuarded() returns (end: ChainEnd, closing: nat)
      requires runs == [] && frames == [SessionStarted] && clock >= 2
      modifies this
      ensures old(clock) < closing && ClosedAs(old(clock), end, closing)
      ensures finalMessage == MessageAfter(old(finalMessage), end, closing)
      ensures slotHeld == (old(slotHeld) && !GivesBack(closing))
      ensures FindsInterrupt(old(clock), old(status), end)
    {
      end := RunChain();
      CloseChain(end, old(clock));
      closing := clock;
      GiveBackSlot();
    }

    /** Where a job that began at access `start` enters its `try`, and the status it finds there. */
    function EnteredAt(start: nat): nat {
      start + Opening(mode)
    }

    function StatusAt(start: nat): SessionStatus {
      Stopped(world, EnteredAt(start) - 1, EnteredAt(start), Running)
    }

    /** However the calls to Postgres and Redis fare. */
    method ProcessSessionJob() returns (finish: Finish)
      requires runs == [] && frames == []
      modifies this
      ensures finish == PassedOver <==> IsPassedOver(old(clock), old(status))
      ensures finish == PassedOver ==> !IsActive(status) && frames == [] && clock == old(clock) + 1
      ensures finish == Died ==>
                && !AllWork(world, old(clock), clock)
                && frames <= [SessionStarted] && status in {old(status), Running, Interrupted}
      ensures !finish.Finished? ==> runs == [] && slotHeld == old(slotHeld) && finalMessage == old(finalMessage)
      ensures finish.Finished? ==>
                && IsActive(old(status))
                && finish.closing >= 2 && ClosedAs(old(clock), finish.end, finish.closing)
                && |frames| > 0 && ClosesRightly(world, runs, frames, status, finish.end, finish.closing)
                && FindsInterrupt(EnteredAt(old(clock)), StatusAt(old(clock)), finish.end)
                && MessageIsRight(old(finalMessage), finish.end, finish.closing)
                && slotHeld == (old(slotHeld) && !GivesBack(finish.closing))
    {
      var early := StartSession();
      if early.Some? {
        return early.value;
      }
      ghost var from := clock;
      var end, closing := RunGuarded();
      ExactFromTheStart(
        world, old(clock), from, closing, end, Announced(world, outcomes, |runs|, end, closing), LastIsWritable());
      ClosedFramesCloseRightly(mode, message, world, outcomes, runs, frames, status, end, closing);
      finish := Finished(end, closing);
    }
  }

  // ---------- What a finished job looks like ----------

  /** Which agents run, with what: discovery first when asked for, and its brief, if any, in place of the message. */
  lemma {:induction false} RunsAsAsked(
    mode: Mode, message: string, outcomes: nat -> RunOutcome, runs: seq<RunRow>, frames: seq<Frame>, end: ChainEnd)
    requires ChainResult(mode, message, outcomes, runs, frames, end)
    ensures |runs| <= (if mode == DiscoverThenBuild then 2 else 1)
    ensures end == AllRan ==> |runs| == if mode == DiscoverThenBuild then 2 else 1
    ensures forall i :: 0 <= i < |runs| ==>
              && (runs[i].kind == Discovery <==> mode == DiscoverThenBuild && i == 0)
              && (runs[i].input.message == message
                  || (i == 1 && outcomes(0).brief != "" && runs[i].input.message == outcomes(0).brief))
              && (i == 1 && outcomes(0).brief != "" ==> runs[i].input.message == outcomes(0).brief)
              && (runs[i].kind == Codex ==> (runs[i].input.planMode <==> mode != BuildDirect))
  {
    forall i | 0 <= i < |runs|
      ensures runs[i].kind == AgentsByMode(mode)[i] && runs[i].input == InputOf(mode, message, outcomes, i)
    {
      assert FollowsChain(mode, message, outcomes, runs);
    }
  }

  /** (run_started run_completed)^k, with the kinds and numbers of the rows. */
  predicate AlternatingFrames(runs: seq<RunRow>, frames: seq<Frame>) {
    && |frames| == 2 * |runs|
    && forall i :: 0 <= i < |runs| ==>
         frames[2 * i] == RunStarted(runs[i].kind, runs[i].sequence)
         && frames[2 * i + 1].RunCompleted? && frames[2 * i + 1].kind == runs[i].kind
         && (runs[i].status.Ended? ==> frames[2 * i + 1].status == runs[i].status.status)
  }

  lemma {:induction false} RunFramesAlternate(runs: seq<RunRow>)
    ensures AlternatingFrames(runs, RunFrames(runs))
  {
    if |runs| > 0 {
      RunFramesAlternate(runs[..|runs| - 1]);
    }
  }

  /** Ended, and neither failed nor interrupted. */
  predicate GoesOn(row: RunRow) {
    row.status.Ended? && !Stops(row.status.status)
  }

  /**
   However the chain ends: the rows are numbered 1..k along a prefix of the mode's agents, all but the last ended
   without failing or being interrupted, `completed` is for a chain that ran whole, and its frames are
   (run_started run_completed)^k, with at most one run more, whose pass raised: with no frame or only its
   run_started, and a row that may say it is still in progress.
   */
  lemma FinishedJob(
    mode: Mode, message: string, outcomes: nat -> RunOutcome, runs: seq<RunRow>, frames: seq<Frame>, end: ChainEnd)
    requires ChainResult(mode, message, outcomes, runs, frames, end)
    ensures forall i :: 0 <= i < |runs| ==> runs[i].sequence == i + 1 && runs[i].kind == AgentsByMode(mode)[i]
    ensures forall i :: 0 <= i < |runs| - 1 ==> GoesOn(runs[i])
    ensures FinalStatus(outcomes, |runs|, end) == Completed ==>
              |runs| == |AgentsByMode(mode)| && forall i :: 0 <= i < |runs| ==> GoesOn(runs[i])
    ensures var k := |frames| / 2;
            && k <= |runs| <= k + 1 && AlternatingFrames(runs[..k], frames[..2 * k])
            && (forall i :: 0 <= i < k ==> runs[i].status.Ended?)
            && (end != Crashed ==> |frames| == 2 * |runs|)
            && (|frames| == 2 * k + 1 ==> |runs| == k + 1 && frames[2 * k] == RunStarted(runs[k].kind, k + 1))
            && (|frames| == 2 * k && |runs| == k + 1 ==> runs[k].status == InProgress)
  {
    if end == AllRan || end == AlreadyInterrupted {
      WholeChain(outcomes, runs, frames);
    } else if end == RunStopped {
      WholeChain(outcomes, runs[..|runs| - 1], RunFrames(runs[..|runs| - 1]));
      RunFramesAlternate(runs);
      assert runs[..|runs|] == runs && frames[..|frames|] == frames;
    } else if AllWentOn(outcomes, runs) && frames == RunFrames(runs) {
      WholeChain(outcomes, runs, frames);
    } else {
      var front := runs[..|runs| - 1];
      WholeChain(outcomes, front, RunFrames(front));
      assert frames[..2 * |front|] == RunFrames(front);
    }
  }

  lemma {:induction false} WholeChain(outcomes: nat -> RunOutcome, runs: seq<RunRow>, frames: seq<Frame>)
    requires AllWentOn(outcomes, runs) && frames == RunFrames(runs)
    ensures forall i :: 0 <= i < |runs| ==> GoesOn(runs[i])
    ensures |frames| == 2 * |runs| && AlternatingFrames(runs, frames)
    ensures runs[..|runs|] == runs && frames[..|frames|] == frames
  {
    RunFramesAlternate(runs);
    forall i | 0 <= i < |runs|
      ensures GoesOn(runs[i])
    {
      assert WentOn(outcomes, runs, i);
    }
  }
}
