/** The run-quota slots: who holds one while creators, workers and interrupt handlers interleave. */
module QuotaSlots {
  import opened Prelude

  type SessionId = nat
  type UserId = nat

  /** The platform-wide and the per-user cap. */
  datatype Limits = Limits(platform: nat, perUser: nat)

  /** Where the request that creates a session stands; `Left` is after it returned or raised. */
  datatype Creator = Asking | GotGlobal | Refused | GotBoth | Committed | Undoing | UndidGlobal | Left

  datatype Row = Absent | Queued | Running | Final

  predicate IsActive(row: Row) {
    row == Queued || row == Running
  }

  /** Where the worker's job stands: before its `try`, inside it, or in its `finally`. */
  datatype Worker = NotStarted | Reading | Starting | InChain | Releasing | ReleasedGlobal | Over

  /**
   One session. `loaded`, `committed` and `halfway` count its interrupt handlers that have read an
   active status, written `interrupted`, and given back the global slot but not the user's.
   */
  datatype Job = Job(user: UserId, creator: Creator, row: Row, queued: bool, worker: Worker,
                     loaded: nat, committed: nat, halfway: nat)

  /**
   `platform` and `perUser` are the two kinds of Redis sets. Two histories: `dropped` are sessions whose
   slot went before their work was over, `orphaned` those with a death that left a slot to nobody.
   */
  datatype State = State(jobs: map<SessionId, Job>, platform: set<SessionId>, perUser: map<UserId, set<SessionId>>,
                         dropped: set<SessionId>, orphaned: set<SessionId>)

  const EMPTY := State(map[], {}, map[], {}, {})

  /** `CreatorBreaks` and after: deaths and errors that the source does not guard against. */
  datatype Action =
    | Ask(user: UserId)
    | AcquireGlobal(expired: set<SessionId>)
    | AcquireUser(expired: set<SessionId>)
    | RollBack
    | CommitRow(effect: Effect)
    | Enqueue(effect: Effect)
    | UndoGlobal
    | UndoUser
    | Deliver
    | CheckStatus
    | MarkRunning
    | EnterChain
    | WriteFinal
    | LeaveChain
    | WorkerGivesGlobal
    | WorkerGivesUser
    | Load
    | HandlerRaises
    | CommitInterrupted
    | HandlerGivesGlobal
    | HandlerGivesUser
    | CreatorBreaks
    | WorkerBreaks
    | HandlerBreaks

  datatype Step = Step(session: SessionId, action: Action)

  predicate IsBreak(action: Action) {
    action.CreatorBreaks? || action.WorkerBreaks? || action.HandlerBreaks?
  }

  // ---------- The two kinds of Redis sets ----------

  /** Purge the expired members and take a slot if there is room; or remove one's own member. */
  datatype SlotOp =
    | Keep
    | TryGlobal(expired: set<SessionId>)
    | GiveGlobal
    | TryUser(expired: set<SessionId>)
    | GiveUser

  function SlotsOf(perUser: map<UserId, set<SessionId>>, user: UserId): set<SessionId> {
    if user in perUser then perUser[user] else {}
  }

  predicate HasRoom(limits: Limits, st: State, user: UserId, op: SlotOp) {
    match op
    case TryGlobal(expired) => |st.platform - expired| < limits.platform
    case TryUser(expired) => |SlotsOf(st.perUser, user) - expired| < limits.perUser
    case _ => true
  }

  function Taken(slots: set<SessionId>, expired: set<SessionId>, room: bool, s: SessionId): set<SessionId> {
    if room then slots - expired + {s} else slots - expired
  }

  function Touch(st: State, s: SessionId, user: UserId, op: SlotOp, room: bool): State {
    match op
    case Keep => st
    case TryGlobal(expired) =>
      st.(platform := Taken(st.platform, expired, room, s), dropped := st.dropped + expired)
    case GiveGlobal => st.(platform := st.platform - {s})
    case TryUser(expired) =>
      st.(perUser := st.perUser[user := Taken(SlotsOf(st.perUser, user), expired, room, s)],
          dropped := st.dropped + expired)
    case GiveUser => st.(perUser := st.perUser[user := SlotsOf(st.perUser, user) - {s}])
  }

  // ---------- Who accounts for a held slot ----------

  predicate AwaitsWorker(j: Job) {
    (j.queued || j.worker == Reading) && IsActive(j.row)
  }

  /** The request will still give the slot back, or hand it on. `ofUser` tells the user's slot from the global one. */
  predicate CreatorAccounts(j: Job, ofUser: bool) {
    || j.creator == GotBoth || j.creator == Undoing || (j.creator == Committed && IsActive(j.row))
    || (if ofUser then j.creator == UndidGlobal else j.creator == GotGlobal || j.creator == Refused)
  }

  /** The worker will, once it gets to the session or to its `finally`. */
  predicate WorkerAccounts(j: Job, ofUser: bool) {
    || AwaitsWorker(j) || j.worker == Starting || j.worker == InChain || j.worker == Releasing
    || (ofUser && j.worker == ReleasedGlobal)
  }

  /** How many interrupt handlers will. */
  function HandlersAccounting(j: Job, ofUser: bool): nat {
    j.committed + (if ofUser then j.halfway else 0)
  }

  predicate Accounts(j: Job, ofUser: bool) {
    CreatorAccounts(j, ofUser) || WorkerAccounts(j, ofUser) || HandlersAccounting(j, ofUser) > 0
  }

  /** The deaths after which nobody accounts for the slot, told from where the session stands before. */
  predicate Orphans(j: Job, action: Action, ofUser: bool) {
    match action
    case CreatorBreaks =>
      CreatorAccounts(j, ofUser) && !WorkerAccounts(j, ofUser) && HandlersAccounting(j, ofUser) == 0
    case WorkerBreaks =>
      && WorkerAccounts(j, ofUser) && j.worker != NotStarted
      && !CreatorAccounts(j, ofUser) && HandlersAccounting(j, ofUser) == 0
    case HandlerBreaks =>
      HandlersAccounting(j, ofUser) == 1 && !CreatorAccounts(j, ofUser) && !WorkerAccounts(j, ofUser)
    case _ => false
  }

  predicate OrphansASlot(j: Job, action: Action) {
    Orphans(j, action, false) || Orphans(j, action, true)
  }

  // ---------- One step ----------

  /** What a step does: the session's new state, the Redis command, and what the histories record. */
  datatype Move = Move(job: Job, op: SlotOp, drops: bool, orphans: bool)

  function Quiet(j: Job): Move {
    Move(j, Keep, false, false)
  }

  /** The request that creates the session. `room` is what the acquire script answers. */
  function Create(j: Job, action: Action, room: bool): Move {
    match action
    case AcquireGlobal(expired) =>
      if j.creator != Asking then Quiet(j)
      else Move(j.(creator := if room then GotGlobal else Left), TryGlobal(expired), false, false)
    case AcquireUser(expired) =>
      if j.creator != GotGlobal then Quiet(j)
      else Move(j.(creator := if room then GotBoth else Refused), TryUser(expired), false, false)
    case RollBack =>
      if j.creator == Refused then Move(j.(creator := Left), GiveGlobal, false, false) else Quiet(j)
    case CommitRow(effect) =>
      if j.creator != GotBoth then Quiet(j)
      else Quiet(j.(row := if effect.RaisesUndone? then Absent else Queued,
                    creator := if effect.Works? then Committed else Undoing))
    case Enqueue(effect) =>
      if j.creator != Committed then Quiet(j)
      else Move(j.(queued := !effect.RaisesUndone?, creator := if effect.Works? then Left else Undoing),
                Keep, effect.RaisesDone?, false)
    case UndoGlobal =>
      if j.creator == Undoing then Move(j.(creator := UndidGlobal), GiveGlobal, false, false) else Quiet(j)
    case UndoUser =>
      if j.creator == UndidGlobal then Move(j.(creator := Left), GiveUser, false, false) else Quiet(j)
    case CreatorBreaks =>
      if j.creator == Left then Quiet(j) else Move(j.(creator := Left), Keep, false, OrphansASlot(j, action))
    case _ => Quiet(j)
  }

  /** The worker's job. */
  function Work(j: Job, action: Action): Move {
    match action
    case Deliver => Quiet(if j.queued && j.worker == NotStarted then j.(queued := false, worker := Reading) else j)
    case CheckStatus =>
      Quiet(if j.worker == Reading then j.(worker := if IsActive(j.row) then Starting else Over) else j)
    case MarkRunning => Quiet(if j.worker == Starting then j.(row := Running) else j)
    case EnterChain => Quiet(if j.worker == Starting then j.(worker := InChain) else j)
    case WriteFinal => Quiet(if j.worker == InChain then j.(row := Final) else j)
    case LeaveChain => Quiet(if j.worker == InChain then j.(worker := Releasing) else j)
    case WorkerGivesGlobal =>
      if j.worker == Releasing then Move(j.(worker := ReleasedGlobal), GiveGlobal, false, false) else Quiet(j)
    case WorkerGivesUser =>
      if j.worker == ReleasedGlobal then Move(j.(worker := Over), GiveUser, false, false) else Quiet(j)
    case WorkerBreaks =>
      if j.worker == NotStarted || j.worker == Over then Quiet(j)
      else Move(j.(worker := Over), Keep, false, OrphansASlot(j, action))
    case _ => Quiet(j)
  }

  /** One of the session's interrupt handlers. */
  function Interrupt(j: Job, action: Action): Move {
    match action
    case Load => Quiet(if IsActive(j.row) then j.(loaded := j.loaded + 1) else j)
    case HandlerRaises => Quiet(if j.loaded > 0 then j.(loaded := j.loaded - 1) else j)
    case CommitInterrupted =>
      Quiet(if j.loaded > 0 then j.(row := Final, loaded := j.loaded - 1, committed := j.committed + 1) else j)
    case HandlerGivesGlobal =>
      if j.committed == 0 then Quiet(j)
      else Move(j.(committed := j.committed - 1, halfway := j.halfway + 1), GiveGlobal, true, false)
    case HandlerGivesUser =>
      if j.halfway == 0 then Quiet(j) else Move(j.(halfway := j.halfway - 1), GiveUser, true, false)
    case HandlerBreaks =>
      if j.committed > 0 then Move(j.(committed := j.committed - 1), Keep, false, OrphansASlot(j, action))
      else if j.halfway > 0 then Move(j.(halfway := j.halfway - 1), Keep, false, OrphansASlot(j, action))
      else Quiet(j)
    case _ => Quiet(j)
  }

  datatype Party = ByCreator | ByWorker | ByHandler

  function PartyOf(action: Action): Party {
    match action
    case Deliver | CheckStatus | MarkRunning | EnterChain | WriteFinal | LeaveChain => ByWorker
    case WorkerGivesGlobal | WorkerGivesUser | WorkerBreaks => ByWorker
    case Load | HandlerRaises | CommitInterrupted | HandlerGivesGlobal | HandlerGivesUser | HandlerBreaks => ByHandler
    case _ => ByCreator
  }

  function MoveOf(limits: Limits, st: State, j: Job, action: Action): Move {
    match PartyOf(action)
    case ByCreator =>
      var tried := match action
        case AcquireGlobal(expired) => TryGlobal(expired)
        case AcquireUser(expired) => TryUser(expired)
        case _ => Keep;
      Create(j, action, HasRoom(limits, st, j.user, tried))
    case ByWorker => Work(j, action)
    case ByHandler => Interrupt(j, action)
  }

  function Carry(st: State, s: SessionId, user: UserId, move: Move, room: bool): State {
    var touched := Touch(st, s, user, move.op, room);
    touched.(jobs := st.jobs[s := move.job],
             dropped := if move.drops then touched.dropped + {s} else touched.dropped,
             orphaned := if move.orphans then touched.orphaned + {s} else touched.orphaned)
  }

  function Next(limits: Limits, st: State, step: Step): State {
    var s, action := step.session, step.action;
    if s in st.jobs then
      var j := st.jobs[s];
      var move := MoveOf(limits, st, j, action);
      Carry(st, s, j.user, move, HasRoom(limits, st, j.user, move.op))
    else if action.Ask? then st.(jobs := st.jobs[s := Job(action.user, Asking, Absent, false, NotStarted, 0, 0, 0)])
    else st
  }

  function Run(limits: Limits, steps: seq<Step>): State {
    if |steps| == 0 then EMPTY else Next(limits, Run(limits, steps[..|steps| - 1]), steps[|steps| - 1])
  }

  // ---------- The invariant ----------

  /** The order in which one session can move: created, then queued once, then worked on once. */
  predicate InOrder(j: Job) {
    && (j.creator == Asking || j.creator == GotGlobal || j.creator == Refused || j.creator == GotBoth
        ==> j.row == Absent)
    && (j.row == Absent ==> !j.queued && j.worker == NotStarted && j.loaded == 0 && j.committed == 0 && j.halfway == 0)
    && (j.creator == Committed ==> j.row != Absent && !j.queued && j.worker == NotStarted)
    && (j.worker != NotStarted ==> !j.queued)
  }

  /** The session's job is queued, or being worked on. */
  predicate IsLive(j: Job) {
    j.queued || j.worker == Reading || j.worker == Starting || j.worker == InChain || j.worker == Releasing
  }

  datatype Holding = Holding(platform: bool, user: bool, dropped: bool, orphaned: bool)

  function HoldingOf(st: State, s: SessionId, user: UserId): Holding {
    Holding(s in st.platform, s in SlotsOf(st.perUser, user), s in st.dropped, s in st.orphaned)
  }

  /** A held slot is accounted for, and a live session holds both slots unless one was dropped early. */
  predicate Sound(j: Job, h: Holding) {
    InOrder(j) && AccountedFor(j, h) && Backed(j, h)
  }

  predicate AccountedFor(j: Job, h: Holding) {
    (h.platform ==> Accounts(j, false) || h.orphaned) && (h.user ==> Accounts(j, true) || h.orphaned)
  }

  predicate Backed(j: Job, h: Holding) {
    && (IsLive(j) || j.creator == GotGlobal || j.creator == GotBoth || j.creator == Committed
        ==> h.dropped || h.platform)
    && (IsLive(j) || j.creator == GotBoth || j.creator == Committed ==> h.dropped || h.user)
    && (h.dropped || !(j.creator == Undoing || j.creator == UndidGlobal) || (!j.queued && j.worker == NotStarted))
  }

  ghost predicate Capped(perUser: map<UserId, set<SessionId>>, cap: nat) {
    forall u :: |SlotsOf(perUser, u)| <= cap
  }

  ghost predicate WithinCaps(limits: Limits, st: State) {
    |st.platform| <= limits.platform && Capped(st.perUser, limits.perUser)
  }

  ghost predicate Known(st: State) {
    forall s :: s in st.platform ==> s in st.jobs
  }

  /** Every user's slots belong to that user's sessions. */
  ghost predicate Owned(perUser: map<UserId, set<SessionId>>, jobs: map<SessionId, Job>) {
    forall u, s :: s in SlotsOf(perUser, u) ==> s in jobs && jobs[s].user == u
  }

  predicate SoundAt(st: State, s: SessionId) {
    s in st.jobs ==> Sound(st.jobs[s], HoldingOf(st, s, st.jobs[s].user))
  }

  ghost predicate Inv(limits: Limits, st: State) {
    && (forall s :: SoundAt(st, s))
    && Known(st)
    && Owned(st.perUser, st.jobs)
    && WithinCaps(limits, st)
  }

  /** What a Redis command leaves the session itself holding. */
  function HeldAfter(h: Holding, s: SessionId, op: SlotOp, room: bool): Holding {
    match op
    case Keep => h
    case TryGlobal(expired) =>
      h.(platform := room || (h.platform && s !in expired), dropped := h.dropped || s in expired)
    case GiveGlobal => h.(platform := false)
    case TryUser(expired) => h.(user := room || (h.user && s !in expired), dropped := h.dropped || s in expired)
    case GiveUser => h.(user := false)
  }

  function After(h: Holding, s: SessionId, move: Move, room: bool): Holding {
    var held := HeldAfter(h, s, move.op, room);
    held.(dropped := held.dropped || move.drops, orphaned := held.orphaned || move.orphans)
  }

  lemma {:induction false} CreateIsAccountedFor(j: Job, h: Holding, s: SessionId, action: Action, room: bool)
    requires InOrder(j) && AccountedFor(j, h)
    ensures var move := Create(j, action, room);
            AccountedFor(move.job, After(h, s, move, room))
  {
  }

  lemma {:induction false} CreateIsSound(j: Job, h: Holding, s: SessionId, action: Action, room: bool)
    requires Sound(j, h)
    ensures var move := Create(j, action, room);
            move.job.user == j.user && Sound(move.job, After(h, s, move, room))
  {
    CreateIsAccountedFor(j, h, s, action, room);
  }

  lemma {:induction false} WorkIsAccountedFor(j: Job, h: Holding, s: SessionId, action: Action, room: bool)
    requires InOrder(j) && AccountedFor(j, h)
    ensures var move := Work(j, action);
            AccountedFor(move.job, After(h, s, move, room))
  {
  }

  lemma {:induction false} WorkIsSound(j: Job, h: Holding, s: SessionId, action: Action, room: bool)
    requires Sound(j, h)
    ensures var move := Work(j, action);
            move.job.user == j.user && Sound(move.job, After(h, s, move, room))
  {
    WorkIsAccountedFor(j, h, s, action, room);
  }

  lemma {:induction false} InterruptIsAccountedFor(j: Job, h: Holding, s: SessionId, action: Action, room: bool)
    requires InOrder(j) && AccountedFor(j, h)
    ensures var move := Interrupt(j, action);
            AccountedFor(move.job, After(h, s, move, room))
  {
  }

  lemma {:induction false} InterruptIsSound(j: Job, h: Holding, s: SessionId, action: Action, room: bool)
    requires Sound(j, h)
    ensures var move := Interrupt(j, action);
            move.job.user == j.user && Sound(move.job, After(h, s, move, room))
  {
    InterruptIsAccountedFor(j, h, s, action, room);
  }

  /** The answer the request's command gets is the room there was for it. */
  lemma {:induction false} RoomIsForTheCommand(limits: Limits, st: State, j: Job, action: Action)
    requires PartyOf(action) == ByCreator
    ensures var move := MoveOf(limits, st, j, action);
            move == Create(j, action, HasRoom(limits, st, j.user, move.op))
  {
  }

  lemma {:induction false} MoveIsSound(limits: Limits, st: State, s: SessionId, j: Job, action: Action)
    requires Sound(j, HoldingOf(st, s, j.user))
    ensures var move := MoveOf(limits, st, j, action);
            && move.job.user == j.user
            && Sound(move.job, After(HoldingOf(st, s, j.user), s, move, HasRoom(limits, st, j.user, move.op)))
  {
    var h := HoldingOf(st, s, j.user);
    var room := HasRoom(limits, st, j.user, MoveOf(limits, st, j, action).op);
    match PartyOf(action)
    case ByCreator =>
      RoomIsForTheCommand(limits, st, j, action);
      CreateIsSound(j, h, s, action, room);
    case ByWorker => WorkIsSound(j, h, s, action, room);
    case ByHandler => InterruptIsSound(j, h, s, action, room);
  }

  lemma {:induction false} TakenFits(slots: set<SessionId>, expired: set<SessionId>, cap: nat, s: SessionId)
    requires |slots| <= cap
    ensures |Taken(slots, expired, |slots - expired| < cap, s)| <= cap
    ensures |slots - {s}| <= cap
  {
    SubsetIsNoLarger(slots - expired, slots);
    SubsetIsNoLarger(slots - {s}, slots);
  }

  lemma {:induction false} UserCapsStay(
    perUser: map<UserId, set<SessionId>>, user: UserId, slots: set<SessionId>, cap: nat)
    requires |slots| <= cap && Capped(perUser, cap)
    ensures Capped(perUser[user := slots], cap)
  {
    var next := perUser[user := slots];
    assert forall u :: u == user || SlotsOf(next, u) == SlotsOf(perUser, u);
  }

  lemma {:induction false} TouchStaysWithinCaps(limits: Limits, st: State, s: SessionId, user: UserId, op: SlotOp)
    requires WithinCaps(limits, st)
    ensures WithinCaps(limits, Touch(st, s, user, op, HasRoom(limits, st, user, op)))
  {
    match op
    case Keep =>
    case TryGlobal(expired) => TakenFits(st.platform, expired, limits.platform, s);
    case GiveGlobal => TakenFits(st.platform, {}, limits.platform, s);
    case TryUser(expired) =>
      var slots := SlotsOf(st.perUser, user);
      TakenFits(slots, expired, limits.perUser, s);
      UserCapsStay(st.perUser, user, Taken(slots, expired, HasRoom(limits, st, user, op), s), limits.perUser);
    case GiveUser =>
      TakenFits(SlotsOf(st.perUser, user), {}, limits.perUser, s);
      UserCapsStay(st.perUser, user, SlotsOf(st.perUser, user) - {s}, limits.perUser);
  }

  /** Nothing gained, and nothing lost without a record. */
  predicate Fades(h: Holding, next: Holding) {
    && (next.platform ==> h.platform) && (next.user ==> h.user)
    && (h.platform ==> next.platform || next.dropped) && (h.user ==> next.user || next.dropped)
    && (h.dropped ==> next.dropped) && (h.orphaned ==> next.orphaned)
  }

  lemma {:induction false} FadingStaysSound(j: Job, h: Holding, next: Holding)
    requires Sound(j, h) && Fades(h, next)
    ensures Sound(j, next)
  {
  }

  lemma {:induction false} OthersFade(
    st: State, s: SessionId, user: UserId, op: SlotOp, room: bool, t: SessionId, owner: UserId)
    requires t != s
    ensures Fades(HoldingOf(st, t, owner), HoldingOf(Touch(st, s, user, op, room), t, owner))
  {
    match op
    case Keep | TryGlobal(_) | GiveGlobal =>
    case TryUser(expired) =>
    case GiveUser =>
  }

  lemma {:induction false} OthersStaySound(st: State, s: SessionId, user: UserId, move: Move, room: bool, t: SessionId)
    requires t in st.jobs && t != s && SoundAt(st, t)
    ensures SoundAt(Carry(st, s, user, move, room), t)
  {
    var owner := st.jobs[t].user;
    OthersFade(st, s, user, move.op, room, t, owner);
    var touched, next := Touch(st, s, user, move.op, room), Carry(st, s, user, move, room);
    assert HoldingOf(next, t, owner) == HoldingOf(touched, t, owner);
    FadingStaysSound(st.jobs[t], HoldingOf(st, t, owner), HoldingOf(next, t, owner));
  }

  /** What the sets hold of `s` once its step is carried out. */
  lemma {:induction false} TouchHolds(st: State, s: SessionId, user: UserId, op: SlotOp, room: bool)
    ensures HoldingOf(Touch(st, s, user, op, room), s, user) == HeldAfter(HoldingOf(st, s, user), s, op, room)
  {
    match op
    case Keep | TryGlobal(_) | GiveGlobal =>
    case TryUser(expired) =>
    case GiveUser =>
  }

  lemma {:induction false} CarryHolds(st: State, s: SessionId, user: UserId, move: Move, room: bool)
    ensures HoldingOf(Carry(st, s, user, move, room), s, user) == After(HoldingOf(st, s, user), s, move, room)
  {
    TouchHolds(st, s, user, move.op, room);
  }

  lemma {:induction false} OwnersStay(
    perUser: map<UserId, set<SessionId>>, jobs: map<SessionId, Job>, user: UserId, slots: set<SessionId>)
    requires Owned(perUser, jobs)
    requires forall t :: t in slots ==> t in jobs && jobs[t].user == user
    ensures Owned(perUser[user := slots], jobs)
  {
    var next := perUser[user := slots];
    assert forall u :: u == user || SlotsOf(next, u) == SlotsOf(perUser, u);
  }

  lemma {:induction false} TouchKnows(st: State, s: SessionId, user: UserId, op: SlotOp, room: bool)
    requires s in st.jobs && Known(st)
    ensures Known(Touch(st, s, user, op, room))
  {
  }

  lemma {:induction false} TouchKeepsOwners(st: State, s: SessionId, op: SlotOp, room: bool)
    requires s in st.jobs && Owned(st.perUser, st.jobs)
    ensures Owned(Touch(st, s, st.jobs[s].user, op, room).perUser, st.jobs)
  {
    var user := st.jobs[s].user;
    var slots := SlotsOf(st.perUser, user);
    match op
    case Keep | TryGlobal(_) | GiveGlobal =>
    case TryUser(expired) => OwnersStay(st.perUser, st.jobs, user, Taken(slots, expired, room, s));
    case GiveUser => OwnersStay(st.perUser, st.jobs, user, slots - {s});
  }

  lemma {:induction false} AskedIsSound(limits: Limits, st: State, step: Step, t: SessionId)
    requires step.session !in st.jobs && step.session !in st.platform && SoundAt(st, t)
    requires forall u :: step.session !in SlotsOf(st.perUser, u)
    ensures SoundAt(Next(limits, st, step), t)
  {
    if t in st.jobs {
      assert Next(limits, st, step).jobs[t] == st.jobs[t];
    } else if t == step.session && step.action.Ask? {
      assert step.session !in SlotsOf(st.perUser, step.action.user);
    }
  }

  lemma {:induction false} AskKeepsInv(limits: Limits, st: State, step: Step)
    requires Inv(limits, st) && step.session !in st.jobs
    ensures Inv(limits, Next(limits, st, step))
  {
    var next, s := Next(limits, st, step), step.session;
    assert s !in st.platform && forall u :: s !in SlotsOf(st.perUser, u);
    forall t
      ensures SoundAt(next, t)
    {
      AskedIsSound(limits, st, step, t);
    }
  }

  lemma {:induction false} CarryKeepsOwners(st: State, s: SessionId, move: Move, room: bool)
    requires s in st.jobs && move.job.user == st.jobs[s].user && Known(st) && Owned(st.perUser, st.jobs)
    ensures var next := Carry(st, s, move.job.user, move, room);
            Known(next) && Owned(next.perUser, next.jobs)
  {
    TouchKnows(st, s, move.job.user, move.op, room);
    TouchKeepsOwners(st, s, move.op, room);
  }

  lemma {:induction false} CarryKeepsInv(limits: Limits, st: State, s: SessionId, move: Move, room: bool)
    requires Inv(limits, st) && s in st.jobs && move.job.user == st.jobs[s].user
    requires room == HasRoom(limits, st, move.job.user, move.op)
    requires Sound(move.job, After(HoldingOf(st, s, move.job.user), s, move, room))
    ensures Inv(limits, Carry(st, s, move.job.user, move, room))
  {
    var user := move.job.user;
    var next := Carry(st, s, user, move, room);
    CarryKeepsOwners(st, s, move, room);
    assert WithinCaps(limits, next) by {
      TouchStaysWithinCaps(limits, st, s, user, move.op);
    }
    forall t
      ensures SoundAt(next, t)
    {
      if t == s {
        CarryHolds(st, s, user, move, room);
      } else if t in st.jobs {
        OthersStaySound(st, s, user, move, room, t);
      }
    }
  }

  lemma {:induction false} StepKeepsInv(limits: Limits, st: State, step: Step)
    requires Inv(limits, st)
    ensures Inv(limits, Next(limits, st, step))
  {
    var s := step.session;
    if s !in st.jobs {
      AskKeepsInv(limits, st, step);
    } else {
      assert SoundAt(st, s);
      var j := st.jobs[s];
      var move := MoveOf(limits, st, j, step.action);
      MoveIsSound(limits, st, s, j, step.action);
      CarryKeepsInv(limits, st, s, move, HasRoom(limits, st, j.user, move.op));
    }
  }

  lemma {:induction false} InvHolds(limits: Limits, steps: seq<Step>)
    ensures Inv(limits, Run(limits, steps))
  {
    if |steps| > 0 {
      InvHolds(limits, steps[..|steps| - 1]);
      StepKeepsInv(limits, Run(limits, steps[..|steps| - 1]), steps[|steps| - 1]);
    }
  }

  // ---------- Main results ----------

  /**
   In every reachable state a held slot belongs to a session that somebody still accounts for, or that a death
   orphaned, and no cap is passed.
   */
  lemma {:induction false} HeldSlotsAreAccountedFor(limits: Limits, steps: seq<Step>, s: SessionId, user: UserId)
    ensures var st := Run(limits, steps);
            && (s in st.platform ==> s in st.jobs && (Accounts(st.jobs[s], false) || s in st.orphaned))
            && (s in SlotsOf(st.perUser, user) ==>
                  s in st.jobs && st.jobs[s].user == user && (Accounts(st.jobs[s], true) || s in st.orphaned))
            && |st.platform| <= limits.platform && |SlotsOf(st.perUser, user)| <= limits.perUser
  {
    InvHolds(limits, steps);
    var st := Run(limits, steps);
    assert SoundAt(st, s);
  }

  /** What a death leaves of a session. */
  function Dead(j: Job, action: Action): Job {
    match PartyOf(action)
    case ByCreator => Create(j, action, true).job
    case ByWorker => Work(j, action).job
    case ByHandler => Interrupt(j, action).job
  }

  /** The guards are exact: these deaths, and no others, take the last party that accounts for a slot. */
  lemma {:induction false} OrphansExactly(j: Job, action: Action, ofUser: bool)
    requires InOrder(j) && IsBreak(action)
    ensures Orphans(j, action, ofUser) <==> Accounts(j, ofUser) && !Accounts(Dead(j, action), ofUser)
  {
  }

  /** Step `i` is a death that orphans a slot of session `s`. */
  predicate OrphansAt(limits: Limits, steps: seq<Step>, s: SessionId, i: nat) {
    && i < |steps| && steps[i].session == s
    && s in Run(limits, steps[..i]).jobs && OrphansASlot(Run(limits, steps[..i]).jobs[s], steps[i].action)
  }

  /** Nothing is under way: every creator has returned, the stream is empty, no worker or handler is at work. */
  predicate IsDrained(j: Job) {
    && j.creator == Left && !j.queued && (j.worker == NotStarted || j.worker == Over)
    && j.committed == 0 && j.halfway == 0
  }

  ghost predicate Drained(st: State) {
    forall s :: s in st.jobs ==> IsDrained(st.jobs[s])
  }

  /** When everything has drained, a slot that is still held was orphaned by one of those deaths. */
  lemma {:induction false} LeakedSlotsAreOrphans(limits: Limits, steps: seq<Step>, s: SessionId, user: UserId)
    requires Drained(Run(limits, steps))
    requires s in Run(limits, steps).platform || s in SlotsOf(Run(limits, steps).perUser, user)
    ensures exists i: nat :: OrphansAt(limits, steps, s, i)
  {
    HeldSlotsAreAccountedFor(limits, steps, s, user);
    assert IsDrained(Run(limits, steps).jobs[s]);
    OrphanedExactly(limits, steps, s);
  }

  /** So no slot leaks in a run without them, whatever else fails in it. */
  lemma {:induction false} NoSlotLeaks(limits: Limits, steps: seq<Step>)
    requires Drained(Run(limits, steps)) && forall s, i: nat :: !OrphansAt(limits, steps, s, i)
    ensures Run(limits, steps).platform == {}
    ensures forall user :: SlotsOf(Run(limits, steps).perUser, user) == {}
  {
    var st := Run(limits, steps);
    forall s
      ensures s !in st.platform
    {
      if s in st.platform {
        LeakedSlotsAreOrphans(limits, steps, s, 0);
      }
    }
    forall s, user
      ensures s !in SlotsOf(st.perUser, user)
    {
      if s in SlotsOf(st.perUser, user) {
        LeakedSlotsAreOrphans(limits, steps, s, user);
      }
    }
  }

  lemma {:induction false} OneMore(limits: Limits, steps: seq<Step>, step: Step)
    ensures Run(limits, steps + [step]) == Next(limits, Run(limits, steps), step)
  {
    assert (steps + [step])[..|steps|] == steps;
  }

  /** Session 0 is alone, stands at `j` and holds a slot; only this kind of death has happened so far. */
  ghost predicate HoldsAt(limits: Limits, steps: seq<Step>, j: Job, death: Action) {
    && Run(limits, steps).jobs == map[0 := j] && Run(limits, steps).platform == {0}
    && forall i :: 0 <= i < |steps| && IsBreak(steps[i].action) ==> steps[i].action == death
  }

  lemma {:induction false} StillHolds(
    limits: Limits, steps: seq<Step>, j: Job, action: Action, death: Action, next: Job)
    requires HoldsAt(limits, steps, j, death)
    requires IsBreak(action) ==> action == death
    requires var move := MoveOf(limits, Run(limits, steps), j, action);
             move.job == next && move.op == Keep
    ensures HoldsAt(limits, steps + [Step(0, action)], next, death)
  {
    OneMore(limits, steps, Step(0, action));
  }

  lemma {:induction false} AskingHolds(limits: Limits) returns (steps: seq<Step>)
    ensures |steps| == 1 && steps[0].action == Ask(0)
    ensures Run(limits, steps) == State(map[0 := Job(0, Asking, Absent, false, NotStarted, 0, 0, 0)], {}, map[], {}, {})
  {
    steps := [] + [Step(0, Ask(0))];
    OneMore(limits, [], Step(0, Ask(0)));
  }

  lemma {:induction false} GlobalHolds(limits: Limits, death: Action) returns (steps: seq<Step>)
    requires limits.platform > 0
    ensures HoldsAt(limits, steps, Job(0, GotGlobal, Absent, false, NotStarted, 0, 0, 0), death)
    ensures Run(limits, steps).perUser == map[]
  {
    var before := AskingHolds(limits);
    var st := Run(limits, before);
    steps := before + [Step(0, AcquireGlobal({}))];
    OneMore(limits, before, Step(0, AcquireGlobal({})));
    assert HasRoom(limits, st, 0, TryGlobal({})) by {
      assert st.platform - {} == {};
    }
    assert Taken({}, {}, true, 0) == {0};
  }

  lemma {:induction false} UserHasRoom(limits: Limits, st: State)
    requires limits.perUser > 0 && st.perUser == map[]
    ensures HasRoom(limits, st, 0, TryUser({}))
  {
    assert SlotsOf(st.perUser, 0) - {} == {};
  }

  lemma {:induction false} UserSlotIsTaken(limits: Limits, st: State, j: Job)
    requires limits.perUser > 0 && st.perUser == map[] && st.jobs == map[0 := j]
    requires j.user == 0 && j.creator == GotGlobal
    ensures var next := Next(limits, st, Step(0, AcquireUser({})));
            next.jobs == map[0 := j.(creator := GotBoth)] && next.platform == st.platform
  {
    UserHasRoom(limits, st);
  }

  lemma {:induction false} BothHold(limits: Limits, death: Action) returns (steps: seq<Step>)
    requires limits.platform > 0 && limits.perUser > 0
    ensures HoldsAt(limits, steps, Job(0, GotBoth, Absent, false, NotStarted, 0, 0, 0), death)
  {
    var before := GlobalHolds(limits, death);
    steps := before + [Step(0, AcquireUser({}))];
    OneMore(limits, before, Step(0, AcquireUser({})));
    UserSlotIsTaken(limits, Run(limits, before), Job(0, GotGlobal, Absent, false, NotStarted, 0, 0, 0));
  }

  const MADE := Job(0, Committed, Queued, false, NotStarted, 0, 0, 0)

  lemma {:induction false} CreationHolds(limits: Limits, death: Action) returns (steps: seq<Step>)
    requires limits.platform > 0 && limits.perUser > 0
    ensures HoldsAt(limits, steps, MADE, death)
  {
    steps := BothHold(limits, death);
    StillHolds(limits, steps, Job(0, GotBoth, Absent, false, NotStarted, 0, 0, 0), CommitRow(Works), death, MADE);
    steps := steps + [Step(0, CommitRow(Works))];
  }

  lemma {:induction false} QueuedHolds(limits: Limits, death: Action) returns (steps: seq<Step>)
    requires limits.platform > 0 && limits.perUser > 0
    ensures HoldsAt(limits, steps, MADE.(creator := Left, queued := true), death)
  {
    steps := CreationHolds(limits, death);
    StillHolds(limits, steps, MADE, Enqueue(Works), death, MADE.(creator := Left, queued := true));
    steps := steps + [Step(0, Enqueue(Works))];
  }

  /** From the stream to the status check. */
  lemma {:induction false} CheckedHolds(
    limits: Limits, before: seq<Step>, j: Job, death: Action) returns (steps: seq<Step>)
    requires HoldsAt(limits, before, j, death) && j.queued && j.worker == NotStarted
    ensures HoldsAt(limits, steps, j.(queued := false, worker := if IsActive(j.row) then Starting else Over), death)
  {
    var read := j.(queued := false, worker := Reading);
    StillHolds(limits, before, j, Deliver, death, read);
    steps := before + [Step(0, Deliver)];
    StillHolds(limits, steps, read, CheckStatus, death, read.(worker := if IsActive(j.row) then Starting else Over));
    steps := steps + [Step(0, CheckStatus)];
  }

  /** An interrupt handler up to its commit. */
  lemma {:induction false} InterruptedHolds(
    limits: Limits, before: seq<Step>, j: Job, death: Action) returns (steps: seq<Step>)
    requires HoldsAt(limits, before, j, death) && IsActive(j.row) && j.loaded == 0 && j.committed == 0
    ensures HoldsAt(limits, steps, j.(row := Final, committed := 1), death)
  {
    StillHolds(limits, before, j, Load, death, j.(loaded := 1));
    steps := before + [Step(0, Load)];
    StillHolds(limits, steps, j.(loaded := 1), CommitInterrupted, death, j.(row := Final, committed := 1));
    steps := steps + [Step(0, CommitInterrupted)];
  }

  /** A run in which all has drained, only this kind of death went wrong, and a slot is still held. */
  ghost predicate LeaksBy(limits: Limits, death: Action) {
    exists steps, j :: HoldsAt(limits, steps, j, death) && IsDrained(j)
  }

  /** A worker that dies between its status check and its `try` keeps the slot, though nothing is under way. */
  lemma {:induction false} WorkerDeathLeaksASlot(limits: Limits)
    requires limits.platform > 0 && limits.perUser > 0
    ensures LeaksBy(limits, WorkerBreaks)
  {
    var steps := QueuedHolds(limits, WorkerBreaks);
    steps := CheckedHolds(limits, steps, MADE.(creator := Left, queued := true), WorkerBreaks);
    var starting := MADE.(creator := Left, worker := Starting);
    StillHolds(limits, steps, starting, WorkerBreaks, WorkerBreaks, starting.(worker := Over));
    assert IsDrained(starting.(worker := Over));
  }

  /** So does a creation cut off once its row is written, whether by cancellation or by a failed undo. */
  lemma {:induction false} CreatorDeathLeaksASlot(limits: Limits)
    requires limits.platform > 0 && limits.perUser > 0
    ensures LeaksBy(limits, CreatorBreaks)
  {
    var steps := CreationHolds(limits, CreatorBreaks);
    StillHolds(limits, steps, MADE, CreatorBreaks, CreatorBreaks, MADE.(creator := Left));
    assert IsDrained(MADE.(creator := Left));
  }

  /** And an interrupt whose broadcast fails: the worker then skips the job without giving the slot back. */
  lemma {:induction false} HandlerDeathLeaksASlot(limits: Limits)
    requires limits.platform > 0 && limits.perUser > 0
    ensures LeaksBy(limits, HandlerBreaks)
  {
    var steps := QueuedHolds(limits, HandlerBreaks);
    steps := InterruptedHolds(limits, steps, MADE.(creator := Left, queued := true), HandlerBreaks);
    var stopped := MADE.(creator := Left, queued := true, row := Final);
    StillHolds(limits, steps, stopped.(committed := 1), HandlerBreaks, HandlerBreaks, stopped);
    steps := CheckedHolds(limits, steps + [Step(0, HandlerBreaks)], stopped, HandlerBreaks);
    assert IsDrained(stopped.(queued := false, worker := Over));
  }

  // ---------- What each party does when nobody disturbs it ----------

  /** Two steps of one session, one after the other. */
  function Both(limits: Limits, st: State, s: SessionId, first: Action, second: Action): State {
    Next(limits, Next(limits, st, Step(s, first)), Step(s, second))
  }

  /** The state with this session's job replaced. */
  function With(st: State, s: SessionId, j: Job): State {
    st.(jobs := st.jobs[s := j])
  }

  lemma {:induction false} QuietStep(limits: Limits, st: State, s: SessionId, action: Action, j: Job)
    requires s in st.jobs && MoveOf(limits, st, st.jobs[s], action) == Quiet(j)
    ensures Next(limits, st, Step(s, action)) == With(st, s, j)
  {
  }

  lemma {:induction false} SlotStep(limits: Limits, st: State, s: SessionId, action: Action, move: Move)
    requires s in st.jobs && MoveOf(limits, st, st.jobs[s], action) == move
    requires move.op.GiveGlobal? || move.op.GiveUser?
    ensures var next, user := Next(limits, st, Step(s, action)), st.jobs[s].user;
            && next.jobs == st.jobs[s := move.job]
            && next.platform == (if move.op.GiveGlobal? then st.platform - {s} else st.platform)
            && next.perUser
               == (if move.op.GiveUser? then st.perUser[user := SlotsOf(st.perUser, user) - {s}] else st.perUser)
            && next.dropped == (if move.drops then st.dropped + {s} else st.dropped)
            && next.orphaned == (if move.orphans then st.orphaned + {s} else st.orphaned)
  {
  }

  /** A stream entry of an active session makes the worker start; that of a finished one is passed over. */
  lemma {:induction false} WorkerTakesTheJob(limits: Limits, st: State, s: SessionId)
    requires s in st.jobs && st.jobs[s].queued && st.jobs[s].worker == NotStarted
    ensures var j := st.jobs[s];
            Both(limits, st, s, Deliver, CheckStatus)
            == With(st, s, j.(queued := false,
                              worker := if j.row == Queued || j.row == Running then Starting else Over))
  {
    var read := st.jobs[s].(queued := false, worker := Reading);
    QuietStep(limits, st, s, Deliver, read);
    var checked := read.(worker := if IsActive(read.row) then Starting else Over);
    QuietStep(limits, With(st, s, read), s, CheckStatus, checked);
  }

  /** It marks the row as running before the chain, and as final in it, however the row stood. */
  lemma {:induction false} WorkerRunsTheChain(limits: Limits, st: State, s: SessionId)
    requires s in st.jobs && st.jobs[s].worker == Starting
    ensures var started := With(st, s, st.jobs[s].(row := Running, worker := InChain));
            && Both(limits, st, s, MarkRunning, EnterChain) == started
            && Both(limits, started, s, WriteFinal, LeaveChain)
            == With(st, s, st.jobs[s].(row := Final, worker := Releasing))
  {
    var marked := st.jobs[s].(row := Running);
    var started := marked.(worker := InChain);
    QuietStep(limits, st, s, MarkRunning, marked);
    QuietStep(limits, With(st, s, marked), s, EnterChain, started);
    QuietStep(limits, With(st, s, started), s, WriteFinal, started.(row := Final));
    QuietStep(limits, With(st, s, started.(row := Final)), s, LeaveChain, started.(row := Final, worker := Releasing));
  }

  /** Neither slot is this session's any more; all other members stay. */
  predicate GaveBack(st: State, next: State, s: SessionId, user: UserId) {
    && next.platform == st.platform - {s}
    && next.perUser == st.perUser[user := (if user in st.perUser then st.perUser[user] else {}) - {s}]
  }

  /** At the end the worker gives back both slots and nothing else. */
  lemma {:induction false} WorkerGivesBack(limits: Limits, st: State, s: SessionId)
    requires s in st.jobs && st.jobs[s].worker == Releasing
    ensures var next, j := Both(limits, st, s, WorkerGivesGlobal, WorkerGivesUser), st.jobs[s];
            && next.jobs == st.jobs[s := j.(worker := Over)] && GaveBack(st, next, s, j.user)
            && next.dropped == st.dropped && next.orphaned == st.orphaned
  {
    var j := st.jobs[s];
    var half := Next(limits, st, Step(s, WorkerGivesGlobal));
    SlotStep(limits, st, s, WorkerGivesGlobal, Move(j.(worker := ReleasedGlobal), GiveGlobal, false, false));
    SlotStep(limits, half, s, WorkerGivesUser, Move(j.(worker := Over), GiveUser, false, false));
  }

  /** So does a request whose creation failed. */
  lemma {:induction false} CreatorUndoes(limits: Limits, st: State, s: SessionId)
    requires s in st.jobs && st.jobs[s].creator == Undoing
    ensures var next, j := Both(limits, st, s, UndoGlobal, UndoUser), st.jobs[s];
            && next.jobs == st.jobs[s := j.(creator := Left)] && GaveBack(st, next, s, j.user)
            && next.dropped == st.dropped && next.orphaned == st.orphaned
  {
    var j := st.jobs[s];
    var half := Next(limits, st, Step(s, UndoGlobal));
    SlotStep(limits, st, s, UndoGlobal, Move(j.(creator := UndidGlobal), GiveGlobal, false, false));
    SlotStep(limits, half, s, UndoUser, Move(j.(creator := Left), GiveUser, false, false));
  }

  /** A request refused by its user's set gives back the global slot. */
  lemma {:induction false} CreatorRollsBack(limits: Limits, st: State, s: SessionId)
    requires s in st.jobs && st.jobs[s].creator == Refused
    ensures Next(limits, st, Step(s, RollBack))
         == With(st, s, st.jobs[s].(creator := Left)).(platform := st.platform - {s})
  {
    SlotStep(limits, st, s, RollBack, Move(st.jobs[s].(creator := Left), GiveGlobal, false, false));
  }

  /** With both slots the row is written and the job queued; if queueing raises, the request goes on to undo. */
  lemma {:induction false} CreatorCommits(limits: Limits, st: State, s: SessionId, effect: Effect)
    requires s in st.jobs && st.jobs[s].creator == GotBoth
    ensures var next, j := Both(limits, st, s, CommitRow(Works), Enqueue(effect)), st.jobs[s];
            && next.jobs == st.jobs[s := j.(creator := if effect == Works then Left else Undoing, row := Queued,
                                            queued := effect != RaisesUndone)]
            && next.platform == st.platform && next.perUser == st.perUser && next.orphaned == st.orphaned
            && next.dropped == if effect == RaisesDone then st.dropped + {s} else st.dropped
  {
    var made := st.jobs[s].(creator := Committed, row := Queued);
    QuietStep(limits, st, s, CommitRow(Works), made);
    EnqueueStep(limits, With(st, s, made), s, effect);
  }

  /** If the commit raises, having worked or not, nothing is queued and the request goes on to undo. */
  lemma {:induction false} CreatorFailsToCommit(limits: Limits, st: State, s: SessionId, effect: Effect)
    requires s in st.jobs && st.jobs[s].creator == GotBoth && effect != Works
    ensures Next(limits, st, Step(s, CommitRow(effect)))
         == With(st, s, st.jobs[s].(creator := Undoing, row := if effect == RaisesDone then Queued else Absent))
  {
    QuietStep(limits, st, s, CommitRow(effect),
              st.jobs[s].(creator := Undoing, row := if effect == RaisesDone then Queued else Absent));
  }

  lemma {:induction false} EnqueueStep(limits: Limits, st: State, s: SessionId, effect: Effect)
    requires s in st.jobs && st.jobs[s].creator == Committed
    ensures var next := Next(limits, st, Step(s, Enqueue(effect)));
            && next.jobs == st.jobs[s := st.jobs[s].(creator := if effect == Works then Left else Undoing,
                                                     queued := effect != RaisesUndone)]
            && next.platform == st.platform && next.perUser == st.perUser && next.orphaned == st.orphaned
            && next.dropped == if effect == RaisesDone then st.dropped + {s} else st.dropped
  {
  }

  /** An interrupt handler that raises before its commit leaves no trace. */
  lemma {:induction false} HandlerRaisesEarly(limits: Limits, st: State, s: SessionId)
    requires s in st.jobs && (st.jobs[s].row == Queued || st.jobs[s].row == Running)
    ensures Both(limits, st, s, Load, HandlerRaises) == st
  {
    var loaded := st.jobs[s].(loaded := st.jobs[s].loaded + 1);
    QuietStep(limits, st, s, Load, loaded);
    QuietStep(limits, With(st, s, loaded), s, HandlerRaises, st.jobs[s]);
    assert st.jobs[s := st.jobs[s]] == st.jobs;
  }

  /** One that commits ends the session, and then gives back both slots. */
  lemma {:induction false} HandlerInterrupts(limits: Limits, st: State, s: SessionId)
    requires s in st.jobs && (st.jobs[s].row == Queued || st.jobs[s].row == Running)
    ensures var j := st.jobs[s];
            Both(limits, st, s, Load, CommitInterrupted) == With(st, s, j.(row := Final, committed := j.committed + 1))
  {
    var j := st.jobs[s];
    var loaded := j.(loaded := j.loaded + 1);
    QuietStep(limits, st, s, Load, loaded);
    QuietStep(limits, With(st, s, loaded), s, CommitInterrupted, j.(row := Final, committed := j.committed + 1));
  }

  lemma {:induction false} HandlerGivesBack(limits: Limits, st: State, s: SessionId)
    requires s in st.jobs && st.jobs[s].committed > 0
    ensures var next, j := Both(limits, st, s, HandlerGivesGlobal, HandlerGivesUser), st.jobs[s];
            && next.jobs == st.jobs[s := j.(committed := j.committed - 1)] && GaveBack(st, next, s, j.user)
            && next.dropped == st.dropped + {s} && next.orphaned == st.orphaned
  {
    var j := st.jobs[s];
    var half := Next(limits, st, Step(s, HandlerGivesGlobal));
    var between := j.(committed := j.committed - 1, halfway := j.halfway + 1);
    SlotStep(limits, st, s, HandlerGivesGlobal, Move(between, GiveGlobal, true, false));
    SlotStep(limits, half, s, HandlerGivesUser, Move(between.(halfway := j.halfway), GiveUser, true, false));
  }

  /** The stage at which a party can take this step. */
  predicate IsTurn(j: Job, action: Action) {
    match action
    case Ask(_) => false
    case AcquireGlobal(_) => j.creator == Asking
    case AcquireUser(_) => j.creator == GotGlobal
    case RollBack => j.creator == Refused
    case CommitRow(_) => j.creator == GotBoth
    case Enqueue(_) => j.creator == Committed
    case UndoGlobal => j.creator == Undoing
    case UndoUser => j.creator == UndidGlobal
    case CreatorBreaks => j.creator != Left
    case Deliver => j.queued && j.worker == NotStarted
    case CheckStatus => j.worker == Reading
    case MarkRunning | EnterChain => j.worker == Starting
    case WriteFinal | LeaveChain => j.worker == InChain
    case WorkerGivesGlobal => j.worker == Releasing
    case WorkerGivesUser => j.worker == ReleasedGlobal
    case WorkerBreaks => j.worker != NotStarted && j.worker != Over
    case Load => j.row == Queued || j.row == Running
    case HandlerRaises | CommitInterrupted => j.loaded > 0
    case HandlerGivesGlobal => j.committed > 0
    case HandlerGivesUser => j.halfway > 0
    case HandlerBreaks => j.committed > 0 || j.halfway > 0
  }

  /** Out of turn, a step changes nothing. */
  lemma {:induction false} NothingOutOfTurn(limits: Limits, st: State, s: SessionId, action: Action)
    requires s in st.jobs && !IsTurn(st.jobs[s], action)
    ensures Next(limits, st, Step(s, action)) == st
  {
    QuietStep(limits, st, s, action, st.jobs[s]);
    assert st.jobs[s := st.jobs[s]] == st.jobs;
  }

  /** What a death leaves: the party is gone, and no slot is touched. */
  lemma {:induction false} DeathsTouchNoSlot(limits: Limits, st: State, s: SessionId, action: Action)
    requires s in st.jobs && IsBreak(action) && IsTurn(st.jobs[s], action)
    ensures var next, j := Next(limits, st, Step(s, action)), st.jobs[s];
            && next.platform == st.platform && next.perUser == st.perUser && next.dropped == st.dropped
            && next.jobs == st.jobs[s := if action == CreatorBreaks then j.(creator := Left)
                                         else if action == WorkerBreaks then j.(worker := Over)
                                         else if j.committed > 0 then j.(committed := j.committed - 1)
                                         else j.(halfway := j.halfway - 1)]
  {
  }

  /** The step makes session `s` lose a slot early: by expiry, an interrupt, or a half-failed enqueue. */
  predicate Drops(st: State, step: Step, s: SessionId) {
    && step.session in st.jobs
    && var j := st.jobs[step.session];
       match step.action
       case AcquireGlobal(expired) => j.creator == Asking && s in expired
       case AcquireUser(expired) => j.creator == GotGlobal && s in expired
       case Enqueue(effect) => step.session == s && j.creator == Committed && effect == RaisesDone
       case HandlerGivesGlobal => step.session == s && j.committed > 0
       case HandlerGivesUser => step.session == s && j.halfway > 0
       case _ => false
  }

  predicate DropsAt(limits: Limits, steps: seq<Step>, s: SessionId, i: nat) {
    i < |steps| && Drops(Run(limits, steps[..i]), steps[i], s)
  }

  /** What a move adds to the sessions that lost a slot early. */
  function DroppedBy(move: Move, s: SessionId): set<SessionId> {
    (if move.op.TryGlobal? || move.op.TryUser? then move.op.expired else {}) + if move.drops then {s} else {}
  }

  lemma {:induction false} CarryDrops(st: State, s: SessionId, user: UserId, move: Move, room: bool)
    ensures Carry(st, s, user, move, room).dropped == st.dropped + DroppedBy(move, s)
  {
  }

  lemma {:induction false} CreateDrops(st: State, step: Step, s: SessionId, room: bool)
    requires step.session in st.jobs && PartyOf(step.action) == ByCreator
    ensures s in DroppedBy(Create(st.jobs[step.session], step.action, room), step.session) <==> Drops(st, step, s)
  {
  }

  lemma {:induction false} OthersDrop(st: State, step: Step, s: SessionId)
    requires step.session in st.jobs
    ensures PartyOf(step.action) == ByWorker ==>
              DroppedBy(Work(st.jobs[step.session], step.action), step.session) == {} && !Drops(st, step, s)
    ensures PartyOf(step.action) == ByHandler ==>
              (s in DroppedBy(Interrupt(st.jobs[step.session], step.action), step.session) <==> Drops(st, step, s))
  {
  }

  lemma {:induction false} DroppedNext(limits: Limits, st: State, step: Step, s: SessionId)
    ensures s in Next(limits, st, step).dropped <==> s in st.dropped || Drops(st, step, s)
  {
    if step.session in st.jobs {
      var j := st.jobs[step.session];
      var move := MoveOf(limits, st, j, step.action);
      CarryDrops(st, step.session, j.user, move, HasRoom(limits, st, j.user, move.op));
      OthersDrop(st, step, s);
      if PartyOf(step.action) == ByCreator {
        RoomIsForTheCommand(limits, st, j, step.action);
        CreateDrops(st, step, s, HasRoom(limits, st, j.user, move.op));
      }
    }
  }

  function RunAt(limits: Limits, steps: seq<Step>, k: nat): State {
    Run(limits, if k < |steps| then steps[..k] else steps)
  }

  lemma {:induction false} RunAtNext(limits: Limits, steps: seq<Step>, k: nat)
    requires k < |steps|
    ensures RunAt(limits, steps, k + 1) == Next(limits, Run(limits, steps[..k]), steps[k])
  {
    var upto := if k + 1 < |steps| then steps[..k + 1] else steps;
    assert upto[..k] == steps[..k] && upto[k] == steps[k] && |upto| == k + 1;
  }

  /** The sessions not counted against the quota are exactly those that lost a slot in one of those ways. */
  lemma {:induction false} DroppedExactly(limits: Limits, steps: seq<Step>, s: SessionId)
    ensures s in Run(limits, steps).dropped <==> exists i: nat :: DropsAt(limits, steps, s, i)
  {
    var on, off := (k: nat) => DropsAt(limits, steps, s, k), (k: nat) => false;
    var isOn := (k: nat) => s in RunAt(limits, steps, k).dropped;
    forall k | 0 <= k < |steps|
      ensures isOn(k + 1) <==> on(k) || (isOn(k) && !off(k))
    {
      RunAtNext(limits, steps, k);
      DroppedNext(limits, Run(limits, steps[..k]), steps[k], s);
    }
    SwitchIsOnSince(on, off, isOn, |steps|);
    assert |steps| > 0 ==> steps[..0] == [];
    assert forall i: nat :: OnSince(on, off, |steps|, i) <==> DropsAt(limits, steps, s, i);
  }

  lemma {:induction false} CreateOrphans(j: Job, action: Action, room: bool)
    requires PartyOf(action) == ByCreator
    ensures Create(j, action, room).orphans <==> OrphansASlot(j, action)
  {
  }

  lemma {:induction false} OthersOrphan(j: Job, action: Action)
    requires InOrder(j)
    ensures PartyOf(action) == ByWorker ==> (Work(j, action).orphans <==> OrphansASlot(j, action))
    ensures PartyOf(action) == ByHandler ==> (Interrupt(j, action).orphans <==> OrphansASlot(j, action))
  {
  }

  lemma {:induction false} OrphanedNext(limits: Limits, st: State, step: Step, s: SessionId)
    requires step.session in st.jobs ==> InOrder(st.jobs[step.session])
    ensures s in Next(limits, st, step).orphaned
       <==> s in st.orphaned || (step.session == s && s in st.jobs && OrphansASlot(st.jobs[s], step.action))
  {
    if step.session in st.jobs {
      var j := st.jobs[step.session];
      OthersOrphan(j, step.action);
      if PartyOf(step.action) == ByCreator {
        RoomIsForTheCommand(limits, st, j, step.action);
        CreateOrphans(j, step.action, HasRoom(limits, st, j.user, MoveOf(limits, st, j, step.action).op));
      }
    }
  }

  /** The bookkeeping of deaths is exact: a session counts as orphaned if and only if a death orphaned a slot of it. */
  lemma {:induction false} OrphanedExactly(limits: Limits, steps: seq<Step>, s: SessionId)
    ensures s in Run(limits, steps).orphaned <==> exists i: nat :: OrphansAt(limits, steps, s, i)
  {
    var on, off := (k: nat) => OrphansAt(limits, steps, s, k), (k: nat) => false;
    var isOn := (k: nat) => s in RunAt(limits, steps, k).orphaned;
    forall k | 0 <= k < |steps|
      ensures isOn(k + 1) <==> on(k) || (isOn(k) && !off(k))
    {
      RunAtNext(limits, steps, k);
      InvHolds(limits, steps[..k]);
      assert SoundAt(Run(limits, steps[..k]), steps[k].session);
      OrphanedNext(limits, Run(limits, steps[..k]), steps[k], s);
    }
    SwitchIsOnSince(on, off, isOn, |steps|);
    assert |steps| > 0 ==> steps[..0] == [];
    assert forall i: nat :: OnSince(on, off, |steps|, i) <==> OrphansAt(limits, steps, s, i);
  }

  /** A session that nobody has asked for takes no step; when asked for, it starts with nothing. */
  lemma {:induction false} SessionsStartAsking(limits: Limits, st: State, s: SessionId, action: Action)
    requires s !in st.jobs
    ensures Next(limits, st, Step(s, action))
         == if action.Ask? then With(st, s, Job(action.user, Asking, Absent, false, NotStarted, 0, 0, 0)) else st
  {
  }

  // ---------- Who is admitted ----------

  /** The platform's set with its expired members purged. */
  function PlatformPurged(st: State, expired: set<SessionId>): set<SessionId> {
    st.platform - expired
  }

  function UserPurged(st: State, user: UserId, expired: set<SessionId>): set<SessionId> {
    (if user in st.perUser then st.perUser[user] else {}) - expired
  }

  /** A request takes a global slot if and only if fewer than the cap are held; refused, it leaves with none. */
  lemma {:induction false} GlobalAdmissionExactly(limits: Limits, st: State, s: SessionId, expired: set<SessionId>)
    requires s in st.jobs && st.jobs[s].creator == Asking
    ensures var next, held := Next(limits, st, Step(s, AcquireGlobal(expired))), PlatformPurged(st, expired);
            && (|held| < limits.platform ==>
                  next.jobs == st.jobs[s := st.jobs[s].(creator := GotGlobal)] && next.platform == held + {s})
            && (|held| >= limits.platform ==>
                  next.jobs == st.jobs[s := st.jobs[s].(creator := Left)] && next.platform == held)
            && next.perUser == st.perUser
  {
  }

  /** The same for the user's slot; refused, the request still has its global one to give back. */
  lemma {:induction false} UserAdmissionExactly(limits: Limits, st: State, s: SessionId, expired: set<SessionId>)
    requires s in st.jobs && st.jobs[s].creator == GotGlobal
    ensures var next, user := Next(limits, st, Step(s, AcquireUser(expired))), st.jobs[s].user;
            var held := UserPurged(st, user, expired);
            && (|held| < limits.perUser ==>
                  && next.jobs == st.jobs[s := st.jobs[s].(creator := GotBoth)]
                  && next.perUser == st.perUser[user := held + {s}])
            && (|held| >= limits.perUser ==>
                  && next.jobs == st.jobs[s := st.jobs[s].(creator := Refused)]
                  && next.perUser == st.perUser[user := held])
            && next.platform == st.platform
  {
  }

  /** Step `k` of a run tries a slot for session `s`. */
  predicate TriesAt(limits: Limits, steps: seq<Step>, s: SessionId, k: nat) {
    && k < |steps| && steps[k].session == s && s in Run(limits, steps[..k]).jobs
    && var creator := Run(limits, steps[..k]).jobs[s].creator;
       (steps[k].action.AcquireGlobal? && creator == Asking) || (steps[k].action.AcquireUser? && creator == GotGlobal)
  }

  /** After step `k` the request has got no further: it has left, or has a global slot to give back. */
  predicate RefusedAt(limits: Limits, steps: seq<Step>, s: SessionId, k: nat) {
    && TriesAt(limits, steps, s, k) && s in Run(limits, steps[..k + 1]).jobs
    && Run(limits, steps[..k + 1]).jobs[s].creator in {Left, Refused}
  }

  /** The set that step `k` tries has no room left. */
  predicate FullAt(limits: Limits, steps: seq<Step>, s: SessionId, k: nat) {
    && TriesAt(limits, steps, s, k)
    && var st, action := Run(limits, steps[..k]), steps[k].action;
       if action.AcquireGlobal? then |PlatformPurged(st, action.expired)| >= limits.platform
       else |UserPurged(st, st.jobs[s].user, action.expired)| >= limits.perUser
  }

  /** In every run a request is refused exactly where the set it tries is full, so never below both caps. */
  lemma {:induction false} RefusedExactly(limits: Limits, steps: seq<Step>, s: SessionId)
    ensures forall k: nat :: RefusedAt(limits, steps, s, k) <==> FullAt(limits, steps, s, k)
    ensures (exists k: nat :: RefusedAt(limits, steps, s, k)) <==> exists k: nat :: FullAt(limits, steps, s, k)
  {
    forall k: nat
      ensures RefusedAt(limits, steps, s, k) <==> FullAt(limits, steps, s, k)
    {
      if TriesAt(limits, steps, s, k) {
        var st, action := Run(limits, steps[..k]), steps[k].action;
        assert steps[..k + 1][..k] == steps[..k] && steps[..k + 1][k] == Step(s, action);
        if action.AcquireGlobal? {
          GlobalAdmissionExactly(limits, st, s, action.expired);
        } else {
          UserAdmissionExactly(limits, st, s, action.expired);
        }
      }
    }
  }

  // ---------- What the quota is for ----------

  /**
   At most `max_global_runs` sessions are queued or worked on at once, and at most `max_user_runs` of one user, not
   counting those whose slot was dropped: because it expired, an interrupt gave it back or an enqueue failed after
   the fact.
   */
  lemma {:induction false} LiveSessionsStayWithinQuota(
    limits: Limits, steps: seq<Step>, live: set<SessionId>, user: UserId)
    requires forall s :: s in live ==>
               s in Run(limits, steps).jobs && IsLive(Run(limits, steps).jobs[s]) && s !in Run(limits, steps).dropped
    ensures |live| <= limits.platform
    ensures (forall s :: s in live ==> Run(limits, steps).jobs[s].user == user) ==> |live| <= limits.perUser
  {
    var st := Run(limits, steps);
    InvHolds(limits, steps);
    forall s | s in live
      ensures s in st.platform && s in SlotsOf(st.perUser, st.jobs[s].user)
    {
      assert SoundAt(st, s);
    }
    SubsetIsNoLarger(live, st.platform);
    if forall s :: s in live ==> st.jobs[s].user == user {
      SubsetIsNoLarger(live, SlotsOf(st.perUser, user));
    }
  }
}
