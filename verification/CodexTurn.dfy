/** One Codex turn: what each notification means to the sink, and the loop with its three clocks. */
module CodexTurn {
  import opened Prelude
  import opened Json
  import JsonRpc

  /** The calls a turn makes on its `TurnItemSink`. */
  datatype SinkCall =
    | TurnStarted(turnId: string)
    | ItemStarted(item: Json)
    | ItemCompleted(item: Json)
    | AgentMessageDelta(text: string)
    | TurnCompleted(status: Json, error: Json)

  /** What one frame makes the consumer do. */
  datatype Effect = Ignore | Emit(call: SinkCall) | EndTurn(call: SinkCall) | Crash

  /** `params.get(key) or {}`. */
  function Part(v: Json, key: string): Json {
    Or(Get(v, key), EMPTY)
  }

  function LiveCompletion(turn: Json): SinkCall {
    var raw := Get(turn, "status");
    if raw == JStr("interrupted") then TurnCompleted(JStr("interrupted"), JNull)
    else if raw == JStr("failed") then
      var message := Get(Part(turn, "error"), "message");
      TurnCompleted(JStr("failed"), if message.JStr? then message else JNull)
    else TurnCompleted(JStr("completed"), JNull)
  }

  /** The dispatch of `_consume_turn`, for a session on the given thread. */
  function LiveEffect(thread: string, message: Json): Effect {
    var method_, params := Get(message, "method"), Part(message, "params");
    var addressee := Get(params, "threadId");
    if !method_.JStr? || !params.JObj? then Ignore
    else if addressee.JStr? && addressee.s != thread then Ignore
    else if method_.s == "item/started" then
      var item := Get(params, "item");
      if item.JObj? then Emit(ItemStarted(item)) else Ignore
    else if method_.s == "item/completed" then
      var item := Get(params, "item");
      if item.JObj? then Emit(ItemCompleted(item)) else Ignore
    else if method_.s == "item/agentMessage/delta" then
      var delta := Get(params, "delta");
      if delta.JStr? then Emit(AgentMessageDelta(delta.s)) else Ignore
    else if method_.s == "turn/started" then
      var id := Get(Part(params, "turn"), "id");
      if id.JStr? then Emit(TurnStarted(id.s)) else Ignore
    else if method_.s == "turn/completed" then
      EndTurn(LiveCompletion(Part(params, "turn")))
    else Ignore
  }

  /** What a notification without parameters, or with empty ones, does: only a completed turn needs none. */
  lemma {:induction false} BareNotifications(thread: string, message: Json)
    requires !Truthy(Get(message, "params"))
    ensures LiveEffect(thread, message)
         == if Get(message, "method") == JStr("turn/completed") then EndTurn(TurnCompleted(JStr("completed"), JNull))
            else Ignore
  {
    assert forall key :: LastField([], key) == JNull;
  }

  function LiveEffects(thread: string, messages: seq<Json>): seq<Effect> {
    seq(|messages|, i requires 0 <= i < |messages| => LiveEffect(thread, messages[i]))
  }

  /** The sink calls of `turns` consecutive turns whose messages have these effects. */
  function Calls(effects: seq<Effect>, turns: nat): seq<SinkCall>
    decreases |effects|
  {
    if turns == 0 || |effects| == 0 then []
    else
      match effects[0]
      case Emit(call) => [call] + Calls(effects[1..], turns)
      case EndTurn(call) => [call] + Calls(effects[1..], turns - 1)
      case _ => Calls(effects[1..], turns)
  }

  /** The sink calls of `turns` consecutive turns fed these notifications. */
  function LiveCalls(thread: string, messages: seq<Json>, turns: nat): seq<SinkCall> {
    Calls(LiveEffects(thread, messages), turns)
  }

  /** A turn ends with a completion call, and makes none before. */
  predicate Proper(effect: Effect) {
    && (effect.EndTurn? ==> effect.call.TurnCompleted?)
    && (effect.Emit? ==> !effect.call.TurnCompleted?)
  }

  lemma LiveEffectIsProper(thread: string, message: Json)
    ensures Proper(LiveEffect(thread, message))
  {
  }

  function Completions(calls: seq<SinkCall>): nat {
    if |calls| == 0 then 0 else (if calls[0].TurnCompleted? then 1 else 0) + Completions(calls[1..])
  }

  lemma {:induction false} CompletionsOfConcat(a: seq<SinkCall>, b: seq<SinkCall>)
    ensures Completions(a + b) == Completions(a) + Completions(b)
  {
    if |a| == 0 {
      assert a + b == b;
    } else {
      CompletionsOfConcat(a[1..], b);
      assert (a + b)[1..] == a[1..] + b;
    }
  }

  // ---------- The loop ----------

  class TurnItemSink {
    var calls: seq<SinkCall>

    constructor ()
      ensures calls == []
    {
      calls := [];
    }

    method On(call: SinkCall)
      modifies this
      ensures calls == old(calls) + [call]
    {
      calls := calls + [call];
    }
  }

  /** A notification and the moment it reaches the queue. */
  datatype Arrival = Arrival(time: real, message: Json)

  datatype Outcome = Completed | TotalTimeout | Inactive | ConnectionLost

  datatype Budgets = Budgets(total: real, idle: real, check: real)

  const TICK := 0.01

  function Max(a: real, b: real): real {
    if a >= b then a else b
  }

  function Min(a: real, b: real): real {
    if a <= b then a else b
  }

  predicate InOrder(arrivals: seq<Arrival>) {
    forall i, j :: 0 <= i < j < |arrivals| ==> arrivals[i].time <= arrivals[j].time
  }

  function Messages(arrivals: seq<Arrival>): seq<Json> {
    seq(|arrivals|, i requires 0 <= i < |arrivals| => arrivals[i].message)
  }

  /** When the n-th notification was received by a loop started at `start`. */
  function LastActivity(start: real, arrivals: seq<Arrival>, n: nat): real
    requires n <= |arrivals|
  {
    if n == 0 then start else Max(start, arrivals[n - 1].time)
  }

  predicate ShortGaps(start: real, arrivals: seq<Arrival>, idle: real) {
    forall i {:trigger LastActivity(start, arrivals, i)} :: 0 <= i < |arrivals| ==>
      arrivals[i].time - LastActivity(start, arrivals, i) < idle
  }

  predicate IsPunctual(start: real, arrivals: seq<Arrival>, budgets: Budgets) {
    && budgets.total > 0.0 && budgets.idle > 0.0 && ShortGaps(start, arrivals, budgets.idle)
    && (|arrivals| > 0 ==> arrivals[|arrivals| - 1].time - start < budgets.total)
  }

  predicate LastEndsTurn(thread: string, arrivals: seq<Arrival>) {
    |arrivals| > 0 && EndsTurn(thread, arrivals[|arrivals| - 1].message)
  }

  predicate SilentOnceDead(arrivals: seq<Arrival>, deadAt: Option<real>) {
    && deadAt.Some?
    && forall i :: 0 <= i < |arrivals| ==> arrivals[i].time <= deadAt.value
  }

  predicate EndsTurn(thread: string, message: Json) {
    LiveEffect(thread, message).EndTurn?
  }

  predicate Dead(deadAt: Option<real>, now: real) {
    deadAt.Some? && deadAt.value <= now
  }

  /** It took notifications up to the first that ends a turn, or none of these does. */
  predicate TakesOneTurn(thread: string, arrivals: seq<Arrival>, outcome: Outcome, n: nat)
    requires n <= |arrivals|
  {
    && (outcome == Completed <==> n > 0 && EndsTurn(thread, arrivals[n - 1].message))
    && forall i :: 0 <= i < n - 1 ==> !EndsTurn(thread, arrivals[i].message)
  }

  /**
   At this time neither budget is overrun by a tick, and a socket that is dead and silent, even one that was dead at
   the start, has been noticed within one check interval.
   */
  predicate NotLate(
    budgets: Budgets, start: real, arrivals: seq<Arrival>, deadAt: Option<real>, now: real, n: nat)
    requires n <= |arrivals|
  {
    && start <= now < start + Max(budgets.total, 0.0) + TICK
    && now < LastActivity(start, arrivals, n) + Max(budgets.idle, 0.0) + TICK
    && (SilentOnceDead(arrivals, deadAt) ==> now <= Max(start, deadAt.value) + Max(budgets.check, TICK))
  }

  /**
   There is reason for the verdict: the total budget is spent; or not, but that much silence has passed, which no
   arrival interrupts; or the socket is dead.
   */
  predicate IsDue(
    budgets: Budgets, start: real, arrivals: seq<Arrival>, deadAt: Option<real>, outcome: Outcome, now: real, n: nat)
    requires n <= |arrivals|
  {
    match outcome
    case Completed => now == LastActivity(start, arrivals, n)
    case TotalTimeout =>
      && now - start >= budgets.total
      && (budgets.total > 0.0 && n < |arrivals| ==> arrivals[n].time >= now)
    case Inactive =>
      && now - start < budgets.total && now - LastActivity(start, arrivals, n) >= budgets.idle
      && (budgets.idle > 0.0 && n < |arrivals| ==> arrivals[n].time > now)
    case ConnectionLost => Dead(deadAt, now)
  }

  /**
   `_consume_turn` with ideal timers and instant handlers: a wait ends at the next arrival or
   at its timeout, whichever is first. `consumed` counts the notifications taken, `end` is
   the time of return, `deadAt` when the socket dies.
   */
  method ConsumeTurn(
    thread: string, budgets: Budgets, start: real, arrivals: seq<Arrival>, deadAt: Option<real>, sink: TurnItemSink)
    returns (outcome: Outcome, end: real, consumed: nat)
    requires InOrder(arrivals)
    modifies sink
    ensures consumed <= |arrivals|
    // Exactly one turn's worth of sink calls, in notification order.
    ensures sink.calls == old(sink.calls) + LiveCalls(thread, Messages(arrivals[..consumed]), 1)
    ensures TakesOneTurn(thread, arrivals, outcome, consumed)
    // Within the budgets, and each verdict for its reason.
    ensures NotLate(budgets, start, arrivals, deadAt, end, consumed)
    ensures IsDue(budgets, start, arrivals, deadAt, outcome, end, consumed)
  {
    var now, lastActivity := start, start;
    consumed := 0;
    while true
      invariant consumed <= |arrivals|
      invariant sink.calls == old(sink.calls) + LiveCalls(thread, Messages(arrivals[..consumed]), 1)
      invariant NoneEndsTurn(thread, arrivals, consumed)
      invariant OnTime(budgets, start, arrivals, deadAt, now, consumed)
      invariant lastActivity == LastActivity(start, arrivals, consumed)
      decreases |arrivals| - consumed, (start + budgets.total - now) * 100.0
    {
      OnTimeIsNotLate(budgets, start, arrivals, deadAt, now, consumed);
      var elapsed := now - start;
      if elapsed >= budgets.total {
        return TotalTimeout, now, consumed;
      }
      var idle := now - lastActivity;
      if idle >= budgets.idle {
        return Inactive, now, consumed;
      }
      var wait := NextWait(budgets, elapsed, idle);
      var arrived;
      arrived, now := WaitFor(budgets, start, arrivals, deadAt, now, wait, consumed);
      if !arrived {
        if Dead(deadAt, now) {
          return ConnectionLost, now, consumed;
        }
        continue;
      }
      lastActivity := now;
      OnTimeIsNotLate(budgets, start, arrivals, deadAt, now, consumed + 1);
      var ended := Deliver(thread, arrivals, consumed, old(sink.calls), sink);
      consumed := consumed + 1;
      if ended {
        return Completed, now, consumed;
      }
    }
  }

  /** Either something was taken just now, or nothing more has come by `now`. */
  predicate Waits(start: real, arrivals: seq<Arrival>, now: real, n: nat)
    requires n <= |arrivals|
  {
    || now == LastActivity(start, arrivals, n)
    || (n < |arrivals| ==> arrivals[n].time > now)
  }

  /** What the three clocks allow at the head of the loop. */
  predicate OnTime(
    budgets: Budgets, start: real, arrivals: seq<Arrival>, deadAt: Option<real>, now: real, n: nat)
    requires n <= |arrivals|
  {
    && start <= LastActivity(start, arrivals, n) <= now
    && now < start + Max(budgets.total, 0.0) + TICK
    && now < LastActivity(start, arrivals, n) + Max(budgets.idle, 0.0) + TICK
    && Waits(start, arrivals, now, n)
    && (SilentOnceDead(arrivals, deadAt) ==> now <= Max(start, deadAt.value))
  }

  /** No gate has fired, and the wait lasts until the next one. */
  predicate Waiting(budgets: Budgets, start: real, arrivals: seq<Arrival>, now: real, wait: real, n: nat)
    requires n <= |arrivals|
  {
    && now - start < budgets.total && now - LastActivity(start, arrivals, n) < budgets.idle
    && wait == Max(TICK, Min(budgets.check, Min(
         budgets.total - (now - start), budgets.idle - (now - LastActivity(start, arrivals, n)))))
  }

  lemma {:induction false} WaitsOn(
    budgets: Budgets, start: real, arrivals: seq<Arrival>, deadAt: Option<real>, now: real, wait: real, n: nat)
    requires n <= |arrivals| && OnTime(budgets, start, arrivals, deadAt, now, n)
    requires Waiting(budgets, start, arrivals, now, wait, n)
    requires n < |arrivals| ==> arrivals[n].time > now + wait
    ensures !Dead(deadAt, now + wait) ==> OnTime(budgets, start, arrivals, deadAt, now + wait, n)
    ensures NotLate(budgets, start, arrivals, deadAt, now + wait, n)
  {
  }

  lemma {:induction false} Takes(
    budgets: Budgets, start: real, arrivals: seq<Arrival>, deadAt: Option<real>, now: real, wait: real, n: nat)
    requires InOrder(arrivals) && n < |arrivals| && OnTime(budgets, start, arrivals, deadAt, now, n)
    requires Waiting(budgets, start, arrivals, now, wait, n) && arrivals[n].time <= now + wait
    ensures Max(now, arrivals[n].time) == LastActivity(start, arrivals, n + 1)
    ensures OnTime(budgets, start, arrivals, deadAt, LastActivity(start, arrivals, n + 1), n + 1)
  {
  }

  predicate NoneEndsTurn(thread: string, arrivals: seq<Arrival>, n: nat)
    requires n <= |arrivals|
  {
    forall i {:trigger EndsTurn(thread, arrivals[i].message)} :: 0 <= i < n ==>
      !EndsTurn(thread, arrivals[i].message)
  }

  lemma {:induction false} OnTimeIsNotLate(
    budgets: Budgets, start: real, arrivals: seq<Arrival>, deadAt: Option<real>, now: real, n: nat)
    requires InOrder(arrivals) && n <= |arrivals| && OnTime(budgets, start, arrivals, deadAt, now, n)
    ensures NotLate(budgets, start, arrivals, deadAt, now, n)
    ensures now - start >= budgets.total ==> IsDue(budgets, start, arrivals, deadAt, TotalTimeout, now, n)
    ensures (now - start < budgets.total && now - LastActivity(start, arrivals, n) >= budgets.idle)
            ==> IsDue(budgets, start, arrivals, deadAt, Inactive, now, n)
  {
  }

  /** A turn whose end comes in time, after short gaps only and on a live socket, completes. */
  lemma {:induction false} PunctualTurnsComplete(
    thread: string, budgets: Budgets, start: real, arrivals: seq<Arrival>, outcome: Outcome, end: real, n: nat)
    requires InOrder(arrivals) && n <= |arrivals| && TakesOneTurn(thread, arrivals, outcome, n)
    requires IsDue(budgets, start, arrivals, None, outcome, end, n)
    requires IsPunctual(start, arrivals, budgets) && LastEndsTurn(thread, arrivals)
    ensures outcome == Completed
  {
    if n < |arrivals| {
      assert arrivals[n].time <= arrivals[|arrivals| - 1].time;
      assert arrivals[n].time - LastActivity(start, arrivals, n) < budgets.idle;
    }
  }

  /** Nor is a turn whose end does come ever killed for inactivity, on any socket, when the gaps are short. */
  lemma {:induction false} ShortGapsAreNotSilence(
    thread: string, budgets: Budgets, start: real, arrivals: seq<Arrival>, deadAt: Option<real>, outcome: Outcome,
    end: real, n: nat)
    requires n <= |arrivals| && TakesOneTurn(thread, arrivals, outcome, n)
    requires IsDue(budgets, start, arrivals, deadAt, outcome, end, n)
    requires budgets.idle > 0.0 && ShortGaps(start, arrivals, budgets.idle) && LastEndsTurn(thread, arrivals)
    ensures outcome != Inactive
  {
    if n < |arrivals| {
      assert arrivals[n].time - LastActivity(start, arrivals, n) < budgets.idle;
    }
  }

  /** `wait_for` on the queue: until the next notification, or for as long as the timeout. */
  method WaitFor(
    budgets: Budgets, start: real, arrivals: seq<Arrival>, ghost deadAt: Option<real>, now: real, wait: real, n: nat)
    returns (arrived: bool, later: real)
    requires InOrder(arrivals) && n <= |arrivals| && OnTime(budgets, start, arrivals, deadAt, now, n)
    requires Waiting(budgets, start, arrivals, now, wait, n)
    ensures arrived <==> n < |arrivals| && arrivals[n].time <= now + wait
    ensures later == if arrived then LastActivity(start, arrivals, n + 1) else now + wait
    ensures arrived ==> OnTime(budgets, start, arrivals, deadAt, later, n + 1)
    ensures !arrived ==> later >= now + TICK && NotLate(budgets, start, arrivals, deadAt, later, n)
    ensures !arrived && !Dead(deadAt, later) ==> OnTime(budgets, start, arrivals, deadAt, later, n)
  {
    arrived := n < |arrivals| && arrivals[n].time <= now + wait;
    if arrived {
      Takes(budgets, start, arrivals, deadAt, now, wait, n);
      later := Max(now, arrivals[n].time);
    } else {
      WaitsOn(budgets, start, arrivals, deadAt, now, wait, n);
      later := now + wait;
    }
  }

  /** Wait until the next gate fires, whichever comes first, and at least one tick. */
  method NextWait(budgets: Budgets, elapsed: real, idle: real) returns (wait: real)
    ensures wait == Max(TICK, Min(budgets.check, Min(budgets.total - elapsed, budgets.idle - idle)))
    ensures TICK <= wait <= Max(budgets.check, TICK)
    ensures wait <= Max(budgets.total - elapsed, TICK)
  {
    wait := Max(TICK, Min(budgets.check, Min(budgets.total - elapsed, budgets.idle - idle)));
  }

  /** Takes the n-th notification of a turn that is still going. */
  method Deliver(
    thread: string, arrivals: seq<Arrival>, n: nat, ghost before: seq<SinkCall>, sink: TurnItemSink)
    returns (ended: bool)
    requires n < |arrivals| && NoneEndsTurn(thread, arrivals, n)
    requires sink.calls == before + LiveCalls(thread, Messages(arrivals[..n]), 1)
    modifies sink
    ensures sink.calls == old(sink.calls) + CallsOf(LiveEffect(thread, arrivals[n].message))
    ensures sink.calls == before + LiveCalls(thread, Messages(arrivals[..n + 1]), 1)
    ensures ended == EndsTurn(thread, arrivals[n].message)
    ensures if ended then TakesOneTurn(thread, arrivals, Completed, n + 1) else NoneEndsTurn(thread, arrivals, n + 1)
  {
    TakeOneMore(thread, arrivals, n);
    match LiveEffect(thread, arrivals[n].message) {
      case Emit(call) =>
        sink.On(call);
        return false;
      case EndTurn(call) =>
        sink.On(call);
        return true;
      case _ =>
        return false;
    }
  }

  lemma {:induction false} TakeOneMore(thread: string, arrivals: seq<Arrival>, n: nat)
    requires n < |arrivals| && NoneEndsTurn(thread, arrivals, n)
    ensures LiveCalls(thread, Messages(arrivals[..n + 1]), 1)
         == LiveCalls(thread, Messages(arrivals[..n]), 1) + CallsOf(LiveEffect(thread, arrivals[n].message))
    ensures !EndsTurn(thread, arrivals[n].message) ==> NoneEndsTurn(thread, arrivals, n + 1)
  {
    var effects, effect := LiveEffects(thread, Messages(arrivals[..n])), LiveEffect(thread, arrivals[n].message);
    forall i | 0 <= i < n
      ensures !effects[i].EndTurn?
    {
      assert !EndsTurn(thread, arrivals[i].message);
    }
    CallsOneMore(effects, effect);
    assert LiveEffects(thread, Messages(arrivals[..n + 1])) == effects + [effect];
  }

  predicate NoTurnEnds(effects: seq<Effect>) {
    forall i :: 0 <= i < |effects| ==> !effects[i].EndTurn?
  }

  function CallsOf(effect: Effect): seq<SinkCall> {
    if effect.Emit? || effect.EndTurn? then [effect.call] else []
  }

  /** Feeding one more notification to a turn that is still going. */
  lemma {:induction false} CallsOneMore(effects: seq<Effect>, effect: Effect)
    requires NoTurnEnds(effects)
    ensures Calls(effects + [effect], 1) == Calls(effects, 1) + CallsOf(effect)
  {
    if |effects| == 0 {
      assert (effects + [effect])[1..] == [];
      assert Calls([], 1) == [] && Calls([], 0) == [];
    } else {
      CallsOneMore(effects[1..], effect);
      assert (effects + [effect])[1..] == effects[1..] + [effect];
    }
  }

  /** A turn makes at most one completion call, exactly one when one of its notifications ends it. */
  lemma {:induction false} OneCompletionPerTurn(effects: seq<Effect>)
    requires forall i :: 0 <= i < |effects| ==> Proper(effects[i])
    ensures Completions(Calls(effects, 1)) == if NoTurnEnds(effects) then 0 else 1
  {
    if |effects| > 0 {
      var first, rest := effects[0], effects[1..];
      OneCompletionPerTurn(rest);
      assert effects == [first] + rest;
      assert Calls(rest, 0) == [];
      CompletionsOfConcat(CallsOf(first), if first.EndTurn? then [] else Calls(rest, 1));
    }
  }

  /** The notification says that it is about another thread. */
  predicate IsForeign(thread: string, message: Json) {
    var addressee := Get(Get(message, "params"), "threadId");
    addressee != JStr(thread) && addressee.JStr?
  }

  function OwnOf(thread: string, messages: seq<Json>): seq<Json> {
    if |messages| == 0 then []
    else (if IsForeign(thread, messages[0]) then [] else [messages[0]]) + OwnOf(thread, messages[1..])
  }

  lemma {:induction false} ForeignIsIgnored(thread: string, message: Json)
    requires IsForeign(thread, message)
    ensures LiveEffect(thread, message) == Ignore
  {
    assert Truthy(Get(message, "params"));
  }

  /** Notifications about other threads might as well not have come. */
  lemma {:induction false} OtherThreadsAreInvisible(thread: string, messages: seq<Json>, turns: nat)
    ensures LiveCalls(thread, messages, turns) == LiveCalls(thread, OwnOf(thread, messages), turns)
    decreases |messages|
  {
    if |messages| > 0 {
      var effects := LiveEffects(thread, messages);
      assert effects[1..] == LiveEffects(thread, messages[1..]);
      OtherThreadsAreInvisible(thread, messages[1..], turns);
      if IsForeign(thread, messages[0]) {
        ForeignIsIgnored(thread, messages[0]);
        assert OwnOf(thread, messages) == OwnOf(thread, messages[1..]);
      } else {
        var own := LiveEffects(thread, OwnOf(thread, messages));
        assert own[0] == effects[0] && own[1..] == LiveEffects(thread, OwnOf(thread, messages[1..]));
        if turns > 0 {
          OtherThreadsAreInvisible(thread, messages[1..], turns - 1);
        }
      }
    }
  }

  /** The client's life around a `turn/interrupt` request: up to it, whether sending it raises, and from then on. */
  datatype Interrupt = Interrupt(before: seq<JsonRpc.Action>, sendRaises: bool, after: seq<JsonRpc.Action>)

  /** The request raises at once, or its future is settled at some time. */
  predicate Returns(interrupt: Interrupt) {
    var client := JsonRpc.Run(interrupt.before);
    || !client.open || interrupt.sendRaises
    || JsonRpc.IsSettled(JsonRpc.Run(interrupt.before + [JsonRpc.Request] + interrupt.after), client.nextId)
  }

  /** An interrupt that was sent returns if and only if Codex answers it or the reader or connection ends first. */
  lemma {:induction false} InterruptReturnsExactly(interrupt: Interrupt)
    requires JsonRpc.Run(interrupt.before).open && !interrupt.sendRaises
    ensures var id := JsonRpc.Run(interrupt.before).nextId;
            Returns(interrupt) <==>
            JsonRpc.SettlesSometime(interrupt.before + [JsonRpc.Request], interrupt.after, id)
  {
    var sent := interrupt.before + [JsonRpc.Request];
    assert sent[..|interrupt.before|] == interrupt.before;
    JsonRpc.SettledExactly(sent, interrupt.after, JsonRpc.Run(interrupt.before).nextId);
  }

  /**
   `run_turn` once turn/start is accepted. A turn killed by a clock first asks Codex to
   interrupt; that request has no timeout of its own.
   */
  method RunTurn(
    thread: string, budgets: Budgets, start: real, arrivals: seq<Arrival>, deadAt: Option<real>,
    interrupt: Interrupt, sink: TurnItemSink)
    returns (reported: bool, outcome: Outcome)
    requires InOrder(arrivals)
    modifies sink
    ensures old(sink.calls) <= sink.calls
    ensures Completions(sink.calls[|old(sink.calls)|..]) == if reported then 1 else 0
    ensures reported <==> outcome in {Completed, ConnectionLost} || Returns(interrupt)
    ensures reported && outcome != Completed ==>
              sink.calls[|sink.calls| - 1] == TurnCompleted(JStr("failed"), JStr(
                if outcome == TotalTimeout then "Turn total timeout"
                else if outcome == Inactive then "Turn went idle with no notifications"
                else "Codex app-server connection lost"))
  {
    var end, consumed;
    outcome, end, consumed := ConsumeTurn(thread, budgets, start, arrivals, deadAt, sink);
    ghost var effects := LiveEffects(thread, Messages(arrivals[..consumed]));
    ghost var turn := Calls(effects, 1);
    forall i | 0 <= i < |effects|
      ensures Proper(effects[i])
    {
      LiveEffectIsProper(thread, arrivals[i].message);
    }
    OneCompletionPerTurn(effects);
    assert sink.calls[|old(sink.calls)|..] == turn;
    if outcome == Completed {
      assert effects[consumed - 1].EndTurn?;
      return true, outcome;
    }
    assert NoTurnEnds(effects);
    if (outcome == TotalTimeout || outcome == Inactive) && !Returns(interrupt) {
      return false, outcome;
    }
    var report := TurnCompleted(JStr("failed"), JStr(Reason(outcome)));
    sink.On(report);
    assert sink.calls[|old(sink.calls)|..] == turn + [report];
    CompletionsOfConcat(turn, [report]);
    reported := true;
  }

  /** The text that goes with a turn the client gave up on; the elapsed seconds it also carries are left out. */
  function Reason(outcome: Outcome): string {
    match outcome
    case TotalTimeout => "Turn total timeout"
    case Inactive => "Turn went idle with no notifications"
    case _ => "Codex app-server connection lost"
  }
}
