/**
 The replay session against the live one: both turn the same recorded frames into the same
 sink calls and the same handler calls.
 */
module Replay {
  import opened Text
  import opened Json
  import opened JsonRpc
  import opened CodexTurn

  /** Which handlers the session is configured with. */
  datatype Config = Config(userInput: bool, dynamicTool: bool)

  datatype HandlerCall =
    | AskUser(questions: Json, params: Json)
    | CallTool(tool: string, args: Json, params: Json)

  /** `params.get(key, [])`. */
  function GetOrList(v: Json, key: string): Json {
    if Has(v, key) then Get(v, key) else JArr([])
  }

  function ToolArgs(params: Json): Json {
    if Get(params, "arguments").JObj? then Get(params, "arguments") else EMPTY
  }

  // ---------- The live session, frame by frame ----------

  /** `_handle_server_request` of the client and then of the session. */
  function LiveHandler(config: Config, message: Json): seq<HandlerCall> {
    var method_, params := Get(message, "method"), Part(message, "params");
    if !method_.JStr? || !params.JObj? then []
    else if method_.s == "item/tool/requestUserInput" then
      if config.userInput then [AskUser(GetOrList(params, "questions"), params)] else []
    else if method_.s == "item/tool/call" then
      var tool := Get(params, "tool");
      if config.dynamicTool && tool.JStr? then [CallTool(tool.s, ToolArgs(params), params)] else []
    else []
  }

  /** What one inbound frame leads to: handler calls at once, and a sink effect when its turn comes. */
  datatype FrameResult = FrameResult(handlers: seq<HandlerCall>, effect: Effect)

  function LiveFrame(config: Config, thread: string, message: Json): FrameResult {
    if IsServerRequest(message) then FrameResult(LiveHandler(config, message), Ignore)
    else if IsNotification(message) then FrameResult([], LiveEffect(thread, message))
    else FrameResult([], Ignore)
  }

  // ---------- The replay session, frame by frame ----------

  function ReplayHandler(config: Config, message: Json): seq<HandlerCall> {
    var method_, params := Get(message, "method"), Part(message, "params");
    if method_ == JStr("item/tool/requestUserInput") then
      if !config.userInput || !params.JObj? then [] else [AskUser(GetOrList(params, "questions"), params)]
    else if method_ == JStr("item/tool/call") then
      var tool := Get(params, "tool");
      if !params.JObj? || !config.dynamicTool || !tool.JStr? then [] else [CallTool(tool.s, ToolArgs(params), params)]
    else []
  }

  function ReplayCompletion(turn: Json): SinkCall {
    TurnCompleted(
      Or(Get(turn, "status"), JStr("completed")),
      if Get(turn, "error").JObj? then Get(Get(turn, "error"), "message") else JNull)
  }

  /** The dispatch of `_consume_recorded_turn`; reading a field of a non-object raises. */
  function ReplayEffect(message: Json): Effect {
    var method_, params := Get(message, "method"), Part(message, "params");
    if method_ == JStr("turn/started") then
      if !params.JObj? || !Part(params, "turn").JObj? then Crash
      else
        var id := Get(Part(params, "turn"), "id");
        if id.JStr? then Emit(TurnStarted(id.s)) else Ignore
    else if method_ == JStr("item/started") then
      var item := Get(params, "item");
      if !params.JObj? then Crash else if item.JObj? then Emit(ItemStarted(item)) else Ignore
    else if method_ == JStr("item/completed") then
      var item := Get(params, "item");
      if !params.JObj? then Crash else if item.JObj? then Emit(ItemCompleted(item)) else Ignore
    else if method_ == JStr("item/agentMessage/delta") then
      var delta := Get(params, "delta");
      if !params.JObj? then Crash else if delta.JStr? then Emit(AgentMessageDelta(delta.s)) else Ignore
    else if method_ == JStr("turn/completed") then
      if !params.JObj? || !Part(params, "turn").JObj? then Crash
      else EndTurn(ReplayCompletion(Part(params, "turn")))
    else Ignore
  }

  predicate LooksLikeRequest(message: Json) {
    var id := Get(message, "id");
    (id.JInt? || id.JBool? || id.JStr?) && Truthy(Get(message, "method"))
  }

  function ReplayFrame(config: Config, message: Json): FrameResult {
    if !message.JObj? then FrameResult([], Crash)
    else if LooksLikeRequest(message) then FrameResult(ReplayHandler(config, message), Ignore)
    else if !Truthy(Get(message, "method")) then FrameResult([], Ignore)
    else FrameResult([], ReplayEffect(message))
  }

  /** A server request reaches its handler, when there is one, with what it asks for; other requests reach none. */
  lemma {:induction false} RequestsReachTheirHandler(config: Config, message: Json)
    requires LooksLikeRequest(message) && Get(message, "params").JObj?
    ensures var params, handlers := Get(message, "params"), ReplayFrame(config, message).handlers;
            var method_ := Get(message, "method");
            && (method_ == JStr("item/tool/requestUserInput") && config.userInput ==>
                  |handlers| == 1 && handlers[0].AskUser? && handlers[0].params == Or(params, EMPTY)
                  && handlers[0].questions == if Has(params, "questions") then Get(params, "questions") else JArr([]))
            && (method_ == JStr("item/tool/call") && config.dynamicTool && Get(params, "tool").JStr? ==>
                  |handlers| == 1 && handlers[0].CallTool? && handlers[0].params == Or(params, EMPTY)
                  && JStr(handlers[0].tool) == Get(params, "tool")
                  && handlers[0].args == if Get(params, "arguments").JObj? then Get(params, "arguments") else EMPTY)
            && (method_ != JStr("item/tool/requestUserInput") && method_ != JStr("item/tool/call") ==> handlers == [])
            && (method_ == JStr("item/tool/requestUserInput") && !config.userInput ==> handlers == [])
            && (method_ == JStr("item/tool/call") && (!config.dynamicTool || !Get(params, "tool").JStr?) ==>
                  handlers == [])
  {
    if !Truthy(Get(message, "params")) {
      assert Get(message, "params").fields == [];
    }
  }

  /** The replay raises at exactly the frames that are no object, or lack one where a turn's data should be. */
  lemma {:induction false} CrashesExactly(config: Config, message: Json)
    ensures ReplayFrame(config, message).effect == Crash <==>
              || !message.JObj?
              || (&& !LooksLikeRequest(message)
                  && Get(message, "method") in {JStr("turn/started"), JStr("item/started"), JStr("item/completed"),
                                                JStr("item/agentMessage/delta"), JStr("turn/completed")}
                  && Truthy(Get(message, "params")) && !Get(message, "params").JObj?)
              || (&& !LooksLikeRequest(message)
                  && Get(message, "method") in {JStr("turn/started"), JStr("turn/completed")}
                  && Get(message, "params").JObj? && Truthy(Get(Get(message, "params"), "turn"))
                  && !Get(Get(message, "params"), "turn").JObj?)
  {
    assert LastField([], "turn") == JNull;
  }

  // ---------- When the two agree on a frame ----------

  predicate IsTurnMethod(method_: Json) {
    && method_.JStr?
    && method_.s in ["turn/started", "item/started", "item/completed", "item/agentMessage/delta", "turn/completed"]
  }

  /** The status is one the protocol knows, and an error message comes with `failed` only. */
  predicate CompletionIsPlain(turn: Json) {
    var status, error := Get(turn, "status"), Get(turn, "error");
    && turn.JObj?
    && (Truthy(status) ==> status == JStr("completed") || status == JStr("interrupted") || status == JStr("failed"))
    && (error.JObj? ==>
          Get(error, "message") == JNull || (status == JStr("failed") && Get(error, "message").JStr?))
  }

  predicate ShapeIsPlain(message: Json) {
    var method_, params := Get(message, "method"), Part(message, "params");
    IsTurnMethod(method_) ==>
      && params.JObj?
      && (method_.s == "turn/started" ==> Part(params, "turn").JObj?)
      && (method_.s == "turn/completed" ==> CompletionIsPlain(Part(params, "turn")))
  }

  /** The notification carries no other session's thread id. */
  predicate IsForThread(thread: string, message: Json) {
    var addressee := Get(Part(message, "params"), "threadId");
    addressee.JStr? ==> addressee.s == thread
  }

  predicate IdIsPlain(message: Json) {
    var id := Get(message, "id");
    id.JNull? || id.JInt? || id.JBool? || id.JStr?
  }

  predicate WellFormed(thread: string, message: Json) {
    && message.JObj?
    && IdIsPlain(message)
    && (IsNotification(message) ==> IsForThread(thread, message) && ShapeIsPlain(message))
  }

  lemma {:induction false} AbsentIsNull(fields: seq<Field>, key: string)
    requires forall i :: 0 <= i < |fields| ==> fields[i].key != key
    ensures LastField(fields, key) == JNull
  {
    if |fields| > 0 {
      AbsentIsNull(fields[..|fields| - 1], key);
    }
  }

  /** On notifications for this thread, the two dispatches agree exactly on the plain shapes. */
  lemma EffectsAgreeExactly(thread: string, message: Json)
    requires IsForThread(thread, message)
    ensures ReplayEffect(message) == LiveEffect(thread, message) <==> ShapeIsPlain(message)
  {
    var method_, params := Get(message, "method"), Part(message, "params");
    if method_ == JStr("turn/completed") && params.JObj? && Part(params, "turn").JObj? {
      CompletionsAgreeExactly(Part(params, "turn"));
    }
  }

  lemma CompletionsAgreeExactly(turn: Json)
    requires turn.JObj?
    ensures ReplayCompletion(turn) == LiveCompletion(turn) <==> CompletionIsPlain(turn)
  {
    var error := Get(turn, "error");
    if error.JObj? && !Truthy(error) {
      AbsentIsNull(error.fields, "message");
    }
    AbsentIsNull([], "message");
  }

  lemma HandlersAgree(config: Config, message: Json)
    ensures ReplayHandler(config, message) == LiveHandler(config, message)
  {
  }

  lemma FramesAgree(config: Config, thread: string, message: Json)
    requires WellFormed(thread, message)
    ensures ReplayFrame(config, message) == LiveFrame(config, thread, message)
  {
    HandlersAgree(config, message);
    if !Has(message, "method") {
      AbsentIsNull(message.fields, "method");
    }
    if IsNotification(message) {
      EffectsAgreeExactly(thread, message);
    }
  }

  // ---------- The recorded log ----------

  datatype Entry = Entry(inbound: bool, frame: Json)

  predicate StartsTurn(frame: Json) {
    frame.JObj? && !LooksLikeRequest(frame) && Get(frame, "method") == JStr("turn/started")
  }

  /** What the cursor walk reads off one entry; outgoing entries do nothing. */
  datatype Parsed = Parsed(result: FrameResult, starts: bool)

  function Parse(config: Config, entry: Entry): Parsed {
    if entry.inbound then Parsed(ReplayFrame(config, entry.frame), StartsTurn(entry.frame))
    else Parsed(FrameResult([], Ignore), false)
  }

  function ParseLog(config: Config, log: seq<Entry>): seq<Parsed> {
    seq(|log|, i requires 0 <= i < |log| => Parse(config, log[i]))
  }

  function LiveLog(config: Config, thread: string, log: seq<Entry>): seq<FrameResult> {
    seq(|log|, i requires 0 <= i < |log| =>
      if log[i].inbound then LiveFrame(config, thread, log[i].frame) else FrameResult([], Ignore))
  }

  function Results(log: seq<Parsed>): seq<FrameResult> {
    seq(|log|, i requires 0 <= i < |log| => log[i].result)
  }

  function Effects(results: seq<FrameResult>): seq<Effect> {
    seq(|results|, i requires 0 <= i < |results| => results[i].effect)
  }

  function Handlers(results: seq<FrameResult>): seq<HandlerCall> {
    if |results| == 0 then [] else results[0].handlers + Handlers(results[1..])
  }

  function EndCount(effects: seq<Effect>): nat {
    if |effects| == 0 then 0 else (if effects[0].EndTurn? then 1 else 0) + EndCount(effects[1..])
  }

  /** One replayed turn, or several: what it called, where the cursor ended, whether it raised. */
  datatype Replayed = Replayed(calls: seq<SinkCall>, handlers: seq<HandlerCall>, cursor: nat, raised: bool)

  function Exhausted(cursor: nat, length: nat, sawStart: bool): SinkCall {
    if sawStart then
      TurnCompleted(JStr("failed"),
        JStr("replay fixture exhausted mid-turn at frame " + Decimal(cursor) + "/" + Decimal(length)))
    else TurnCompleted(JStr("completed"), JNull)
  }

  function Prepend(calls: seq<SinkCall>, handlers: seq<HandlerCall>, rest: Replayed): Replayed {
    rest.(calls := calls + rest.calls, handlers := handlers + rest.handlers)
  }

  /** The cursor walk up to the end of a turn, or of the log. */
  function ReplayTurn(log: seq<Parsed>, cursor: nat, sawStart: bool): (r: Replayed)
    requires cursor <= |log|
    ensures cursor <= r.cursor <= |log|
    decreases |log| - cursor
  {
    if cursor == |log| then Replayed([Exhausted(cursor, |log|, sawStart)], [], cursor, false)
    else
      var FrameResult(handlers, effect) := log[cursor].result;
      match effect
      case Crash => Replayed([], handlers, cursor + 1, true)
      case EndTurn(call) => Replayed([call], handlers, cursor + 1, false)
      case _ => Prepend(CallsOf(effect), handlers, ReplayTurn(log, cursor + 1, sawStart || log[cursor].starts))
  }

  function ReplayTurns(log: seq<Parsed>, cursor: nat, turns: nat): (r: Replayed)
    requires cursor <= |log|
    ensures cursor <= r.cursor <= |log|
    decreases turns
  {
    if turns == 0 then Replayed([], [], cursor, false)
    else
      var first := ReplayTurn(log, cursor, false);
      if first.raised then first
      else Prepend(first.calls, first.handlers, ReplayTurns(log, first.cursor, turns - 1))
  }

  /** The recorded session with its shared cursor. */
  class ReplayCodexSession {
    const config: Config
    const frames: seq<Entry>
    var cursor: nat

    constructor (config: Config, frames: seq<Entry>)
      ensures this.config == config && this.frames == frames && cursor == 0
    {
      this.config, this.frames, cursor := config, frames, 0;
    }

    method RunTurn(sink: TurnItemSink) returns (handlers: seq<HandlerCall>, raised: bool)
      requires cursor <= |frames|
      modifies this, sink
      ensures var turn := ReplayTurn(ParseLog(config, frames), old(cursor), false);
              && sink.calls == old(sink.calls) + turn.calls
              && handlers == turn.handlers
              && cursor == turn.cursor
              && raised == turn.raised
    {
      cursor, handlers, raised := Walk(ParseLog(config, frames), cursor, sink);
    }
  }

  /** The loop of `_consume_recorded_turn`; `next` is where it leaves the cursor. */
  method Walk(log: seq<Parsed>, cursor: nat, sink: TurnItemSink)
    returns (next: nat, handlers: seq<HandlerCall>, raised: bool)
    requires cursor <= |log|
    modifies sink
    ensures var turn := ReplayTurn(log, cursor, false);
            && sink.calls == old(sink.calls) + turn.calls
            && handlers == turn.handlers
            && next == turn.cursor
            && raised == turn.raised
  {
    ghost var turn := ReplayTurn(log, cursor, false);
    ghost var calls := [];
    next, handlers := cursor, [];
    var sawStart := false;
    while next < |log|
      invariant next <= |log|
      invariant sink.calls == old(sink.calls) + calls
      invariant turn == Prepend(calls, handlers, ReplayTurn(log, next, sawStart))
    {
      var Parsed(FrameResult(called, effect), starts) := log[next];
      ReadsOne(log, next, sawStart, calls, handlers);
      next := next + 1;
      handlers := handlers + called;
      if effect == Crash {
        return next, handlers, true;
      }
      if effect != Ignore {
        sink.On(effect.call);
      }
      if effect.EndTurn? {
        return next, handlers, false;
      }
      calls := calls + CallsOf(effect);
      sawStart := sawStart || starts;
    }
    sink.On(Exhausted(next, |log|, sawStart));
    raised := false;
  }

  lemma ReadsOne(log: seq<Parsed>, next: nat, sawStart: bool, calls: seq<SinkCall>, handlers: seq<HandlerCall>)
    requires next < |log|
    ensures var FrameResult(called, effect) := log[next].result;
            Prepend(calls, handlers, ReplayTurn(log, next, sawStart))
            == if effect == Crash then Replayed(calls, handlers + called, next + 1, true)
               else if effect.EndTurn? then Replayed(calls + CallsOf(effect), handlers + called, next + 1, false)
               else Prepend(calls + CallsOf(effect), handlers + called,
                            ReplayTurn(log, next + 1, sawStart || log[next].starts))
  {
    var FrameResult(called, effect) := log[next].result;
    PrependAgain(
      calls, handlers, CallsOf(effect), called, ReplayTurn(log, next + 1, sawStart || log[next].starts));
  }

  lemma PrependAgain(a: seq<SinkCall>, h: seq<HandlerCall>, b: seq<SinkCall>, k: seq<HandlerCall>, rest: Replayed)
    ensures Prepend(a, h, Prepend(b, k, rest)) == Prepend(a + b, h + k, rest)
  {
    assert a + (b + rest.calls) == (a + b) + rest.calls;
    assert h + (k + rest.handlers) == (h + k) + rest.handlers;
  }

  // ---------- Replay refines live ----------

  predicate LogIsWellFormed(thread: string, log: seq<Entry>) {
    forall i :: 0 <= i < |log| && log[i].inbound ==> WellFormed(thread, log[i].frame)
  }

  predicate NeverCrashes(log: seq<Parsed>) {
    forall i :: 0 <= i < |log| ==> log[i].result.effect != Crash
  }

  lemma LiveNeverCrashes(config: Config, thread: string, message: Json)
    ensures LiveFrame(config, thread, message).effect != Crash
  {
  }

  /** On a well-formed log the two sessions read the same off every entry. */
  lemma {:induction false} LogsAgree(config: Config, thread: string, log: seq<Entry>)
    requires LogIsWellFormed(thread, log)
    ensures Results(ParseLog(config, log)) == LiveLog(config, thread, log)
    ensures NeverCrashes(ParseLog(config, log))
  {
    forall i | 0 <= i < |log|
      ensures Parse(config, log[i]).result == LiveLog(config, thread, log)[i]
      ensures Parse(config, log[i]).result.effect != Crash
    {
      if log[i].inbound {
        FramesAgree(config, thread, log[i].frame);
        LiveNeverCrashes(config, thread, log[i].frame);
      }
    }
  }

  /** The effects of one whole turn: only the last one ends it. */
  predicate IsOneTurn(effects: seq<Effect>) {
    |effects| > 0 && effects[|effects| - 1].EndTurn? && NoTurnEnds(effects[..|effects| - 1])
  }

  lemma {:induction false} TurnSplits(a: seq<Effect>, b: seq<Effect>, turns: nat)
    requires IsOneTurn(a) && turns >= 1
    ensures Calls(a + b, turns) == Calls(a, 1) + Calls(b, turns - 1)
    ensures EndCount(a + b) == 1 + EndCount(b)
  {
    var rest := a[1..];
    assert (a + b)[1..] == rest + b;
    if |a| == 1 {
      assert rest + b == b && a[0].EndTurn?;
      assert Calls(rest, 0) == [];
    } else {
      assert a[0] == a[..|a| - 1][0];
      assert rest[..|rest| - 1] == a[..|a| - 1][1..];
      TurnSplits(rest, b, turns);
    }
  }

  /** What is read off the entries between two cursors. */
  function Between(log: seq<Parsed>, lo: nat, hi: nat): seq<FrameResult>
    requires lo <= hi <= |log|
  {
    Results(log[lo..hi])
  }

  lemma {:induction false} BetweenFirst(log: seq<Parsed>, lo: nat, hi: nat)
    requires lo < hi <= |log|
    ensures Between(log, lo, hi) == [log[lo].result] + Between(log, lo + 1, hi)
    ensures Effects(Between(log, lo, hi)) == [log[lo].result.effect] + Effects(Between(log, lo + 1, hi))
  {
  }

  /** One replayed turn walks over exactly one turn, making its sink calls and its handler calls. */
  lemma {:induction false} OneTurnAgrees(log: seq<Parsed>, cursor: nat, sawStart: bool)
    requires cursor <= |log| && NeverCrashes(log)
    requires EndCount(Effects(Between(log, cursor, |log|))) >= 1
    ensures var turn := ReplayTurn(log, cursor, sawStart);
            && !turn.raised
            && cursor < turn.cursor
            && var walked := Between(log, cursor, turn.cursor);
               && IsOneTurn(Effects(walked))
               && turn.calls == Calls(Effects(walked), 1)
               && turn.handlers == Handlers(walked)
    decreases |log| - cursor
  {
    BetweenFirst(log, cursor, |log|);
    var result := log[cursor].result;
    if result.effect.EndTurn? {
      BetweenFirst(log, cursor, cursor + 1);
      OneFrameTurn(result);
      assert Between(log, cursor, cursor + 1) == [result];
    } else {
      OneTurnAgrees(log, cursor + 1, sawStart || log[cursor].starts);
      var end := ReplayTurn(log, cursor + 1, sawStart || log[cursor].starts).cursor;
      BetweenFirst(log, cursor, end);
      OneFrameMore(result, Between(log, cursor + 1, end));
    }
  }

  lemma {:induction false} OneFrameTurn(result: FrameResult)
    requires result.effect.EndTurn?
    ensures IsOneTurn(Effects([result]))
    ensures Calls(Effects([result]), 1) == [result.effect.call]
    ensures Handlers([result]) == result.handlers
  {
    assert Effects([result]) == [result.effect];
    assert [result.effect][1..] == [] && [result][1..] == [];
  }

  lemma {:induction false} OneFrameMore(first: FrameResult, rest: seq<FrameResult>)
    requires !first.effect.EndTurn? && IsOneTurn(Effects(rest))
    ensures IsOneTurn(Effects([first] + rest))
    ensures Calls(Effects([first] + rest), 1) == CallsOf(first.effect) + Calls(Effects(rest), 1)
    ensures Handlers([first] + rest) == first.handlers + Handlers(rest)
  {
    var effects := Effects([first] + rest);
    assert effects == [first.effect] + Effects(rest);
    assert effects[1..] == Effects(rest);
    assert effects[..|effects| - 1] == [first.effect] + Effects(rest)[..|rest| - 1];
    assert ([first] + rest)[1..] == rest;
  }

  lemma {:induction false} HandlersOfConcat(a: seq<FrameResult>, b: seq<FrameResult>)
    ensures Handlers(a + b) == Handlers(a) + Handlers(b)
  {
    if |a| == 0 {
      assert a + b == b;
    } else {
      HandlersOfConcat(a[1..], b);
      var s, first, rest := a + b, a[0].handlers, Handlers(a[1..]);
      assert s[0] == a[0] && s[1..] == a[1..] + b;
      RegroupHandlers(first, rest, Handlers(b));
      assert Handlers(a) == first + rest;
      assert Handlers(s) == first + (rest + Handlers(b));
    }
  }

  lemma RegroupHandlers(a: seq<HandlerCall>, b: seq<HandlerCall>, c: seq<HandlerCall>)
    ensures (a + b) + c == a + (b + c)
  {
  }

  lemma {:induction false} BetweenSplits(log: seq<Parsed>, lo: nat, mid: nat, hi: nat)
    requires lo <= mid <= hi <= |log|
    ensures Effects(Between(log, lo, hi)) == Effects(Between(log, lo, mid)) + Effects(Between(log, mid, hi))
    ensures Handlers(Between(log, lo, hi)) == Handlers(Between(log, lo, mid)) + Handlers(Between(log, mid, hi))
  {
    assert Between(log, lo, hi) == Between(log, lo, mid) + Between(log, mid, hi);
    HandlersOfConcat(Between(log, lo, mid), Between(log, mid, hi));
  }

  /** Any number of replayed turns makes the sink and handler calls of as many turns. */
  lemma {:induction false} TurnsAgree(log: seq<Parsed>, cursor: nat, turns: nat)
    requires cursor <= |log| && NeverCrashes(log)
    requires EndCount(Effects(Between(log, cursor, |log|))) >= turns
    ensures var replayed := ReplayTurns(log, cursor, turns);
            && !replayed.raised
            && replayed.calls == Calls(Effects(Between(log, cursor, |log|)), turns)
            && replayed.handlers == Handlers(Between(log, cursor, replayed.cursor))
    decreases turns
  {
    if turns == 0 {
      assert Between(log, cursor, cursor) == [];
    } else {
      OneTurnAgrees(log, cursor, false);
      var mid := ReplayTurn(log, cursor, false).cursor;
      BetweenSplits(log, cursor, mid, |log|);
      TurnSplits(Effects(Between(log, cursor, mid)), Effects(Between(log, mid, |log|)), turns);
      TurnsAgree(log, mid, turns - 1);
      ghost var rest := ReplayTurns(log, mid, turns - 1);
      BetweenSplits(log, cursor, mid, rest.cursor);
      assert ReplayTurns(log, cursor, turns)
          == Prepend(ReplayTurn(log, cursor, false).calls, ReplayTurn(log, cursor, false).handlers, rest);
    }
  }

  /** A replayed effect that ends a turn is a completion, and no other is. */
  lemma ReplayIsProper(config: Config, entry: Entry)
    ensures Proper(Parse(config, entry).result.effect)
  {
  }

  /** No entry from here on ends a turn or makes the replay raise. */
  predicate RunsOut(log: seq<Parsed>, cursor: nat) {
    forall i :: cursor <= i < |log| ==> !log[i].result.effect.EndTurn? && log[i].result.effect != Crash
  }

  ghost predicate StartsFrom(log: seq<Parsed>, cursor: nat) {
    exists i :: cursor <= i < |log| && log[i].starts
  }

  /** The turn reads to the end of the log without raising, and this is its last call. */
  predicate ReadsToTheEnd(turn: Replayed, length: nat, completion: SinkCall) {
    !turn.raised && turn.cursor == length && |turn.calls| > 0 && turn.calls[|turn.calls| - 1] == completion
  }

  lemma PrependReads(a: seq<SinkCall>, h: seq<HandlerCall>, rest: Replayed, length: nat, completion: SinkCall)
    requires ReadsToTheEnd(rest, length, completion)
    ensures ReadsToTheEnd(Prepend(a, h, rest), length, completion)
  {
  }

  lemma {:induction false} RunsOutIn(log: seq<Parsed>, cursor: nat, sawStart: bool)
    requires cursor <= |log| && RunsOut(log, cursor)
    ensures ReadsToTheEnd(
              ReplayTurn(log, cursor, sawStart), |log|, Exhausted(|log|, |log|, sawStart || StartsFrom(log, cursor)))
    decreases |log| - cursor
  {
    if cursor < |log| {
      var seen, result := sawStart || log[cursor].starts, log[cursor].result;
      RunsOutIn(log, cursor + 1, seen);
      assert sawStart || StartsFrom(log, cursor) <==> seen || StartsFrom(log, cursor + 1);
      PrependReads(
        CallsOf(result.effect), result.handlers, ReplayTurn(log, cursor + 1, seen), |log|,
        Exhausted(|log|, |log|, seen || StartsFrom(log, cursor + 1)));
    }
  }

  /** The end of a recording that stops in the middle of a turn. */
  function MidTurn(length: nat): string {
    "replay fixture exhausted mid-turn at frame " + Decimal(length) + "/" + Decimal(length)
  }

  /** The recorded frame opens a turn: it came in, is no request, and says so. */
  predicate OpensTurn(entry: Entry) {
    && entry.inbound && entry.frame.JObj? && Get(entry.frame, "method") == JStr("turn/started")
    && !(Get(entry.frame, "id").JInt? || Get(entry.frame, "id").JBool? || Get(entry.frame, "id").JStr?)
  }

  /** A replayed turn that finds no end in the log fails if an entry it read opens a turn, and else completes. */
  lemma {:induction false} TruncatedTurnFails(config: Config, log: seq<Entry>, cursor: nat)
    requires cursor <= |log| && RunsOut(ParseLog(config, log), cursor)
    ensures ReadsToTheEnd(
              ReplayTurn(ParseLog(config, log), cursor, false), |log|,
              if exists i :: cursor <= i < |log| && OpensTurn(log[i])
              then TurnCompleted(JStr("failed"), JStr(MidTurn(|log|)))
              else TurnCompleted(JStr("completed"), JNull))
  {
    var parsed := ParseLog(config, log);
    RunsOutIn(parsed, cursor, false);
    forall i | cursor <= i < |log|
      ensures parsed[i].starts <==> OpensTurn(log[i])
    {
      StartsExactly(config, log[i]);
    }
  }

  lemma StartsExactly(config: Config, entry: Entry)
    ensures Parse(config, entry).starts <==> OpensTurn(entry)
  {
  }

  /** One of these frames makes the replay raise. */
  predicate CrashesWithin(log: seq<Parsed>, from: nat, to: nat)
    requires to <= |log|
  {
    exists i :: from <= i < to && log[i].result.effect == Crash
  }

  lemma {:induction false} RaisesAtACrash(log: seq<Parsed>, cursor: nat, sawStart: bool)
    requires cursor <= |log|
    ensures var turn := ReplayTurn(log, cursor, sawStart);
            turn.raised <==> CrashesWithin(log, cursor, turn.cursor)
    decreases |log| - cursor
  {
    if cursor < |log| {
      RaisesAtACrash(log, cursor + 1, sawStart || log[cursor].starts);
    }
  }

  lemma {:induction false} CompletionsOfOne(effect: Effect)
    requires Proper(effect)
    ensures Completions(CallsOf(effect)) == if effect.EndTurn? then 1 else 0
  {
    assert |CallsOf(effect)| > 0 ==> CallsOf(effect)[1..] == [];
  }

  /** Whatever the log holds, a replayed turn that does not raise completes exactly once. */
  lemma {:induction false} ReplayCompletesOnce(log: seq<Parsed>, cursor: nat, sawStart: bool)
    requires cursor <= |log| && forall i :: 0 <= i < |log| ==> Proper(log[i].result.effect)
    ensures var turn := ReplayTurn(log, cursor, sawStart);
            Completions(turn.calls) == if turn.raised then 0 else 1
    decreases |log| - cursor
  {
    if cursor == |log| {
      assert Completions([Exhausted(cursor, |log|, sawStart)]) == 1;
    } else {
      var effect, next := log[cursor].result.effect, sawStart || log[cursor].starts;
      CompletionsOfOne(effect);
      if !effect.Crash? && !effect.EndTurn? {
        ReplayCompletesOnce(log, cursor + 1, next);
        CompletionsOfConcat(CallsOf(effect), ReplayTurn(log, cursor + 1, next).calls);
      }
    }
  }

  lemma {:induction false} TurnsCompleteOnceEach(log: seq<Parsed>, cursor: nat, turns: nat)
    requires cursor <= |log| && forall i :: 0 <= i < |log| ==> Proper(log[i].result.effect)
    ensures var replayed := ReplayTurns(log, cursor, turns);
            && Completions(replayed.calls) <= turns
            && (Completions(replayed.calls) == turns <==> !replayed.raised)
            && (replayed.raised <==> CrashesWithin(log, cursor, replayed.cursor))
    decreases turns
  {
    if turns > 0 {
      var first := ReplayTurn(log, cursor, false);
      ReplayCompletesOnce(log, cursor, false);
      RaisesAtACrash(log, cursor, false);
      TurnsCompleteOnceEach(log, first.cursor, turns - 1);
      CompletionsOfConcat(first.calls, ReplayTurns(log, first.cursor, turns - 1).calls);
    }
  }

  /**
   On any log, truncated or not, the replay completes every turn exactly when it does not raise, and it raises
   exactly when a frame it reads makes it.
   */
  lemma ReplayCompletesEveryTurn(config: Config, log: seq<Entry>, cursor: nat, turns: nat)
    requires cursor <= |log|
    ensures var parsed, replayed := ParseLog(config, log), ReplayTurns(ParseLog(config, log), cursor, turns);
            && Completions(replayed.calls) <= turns
            && (Completions(replayed.calls) == turns <==> !CrashesWithin(parsed, cursor, replayed.cursor))
            && (replayed.raised <==> CrashesWithin(parsed, cursor, replayed.cursor))
  {
    forall i | 0 <= i < |log|
      ensures Proper(ParseLog(config, log)[i].result.effect)
    {
      ReplayIsProper(config, log[i]);
    }
    TurnsCompleteOnceEach(ParseLog(config, log), cursor, turns);
  }

  /** On a well-formed log, cut off wherever it is, any number of turns is replayed and completed without raising. */
  lemma {:induction false} WellFormedLogsComplete(
    config: Config, thread: string, log: seq<Entry>, cursor: nat, turns: nat)
    requires LogIsWellFormed(thread, log) && cursor <= |log|
    ensures var replayed := ReplayTurns(ParseLog(config, log), cursor, turns);
            !replayed.raised && Completions(replayed.calls) == turns
  {
    LogsAgree(config, thread, log);
    ReplayCompletesEveryTurn(config, log, cursor, turns);
  }

  // ---------- The live session under every schedule of its two tasks ----------

  /**
   The reader takes frames off the socket; the consumer, while turns are left to run, takes
   notifications off the queue.
   */
  datatype Live =
    Live(unread: seq<Json>, queue: seq<Json>, handlers: seq<HandlerCall>, calls: seq<SinkCall>, turnsLeft: nat)

  datatype Task = Reader | Consumer

  function LiveStep(config: Config, thread: string, w: Live, task: Task): Live {
    match task
    case Reader =>
      if |w.unread| == 0 then w
      else
        var message := w.unread[0];
        w.(unread := w.unread[1..],
           handlers := w.handlers + LiveFrame(config, thread, message).handlers,
           queue := if IsNotification(message) then w.queue + [message] else w.queue)
    case Consumer =>
      if |w.queue| == 0 || w.turnsLeft == 0 then w
      else
        var effect := LiveEffect(thread, w.queue[0]);
        w.(queue := w.queue[1..],
           calls := w.calls + CallsOf(effect),
           turnsLeft := if effect.EndTurn? then w.turnsLeft - 1 else w.turnsLeft)
  }

  function LiveRun(config: Config, thread: string, frames: seq<Json>, turns: nat, schedule: seq<Task>): Live {
    if |schedule| == 0 then Live(frames, [], [], [], turns)
    else
      LiveStep(
        config, thread, LiveRun(config, thread, frames, turns, schedule[..|schedule| - 1]), schedule[|schedule| - 1])
  }

  function FrameResults(config: Config, thread: string, frames: seq<Json>): seq<FrameResult> {
    seq(|frames|, i requires 0 <= i < |frames| => LiveFrame(config, thread, frames[i]))
  }

  /** What the session has called so far and will call if both tasks run to the end. */
  function AllCalls(config: Config, thread: string, w: Live): seq<SinkCall> {
    w.calls + Calls(LiveEffects(thread, w.queue) + Effects(FrameResults(config, thread, w.unread)), w.turnsLeft)
  }

  function AllHandlers(config: Config, thread: string, w: Live): seq<HandlerCall> {
    w.handlers + Handlers(FrameResults(config, thread, w.unread))
  }

  lemma {:induction false} IgnoredFrameChangesNothing(a: seq<Effect>, b: seq<Effect>, turns: nat)
    ensures Calls(a + [Ignore] + b, turns) == Calls(a + b, turns)
    decreases |a|
  {
    if |a| == 0 {
      assert a + [Ignore] + b == [Ignore] + b && a + b == b;
      assert ([Ignore] + b)[1..] == b;
    } else {
      assert (a + [Ignore] + b)[1..] == a[1..] + [Ignore] + b && (a + b)[1..] == a[1..] + b;
      IgnoredFrameChangesNothing(a[1..], b, turns);
      if turns > 0 {
        IgnoredFrameChangesNothing(a[1..], b, turns - 1);
      }
    }
  }

  lemma {:induction false} ReaderKeepsHandlers(config: Config, thread: string, w: Live)
    ensures AllHandlers(config, thread, LiveStep(config, thread, w, Reader)) == AllHandlers(config, thread, w)
  {
    if |w.unread| > 0 {
      var results := FrameResults(config, thread, w.unread);
      assert results[0] == LiveFrame(config, thread, w.unread[0]);
      assert results[1..] == FrameResults(config, thread, w.unread[1..]);
    }
  }

  lemma {:induction false} ReaderKeepsCalls(config: Config, thread: string, w: Live)
    ensures AllCalls(config, thread, LiveStep(config, thread, w, Reader)) == AllCalls(config, thread, w)
  {
    if |w.unread| > 0 {
      var message := w.unread[0];
      var first, rest := LiveFrame(config, thread, message), FrameResults(config, thread, w.unread[1..]);
      var queued := LiveEffects(thread, w.queue);
      assert FrameResults(config, thread, w.unread) == [first] + rest;
      assert queued + Effects([first] + rest) == queued + [first.effect] + Effects(rest);
      if IsNotification(message) {
        assert LiveEffects(thread, w.queue + [message]) == queued + [first.effect];
      } else {
        IgnoredFrameChangesNothing(queued, Effects(rest), w.turnsLeft);
      }
    }
  }

  lemma {:induction false} ConsumerKeepsTotals(config: Config, thread: string, w: Live)
    ensures AllCalls(config, thread, LiveStep(config, thread, w, Consumer)) == AllCalls(config, thread, w)
    ensures AllHandlers(config, thread, LiveStep(config, thread, w, Consumer)) == AllHandlers(config, thread, w)
  {
    if |w.queue| > 0 && w.turnsLeft > 0 {
      var queued, unread := LiveEffects(thread, w.queue), Effects(FrameResults(config, thread, w.unread));
      assert LiveEffects(thread, w.queue[1..]) == queued[1..];
      assert (queued + unread)[1..] == queued[1..] + unread;
    }
  }

  lemma {:induction false} ScheduleKeepsTotals(
    config: Config, thread: string, frames: seq<Json>, turns: nat, schedule: seq<Task>)
    ensures var w := LiveRun(config, thread, frames, turns, schedule);
            && AllCalls(config, thread, w) == Calls(Effects(FrameResults(config, thread, frames)), turns)
            && AllHandlers(config, thread, w) == Handlers(FrameResults(config, thread, frames))
  {
    if |schedule| == 0 {
      var effects := Effects(FrameResults(config, thread, frames));
      assert LiveEffects(thread, []) + effects == effects;
    } else {
      var before := LiveRun(config, thread, frames, turns, schedule[..|schedule| - 1]);
      ScheduleKeepsTotals(config, thread, frames, turns, schedule[..|schedule| - 1]);
      if schedule[|schedule| - 1] == Reader {
        ReaderKeepsCalls(config, thread, before);
        ReaderKeepsHandlers(config, thread, before);
      } else {
        ConsumerKeepsTotals(config, thread, before);
      }
    }
  }

  // ---------- Main result ----------

  function InboundFrames(log: seq<Entry>): seq<Json> {
    if |log| == 0 then []
    else if log[0].inbound then [log[0].frame] + InboundFrames(log[1..])
    else InboundFrames(log[1..])
  }

  /** Outgoing entries can be left out of the log. */
  lemma {:induction false} OutgoingFramesDoNothing(config: Config, thread: string, log: seq<Entry>, turns: nat)
    ensures var results, inbound := LiveLog(config, thread, log), FrameResults(config, thread, InboundFrames(log));
            && Calls(Effects(results), turns) == Calls(Effects(inbound), turns)
            && Handlers(results) == Handlers(inbound)
    decreases |log|
  {
    if |log| > 0 {
      var rest := log[1..];
      OutgoingFramesDoNothing(config, thread, rest, turns);
      if turns > 0 {
        OutgoingFramesDoNothing(config, thread, rest, turns - 1);
      }
      LogUnfolds(config, thread, log);
      if log[0].inbound {
        InboundUnfolds(config, thread, log);
      }
    }
  }

  lemma {:induction false} LogUnfolds(config: Config, thread: string, log: seq<Entry>)
    requires |log| > 0
    ensures LiveLog(config, thread, log)[1..] == LiveLog(config, thread, log[1..])
    ensures Effects(LiveLog(config, thread, log))[1..] == Effects(LiveLog(config, thread, log[1..]))
    ensures !log[0].inbound ==> Handlers(LiveLog(config, thread, log)) == Handlers(LiveLog(config, thread, log[1..]))
  {
    assert LiveLog(config, thread, log)[1..] == LiveLog(config, thread, log[1..]);
  }

  lemma {:induction false} InboundUnfolds(config: Config, thread: string, log: seq<Entry>)
    requires |log| > 0 && log[0].inbound
    ensures var results := FrameResults(config, thread, InboundFrames(log));
            var rest := FrameResults(config, thread, InboundFrames(log[1..]));
            && |results| > 0 && results[0] == LiveLog(config, thread, log)[0]
            && results[1..] == rest && Effects(results)[1..] == Effects(rest)
  {
  }

  // ---------- How far the two have come when the turns are over ----------

  lemma {:induction false} EndCountOfConcat(a: seq<Effect>, b: seq<Effect>)
    ensures EndCount(a + b) == EndCount(a) + EndCount(b)
  {
    if |a| == 0 {
      assert a + b == b;
    } else {
      EndCountOfConcat(a[1..], b);
      assert (a + b)[1..] == a[1..] + b;
    }
  }

  lemma {:induction false} OneTurnEndsOnce(effects: seq<Effect>)
    requires IsOneTurn(effects)
    ensures EndCount(effects) == 1
  {
    TurnSplits(effects, [], 1);
    assert effects + [] == effects;
  }

  /** `end` is right behind the frame that ends the last of so many turns. */
  predicate StandsAfter(log: seq<Parsed>, lo: nat, end: nat, turns: nat) {
    && lo <= end <= |log| && EndCount(Effects(Between(log, lo, end))) == turns
    && (turns > 0 ==> end > lo && log[end - 1].result.effect.EndTurn?)
  }

  lemma {:induction false} StandsAfterOneMore(log: seq<Parsed>, lo: nat, mid: nat, end: nat, turns: nat)
    requires lo < mid <= |log| && IsOneTurn(Effects(Between(log, lo, mid))) && StandsAfter(log, mid, end, turns)
    requires turns == 0 ==> end == mid
    ensures StandsAfter(log, lo, end, turns + 1)
  {
    TurnsWalked(log, lo, mid, end);
    LastWalked(log, lo, mid);
  }

  lemma {:induction false} CursorMoves(log: seq<Parsed>, cursor: nat, turns: nat)
    requires cursor <= |log| && turns > 0 && !ReplayTurn(log, cursor, false).raised
    ensures ReplayTurns(log, cursor, turns).cursor
         == ReplayTurns(log, ReplayTurn(log, cursor, false).cursor, turns - 1).cursor
    ensures turns == 1 ==> ReplayTurns(log, cursor, turns).cursor == ReplayTurn(log, cursor, false).cursor
  {
  }

  lemma {:induction false} CursorStands(log: seq<Parsed>, cursor: nat, turns: nat)
    requires cursor <= |log| && NeverCrashes(log)
    requires EndCount(Effects(Between(log, cursor, |log|))) >= turns
    ensures StandsAfter(log, cursor, ReplayTurns(log, cursor, turns).cursor, turns)
    decreases turns
  {
    if turns == 0 {
      assert Between(log, cursor, cursor) == [];
    } else {
      OneTurnAgrees(log, cursor, false);
      CursorMoves(log, cursor, turns);
      var mid := ReplayTurn(log, cursor, false).cursor;
      TurnsWalked(log, cursor, mid, |log|);
      CursorStands(log, mid, turns - 1);
      StandsAfterOneMore(log, cursor, mid, ReplayTurns(log, cursor, turns).cursor, turns - 1);
    }
  }

  /** One walked turn adds one end to what follows it. */
  lemma {:induction false} TurnsWalked(log: seq<Parsed>, lo: nat, mid: nat, hi: nat)
    requires lo <= mid <= hi <= |log| && IsOneTurn(Effects(Between(log, lo, mid)))
    ensures EndCount(Effects(Between(log, lo, hi))) == 1 + EndCount(Effects(Between(log, mid, hi)))
  {
    OneTurnEndsOnce(Effects(Between(log, lo, mid)));
    BetweenSplits(log, lo, mid, hi);
    EndCountOfConcat(Effects(Between(log, lo, mid)), Effects(Between(log, mid, hi)));
  }

  lemma {:induction false} LastWalked(log: seq<Parsed>, lo: nat, mid: nat)
    requires lo < mid <= |log| && IsOneTurn(Effects(Between(log, lo, mid)))
    ensures log[mid - 1].result.effect.EndTurn?
  {
    assert Effects(Between(log, lo, mid))[mid - lo - 1] == log[mid - 1].result.effect;
  }

  /** What has been read: `m` frames; their handler calls are made, and their turn ends are queued or consumed. */
  ghost predicate HasRead(config: Config, thread: string, frames: seq<Json>, turns: nat, w: Live, m: nat) {
    && m <= |frames| && w.unread == frames[m..] && w.turnsLeft <= turns
    && w.handlers == Handlers(FrameResults(config, thread, frames[..m]))
    && EndCount(Effects(FrameResults(config, thread, frames[..m])))
       == turns - w.turnsLeft + EndCount(LiveEffects(thread, w.queue))
  }

  lemma {:induction false} ResultsOneMore(config: Config, thread: string, frames: seq<Json>, m: nat)
    requires m < |frames|
    ensures var more, one := FrameResults(config, thread, frames[..m + 1]), LiveFrame(config, thread, frames[m]);
            && Handlers(more) == Handlers(FrameResults(config, thread, frames[..m])) + one.handlers
            && EndCount(Effects(more))
               == EndCount(Effects(FrameResults(config, thread, frames[..m]))) + (if one.effect.EndTurn? then 1 else 0)
  {
    var before, one := FrameResults(config, thread, frames[..m]), LiveFrame(config, thread, frames[m]);
    assert FrameResults(config, thread, frames[..m + 1]) == before + [one];
    HandlersOfConcat(before, [one]);
    assert [one][1..] == [] && Handlers([one]) == one.handlers;
    assert Effects(before + [one]) == Effects(before) + [one.effect];
    EndCountOfConcat(Effects(before), [one.effect]);
    assert [one.effect][1..] == [];
  }

  lemma {:induction false} ReaderReads(config: Config, thread: string, frames: seq<Json>, turns: nat, w: Live, m: nat)
    requires HasRead(config, thread, frames, turns, w, m) && m < |frames|
    ensures HasRead(config, thread, frames, turns, LiveStep(config, thread, w, Reader), m + 1)
  {
    var message, next := frames[m], LiveStep(config, thread, w, Reader);
    assert w.unread[0] == message;
    ResultsOneMore(config, thread, frames, m);
    if IsNotification(message) {
      var effect := LiveEffect(thread, message);
      assert LiveEffects(thread, w.queue + [message]) == LiveEffects(thread, w.queue) + [effect];
      EndCountOfConcat(LiveEffects(thread, w.queue), [effect]);
      assert [effect][1..] == [];
    }
  }

  lemma {:induction false} ConsumerConsumes(
    config: Config, thread: string, frames: seq<Json>, turns: nat, w: Live, m: nat)
    requires HasRead(config, thread, frames, turns, w, m)
    ensures HasRead(config, thread, frames, turns, LiveStep(config, thread, w, Consumer), m)
  {
    if |w.queue| > 0 {
      assert LiveEffects(thread, w.queue)[1..] == LiveEffects(thread, w.queue[1..]);
    }
  }

  lemma {:induction false} LiveHasRead(
    config: Config, thread: string, frames: seq<Json>, turns: nat, schedule: seq<Task>)
    returns (m: nat)
    ensures HasRead(config, thread, frames, turns, LiveRun(config, thread, frames, turns, schedule), m)
  {
    if |schedule| == 0 {
      m := 0;
      assert frames[..0] == [] && frames[0..] == frames;
    } else {
      m := LiveHasRead(config, thread, frames, turns, schedule[..|schedule| - 1]);
      var w := LiveRun(config, thread, frames, turns, schedule[..|schedule| - 1]);
      if schedule[|schedule| - 1] == Consumer {
        ConsumerConsumes(config, thread, frames, turns, w, m);
      } else if m < |frames| {
        ReaderReads(config, thread, frames, turns, w, m);
        m := m + 1;
      }
    }
  }

  lemma {:induction false} InboundOfConcat(a: seq<Entry>, b: seq<Entry>)
    ensures InboundFrames(a + b) == InboundFrames(a) + InboundFrames(b)
  {
    if |a| == 0 {
      assert a + b == b;
    } else {
      InboundOfConcat(a[1..], b);
      assert (a + b)[1..] == a[1..] + b && (a + b)[0] == a[0];
      var own := if a[0].inbound then [a[0].frame] else [];
      assert own + (InboundFrames(a[1..]) + InboundFrames(b)) == (own + InboundFrames(a[1..])) + InboundFrames(b);
    }
  }

  lemma {:induction false} EndCountOfInbound(config: Config, thread: string, log: seq<Entry>)
    ensures EndCount(Effects(LiveLog(config, thread, log)))
         == EndCount(Effects(FrameResults(config, thread, InboundFrames(log))))
  {
    if |log| > 0 {
      EndCountOfInbound(config, thread, log[1..]);
      LogUnfolds(config, thread, log);
      if log[0].inbound {
        InboundUnfolds(config, thread, log);
      }
    }
  }

  lemma {:induction false} FewerFramesEndFewer(config: Config, thread: string, frames: seq<Json>, m: nat, n: nat)
    requires m <= n <= |frames|
    ensures EndCount(Effects(FrameResults(config, thread, frames[..m])))
         <= EndCount(Effects(FrameResults(config, thread, frames[..n])))
    ensures Handlers(FrameResults(config, thread, frames[..m])) <= Handlers(FrameResults(config, thread, frames[..n]))
  {
    var a, b := FrameResults(config, thread, frames[..m]), FrameResults(config, thread, frames[m..n]);
    assert FrameResults(config, thread, frames[..n]) == a + b;
    assert Effects(a + b) == Effects(a) + Effects(b);
    EndCountOfConcat(Effects(a), Effects(b));
    HandlersOfConcat(a, b);
  }

  /** The live reader has read all that replay walked over, once the turns are over. */
  lemma {:induction false} LiveReadsAsFar(
    config: Config, thread: string, log: seq<Entry>, cursor: nat, turns: nat, m: nat)
    requires cursor <= |log| && m <= |InboundFrames(log)|
    requires turns > 0 ==> cursor > 0
    requires turns > 0 ==> EndCount(Effects(LiveLog(config, thread, log[..cursor - 1]))) < turns
    requires turns == 0 ==> cursor == 0
    requires EndCount(Effects(FrameResults(config, thread, InboundFrames(log)[..m]))) >= turns
    ensures Handlers(LiveLog(config, thread, log[..cursor]))
         <= Handlers(FrameResults(config, thread, InboundFrames(log)[..m]))
  {
    var frames, walked := InboundFrames(log), InboundFrames(log[..cursor]);
    assert log == log[..cursor] + log[cursor..];
    InboundOfConcat(log[..cursor], log[cursor..]);
    OutgoingFramesDoNothing(config, thread, log[..cursor], turns);
    assert frames[..|walked|] == walked;
    if turns == 0 {
      assert walked == [];
    } else {
      var before := InboundFrames(log[..cursor - 1]);
      assert log[..cursor] == log[..cursor - 1] + [log[cursor - 1]];
      InboundOfConcat(log[..cursor - 1], [log[cursor - 1]]);
      assert [log[cursor - 1]][1..] == [];
      assert |walked| <= |before| + 1 && frames[..|before|] == before;
      EndCountOfInbound(config, thread, log[..cursor - 1]);
      if m <= |before| {
        FewerFramesEndFewer(config, thread, frames, m, |before|);
      }
      assert m > |before|;
    }
    FewerFramesEndFewer(config, thread, frames, |walked|, m);
  }

  lemma {:induction false} EndsBeforeLast(config: Config, thread: string, log: seq<Entry>, cursor: nat)
    requires 0 < cursor <= |log| && LiveLog(config, thread, log)[cursor - 1].effect.EndTurn?
    ensures EndCount(Effects(LiveLog(config, thread, log[..cursor])))
         == EndCount(Effects(LiveLog(config, thread, log[..cursor - 1]))) + 1
  {
    var before, one := LiveLog(config, thread, log[..cursor - 1]), LiveLog(config, thread, log)[cursor - 1];
    assert LiveLog(config, thread, log[..cursor]) == before + [one];
    assert Effects(before + [one]) == Effects(before) + [one.effect];
    EndCountOfConcat(Effects(before), [one.effect]);
    assert [one.effect][1..] == [];
  }

  lemma {:induction false} LogPrefix(config: Config, thread: string, log: seq<Entry>, cursor: nat)
    requires cursor <= |log| && LogIsWellFormed(thread, log)
    ensures Between(ParseLog(config, log), 0, cursor) == LiveLog(config, thread, log[..cursor])
  {
    LogsAgree(config, thread, log);
    var live := LiveLog(config, thread, log);
    assert Between(ParseLog(config, log), 0, cursor) == live[..cursor] == LiveLog(config, thread, log[..cursor]);
  }

  lemma {:induction false} StandsInLog(config: Config, thread: string, log: seq<Entry>, turns: nat)
    requires LogIsWellFormed(thread, log)
    requires EndCount(Effects(LiveLog(config, thread, log))) >= turns
    ensures StandsAfter(ParseLog(config, log), 0, ReplayTurns(ParseLog(config, log), 0, turns).cursor, turns)
    ensures Results(ParseLog(config, log)) == LiveLog(config, thread, log)
  {
    LogsAgree(config, thread, log);
    assert log[..|log|] == log;
    LogPrefix(config, thread, log, |log|);
    CursorStands(ParseLog(config, log), 0, turns);
  }

  /** Before the frame behind which the replay cursor stands, fewer turns have ended than were replayed. */
  lemma {:induction false} CursorInLog(config: Config, thread: string, log: seq<Entry>, turns: nat)
    requires LogIsWellFormed(thread, log)
    requires EndCount(Effects(LiveLog(config, thread, log))) >= turns
    ensures var cursor := ReplayTurns(ParseLog(config, log), 0, turns).cursor;
            && (turns == 0 ==> cursor == 0)
            && (turns > 0 ==> cursor > 0 && EndCount(Effects(LiveLog(config, thread, log[..cursor - 1]))) < turns)
  {
    var parsed := ParseLog(config, log);
    var cursor := ReplayTurns(parsed, 0, turns).cursor;
    StandsInLog(config, thread, log, turns);
    LogPrefix(config, thread, log, cursor);
    if turns > 0 {
      assert LiveLog(config, thread, log)[cursor - 1] == Results(parsed)[cursor - 1];
      EndsBeforeLast(config, thread, log, cursor);
    }
  }

  lemma {:induction false} HandlersAreLive(
    config: Config, thread: string, log: seq<Entry>, turns: nat, schedule: seq<Task>)
    requires LogIsWellFormed(thread, log)
    requires EndCount(Effects(LiveLog(config, thread, log))) >= turns
    ensures var cursor := ReplayTurns(ParseLog(config, log), 0, turns).cursor;
            var live := LiveRun(config, thread, InboundFrames(log), turns, schedule);
            live.turnsLeft == 0 ==> Handlers(LiveLog(config, thread, log[..cursor])) <= live.handlers
  {
    CursorInLog(config, thread, log, turns);
    var m := LiveHasRead(config, thread, InboundFrames(log), turns, schedule);
    if LiveRun(config, thread, InboundFrames(log), turns, schedule).turnsLeft == 0 {
      LiveReadsAsFar(config, thread, log, ReplayTurns(ParseLog(config, log), 0, turns).cursor, turns, m);
    }
  }

  /**
   On a well-formed log holding at least `turns` turns, `turns` replayed turns make exactly the sink calls the live
   session makes under any schedule that finishes its turns, and exactly the handler calls of the frames up to the
   cursor, which the live session has made too by then, in the same order and before any others.
   */
  lemma {:induction false} ReplayRefinesLive(
    config: Config, thread: string, log: seq<Entry>, turns: nat, schedule: seq<Task>)
    requires LogIsWellFormed(thread, log)
    requires EndCount(Effects(LiveLog(config, thread, log))) >= turns
    ensures var replayed := ReplayTurns(ParseLog(config, log), 0, turns);
            var live := LiveRun(config, thread, InboundFrames(log), turns, schedule);
            && !replayed.raised
            && (live.turnsLeft == 0 ==> replayed.calls == live.calls && replayed.handlers <= live.handlers)
            && replayed.handlers == Handlers(LiveLog(config, thread, log[..replayed.cursor]))
            && (live.unread == [] && replayed.cursor == |log| ==> replayed.handlers == live.handlers)
  {
    var parsed := ParseLog(config, log);
    LogsAgree(config, thread, log);
    assert Between(parsed, 0, |log|) == LiveLog(config, thread, log);
    TurnsAgree(parsed, 0, turns);
    OutgoingFramesDoNothing(config, thread, log, turns);
    ScheduleKeepsTotals(config, thread, InboundFrames(log), turns, schedule);
    var cursor := ReplayTurns(parsed, 0, turns).cursor;
    LogPrefix(config, thread, log, cursor);
    HandlersAreLive(config, thread, log, turns, schedule);
  }
}
