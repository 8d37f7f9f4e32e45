/** The JSON-RPC client: how one reader task hands inbound frames to waiting requests. */
module JsonRpc {
  import opened Prelude
  import opened Numerals
  import opened Text
  import opened Json

  type RequestId = int

  /** A request's future. It can be cancelled by whoever awaits it. */
  datatype Future = Waiting | Resolved(message: Json) | Failed | Cancelled

  /**
   `pending` are the keys of the pending table; `futures` every future ever made.
   `inbound`, `notifications` and `serverRequests` record all frames the reader took in,
   everything it queued and everything it passed to the server-request handler.
   */
  datatype Client = Client(
    open: bool, reading: bool, nextId: RequestId, pending: set<RequestId>, futures: map<RequestId, Future>,
    inbound: seq<Json>, notifications: seq<Json>, serverRequests: seq<Json>)

  function Connected(): Client {
    Client(true, true, 1, {}, map[], [], [], [])
  }

  /** The integer a JSON value equals as a Python dictionary key, if any: `1`, `1.0` and `true` agree. */
  function AsKey(id: Json): Option<RequestId> {
    match id
    case JInt(n) => Some(n)
    case JBool(b) => Some(if b then 1 else 0)
    case JFloat(l) =>
      if |l| >= 3 && l[|l| - 2..] == ".0" && AllDigits(l[..|l| - 2]) then Some(DigitsValue(l[..|l| - 2])) else None
    case _ => None
  }

  predicate IsServerRequest(message: Json) {
    message.JObj? && Get(message, "id") != JNull && Has(message, "method")
  }

  predicate IsNotification(message: Json) {
    message.JObj? && Get(message, "id") == JNull && Has(message, "method")
  }

  /** The JSON value that Python holds equal to the request id: `1`, `1.0` and `true` name the same request. */
  predicate Names(v: Json, id: RequestId) {
    || v == JInt(id)
    || (v == JBool(false) && id == 0) || (v == JBool(true) && id == 1)
    || (v.JFloat? && id >= 0 && v.lexeme == Decimal(id) + ".0")
  }

  /** A response bearing the request's id. */
  predicate Answers(message: Json, id: RequestId) {
    message.JObj? && !Has(message, "method") && Names(Get(message, "id"), id)
  }

  /** An id that cannot be looked up in a dictionary: the reader dies on it. */
  predicate IsUnhashable(message: Json) {
    message.JObj? && !Has(message, "method") && (Get(message, "id").JArr? || Get(message, "id").JObj?)
  }

  datatype Action =
    | Request
    | Frame(message: Json)
    | BadFrame
    | CancelRequest(id: RequestId)
    | ReaderEnds
    | Close

  /** Fail every pending future that is not done, and forget them all. */
  function FailAll(c: Client): Client {
    c.(pending := {},
       futures := map id | id in c.futures ::
         if id in c.pending && c.futures[id].Waiting? then Failed else c.futures[id])
  }

  function Receive(c: Client, message: Json): Client {
    var seen := c.(inbound := c.inbound + [message]);
    if !message.JObj? then seen
    else if IsServerRequest(message) then seen.(serverRequests := c.serverRequests + [message])
    else if IsUnhashable(message) then FailAll(seen).(reading := false)
    else
      var key := AsKey(Get(message, "id"));
      if key.Some? && key.value in c.pending then
        seen.(pending := c.pending - {key.value},
              futures := if key.value in c.futures && c.futures[key.value].Waiting?
                         then c.futures[key.value := Resolved(message)] else c.futures)
      else if Has(message, "method") then seen.(notifications := c.notifications + [message])
      else seen
  }

  function Next(c: Client, action: Action): Client {
    match action
    case Request =>
      if !c.open then c
      else c.(nextId := c.nextId + 1, pending := c.pending + {c.nextId}, futures := c.futures[c.nextId := Waiting])
    case Frame(message) => if c.reading then Receive(c, message) else c
    case BadFrame => c
    case CancelRequest(id) =>
      if id in c.futures && c.futures[id].Waiting? then c.(futures := c.futures[id := Cancelled]) else c
    case ReaderEnds => if c.reading then FailAll(c).(reading := false) else c
    case Close => FailAll(c).(open := false, reading := false)
  }

  function Run(actions: seq<Action>): Client {
    if |actions| == 0 then Connected() else Next(Run(actions[..|actions| - 1]), actions[|actions| - 1])
  }

  // ---------- The dictionary key is the request named ----------

  lemma {:induction false} DottedNumeral(n: nat)
    ensures var s := Decimal(n) + ".0";
            |s| >= 3 && s[|s| - 2..] == ".0" && s[..|s| - 2] == Decimal(n)
            && AllDigits(Decimal(n)) && DigitsValue(Decimal(n)) == n
  {
    DecimalIsDigits(n);
    ValueOfDecimal(n);
  }

  lemma {:induction false} NoZeroFirst(l: FloatLexeme)
    requires |l| > 1 && l[0] == '0'
    ensures !IsDigit(l[1])
  {
    assert NumberEnd(l) == |l|;
  }

  lemma {:induction false} DottedFloat(l: FloatLexeme)
    requires |l| >= 3 && l[|l| - 2..] == ".0" && AllDigits(l[..|l| - 2])
    ensures l == Decimal(DigitsValue(l[..|l| - 2])) + ".0"
  {
    var digits := l[..|l| - 2];
    assert l == digits + ".0" && l[0] == digits[0];
    if l[0] == '0' {
      NoZeroFirst(l);
    }
    assert |digits| > 1 ==> l[1] == digits[1];
    DecimalOfValue(digits);
  }

  /** An id is looked up as exactly the request it names. */
  lemma {:induction false} KeyExactly(v: Json, id: RequestId)
    ensures AsKey(v) == Some(id) <==> Names(v, id)
  {
    if v.JFloat? {
      if id >= 0 {
        DottedNumeral(id);
      }
      if AsKey(v).Some? {
        DottedFloat(v.lexeme);
      }
    }
  }

  // ---------- The client object ----------

  class JsonRpcWebSocketClient {
    var open: bool
    var reading: bool
    var nextId: RequestId
    var pending: set<RequestId>
    var futures: map<RequestId, Future>
    var notifications: seq<Json>
    var serverRequests: seq<Json>
    ghost var inbound: seq<Json>

    constructor ()
      ensures Valid() && State() == Connected()
    {
      open, reading, nextId, pending, futures := true, true, 1, {}, map[];
      notifications, serverRequests, inbound := [], [], [];
    }

    ghost predicate Valid()
      reads this
    {
      nextId >= 1 && forall id :: id in pending ==> 1 <= id < nextId
    }

    ghost function State(): Client
      reads this
    {
      Client(open, reading, nextId, pending, futures, inbound, notifications, serverRequests)
    }

    /** `sent` is false when the socket is gone and the request raises at once. */
    method StartRequest() returns (id: RequestId, sent: bool)
      requires Valid()
      modifies this
      ensures Valid() && State() == Next(old(State()), Request)
      ensures id == old(nextId) && sent == old(open)
    {
      id := nextId;
      if !open {
        return id, false;
      }
      nextId := nextId + 1;
      futures := futures[id := Waiting];
      pending := pending + {id};
      sent := true;
    }

    method Dispatch(message: Json)
      requires reading
      requires Valid()
      modifies this
      ensures Valid() && State() == Next(old(State()), Frame(message))
    {
      inbound := inbound + [message];
      if !message.JObj? {
        return;
      }
      var mid := Get(message, "id");
      if mid != JNull && Has(message, "method") {
        serverRequests := serverRequests + [message];
        return;
      }
      if mid.JArr? || mid.JObj? {
        FailPending();
        reading := false;
        return;
      }
      var key := AsKey(mid);
      if key.Some? && key.value in pending {
        pending := pending - {key.value};
        if key.value in futures && futures[key.value].Waiting? {
          futures := futures[key.value := Resolved(message)];
        }
        return;
      }
      if Has(message, "method") {
        notifications := notifications + [message];
      }
    }

    /** Pending ids were issued in ascending order, which is the order the table is walked in. */
    method FailPending()
      requires Valid()
      modifies this`futures, this`pending
      ensures Valid() && State() == FailAll(old(State()))
    {
      for id := 1 to nextId
        invariant pending == old(pending) && futures.Keys == old(futures).Keys
        invariant forall k :: k in futures ==>
                    futures[k] == if k in pending && k < id && old(futures)[k].Waiting? then Failed else old(futures)[k]
      {
        if id in pending && id in futures && futures[id].Waiting? {
          futures := futures[id := Failed];
        }
      }
      pending := {};
      assert futures == FailAll(old(State())).futures;
    }

    /** The reader's `finally` clause. */
    method EndReader()
      requires reading
      requires Valid()
      modifies this
      ensures Valid() && State() == Next(old(State()), ReaderEnds)
    {
      FailPending();
      reading := false;
    }

    method CloseClient()
      requires Valid()
      modifies this
      ensures Valid() && State() == Next(old(State()), Close)
    {
      if reading {
        EndReader();
      }
      open := false;
      FailPending();
    }
  }

  // ---------- Invariant over every interleaving ----------

  function Notifications(frames: seq<Json>): seq<Json> {
    if |frames| == 0 then []
    else
      var last := frames[|frames| - 1];
      Notifications(frames[..|frames| - 1]) + (if IsNotification(last) then [last] else [])
  }

  function ServerRequests(frames: seq<Json>): seq<Json> {
    if |frames| == 0 then []
    else
      var last := frames[|frames| - 1];
      ServerRequests(frames[..|frames| - 1]) + (if IsServerRequest(last) then [last] else [])
  }

  predicate PendingIsConsistent(c: Client) {
    && c.pending <= c.futures.Keys
    && (forall id :: id in c.futures ==> id < c.nextId)
    && (forall id :: id in c.futures && c.futures[id].Waiting? ==> id in c.pending)
    && (forall id :: id in c.pending ==> c.futures[id].Waiting? || c.futures[id].Cancelled?)
  }

  predicate ResolutionsAreOwn(c: Client) {
    forall id :: id in c.futures && c.futures[id].Resolved? ==>
      Answers(c.futures[id].message, id) && c.futures[id].message in c.inbound
  }

  predicate Sorted(c: Client) {
    c.notifications == Notifications(c.inbound) && c.serverRequests == ServerRequests(c.inbound)
  }

  lemma StepKeepsPending(c: Client, action: Action)
    requires PendingIsConsistent(c)
    ensures PendingIsConsistent(Next(c, action))
  {
  }

  lemma {:induction false} FrameKeepsOwn(c: Client, message: Json)
    requires ResolutionsAreOwn(c)
    ensures ResolutionsAreOwn(Receive(c, message))
  {
    var next := Receive(c, message);
    assert next.inbound == c.inbound + [message];
    assert message in next.inbound && forall m :: m in c.inbound ==> m in next.inbound;
    forall id | id in next.futures && next.futures[id].Resolved?
      ensures Answers(next.futures[id].message, id) && next.futures[id].message in next.inbound
    {
      KeyExactly(Get(message, "id"), id);
    }
  }

  lemma {:induction false} StepKeepsOwn(c: Client, action: Action)
    requires ResolutionsAreOwn(c)
    ensures ResolutionsAreOwn(Next(c, action))
  {
    if action.Frame? {
      FrameKeepsOwn(c, action.message);
    }
  }

  lemma OneMoreFrame(frames: seq<Json>, message: Json)
    ensures Notifications(frames + [message])
         == Notifications(frames) + if IsNotification(message) then [message] else []
    ensures ServerRequests(frames + [message])
         == ServerRequests(frames) + if IsServerRequest(message) then [message] else []
  {
    assert (frames + [message])[..|frames|] == frames;
  }

  /** The three ways a frame can go, seen from outside. */
  lemma ReceiveSorts(c: Client, message: Json)
    ensures Receive(c, message).inbound == c.inbound + [message]
    ensures AsKey(JNull).None?
    ensures Receive(c, message).notifications == c.notifications + if IsNotification(message) then [message] else []
    ensures Receive(c, message).serverRequests == c.serverRequests + if IsServerRequest(message) then [message] else []
  {
  }

  lemma StepKeepsSorted(c: Client, action: Action)
    requires Sorted(c)
    ensures Sorted(Next(c, action))
  {
    if action.Frame? && c.reading {
      OneMoreFrame(c.inbound, action.message);
      ReceiveSorts(c, action.message);
    }
  }

  /** In every reachable state: frames are sorted without loss, and answers reach only their own request. */
  lemma {:induction false} Demultiplexing(actions: seq<Action>)
    ensures var c := Run(actions);
            PendingIsConsistent(c) && ResolutionsAreOwn(c) && Sorted(c) && (!c.open ==> !c.reading)
  {
    if |actions| > 0 {
      var c, action := Run(actions[..|actions| - 1]), actions[|actions| - 1];
      Demultiplexing(actions[..|actions| - 1]);
      StepKeepsPending(c, action);
      StepKeepsOwn(c, action);
      StepKeepsSorted(c, action);
    }
  }

  lemma DoneStays(c: Client, action: Action, id: RequestId)
    requires PendingIsConsistent(c) && id in c.futures && !c.futures[id].Waiting?
    ensures id in Next(c, action).futures && Next(c, action).futures[id] == c.futures[id]
  {
  }

  /** A future that is done stays as it is: it completes at most once. */
  lemma {:induction false} DoneIsFinal(actions: seq<Action>, more: seq<Action>, id: RequestId)
    requires id in Run(actions).futures && !Run(actions).futures[id].Waiting?
    ensures id in Run(actions + more).futures
    ensures Run(actions + more).futures[id] == Run(actions).futures[id]
  {
    if |more| == 0 {
      assert actions + more == actions;
    } else {
      var before := actions + more[..|more| - 1];
      DoneIsFinal(actions, more[..|more| - 1], id);
      assert (actions + more)[..|actions + more| - 1] == before;
      Demultiplexing(before);
      DoneStays(Run(before), more[|more| - 1], id);
    }
  }

  /** When the reader ends or the client closes, nothing is left waiting, and nothing can be resolved later. */
  lemma NothingWaitsAfterTheEnd(actions: seq<Action>, last: Action)
    requires last == ReaderEnds || last == Close
    ensures var before, after := Run(actions), Run(actions + [last]);
            && (before.reading || last == Close ==> after.pending == {})
            && (before.reading || last == Close ==>
                  forall id :: id in before.futures ==>
                    id in after.futures
                    && after.futures[id] == if before.futures[id].Waiting? then Failed else before.futures[id])
            && !after.reading
  {
    assert (actions + [last])[..|actions|] == actions;
    Demultiplexing(actions);
  }

  /** The reader and the connection live exactly until something ends them; a frame does so only by an id of a kind. */
  lemma {:induction false} ClientLives(actions: seq<Action>, last: Action)
    ensures Run([]).open && Run([]).reading
    ensures var before, after := Run(actions), Run(actions + [last]);
            && (after.open <==> before.open && last != Close)
            && (after.reading <==>
                  && before.reading && last != Close && last != ReaderEnds
                  && (last.Frame? && last.message.JObj? && !Has(last.message, "method") ==>
                        !Get(last.message, "id").JArr? && !Get(last.message, "id").JObj?))
  {
    assert (actions + [last])[..|actions|] == actions;
  }

  /** Requests are numbered 1, 2, 3 and so on, as long as the connection is open, and each waits from then on. */
  lemma {:induction false} RequestsAreNumbered(actions: seq<Action>)
    ensures var c, next := Run(actions), Run(actions + [Request]);
            && c.nextId >= 1 && (forall id :: id in c.futures <==> 1 <= id < c.nextId)
            && (if c.open then
                  && next.nextId == c.nextId + 1 && next.pending == c.pending + {c.nextId}
                  && next.futures == c.futures[c.nextId := Waiting]
                else next == c)
  {
    assert (actions + [Request])[..|actions|] == actions;
    if |actions| > 0 {
      RequestsAreNumbered(actions[..|actions| - 1]);
      NumberedNext(Run(actions[..|actions| - 1]), actions[|actions| - 1]);
    }
  }

  lemma {:induction false} NumberedNext(c: Client, action: Action)
    requires c.nextId >= 1 && forall id :: id in c.futures <==> 1 <= id < c.nextId
    ensures var next := Next(c, action);
            next.nextId >= 1 && forall id :: id in next.futures <==> 1 <= id < next.nextId
  {
  }

  /** Cancelling a request that waits marks its future, and that alone; its answer is then passed over. */
  lemma {:induction false} CancelledRequestsStayCancelled(actions: seq<Action>, id: RequestId, message: Json)
    requires id in Run(actions).futures && Run(actions).futures[id].Waiting? && Answers(message, id)
    ensures var c, cancelled := Run(actions), Next(Run(actions), CancelRequest(id));
            && cancelled == c.(futures := c.futures[id := Cancelled])
            && (c.reading ==> Next(cancelled, Frame(message)).futures == cancelled.futures)
  {
    Demultiplexing(actions);
    KeyExactly(Get(message, "id"), id);
  }

  /** A server request leaves every future alone, whatever its id collides with. */
  lemma ServerRequestResolvesNothing(c: Client, message: Json)
    requires IsServerRequest(message)
    ensures Next(c, Frame(message)).futures == c.futures && Next(c, Frame(message)).pending == c.pending
  {
  }

  /** Exactly what a frame makes of a waiting request. */
  lemma ExactlyItsAnswerResolves(actions: seq<Action>, message: Json, id: RequestId)
    requires id in Run(actions).futures && Run(actions).futures[id].Waiting? && Run(actions).reading
    ensures id in Next(Run(actions), Frame(message)).futures
    ensures Next(Run(actions), Frame(message)).futures[id]
         == if Answers(message, id) then Resolved(message) else if IsUnhashable(message) then Failed else Waiting
  {
    Demultiplexing(actions);
    KeyExactly(Get(message, "id"), id);
  }

  /** A response names at most one request. */
  lemma {:induction false} NamesOne(v: Json, a: RequestId, b: RequestId)
    requires Names(v, a) && Names(v, b)
    ensures a == b
  {
    KeyExactly(v, a);
    KeyExactly(v, b);
  }

  // ---------- When a request returns ----------

  predicate IsWaiting(c: Client, id: RequestId) {
    id in c.futures && c.futures[id].Waiting?
  }

  /** Its awaiting call returns the response or raises. A cancelled one does neither: its caller is going away. */
  predicate IsSettled(c: Client, id: RequestId) {
    id in c.futures && (c.futures[id].Resolved? || c.futures[id].Failed?)
  }

  /** What settles a waiting request: its answer, and every way the reader or the connection can end. */
  predicate Settles(c: Client, action: Action, id: RequestId) {
    match action
    case Frame(message) => c.reading && (Answers(message, id) || IsUnhashable(message))
    case ReaderEnds => c.reading
    case Close => true
    case _ => false
  }

  predicate SettlesAt(actions: seq<Action>, more: seq<Action>, id: RequestId, k: nat) {
    && k < |more| && IsWaiting(Run(actions + more[..k]), id)
    && Settles(Run(actions + more[..k]), more[k], id)
  }

  lemma {:induction false} StepSettles(c: Client, action: Action, id: RequestId)
    requires PendingIsConsistent(c) && id in c.futures
    ensures IsSettled(Next(c, action), id) <==> IsSettled(c, id) || (IsWaiting(c, id) && Settles(c, action, id))
  {
    if !IsWaiting(c, id) {
      DoneStays(c, action, id);
    } else if action.Frame? {
      KeyExactly(Get(action.message, "id"), id);
    }
  }

  lemma {:induction false} StepKeepsFutures(c: Client, action: Action)
    ensures c.futures.Keys <= Next(c, action).futures.Keys
  {
  }

  lemma {:induction false} RunsOn(actions: seq<Action>, more: seq<Action>)
    requires |more| > 0
    ensures Run(actions + more) == Next(Run(actions + more[..|more| - 1]), more[|more| - 1])
  {
    assert (actions + more)[..|actions + more| - 1] == actions + more[..|more| - 1];
  }

  lemma {:induction false} FuturesStay(actions: seq<Action>, more: seq<Action>, id: RequestId)
    requires id in Run(actions).futures
    ensures id in Run(actions + more).futures
  {
    if |more| == 0 {
      assert actions + more == actions;
    } else {
      FuturesStay(actions, more[..|more| - 1], id);
      RunsOn(actions, more);
      StepKeepsFutures(Run(actions + more[..|more| - 1]), more[|more| - 1]);
    }
  }

  lemma {:induction false} SettlesInPrefix(actions: seq<Action>, more: seq<Action>, id: RequestId, k: nat)
    requires |more| > 0
    ensures SettlesAt(actions, more, id, k) <==>
            SettlesAt(actions, more[..|more| - 1], id, k) || (k == |more| - 1 && SettlesLast(actions, more, id))
  {
    if k < |more| - 1 {
      assert more[..|more| - 1][..k] == more[..k];
    }
  }

  predicate SettlesLast(actions: seq<Action>, more: seq<Action>, id: RequestId)
    requires |more| > 0
  {
    var c := Run(actions + more[..|more| - 1]);
    IsWaiting(c, id) && Settles(c, more[|more| - 1], id)
  }

  lemma {:induction false} LastSettles(actions: seq<Action>, more: seq<Action>, id: RequestId)
    requires |more| > 0 && id in Run(actions).futures
    ensures IsSettled(Run(actions + more), id) <==>
            IsSettled(Run(actions + more[..|more| - 1]), id) || SettlesLast(actions, more, id)
  {
    var before := actions + more[..|more| - 1];
    assert actions + more == before + [more[|more| - 1]];
    assert (before + [more[|more| - 1]])[..|before|] == before;
    FuturesStay(actions, more[..|more| - 1], id);
    Demultiplexing(before);
    StepSettles(Run(before), more[|more| - 1], id);
  }

  ghost predicate SettlesSometime(actions: seq<Action>, more: seq<Action>, id: RequestId) {
    exists k: nat :: SettlesAt(actions, more, id, k)
  }

  lemma {:induction false} SometimeIsBeforeOrLast(actions: seq<Action>, more: seq<Action>, id: RequestId)
    requires |more| > 0
    ensures SettlesSometime(actions, more, id) <==>
            SettlesSometime(actions, more[..|more| - 1], id) || SettlesLast(actions, more, id)
  {
    SettlesInPrefix(actions, more, id, |more| - 1);
    if SettlesSometime(actions, more, id) {
      var k: nat :| SettlesAt(actions, more, id, k);
      SettlesInPrefix(actions, more, id, k);
    }
    if SettlesSometime(actions, more[..|more| - 1], id) {
      var k: nat :| SettlesAt(actions, more[..|more| - 1], id, k);
      SettlesInPrefix(actions, more, id, k);
    }
  }

  /** A request that waits returns if and only if one of those happens while it waits. */
  lemma {:induction false} SettledExactly(actions: seq<Action>, more: seq<Action>, id: RequestId)
    requires IsWaiting(Run(actions), id)
    ensures IsSettled(Run(actions + more), id) <==> SettlesSometime(actions, more, id)
  {
    if |more| == 0 {
      assert actions + more == actions;
    } else {
      SettledExactly(actions, more[..|more| - 1], id);
      LastSettles(actions, more, id);
      SometimeIsBeforeOrLast(actions, more, id);
    }
  }
}
