/**
 The live view over a lossy channel. Frames may be dropped but not reordered; a completed
 frame carries the whole row, so its arrival repairs whatever was lost before it.
 */
module SelfHealing {
  import opened EventSink
  import opened Prelude
  import opened SessionView
  import opened LiveReload

  /** One call, and whether the frame it publishes reaches the browser. */
  datatype Delivery = Delivery(call: Call, arrives: bool)

  /**
   `healed` holds the events that were closed when the page loaded or whose completed frame
   has arrived since, less those whose row changed again with a frame that was lost.
   */
  datatype Lossy = Lossy(sink: SinkState, view: seq<Item>, healed: set<EventId>)

  function HealedAfter(store: Storage, w: Lossy, d: Delivery): set<EventId> {
    if !Effective(store, w.sink, d.call) then w.healed
    else
      match d.call
      case EmitCompleted(id, _, _, _) => if d.arrives then w.healed + {id} else w.healed - {id}
      case EmitPayloadDelta(id, _, _) => if d.arrives then w.healed else w.healed - {id}
      case _ => w.healed
  }

  function LossyStep(store: Storage, w: Lossy, d: Delivery): Lossy {
    var (sink, frame) := Emit(store, w.sink, d.call);
    Lossy(sink, if frame.Some? && d.arrives then Apply(w.view, frame.value) else w.view, HealedAfter(store, w, d))
  }

  /** The page loads at `start`, showing a snapshot of the table, and then follows the channel. */
  function Follow(store: Storage, start: SinkState, snapshot: seq<Item>, ds: seq<Delivery>): Lossy {
    if |ds| == 0 then Lossy(start, snapshot, set id | id in start.rows && start.rows[id].status != Started)
    else LossyStep(store, Follow(store, start, snapshot, ds[..|ds| - 1]), ds[|ds| - 1])
  }

  /** The external id is this event's, and no other event's. */
  predicate OwnsId(rows: map<EventId, Row>, event: EventId, externalId: ExternalId) {
    && externalId.Some?
    && forall id :: id in rows ==> (rows[id].externalId == externalId <==> id == event)
  }

  /** The call uses that id for this event only; what other events call themselves, if anything, does not matter. */
  predicate RespectsId(call: Call, event: EventId, externalId: ExternalId) {
    match call
    case EmitStarted(id, _, named, _) => named == externalId <==> id == event
    case EmitPayloadDelta(id, named, _) => named == externalId <==> id == event
    case EmitCompleted(id, named, _, _) =>
      if id == event then named.None? || named == externalId else named != externalId
    case _ => true
  }

  predicate AllRespectId(ds: seq<Delivery>, event: EventId, externalId: ExternalId) {
    forall i :: 0 <= i < |ds| ==> RespectsId(ds[i].call, event, externalId)
  }

  /** The view holds the event, closed, with exactly the row's kind and payload. */
  predicate ShownExactly(view: seq<Item>, row: Row) {
    && row.externalId.Some?
    && var i := Locate(view, row.externalId);
       && i < |view|
       && view[i].kind == row.kind
       && view[i].payload == row.payload
       && view[i].status != Started
  }

  predicate HealedIsShown(w: Lossy, event: EventId, externalId: ExternalId) {
    && OwnsId(w.sink.rows, event, externalId)
    && (event in w.healed ==> event in w.sink.rows && ShownExactly(w.view, w.sink.rows[event]))
  }

  /** What a frame does to an item it does not name: nothing, unless the item is still streaming. */
  lemma OtherItemsStay(view: seq<Item>, frame: Frame, row: Row)
    requires ShownExactly(view, row)
    requires match frame
             case EventStarted(_, _, _, externalId, _) => externalId != row.externalId
             case EventPayloadDelta(_, externalId, _) => externalId != row.externalId
             case EventCompleted(_, _, externalId, _, _) => externalId != row.externalId
             case _ => true
    ensures ShownExactly(Apply(view, frame), row)
  {
    var i := Locate(view, row.externalId);
    var after := Apply(view, frame);
    assert after[i] == view[i];
    assert forall j :: 0 <= j < i ==> after[j].externalId == view[j].externalId;
    assert Locate(after, row.externalId) == i;
  }

  /** A completed frame that arrives leaves its event shown exactly. */
  lemma CompletedHeals(view: seq<Item>, run: nat, row: Row)
    requires row.externalId.Some?
    ensures ShownExactly(Apply(view, EventCompleted(run, row.kind, row.externalId, row.payload, row.status)), row)
  {
    var i := Locate(view, row.externalId);
    var after := Apply(view, EventCompleted(run, row.kind, row.externalId, row.payload, row.status));
    assert after[i].externalId == row.externalId;
    assert forall j :: 0 <= j < i ==> after[j].externalId != row.externalId;
    assert Locate(after, row.externalId) == i;
  }

  /** A payload frame keeps an exactly shown event exact: it carries the whole new row. */
  lemma PayloadFrameKeepsExact(view: seq<Item>, row: Row, delta: Payload)
    requires ShownExactly(view, row)
    ensures var row' := row.(payload := row.payload + delta);
            ShownExactly(Apply(view, EventPayloadDelta(row.kind, row.externalId, row'.payload)), row')
  {
    var row' := row.(payload := row.payload + delta);
    var i := Locate(view, row.externalId);
    var after := Apply(view, EventPayloadDelta(row.kind, row.externalId, row'.payload));
    assert row.payload + row'.payload == row'.payload;
    assert after[i].externalId == row.externalId;
    assert forall j :: 0 <= j < i ==> after[j].externalId != row.externalId;
    assert Locate(after, row.externalId) == i;
  }

  lemma {:induction false} IdStaysOwned(
    store: Storage, st: SinkState, call: Call, event: EventId, externalId: ExternalId)
    requires OwnsId(st.rows, event, externalId) && RespectsId(call, event, externalId)
    ensures OwnsId(Emit(store, st, call).0.rows, event, externalId)
  {
  }

  lemma {:induction false} HealedStaysShown(
    store: Storage, w: Lossy, d: Delivery, event: EventId, externalId: ExternalId)
    requires HealedIsShown(w, event, externalId) && RespectsId(d.call, event, externalId)
    requires Effective(store, w.sink, d.call) && event in HealedAfter(store, w, d)
    ensures var w' := LossyStep(store, w, d);
            event in w'.sink.rows && ShownExactly(w'.view, w'.sink.rows[event])
  {
    var (sink, frame) := Emit(store, w.sink, d.call);
    match d.call
    case NewRun =>
    case EmitMessageDelta(_) =>
      OtherItemsStay(w.view, frame.value, w.sink.rows[event]);
    case EmitStarted(_, _, _, _) =>
      OtherItemsStay(w.view, frame.value, w.sink.rows[event]);
    case EmitPayloadDelta(target, _, payload) =>
      if target == event {
        PayloadFrameKeepsExact(w.view, w.sink.rows[event], store(payload).value);
      } else {
        OtherItemsStay(w.view, frame.value, w.sink.rows[event]);
      }
    case EmitCompleted(target, _, _, _) =>
      if target == event {
        CompletedHeals(w.view, w.sink.run, sink.rows[event]);
      } else {
        OtherItemsStay(w.view, frame.value, w.sink.rows[event]);
      }
  }

  lemma {:induction false} LossyStepKeepsShown(
    store: Storage, w: Lossy, d: Delivery, event: EventId, externalId: ExternalId)
    requires HealedIsShown(w, event, externalId) && RespectsId(d.call, event, externalId)
    ensures HealedIsShown(LossyStep(store, w, d), event, externalId)
  {
    IdStaysOwned(store, w.sink, d.call, event, externalId);
    if Effective(store, w.sink, d.call) && event in HealedAfter(store, w, d) {
      HealedStaysShown(store, w, d, event, externalId);
    }
  }

  lemma {:induction false} SnapshotShowsClosed(
    rows: map<EventId, Row>, ids: seq<EventId>, event: EventId, externalId: ExternalId)
    requires IsListing(rows, ids) && OwnsId(rows, event, externalId)
    requires event in rows && rows[event].status != Started
    ensures ShownExactly(ReloadItems(rows, ids), rows[event])
  {
    var view := ReloadItems(rows, ids);
    assert event in ids;
    var i :| 0 <= i < |ids| && ids[i] == event;
    assert view[i].externalId == externalId;
    var k := Locate(view, externalId);
    assert ids[k] in ids;
  }

  lemma {:induction false} FollowKeepsShown(
    store: Storage, start: SinkState, ids: seq<EventId>, ds: seq<Delivery>, event: EventId, externalId: ExternalId)
    requires IsListing(start.rows, ids) && OwnsId(start.rows, event, externalId)
    requires AllRespectId(ds, event, externalId)
    ensures HealedIsShown(Follow(store, start, ReloadItems(start.rows, ids), ds), event, externalId)
  {
    var view := ReloadItems(start.rows, ids);
    if |ds| == 0 {
      if event in start.rows && start.rows[event].status != Started {
        SnapshotShowsClosed(start.rows, ids, event, externalId);
      }
    } else {
      var n := |ds| - 1;
      FollowKeepsShown(store, start, ids, ds[..n], event, externalId);
      LossyStepKeepsShown(store, Follow(store, start, view, ds[..n]), ds[n], event, externalId);
    }
  }

  // ---------- When an event counts as told ----------

  /** Call `i` changes the event's row: it reaches the table, and completes the event or merges into its payload. */
  predicate ChangesAt(
    store: Storage, start: SinkState, snapshot: seq<Item>, ds: seq<Delivery>, event: EventId, i: nat)
  {
    && i < |ds| && Effective(store, Follow(store, start, snapshot, ds[..i]).sink, ds[i].call)
    && match ds[i].call
       case EmitCompleted(id, _, _, _) => id == event
       case EmitPayloadDelta(id, _, _) => id == event
       case _ => false
  }

  /** A completed frame of the event arrives. */
  predicate TellsAt(store: Storage, start: SinkState, snapshot: seq<Item>, ds: seq<Delivery>, event: EventId, i: nat) {
    ChangesAt(store, start, snapshot, ds, event, i) && ds[i].call.EmitCompleted? && ds[i].arrives
  }

  /** A change of the event's row goes untold. */
  predicate MissesAt(store: Storage, start: SinkState, snapshot: seq<Item>, ds: seq<Delivery>, event: EventId, i: nat) {
    ChangesAt(store, start, snapshot, ds, event, i) && !ds[i].arrives
  }

  ghost predicate MissesNothingFrom(
    store: Storage, start: SinkState, snapshot: seq<Item>, ds: seq<Delivery>, event: EventId, n: nat)
  {
    forall i: nat :: n <= i ==> !MissesAt(store, start, snapshot, ds, event, i)
  }

  /** The page was told of the event as it is: at the reload, closed, or by its completed frame, and of all since. */
  ghost predicate IsTold(store: Storage, start: SinkState, snapshot: seq<Item>, ds: seq<Delivery>, event: EventId) {
    || (event in start.rows && start.rows[event].status != Started
        && MissesNothingFrom(store, start, snapshot, ds, event, 0))
    || exists i: nat :: TellsAt(store, start, snapshot, ds, event, i)
                        && MissesNothingFrom(store, start, snapshot, ds, event, i)
  }

  predicate HealedAt(
    store: Storage, start: SinkState, snapshot: seq<Item>, ds: seq<Delivery>, event: EventId, k: nat)
  {
    event in Follow(store, start, snapshot, if k < |ds| then ds[..k] else ds).healed
  }

  lemma {:induction false} HealedNext(
    store: Storage, start: SinkState, snapshot: seq<Item>, ds: seq<Delivery>, event: EventId, k: nat)
    requires k < |ds|
    ensures HealedAt(store, start, snapshot, ds, event, k + 1)
       <==> TellsAt(store, start, snapshot, ds, event, k)
            || (HealedAt(store, start, snapshot, ds, event, k) && !MissesAt(store, start, snapshot, ds, event, k))
  {
    var upto := if k + 1 < |ds| then ds[..k + 1] else ds;
    assert |upto| == k + 1 && upto[..k] == ds[..k] && upto[k] == ds[k];
  }

  /** The healed events are exactly those the page was told of. */
  lemma {:induction false} HealedAreTold(
    store: Storage, start: SinkState, snapshot: seq<Item>, ds: seq<Delivery>, event: EventId)
    ensures event in Follow(store, start, snapshot, ds).healed <==> IsTold(store, start, snapshot, ds, event)
  {
    var on := (k: nat) => TellsAt(store, start, snapshot, ds, event, k);
    var off := (k: nat) => MissesAt(store, start, snapshot, ds, event, k);
    var isOn := (k: nat) => HealedAt(store, start, snapshot, ds, event, k);
    forall k | 0 <= k < |ds|
      ensures isOn(k + 1) <==> on(k) || (isOn(k) && !off(k))
    {
      HealedNext(store, start, snapshot, ds, event, k);
    }
    SwitchIsOnSince(on, off, isOn, |ds|);
    assert |ds| > 0 ==> ds[..0] == [];
    forall i: nat
      ensures OnSince(on, off, |ds|, i)
         <==> TellsAt(store, start, snapshot, ds, event, i) && MissesNothingFrom(store, start, snapshot, ds, event, i)
    {
      assert forall j: nat :: off(j) == MissesAt(store, start, snapshot, ds, event, j);
    }
    assert forall j: nat :: off(j) == MissesAt(store, start, snapshot, ds, event, j);
  }

  /**
   From a reload at any point, whatever frames are dropped afterwards: an event that was closed at the reload or
   whose completed frame arrived, and whose later changes were announced by frames that arrived, is shown with exactly
   the row's kind and payload, as long as it has an external id of its own.
   */
  lemma {:induction false} ViewHeals(
    store: Storage, start: SinkState, ids: seq<EventId>, ds: seq<Delivery>, event: EventId, externalId: ExternalId)
    requires IsListing(start.rows, ids) && OwnsId(start.rows, event, externalId)
    requires AllRespectId(ds, event, externalId)
    requires IsTold(store, start, ReloadItems(start.rows, ids), ds, event)
    ensures var w := Follow(store, start, ReloadItems(start.rows, ids), ds);
            event in w.sink.rows && ShownExactly(w.view, w.sink.rows[event])
  {
    FollowKeepsShown(store, start, ids, ds, event, externalId);
    HealedAreTold(store, start, ReloadItems(start.rows, ids), ds, event);
  }
}
