/**
 The live chat view against a page reload.

 The live view folds every published frame, in order, as it is published. A reload reads
 the event rows back, run by run and by sequence within a run.
 */
module LiveReload {
  import opened Prelude
  import opened Json
  import opened EventSink
  import opened SessionView

  // ---------- Reload ----------

  predicate Before(a: Row, b: Row) {
    a.run < b.run || (a.run == b.run && a.sequence < b.sequence)
  }

  /** What `ORDER BY sequence` returns for one run. */
  ghost predicate IsRunListing(rows: map<EventId, Row>, run: nat, ids: seq<EventId>) {
    && (forall id :: id in ids <==> id in rows && rows[id].run == run)
    && (forall i, j :: 0 <= i < j < |ids| ==> rows[ids[i]].sequence < rows[ids[j]].sequence)
  }

  /** All rows of the session, by run and then by sequence. */
  ghost predicate IsListing(rows: map<EventId, Row>, ids: seq<EventId>) {
    && (forall id :: id in ids <==> id in rows)
    && (forall i, j :: 0 <= i < j < |ids| ==> Before(rows[ids[i]], rows[ids[j]]))
  }

  /** `runs.flatMap(r => r.events)`. */
  function Flatten(perRun: seq<seq<EventId>>): seq<EventId> {
    if |perRun| == 0 then [] else Flatten(perRun[..|perRun| - 1]) + perRun[|perRun| - 1]
  }

  function FromRow(row: Row): Item {
    Item(row.run, row.sequence, row.externalId, row.kind, row.status, row.payload)
  }

  function ReloadItems(rows: map<EventId, Row>, ids: seq<EventId>): seq<Item>
    requires forall id :: id in ids ==> id in rows
  {
    seq(|ids|, i requires 0 <= i < |ids| => FromRow(rows[ids[i]]))
  }

  /** The detail route collects each run's events in run order; the page concatenates them. */
  method LoadSession(rows: map<EventId, Row>, perRun: seq<seq<EventId>>) returns (items: seq<Item>)
    requires forall r, id :: 0 <= r < |perRun| && id in perRun[r] ==> id in rows
    ensures forall id :: id in Flatten(perRun) ==> id in rows
    ensures items == ReloadItems(rows, Flatten(perRun))
  {
    items := [];
    assert perRun[..|perRun|] == perRun;
    for r := 0 to |perRun|
      invariant forall id :: id in Flatten(perRun[..r]) ==> id in rows
      invariant items == ReloadItems(rows, Flatten(perRun[..r]))
    {
      assert perRun[..r + 1][..r] == perRun[..r];
      items := items + ReloadItems(rows, perRun[r]);
    }
  }

  /** The rows of the runs up to the given one. */
  function UpToRun(rows: map<EventId, Row>, run: nat): map<EventId, Row> {
    map id | id in rows && rows[id].run <= run :: rows[id]
  }

  /** Flattening the per-run listings lists the whole session. */
  lemma {:induction false} FlattenIsListing(rows: map<EventId, Row>, perRun: seq<seq<EventId>>)
    requires forall id :: id in rows ==> rows[id].run >= 1
    requires forall r :: 0 <= r < |perRun| ==> IsRunListing(rows, r + 1, perRun[r])
    ensures IsListing(UpToRun(rows, |perRun|), Flatten(perRun))
  {
    if |perRun| > 0 {
      var n := |perRun| - 1;
      FlattenIsListing(rows, perRun[..n]);
      AppendRun(rows, n, Flatten(perRun[..n]), perRun[n]);
    }
  }

  lemma AppendRun(rows: map<EventId, Row>, run: nat, front: seq<EventId>, last: seq<EventId>)
    requires IsListing(UpToRun(rows, run), front) && IsRunListing(rows, run + 1, last)
    ensures IsListing(UpToRun(rows, run + 1), front + last)
  {
    var all := UpToRun(rows, run + 1);
    var ids := front + last;
    assert forall id :: id in ids <==> id in front || id in last;
    assert forall id :: id in front ==> id in rows && rows[id].run <= run && id in all && all[id] == rows[id];
    assert forall id :: id in last ==> id in rows && rows[id].run == run + 1 && id in all && all[id] == rows[id];
    forall i, j | 0 <= i < j < |ids|
      ensures Before(all[ids[i]], all[ids[j]])
    {
      assert ids[i] == if i < |front| then front[i] else last[i - |front|];
      assert ids[j] == if j < |front| then front[j] else last[j - |front|];
      assert i < |front| ==> ids[i] in front;
      assert j >= |front| ==> ids[j] in last;
    }
  }

  lemma ListingIsDistinct(rows: map<EventId, Row>, ids: seq<EventId>)
    requires IsListing(rows, ids)
    ensures forall i, j :: 0 <= i < |ids| && 0 <= j < |ids| && i != j ==> ids[i] != ids[j]
  {
    forall i, j | 0 <= i < j < |ids|
      ensures ids[i] != ids[j]
    {
      assert Before(rows[ids[i]], rows[ids[j]]);
    }
  }

  ghost predicate IsLatest(rows: map<EventId, Row>, id: EventId) {
    id in rows && forall x :: x in rows && x != id ==> Before(rows[x], rows[id])
  }

  lemma LastIsLatest(rows: map<EventId, Row>, ids: seq<EventId>)
    requires IsListing(rows, ids)
    ensures if ids == [] then rows.Keys == {} else IsLatest(rows, ids[|ids| - 1])
  {
    if ids == [] {
      assert forall id :: id in rows ==> id in ids;
    } else {
      assert ids[|ids| - 1] in ids;
      forall x | x in rows && x != ids[|ids| - 1]
        ensures Before(rows[x], rows[ids[|ids| - 1]])
      {
        assert x in ids;
        var i :| 0 <= i < |ids| && ids[i] == x;
      }
    }
  }

  /** A table has one listing: `ORDER BY` over distinct keys is deterministic. */
  lemma {:induction false} ListingIsUnique(rows: map<EventId, Row>, a: seq<EventId>, b: seq<EventId>)
    requires IsListing(rows, a) && IsListing(rows, b)
    ensures a == b
  {
    LastIsLatest(rows, a);
    LastIsLatest(rows, b);
    if a != [] && b != [] {
      var last := a[|a| - 1];
      assert b[|b| - 1] == last;
      DropLast(rows, a);
      DropLast(rows, b);
      ListingIsUnique(rows - {last}, a[..|a| - 1], b[..|b| - 1]);
      assert a == a[..|a| - 1] + [last] && b == b[..|b| - 1] + [last];
    }
  }

  lemma DropLast(rows: map<EventId, Row>, ids: seq<EventId>)
    requires IsListing(rows, ids) && ids != []
    ensures IsListing(rows - {ids[|ids| - 1]}, ids[..|ids| - 1])
  {
    var last := |ids| - 1;
    ListingIsDistinct(rows, ids);
    assert ids == ids[..last] + [ids[last]];
  }

  lemma StartedListing(rows: map<EventId, Row>, ids: seq<EventId>, rows': map<EventId, Row>, id: EventId)
    requires IsListing(rows, ids) && id !in rows && id in rows' && rows' == rows[id := rows'[id]]
    requires forall x :: x in rows ==> Before(rows[x], rows'[id])
    ensures IsListing(rows', ids + [id])
  {
    var ids' := ids + [id];
    assert forall x :: x in ids' <==> x in ids || x == id;
    assert forall i :: 0 <= i < |ids| ==> ids[i] in rows && ids[i] != id;
  }

  lemma CompletedListing(rows: map<EventId, Row>, ids: seq<EventId>, rows': map<EventId, Row>, id: EventId)
    requires IsListing(rows, ids) && id in rows && id in rows' && rows' == rows[id := rows'[id]]
    requires rows'[id].run == rows[id].run && rows'[id].sequence == rows[id].sequence
    ensures IsListing(rows', ids)
  {
    assert forall i :: 0 <= i < |ids| ==> ids[i] in ids;
  }

  // ---------- The session as seen by both sides ----------

  /** `raw` remembers the payload each event was started with; `view` is the browser's list. */
  datatype World = World(sink: SinkState, raw: map<EventId, Payload>, view: seq<Item>)

  const INITIAL := World(SinkState(map[], 0, 0), map[], [])

  function Step(store: Storage, w: World, call: Call): World {
    var (sink, frame) := Emit(store, w.sink, call);
    World(
      sink,
      if call.EmitStarted? && Effective(store, w.sink, call) then w.raw[call.id := call.payload] else w.raw,
      if frame.Some? then Apply(w.view, frame.value) else w.view)
  }

  function Run(store: Storage, calls: seq<Call>): World {
    if |calls| == 0 then INITIAL else Step(store, Run(store, calls[..|calls| - 1]), calls[|calls| - 1])
  }

  /** The external id in the call names its event, and a new event has a fresh one. */
  predicate Keyed(st: SinkState, call: Call) {
    match call
    case EmitStarted(_, _, externalId, _) =>
      externalId.Some? && forall id :: id in st.rows ==> st.rows[id].externalId != externalId
    case EmitPayloadDelta(id, externalId, _) =>
      id in st.rows ==> externalId == st.rows[id].externalId
    case EmitCompleted(id, externalId, _, _) =>
      id in st.rows ==> externalId.None? || externalId == st.rows[id].externalId
    case _ => true
  }

  /** Events belong to a run, so a sink exists before it is called; every call is keyed. */
  predicate AllKeyed(store: Storage, calls: seq<Call>) {
    |calls| > 0 ==>
      var before := calls[..|calls| - 1];
      AllKeyed(store, before)
      && (calls[|calls| - 1].NewRun? || Run(store, before).sink.run >= 1)
      && Keyed(Run(store, before).sink, calls[|calls| - 1])
  }

  // ---------- The simulation ----------

  /** Equal payloads, leaving aside the streamed text of an agent message. */
  predicate SameBut(kind: string, p: Payload, q: Payload) {
    if kind == AGENT_MESSAGE then p - {TEXT} == q - {TEXT} else p == q
  }

  /**
   What an open item shows: the payload as it was before storage, or that payload
   overridden by the stored one once a payload frame has arrived.
   */
  predicate OpenPayload(store: Storage, kind: string, live: Payload, raw: Payload, stored: Payload) {
    || (store(raw) == Some(stored) && SameBut(kind, live, raw))
    || SameBut(kind, live, raw + stored)
  }

  predicate Shows(store: Storage, item: Item, row: Row, raw: Payload) {
    && item.run == row.run
    && item.sequence == row.sequence
    && item.externalId == row.externalId
    && item.kind == row.kind
    && (if row.status == Started
        then item.status == Started && OpenPayload(store, row.kind, item.payload, raw, row.payload)
        else item.status == Completed && item.payload == row.payload)
  }

  predicate DistinctRows(rows: map<EventId, Row>) {
    && (forall id :: id in rows ==> rows[id].externalId.Some?)
    && (forall a, b :: a in rows && b in rows && a != b ==> rows[a].externalId != rows[b].externalId)
  }

  /** A table without doubles, its listing, and a view of that length. */
  ghost predicate IsInOrder(w: World, ids: seq<EventId>) {
    && w.raw.Keys == w.sink.rows.Keys
    && DistinctRows(w.sink.rows)
    && (forall id :: id in w.sink.rows ==>
          1 <= w.sink.rows[id].run <= w.sink.run
          && (w.sink.rows[id].run == w.sink.run ==> w.sink.rows[id].sequence <= w.sink.sequence))
    && IsListing(w.sink.rows, ids)
    && |w.view| == |ids|
  }

  /** The view lists the events of the table in reload order, each item showing its row. */
  ghost predicate Simulates(store: Storage, w: World, ids: seq<EventId>) {
    && IsInOrder(w, ids)
    && (forall i :: 0 <= i < |ids| ==> Shows(store, w.view[i], w.sink.rows[ids[i]], w.raw[ids[i]]))
  }

  lemma SimulatedViewIsDistinct(store: Storage, w: World, ids: seq<EventId>)
    requires Simulates(store, w, ids)
    ensures DistinctItems(w.view)
    ensures forall i :: 0 <= i < |ids| ==> Locate(w.view, w.sink.rows[ids[i]].externalId) == i
  {
    forall i, j | 0 <= i < j < |ids|
      ensures w.view[i].externalId != w.view[j].externalId
    {
      assert Before(w.sink.rows[ids[i]], w.sink.rows[ids[j]]);
      assert ids[i] in w.sink.rows && ids[j] in w.sink.rows;
      assert Shows(store, w.view[i], w.sink.rows[ids[i]], w.raw[ids[i]]);
      assert Shows(store, w.view[j], w.sink.rows[ids[j]], w.raw[ids[j]]);
    }
    forall i | 0 <= i < |ids|
      ensures Locate(w.view, w.sink.rows[ids[i]].externalId) == i
    {
      assert ids[i] in w.sink.rows;
      LocateIsUnique(w.view, i);
    }
  }

  lemma StepStarted(store: Storage, w: World, ids: seq<EventId>, call: Call)
    requires Simulates(store, w, ids) && w.sink.run >= 1
    requires call.EmitStarted? && Keyed(w.sink, call) && Effective(store, w.sink, call)
    ensures Simulates(store, Step(store, w, call), ids + [call.id])
  {
    FreshIdIsAbsent(store, w, ids, call.externalId);
    var row := Row(w.sink.run, w.sink.sequence + 1, call.externalId, call.kind, Started, store(call.payload).value);
    var item := Item(row.run, row.sequence, row.externalId, row.kind, Started, call.payload);
    StartedListing(w.sink.rows, ids, w.sink.rows[call.id := row], call.id);
    AppendOne(store, w, ids, call.id, row, item, call.payload);
    StartedShape(store, w, call);
  }

  lemma FreshIdIsAbsent(store: Storage, w: World, ids: seq<EventId>, externalId: ExternalId)
    requires Simulates(store, w, ids) && externalId.Some?
    requires forall id :: id in w.sink.rows ==> w.sink.rows[id].externalId != externalId
    ensures Locate(w.view, externalId) == |w.view|
  {
    forall i | 0 <= i < |ids|
      ensures w.view[i].externalId != externalId
    {
      assert Shows(store, w.view[i], w.sink.rows[ids[i]], w.raw[ids[i]]);
      assert ids[i] in w.sink.rows;
    }
  }

  lemma StartedShape(store: Storage, w: World, call: Call)
    requires call.EmitStarted? && Effective(store, w.sink, call)
    requires Locate(w.view, call.externalId) == |w.view|
    ensures var n := w.sink.sequence + 1;
            var row := Row(w.sink.run, n, call.externalId, call.kind, Started, store(call.payload).value);
            Step(store, w, call) == World(
              SinkState(w.sink.rows[call.id := row], w.sink.run, n),
              w.raw[call.id := call.payload],
              w.view + [Item(w.sink.run, n, call.externalId, call.kind, Started, call.payload)])
  {
  }

  /** Appending one row and its item keeps the simulation when the new pair matches. */
  lemma AppendOne(store: Storage, w: World, ids: seq<EventId>, id: EventId, row: Row, item: Item, raw: Payload)
    requires Simulates(store, w, ids) && id !in w.sink.rows
    requires row.run == w.sink.run >= 1 && row.sequence == w.sink.sequence + 1 && row.externalId.Some?
    requires forall x :: x in w.sink.rows ==> w.sink.rows[x].externalId != row.externalId
    requires IsListing(w.sink.rows[id := row], ids + [id])
    requires Shows(store, item, row, raw)
    ensures Simulates(store,
              World(SinkState(w.sink.rows[id := row], w.sink.run, w.sink.sequence + 1),
                    w.raw[id := raw], w.view + [item]), ids + [id])
  {
    var ids', view' := ids + [id], w.view + [item];
    forall k | 0 <= k < |ids'|
      ensures Shows(store, view'[k], w.sink.rows[id := row][ids'[k]], w.raw[id := raw][ids'[k]])
    {
      if k < |ids| {
        assert ids[k] in w.sink.rows;
        assert Shows(store, w.view[k], w.sink.rows[ids[k]], w.raw[ids[k]]);
      }
    }
  }

  /** Updating one row and its item keeps the simulation when the new pair matches. */
  lemma UpdateOne(store: Storage, w: World, ids: seq<EventId>, k: nat, row: Row, item: Item)
    requires Simulates(store, w, ids) && k < |ids|
    requires ids[k] in w.sink.rows && ids[k] in w.raw
    requires var prior := w.sink.rows[ids[k]];
             row.run == prior.run && row.sequence == prior.sequence && row.externalId == prior.externalId
    requires Shows(store, item, row, w.raw[ids[k]])
    ensures Simulates(store,
              World(w.sink.(rows := w.sink.rows[ids[k] := row]), w.raw, w.view[k := item]), ids)
  {
    var rows' := w.sink.rows[ids[k] := row];
    ListingIsDistinct(w.sink.rows, ids);
    CompletedListing(w.sink.rows, ids, rows', ids[k]);
    assert rows'.Keys == w.sink.rows.Keys;
    forall i | 0 <= i < |ids|
      ensures Shows(store, w.view[k := item][i], rows'[ids[i]], w.raw[ids[i]])
    {
      assert Shows(store, w.view[i], w.sink.rows[ids[i]], w.raw[ids[i]]);
    }
  }

  /** Where an event of the table stands in the view. */
  lemma FindEvent(store: Storage, w: World, ids: seq<EventId>, id: EventId) returns (k: nat)
    requires Simulates(store, w, ids) && id in w.sink.rows
    ensures k < |ids| == |w.view| && ids[k] == id && id in w.raw
    ensures w.sink.rows[id].externalId.Some? && Locate(w.view, w.sink.rows[id].externalId) == k
    ensures Shows(store, w.view[k], w.sink.rows[id], w.raw[id])
  {
    SimulatedViewIsDistinct(store, w, ids);
    assert id in ids;
    k :| 0 <= k < |ids| && ids[k] == id;
  }

  lemma StepPayloadDelta(store: Storage, w: World, ids: seq<EventId>, call: Call)
    requires Simulates(store, w, ids)
    requires call.EmitPayloadDelta? && Keyed(w.sink, call) && Effective(store, w.sink, call)
    ensures Simulates(store, Step(store, w, call), ids)
  {
    var k := FindEvent(store, w, ids, call.id);
    var prior, item, raw := w.sink.rows[call.id], w.view[k], w.raw[call.id];
    var delta := store(call.payload).value;
    var row := prior.(payload := prior.payload + delta);
    var item' := item.(payload := item.payload + row.payload);
    if prior.status == Started {
      MergeOpen(store, prior.kind, item.payload, raw, prior.payload, delta);
    } else {
      assert item'.payload == row.payload;
    }
    UpdateOne(store, w, ids, k, row, item');
    PayloadDeltaShape(store, w, call, k);
  }

  lemma PayloadDeltaShape(store: Storage, w: World, call: Call, k: nat)
    requires call.EmitPayloadDelta? && Effective(store, w.sink, call) && k < |w.view|
    requires Locate(w.view, call.externalId) == k
    ensures var full := w.sink.rows[call.id].payload + store(call.payload).value;
            Step(store, w, call) == World(
              w.sink.(rows := w.sink.rows[call.id := w.sink.rows[call.id].(payload := full)]),
              w.raw,
              w.view[k := w.view[k].(payload := w.view[k].payload + full)])
  {
  }

  /** Merging the whole stored payload over an open item leaves raw overridden by stored. */
  lemma MergeOpen(store: Storage, kind: string, live: Payload, raw: Payload, stored: Payload, delta: Payload)
    requires OpenPayload(store, kind, live, raw, stored)
    ensures SameBut(kind, live + (stored + delta), raw + (stored + delta))
  {
    var full := stored + delta;
    if kind == AGENT_MESSAGE {
      MinusPlus(live, full, TEXT);
      MinusPlus(raw, full, TEXT);
      MinusPlus(raw, stored, TEXT);
      if SameBut(kind, live, raw + stored) {
        assert (raw - {TEXT}) + (stored - {TEXT}) + (full - {TEXT}) == (raw - {TEXT}) + (full - {TEXT});
      }
    } else if live == raw + stored {
      assert raw + stored + full == raw + full;
    }
  }

  lemma MinusPlus(p: Payload, q: Payload, key: string)
    ensures (p + q) - {key} == (p - {key}) + (q - {key})
  {
  }

  lemma StepCompleted(store: Storage, w: World, ids: seq<EventId>, call: Call)
    requires Simulates(store, w, ids)
    requires call.EmitCompleted? && Keyed(w.sink, call) && Effective(store, w.sink, call)
    ensures Simulates(store, Step(store, w, call), ids)
  {
    var k := FindEvent(store, w, ids, call.id);
    var prior, item := w.sink.rows[call.id], w.view[k];
    var row := prior.(status := if call.failed then Failed else Completed,
                      payload := prior.payload + store(call.payload).value);
    UpdateOne(store, w, ids, k, row, item.(status := Completed, payload := row.payload));
    CompletedShape(store, w, call, k);
  }

  lemma CompletedShape(store: Storage, w: World, call: Call, k: nat)
    requires call.EmitCompleted? && Effective(store, w.sink, call) && k < |w.view|
    requires Locate(w.view, Coalesce(call.externalId, w.sink.rows[call.id].externalId)) == k
    ensures var prior := w.sink.rows[call.id];
            var row := prior.(status := if call.failed then Failed else Completed,
                              externalId := Coalesce(call.externalId, prior.externalId),
                              payload := prior.payload + store(call.payload).value);
            Step(store, w, call) == World(
              w.sink.(rows := w.sink.rows[call.id := row]),
              w.raw,
              w.view[k := w.view[k].(kind := row.kind, status := Completed, payload := row.payload)])
  {
  }

  lemma StepMessageDelta(store: Storage, w: World, ids: seq<EventId>, call: Call)
    requires Simulates(store, w, ids) && call.EmitMessageDelta?
    ensures Simulates(store, Step(store, w, call), ids)
  {
    var k := StreamTarget(w.view);
    if k >= 0 {
      var item := w.view[k];
      var p := item.payload;
      var item' := item.(payload := p[TEXT := JStr(TextOf(p) + call.text)]);
      assert Shows(store, item, w.sink.rows[ids[k]], w.raw[ids[k]]);
      assert p - {TEXT} == item'.payload - {TEXT};
      UpdateOne(store, w, ids, k, w.sink.rows[ids[k]], item');
      assert w.sink.rows[ids[k] := w.sink.rows[ids[k]]] == w.sink.rows;
    }
  }

  /** Each keyed call keeps the simulation, extending the listing by at most one event. */
  lemma StepSimulates(store: Storage, w: World, ids: seq<EventId>, call: Call) returns (ids': seq<EventId>)
    requires Simulates(store, w, ids) && Keyed(w.sink, call)
    requires call.NewRun? || w.sink.run >= 1
    ensures Simulates(store, Step(store, w, call), ids')
  {
    ids' := ids;
    if !Effective(store, w.sink, call) || call.NewRun? {
    } else {
      match call
      case EmitStarted(id, _, _, _) =>
        StepStarted(store, w, ids, call);
        ids' := ids + [id];
      case EmitPayloadDelta(_, _, _) => StepPayloadDelta(store, w, ids, call);
      case EmitCompleted(_, _, _, _) => StepCompleted(store, w, ids, call);
      case EmitMessageDelta(_) => StepMessageDelta(store, w, ids, call);
    }
  }

  lemma {:induction false} RunSimulates(store: Storage, calls: seq<Call>) returns (ids: seq<EventId>)
    requires AllKeyed(store, calls)
    ensures Simulates(store, Run(store, calls), ids)
  {
    ids := [];
    if |calls| > 0 {
      var n := |calls| - 1;
      ids := RunSimulates(store, calls[..n]);
      ids := StepSimulates(store, Run(store, calls[..n]), ids, calls[n]);
    }
  }

  /** Each row still has all keys that storage made of the payload its event was started with. */
  ghost predicate KeepsStarted(store: Storage, w: World) {
    && w.raw.Keys == w.sink.rows.Keys
    && forall id :: id in w.raw ==>
         store(w.raw[id]).Some? && store(w.raw[id]).value.Keys <= w.sink.rows[id].payload.Keys
  }

  lemma {:induction false} StepKeepsStarted(store: Storage, w: World, call: Call)
    requires KeepsStarted(store, w)
    ensures KeepsStarted(store, Step(store, w, call))
  {
  }

  lemma {:induction false} RunKeepsStarted(store: Storage, calls: seq<Call>)
    ensures KeepsStarted(store, Run(store, calls))
  {
    if |calls| > 0 {
      RunKeepsStarted(store, calls[..|calls| - 1]);
      StepKeepsStarted(store, Run(store, calls[..|calls| - 1]), calls[|calls| - 1]);
    }
  }

  // ---------- Main results ----------

  /** An open event whose started payload storage kept as it was shows exactly its row, streamed text aside. */
  lemma {:induction false} CleanOpenEventIsExact(
    store: Storage, kind: string, live: Payload, raw: Payload, stored: Payload)
    requires OpenPayload(store, kind, live, raw, stored)
    requires store(raw) == Some(raw) && raw.Keys <= stored.Keys
    ensures SameBut(kind, live, stored)
  {
    assert raw + stored == stored;
  }

  /**
   The live item against the reloaded one, and the payload the event was started with. Closed items are equal; open
   ones are too, streamed text aside, when storage kept that payload as it was, and otherwise differ by it only.
   */
  predicate SameItem(store: Storage, live: Item, reloaded: Item, raw: Payload) {
    && live.run == reloaded.run
    && live.sequence == reloaded.sequence
    && live.externalId == reloaded.externalId
    && live.kind == reloaded.kind
    && (live.status == Started <==> reloaded.status == Started)
    && (reloaded.status != Started ==> live.payload == reloaded.payload)
    && (reloaded.status == Started ==> OpenPayload(store, live.kind, live.payload, raw, reloaded.payload))
    && (reloaded.status == Started && store(raw) == Some(raw) ==> SameBut(live.kind, live.payload, reloaded.payload))
  }

  /** After any keyed calls the live view and the reload show the same events in the same order. */
  lemma LiveViewEqualsReload(store: Storage, calls: seq<Call>, perRun: seq<seq<EventId>>)
    requires AllKeyed(store, calls)
    requires |perRun| == Run(store, calls).sink.run
    requires forall r :: 0 <= r < |perRun| ==> IsRunListing(Run(store, calls).sink.rows, r + 1, perRun[r])
    ensures var w := Run(store, calls);
            var ids := Flatten(perRun);
            && (forall id :: id in ids ==> id in w.sink.rows && id in w.raw)
            && |w.view| == |ids|
            && forall i :: 0 <= i < |ids| ==>
                 SameItem(store, w.view[i], ReloadItems(w.sink.rows, ids)[i], w.raw[ids[i]])
  {
    var w := Run(store, calls);
    var ids := RunSimulates(store, calls);
    RunKeepsStarted(store, calls);
    FlattenIsListing(w.sink.rows, perRun);
    assert UpToRun(w.sink.rows, |perRun|) == w.sink.rows;
    ListingIsUnique(w.sink.rows, ids, Flatten(perRun));
    forall i | 0 <= i < |ids|
      ensures SameItem(store, w.view[i], ReloadItems(w.sink.rows, ids)[i], w.raw[ids[i]])
    {
      var row, raw := w.sink.rows[ids[i]], w.raw[ids[i]];
      assert Shows(store, w.view[i], row, raw);
      if row.status == Started && store(raw) == Some(raw) {
        CleanOpenEventIsExact(store, row.kind, w.view[i].payload, raw, row.payload);
      }
    }
  }

  /** Same events in the same places; what a reader of the chat sees first. */
  ghost predicate SamePlaces(w: World, ids: seq<EventId>) {
    && IsListing(w.sink.rows, ids)
    && |w.view| == |ids|
    && forall i :: 0 <= i < |ids| ==> ids[i] in w.sink.rows && w.view[i].externalId == w.sink.rows[ids[i]].externalId
  }

  /** From a faithful view, starting a second event under a used external id loses an item at once. */
  lemma RepeatedIdBreaksView(store: Storage, w: World, ids: seq<EventId>, call: Call, ids': seq<EventId>)
    requires Simulates(store, w, ids) && w.sink.run >= 1
    requires call.EmitStarted? && call.externalId.Some? && Effective(store, w.sink, call)
    ensures SamePlaces(Step(store, w, call), ids') ==> Keyed(w.sink, call)
  {
    var w' := Step(store, w, call);
    if IsListing(w'.sink.rows, ids') && !Keyed(w.sink, call) {
      var id :| id in w.sink.rows && w.sink.rows[id].externalId == call.externalId;
      SimulatedViewIsDistinct(store, w, ids);
      var k :| 0 <= k < |ids| && ids[k] == id;
      StartedListing(w.sink.rows, ids, w'.sink.rows, call.id);
      ListingIsUnique(w'.sink.rows, ids + [call.id], ids');
    }
  }

  lemma CompletionKeepsIds(items: seq<Item>, frame: Frame)
    requires frame.EventCompleted?
    ensures |Apply(items, frame)| >= |items|
    ensures forall i :: 0 <= i < |items| ==> Apply(items, frame)[i].externalId == items[i].externalId
  {
  }

  /** From a faithful view, completing an event under another external id breaks the view at once. */
  lemma ChangedIdBreaksView(store: Storage, w: World, ids: seq<EventId>, call: Call, ids': seq<EventId>)
    requires Simulates(store, w, ids)
    requires call.EmitCompleted? && Effective(store, w.sink, call)
    ensures SamePlaces(Step(store, w, call), ids') ==> Keyed(w.sink, call)
  {
    var w' := Step(store, w, call);
    if IsListing(w'.sink.rows, ids') && !Keyed(w.sink, call) {
      var k := FindEvent(store, w, ids, call.id);
      CompletedListing(w.sink.rows, ids, w'.sink.rows, call.id);
      ListingIsUnique(w'.sink.rows, ids, ids');
      CompletionKeepsIds(w.view, Emit(store, w.sink, call).1.value);
    }
  }

  // ---------- Payload deltas under another id ----------

  /** Merging these keys changes nothing that a reader sees. */
  predicate Absorbs(row: Row, more: Payload) {
    if row.status == Started then SameBut(row.kind, row.payload + more, row.payload)
    else row.payload + more == row.payload
  }

  /** An open event's started payload was stored as it was; its keys are then in the row, by `RunKeepsStarted`. */
  predicate IsClean(store: Storage, row: Row, raw: Payload) {
    row.status == Started ==> store(raw) == Some(raw) && raw.Keys <= row.payload.Keys
  }

  /** A clean item shows its row, streamed text aside. */
  lemma {:induction false} CleanShows(store: Storage, item: Item, row: Row, raw: Payload)
    requires item.status == Started && row.status == Started && IsClean(store, row, raw)
    requires item.run == row.run && item.sequence == row.sequence
    requires item.externalId == row.externalId && item.kind == row.kind
    ensures Shows(store, item, row, raw) <==> SameBut(row.kind, item.payload, row.payload)
  {
    assert raw + row.payload == row.payload;
  }

  lemma {:induction false} SameButMerge(kind: string, p: Payload, q: Payload, more: Payload)
    requires SameBut(kind, p, q)
    ensures SameBut(kind, p + more, q + more)
  {
    MinusPlus(p, more, TEXT);
    MinusPlus(q, more, TEXT);
  }

  /** The row takes the delta and its item does not. */
  lemma {:induction false} UntoldRowExactly(store: Storage, item: Item, row: Row, raw: Payload, delta: Payload)
    requires Shows(store, item, row, raw) && IsClean(store, row, raw)
    ensures Shows(store, item, row.(payload := row.payload + delta), raw) <==> Absorbs(row, delta)
  {
    if row.status == Started {
      CleanShows(store, item, row, raw);
      CleanShows(store, item, row.(payload := row.payload + delta), raw);
    }
  }

  /** The item takes a payload that is not its row's. */
  lemma {:induction false} MistakenItemExactly(store: Storage, item: Item, row: Row, raw: Payload, full: Payload)
    requires Shows(store, item, row, raw) && IsClean(store, row, raw)
    ensures Shows(store, item.(payload := item.payload + full), row, raw) <==> Absorbs(row, full)
  {
    if row.status == Started {
      CleanShows(store, item, row, raw);
      CleanShows(store, item.(payload := item.payload + full), row, raw);
      SameButMerge(row.kind, item.payload, row.payload, full);
    }
  }

  /** The delta changes nothing in its own row, and the whole payload nothing in the event it is shown at, if any. */
  ghost predicate StrayDeltaIsAbsorbed(store: Storage, st: SinkState, call: Call)
    requires call.EmitPayloadDelta? && Effective(store, st, call)
  {
    var delta, row := store(call.payload).value, st.rows[call.id];
    && Absorbs(row, delta)
    && forall id :: id in st.rows && st.rows[id].externalId == call.externalId ==>
         Absorbs(st.rows[id], row.payload + delta)
  }

  /** The world after a delta that is shown at item `hit`, or nowhere. */
  lemma {:induction false} StrayDeltaShape(store: Storage, w: World, call: Call)
    requires call.EmitPayloadDelta? && Effective(store, w.sink, call)
    ensures var row, hit := w.sink.rows[call.id], Locate(w.view, call.externalId);
            var full := row.payload + store(call.payload).value;
            Step(store, w, call) == World(
              w.sink.(rows := w.sink.rows[call.id := row.(payload := full)]),
              w.raw,
              if hit == |w.view| then w.view else w.view[hit := w.view[hit].(payload := w.view[hit].payload + full)])
  {
  }

  /** Where a delta under another id is shown: at the event that has this id, if there is one. */
  lemma {:induction false} HitIsTheNamed(store: Storage, w: World, ids: seq<EventId>, call: Call)
    requires Simulates(store, w, ids)
    requires call.EmitPayloadDelta? && Effective(store, w.sink, call) && !Keyed(w.sink, call)
    ensures var hit := Locate(w.view, call.externalId);
            && (hit < |ids| ==> ids[hit] in w.sink.rows && ids[hit] != call.id
                                && w.sink.rows[ids[hit]].externalId == call.externalId)
            && forall id :: id in w.sink.rows && w.sink.rows[id].externalId == call.externalId ==>
                 hit < |ids| && ids[hit] == id
  {
    var hit := Locate(w.view, call.externalId);
    if hit < |ids| {
      assert Shows(store, w.view[hit], w.sink.rows[ids[hit]], w.raw[ids[hit]]);
      assert ids[hit] in ids;
    }
    forall id | id in w.sink.rows && w.sink.rows[id].externalId == call.externalId
      ensures hit < |ids| && ids[hit] == id
    {
      var k := FindEvent(store, w, ids, id);
    }
  }

  predicate ShowsAt(store: Storage, w: World, ids: seq<EventId>, i: nat) {
    && i < |ids| && i < |w.view| && ids[i] in w.sink.rows && ids[i] in w.raw
    && Shows(store, w.view[i], w.sink.rows[ids[i]], w.raw[ids[i]])
  }

  /** The event that got the delta, and the one it names. */
  predicate IsTouched(st: SinkState, call: Call, id: EventId)
    requires call.EmitPayloadDelta?
  {
    id in st.rows && (id == call.id || st.rows[id].externalId == call.externalId)
  }

  ghost predicate TouchedAreClean(store: Storage, w: World, call: Call)
    requires call.EmitPayloadDelta? && w.raw.Keys == w.sink.rows.Keys
  {
    forall id :: IsTouched(w.sink, call, id) ==> IsClean(store, w.sink.rows[id], w.raw[id])
  }

  ghost predicate IsStray(store: Storage, w: World, ids: seq<EventId>, call: Call) {
    && Simulates(store, w, ids)
    && call.EmitPayloadDelta? && Effective(store, w.sink, call) && !Keyed(w.sink, call)
    && TouchedAreClean(store, w, call)
  }

  lemma {:induction false} StrayAtRow(store: Storage, w: World, ids: seq<EventId>, call: Call, k: nat)
    requires IsStray(store, w, ids, call) && k < |ids| && ids[k] == call.id
    ensures k != Locate(w.view, call.externalId)
    ensures ShowsAt(store, Step(store, w, call), ids, k)
       <==> Absorbs(w.sink.rows[call.id], store(call.payload).value)
  {
    HitIsTheNamed(store, w, ids, call);
    StrayDeltaShape(store, w, call);
    assert Shows(store, w.view[k], w.sink.rows[ids[k]], w.raw[ids[k]]);
    assert IsTouched(w.sink, call, call.id);
    UntoldRowExactly(store, w.view[k], w.sink.rows[call.id], w.raw[call.id], store(call.payload).value);
  }

  lemma {:induction false} StrayAtHit(store: Storage, w: World, ids: seq<EventId>, call: Call, hit: nat)
    requires IsStray(store, w, ids, call) && hit < |ids| && hit == Locate(w.view, call.externalId)
    ensures ids[hit] in w.sink.rows
    ensures ShowsAt(store, Step(store, w, call), ids, hit)
       <==> Absorbs(w.sink.rows[ids[hit]], w.sink.rows[call.id].payload + store(call.payload).value)
  {
    HitIsTheNamed(store, w, ids, call);
    StrayDeltaShape(store, w, call);
    assert Shows(store, w.view[hit], w.sink.rows[ids[hit]], w.raw[ids[hit]]);
    assert IsTouched(w.sink, call, ids[hit]);
    MistakenItemExactly(store, w.view[hit], w.sink.rows[ids[hit]], w.raw[ids[hit]],
                        w.sink.rows[call.id].payload + store(call.payload).value);
  }

  lemma {:induction false} StrayElsewhere(store: Storage, w: World, ids: seq<EventId>, call: Call, i: nat)
    requires IsStray(store, w, ids, call) && i < |ids|
    requires ids[i] != call.id && i != Locate(w.view, call.externalId)
    ensures ShowsAt(store, Step(store, w, call), ids, i)
  {
    StrayDeltaShape(store, w, call);
    assert ids[i] in ids;
    assert Shows(store, w.view[i], w.sink.rows[ids[i]], w.raw[ids[i]]);
  }

  lemma {:induction false} StrayKeepsOrder(store: Storage, w: World, ids: seq<EventId>, call: Call)
    requires IsStray(store, w, ids, call)
    ensures IsInOrder(Step(store, w, call), ids)
  {
    StrayDeltaShape(store, w, call);
    CompletedListing(w.sink.rows, ids, Step(store, w, call).sink.rows, call.id);
  }

  lemma {:induction false} SimulatesInParts(store: Storage, w: World, ids: seq<EventId>)
    requires IsInOrder(w, ids)
    ensures Simulates(store, w, ids) <==> forall i: nat :: i < |ids| ==> ShowsAt(store, w, ids, i)
  {
    assert forall i :: 0 <= i < |ids| ==> ids[i] in ids;
    if forall i: nat :: i < |ids| ==> ShowsAt(store, w, ids, i) {
      forall i | 0 <= i < |ids|
        ensures Shows(store, w.view[i], w.sink.rows[ids[i]], w.raw[ids[i]])
      {
        assert ShowsAt(store, w, ids, i);
      }
    }
  }

  /**
   From a faithful view, a payload delta under another id than its row's, or under none, keeps the view faithful if and
   only if it is absorbed, the events it touches having been stored as they were started.
   */
  lemma {:induction false} StrayDeltaExactly(store: Storage, w: World, ids: seq<EventId>, call: Call)
    requires IsStray(store, w, ids, call)
    ensures Simulates(store, Step(store, w, call), ids) <==> StrayDeltaIsAbsorbed(store, w.sink, call)
  {
    var next, hit := Step(store, w, call), Locate(w.view, call.externalId);
    var k := FindEvent(store, w, ids, call.id);
    StrayKeepsOrder(store, w, ids, call);
    SimulatesInParts(store, next, ids);
    HitIsTheNamed(store, w, ids, call);
    ListingIsDistinct(w.sink.rows, ids);
    StrayAtRow(store, w, ids, call, k);
    if hit < |ids| {
      StrayAtHit(store, w, ids, call, hit);
    }
    forall i: nat | i < |ids| && i != k && i != hit
      ensures ShowsAt(store, next, ids, i)
    {
      StrayElsewhere(store, w, ids, call, i);
    }
    assert ShowsAt(store, next, ids, k) <==> Absorbs(w.sink.rows[call.id], store(call.payload).value);
  }

  lemma {:induction false} StartCounts(store: Storage, w: World, start: Call)
    requires start.EmitStarted? && Effective(store, w.sink, start)
    ensures var next := Step(store, w, start);
            && |next.view| == |w.view| + (if Locate(w.view, start.externalId) == |w.view| then 1 else 0)
            && (start.externalId.Some? ==> Locate(next.view, start.externalId) < |next.view|)
            && next.sink.rows.Keys == w.sink.rows.Keys + {start.id}
  {
    var next, k := Step(store, w, start), Locate(w.view, start.externalId);
    if start.externalId.Some? {
      assert next.view[k].externalId == start.externalId;
    }
  }

  lemma {:induction false} CompletionCounts(store: Storage, w: World, done: Call)
    requires done.EmitCompleted? && Effective(store, w.sink, done)
    ensures var next, id := Step(store, w, done), Coalesce(done.externalId, w.sink.rows[done.id].externalId);
            && |next.view| == |w.view| + (if Locate(w.view, id) == |w.view| then 1 else 0)
            && next.sink.rows.Keys == w.sink.rows.Keys
  {
  }

  /** Whatever the view, an event without an external id shows twice once it completes. */
  lemma {:induction false} NullIdShowsTwice(store: Storage, w: World, start: Call, done: Call)
    requires start.EmitStarted? && start.externalId == None && Effective(store, w.sink, start)
    requires done.EmitCompleted? && done.id == start.id && done.externalId == None
    requires Effective(store, Step(store, w, start).sink, done)
    ensures var after := Step(store, Step(store, w, start), done);
            after.sink.rows.Keys == w.sink.rows.Keys + {start.id} && |after.view| == |w.view| + 2
  {
    StartCounts(store, w, start);
    CompletionCounts(store, Step(store, w, start), done);
  }

  /**
   From a faithful view, an event's start and its completion under the id it was started with keep the view faithful
   if and only if that id is present and fresh.
   */
  lemma {:induction false} StartAndCompletionExactly(
    store: Storage, w: World, ids: seq<EventId>, start: Call, done: Call)
    requires Simulates(store, w, ids) && w.sink.run >= 1
    requires start.EmitStarted? && Effective(store, w.sink, start)
    requires done.EmitCompleted? && done.id == start.id
    requires done.externalId == None || done.externalId == start.externalId
    requires Effective(store, Step(store, w, start).sink, done)
    ensures SamePlaces(Step(store, Step(store, w, start), done), ids + [start.id])
       <==> start.externalId.Some? && forall id :: id in w.sink.rows ==> w.sink.rows[id].externalId != start.externalId
  {
    var one := Step(store, w, start);
    StartCounts(store, w, start);
    CompletionCounts(store, one, done);
    if Keyed(w.sink, start) {
      StepStarted(store, w, ids, start);
      StepCompleted(store, one, ids + [start.id], done);
      SimulatedPlaces(store, Step(store, one, done), ids + [start.id]);
    } else if start.externalId.Some? {
      UsedIdIsFound(store, w, ids, start.externalId);
    }
  }

  lemma {:induction false} SimulatedPlaces(store: Storage, w: World, ids: seq<EventId>)
    requires Simulates(store, w, ids)
    ensures SamePlaces(w, ids)
  {
    forall i | 0 <= i < |ids|
      ensures ids[i] in w.sink.rows && w.view[i].externalId == w.sink.rows[ids[i]].externalId
    {
      assert ids[i] in ids;
      assert Shows(store, w.view[i], w.sink.rows[ids[i]], w.raw[ids[i]]);
    }
  }

  lemma {:induction false} UsedIdIsFound(store: Storage, w: World, ids: seq<EventId>, externalId: ExternalId)
    requires Simulates(store, w, ids) && externalId.Some?
    requires exists id :: id in w.sink.rows && w.sink.rows[id].externalId == externalId
    ensures Locate(w.view, externalId) < |w.view|
  {
    var id :| id in w.sink.rows && w.sink.rows[id].externalId == externalId;
    var k := FindEvent(store, w, ids, id);
  }
}
