/** What an open agent message shows in the live view, over whole runs: the one part of it that no row holds. */
module StreamedText {
  import opened Prelude
  import opened Json
  import opened EventSink
  import opened SessionView
  import opened LiveReload

  predicate IsOpenMessage(row: Row) {
    row.kind == AGENT_MESSAGE && row.status == Started
  }

  /** Of all the session's open agent messages, the one that began last: the one that streamed text is for. */
  ghost predicate IsNewestMessage(rows: map<EventId, Row>, id: EventId) {
    && id in rows && IsOpenMessage(rows[id])
    && forall x :: x in rows && x != id && IsOpenMessage(rows[x]) ==> Before(rows[x], rows[id])
  }

  /** What a call makes of the text an event has gathered. */
  ghost function TextAfter(store: Storage, sink: SinkState, call: Call, id: EventId, text: string): string {
    match call
    case EmitStarted(started, _, _, payload) =>
      if started == id && Effective(store, sink, call) then TextOf(payload) else text
    case EmitPayloadDelta(changed, _, delta) =>
      if changed != id || !Effective(store, sink, call) then text
      else
        var full := sink.rows[id].payload + store(delta).value;
        if TEXT in full then TextOf(full) else text
    case EmitMessageDelta(more) => if IsNewestMessage(sink.rows, id) then text + more else text
    case _ => text
  }

  /**
   The text an event has gathered: what it was started with, or what its last payload frame set, and then the deltas
   that came while it was the newest open message, in order.
   */
  ghost function TextSince(store: Storage, calls: seq<Call>, id: EventId): string {
    if |calls| == 0 then ""
    else
      var before := calls[..|calls| - 1];
      TextAfter(store, Run(store, before).sink, calls[|calls| - 1], id, TextSince(store, before, id))
  }

  predicate ShowsOpen(row: Row, item: Item, text: string) {
    IsOpenMessage(row) ==> ShowsText(item.payload, text)
  }

  predicate ShownAt(w: World, ids: seq<EventId>, i: nat, text: string) {
    && i < |ids| && i < |w.view| && ids[i] in w.sink.rows
    && ShowsOpen(w.sink.rows[ids[i]], w.view[i], text)
  }

  ghost predicate AllShown(store: Storage, calls: seq<Call>, ids: seq<EventId>) {
    var w := Run(store, calls);
    && |w.view| == |ids|
    && forall i: nat :: i < |ids| ==> ShownAt(w, ids, i, TextSince(store, calls, ids[i]))
  }

  lemma {:induction false} TextIsShown(payload: Payload)
    ensures ShowsText(payload, TextOf(payload))
  {
  }

  lemma {:induction false} LaterIsNewer(store: Storage, w: World, ids: seq<EventId>, i: nat, j: nat)
    requires Simulates(store, w, ids) && i < j < |ids| && Streaming(w.view[j])
    ensures !IsNewestMessage(w.sink.rows, ids[i])
  {
    assert ids[i] in ids && ids[j] in ids;
    assert Shows(store, w.view[j], w.sink.rows[ids[j]], w.raw[ids[j]]);
    assert Before(w.sink.rows[ids[i]], w.sink.rows[ids[j]]);
  }

  /** The reducer's target is the table's newest open message. */
  lemma {:induction false} TargetIsNewest(store: Storage, w: World, ids: seq<EventId>, i: nat)
    requires Simulates(store, w, ids) && i < |ids|
    ensures ids[i] in w.sink.rows
    ensures IsNewestMessage(w.sink.rows, ids[i]) <==> StreamTarget(w.view) == i
  {
    assert ids[i] in ids;
    assert Shows(store, w.view[i], w.sink.rows[ids[i]], w.raw[ids[i]]);
    if StreamTarget(w.view) == i {
      forall x | x in w.sink.rows && x != ids[i] && IsOpenMessage(w.sink.rows[x])
        ensures Before(w.sink.rows[x], w.sink.rows[ids[i]])
      {
        var j := FindEvent(store, w, ids, x);
        assert Streaming(w.view[j]);
      }
    } else if StreamTarget(w.view) > i {
      LaterIsNewer(store, w, ids, i, StreamTarget(w.view));
    }
  }

  lemma {:induction false} DeltaAt(store: Storage, w: World, ids: seq<EventId>, more: string, i: nat, text: string)
    requires Simulates(store, w, ids) && i < |ids| && ids[i] in w.sink.rows
    requires ShowsOpen(w.sink.rows[ids[i]], w.view[i], text)
    ensures var next := Step(store, w, EmitMessageDelta(more));
            && |next.view| == |w.view| && next.sink == w.sink
            && ShowsOpen(w.sink.rows[ids[i]], next.view[i],
                         if IsNewestMessage(w.sink.rows, ids[i]) then text + more else text)
  {
    TargetIsNewest(store, w, ids, i);
    var k := StreamTarget(w.view);
    if k >= 0 {
      TextIsShown(w.view[k].payload);
      OneDelta(w.view, k, TextOf(w.view[k].payload), more);
      if k == i && IsOpenMessage(w.sink.rows[ids[i]]) {
        OneDelta(w.view, k, text, more);
      }
    }
  }

  lemma {:induction false} PayloadAt(item: Item, full: Payload, text: string)
    requires ShowsText(item.payload, text)
    ensures ShowsText(item.payload + full, if TEXT in full then TextOf(full) else text)
  {
  }

  lemma {:induction false} StartedShows(
    store: Storage, w: World, ids: seq<EventId>, call: Call, i: nat, text: string)
    requires Simulates(store, w, ids) && call.EmitStarted? && Keyed(w.sink, call) && Effective(store, w.sink, call)
    requires i < |ids| ==> ShownAt(w, ids, i, text)
    requires i <= |ids|
    ensures |Step(store, w, call).view| == |ids| + 1
    ensures var all := ids + [call.id];
            ShownAt(Step(store, w, call), all, i, TextAfter(store, w.sink, call, all[i], text))
  {
    FreshIdIsAbsent(store, w, ids, call.externalId);
    StartedShape(store, w, call);
    TextIsShown(call.payload);
  }

  lemma {:induction false} PayloadShows(
    store: Storage, w: World, ids: seq<EventId>, call: Call, i: nat, text: string)
    requires Simulates(store, w, ids) && call.EmitPayloadDelta? && Keyed(w.sink, call) && Effective(store, w.sink, call)
    requires ShownAt(w, ids, i, text)
    ensures |Step(store, w, call).view| == |ids|
    ensures ShownAt(Step(store, w, call), ids, i, TextAfter(store, w.sink, call, ids[i], text))
  {
    var k := FindEvent(store, w, ids, call.id);
    PayloadDeltaShape(store, w, call, k);
    ListingIsDistinct(w.sink.rows, ids);
    if i == k && IsOpenMessage(w.sink.rows[call.id]) {
      PayloadAt(w.view[k], w.sink.rows[call.id].payload + store(call.payload).value, text);
    }
  }

  lemma {:induction false} CompletedShows(
    store: Storage, w: World, ids: seq<EventId>, call: Call, i: nat, text: string)
    requires Simulates(store, w, ids) && call.EmitCompleted? && Keyed(w.sink, call) && Effective(store, w.sink, call)
    requires ShownAt(w, ids, i, text)
    ensures |Step(store, w, call).view| == |ids|
    ensures ShownAt(Step(store, w, call), ids, i, TextAfter(store, w.sink, call, ids[i], text))
  {
    var k := FindEvent(store, w, ids, call.id);
    CompletedShape(store, w, call, k);
    ListingIsDistinct(w.sink.rows, ids);
  }

  lemma {:induction false} CallShowsAt(store: Storage, w: World, ids: seq<EventId>, call: Call, i: nat, text: string)
    requires Simulates(store, w, ids) && Keyed(w.sink, call) && !(call.EmitStarted? && Effective(store, w.sink, call))
    requires ShownAt(w, ids, i, text)
    ensures |Step(store, w, call).view| == |ids|
    ensures ShownAt(Step(store, w, call), ids, i, TextAfter(store, w.sink, call, ids[i], text))
  {
    if Effective(store, w.sink, call) {
      match call
      case EmitPayloadDelta(_, _, _) => PayloadShows(store, w, ids, call, i, text);
      case EmitCompleted(_, _, _, _) => CompletedShows(store, w, ids, call, i, text);
      case EmitMessageDelta(more) => DeltaAt(store, w, ids, more, i, text);
      case _ =>
    }
  }

  /** The listing after a call. */
  function Listed(store: Storage, sink: SinkState, ids: seq<EventId>, call: Call): seq<EventId> {
    if call.EmitStarted? && Effective(store, sink, call) then ids + [call.id] else ids
  }

  lemma {:induction false} CallShows(store: Storage, calls: seq<Call>, ids: seq<EventId>)
    requires |calls| > 0
    requires var w, call := Run(store, calls[..|calls| - 1]), calls[|calls| - 1];
             Simulates(store, w, ids) && Keyed(w.sink, call)
    requires AllShown(store, calls[..|calls| - 1], ids)
    ensures AllShown(store, calls, Listed(store, Run(store, calls[..|calls| - 1]).sink, ids, calls[|calls| - 1]))
  {
    var before, call := calls[..|calls| - 1], calls[|calls| - 1];
    var w := Run(store, before);
    var all := Listed(store, w.sink, ids, call);
    forall i: nat | i < |all|
      ensures ShownAt(Run(store, calls), all, i, TextSince(store, calls, all[i]))
    {
      var text := TextSince(store, before, all[i]);
      assert TextSince(store, calls, all[i]) == TextAfter(store, w.sink, call, all[i], text);
      if all == ids {
        CallShowsAt(store, w, ids, call, i, text);
      } else {
        StartedShows(store, w, ids, call, i, text);
      }
    }
    CallLength(store, w, ids, call);
  }

  lemma {:induction false} CallLength(store: Storage, w: World, ids: seq<EventId>, call: Call)
    requires Simulates(store, w, ids) && Keyed(w.sink, call)
    ensures |Step(store, w, call).view| == |Listed(store, w.sink, ids, call)|
  {
    if Effective(store, w.sink, call) {
      match call
      case EmitStarted(_, _, externalId, _) => FreshIdIsAbsent(store, w, ids, externalId);
      case EmitCompleted(id, _, _, _) =>
        var k := FindEvent(store, w, ids, id);
        CompletedShape(store, w, call, k);
      case _ =>
    }
  }

  lemma {:induction false} RunShows(store: Storage, calls: seq<Call>) returns (ids: seq<EventId>)
    requires AllKeyed(store, calls)
    ensures Simulates(store, Run(store, calls), ids) && AllShown(store, calls, ids)
  {
    ids := [];
    if |calls| > 0 {
      var n := |calls| - 1;
      var w, call := Run(store, calls[..n]), calls[n];
      var earlier := RunShows(store, calls[..n]);
      ids := StepSimulates(store, w, earlier, call);
      if call.EmitStarted? && Effective(store, w.sink, call) {
        StartedListing(w.sink.rows, earlier, Run(store, calls).sink.rows, call.id);
      } else {
        SameListing(store, w, earlier, call);
      }
      ListingIsUnique(Run(store, calls).sink.rows, ids, Listed(store, w.sink, earlier, call));
      CallShows(store, calls, earlier);
    }
  }

  lemma {:induction false} SameListing(store: Storage, w: World, ids: seq<EventId>, call: Call)
    requires Simulates(store, w, ids) && !(call.EmitStarted? && Effective(store, w.sink, call))
    ensures IsListing(Step(store, w, call).sink.rows, ids)
  {
    if Effective(store, w.sink, call) && (call.EmitPayloadDelta? || call.EmitCompleted?) {
      CompletedListing(w.sink.rows, ids, Step(store, w, call).sink.rows, call.id);
    }
  }

  /** After any keyed calls every open agent message shows the text it has gathered. */
  lemma {:induction false} OpenMessagesShowTheirText(store: Storage, calls: seq<Call>, ids: seq<EventId>, i: nat)
    requires AllKeyed(store, calls) && IsListing(Run(store, calls).sink.rows, ids) && i < |ids|
    ensures var w := Run(store, calls);
            && |w.view| == |ids| && ids[i] in w.sink.rows
            && (IsOpenMessage(w.sink.rows[ids[i]]) ==> ShowsText(w.view[i].payload, TextSince(store, calls, ids[i])))
  {
    var listed := RunShows(store, calls);
    ListingIsUnique(Run(store, calls).sink.rows, listed, ids);
    assert ShownAt(Run(store, calls), ids, i, TextSince(store, calls, ids[i]));
  }
}
