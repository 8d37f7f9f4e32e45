/** The browser's reducer: how a published frame changes the list of chat items of a session. */
module SessionView {
  import opened Prelude
  import opened Json
  import opened EventSink

  const AGENT_MESSAGE := "codex:agent_message"
  const TEXT := "text"

  datatype Item = Item(
    run: nat, sequence: nat, externalId: ExternalId, kind: string, status: Status, payload: Payload)

  datatype SessionStatus = Queued | Running | Terminal

  datatype Entry = Entry(session: nat, status: SessionStatus, items: seq<Item>)

  /** JavaScript's `findIndex` on the external id; the length when there is none. */
  function FindExternal(items: seq<Item>, id: string): (i: nat)
    ensures i <= |items|
    ensures forall j :: 0 <= j < i ==> items[j].externalId != Some(id)
    ensures i < |items| ==> items[i].externalId == Some(id)
  {
    if |items| == 0 || items[0].externalId == Some(id) then 0
    else 1 + FindExternal(items[1..], id)
  }

  function Locate(items: seq<Item>, externalId: ExternalId): (i: nat)
    ensures i <= |items|
  {
    if externalId.None? then |items| else FindExternal(items, externalId.value)
  }

  predicate Streaming(item: Item) {
    item.kind == AGENT_MESSAGE && item.status == Started
  }

  /** The newest open agent message; -1 when there is none. */
  function StreamTarget(items: seq<Item>): (i: int)
    ensures -1 <= i < |items|
    ensures i >= 0 ==> Streaming(items[i])
    ensures forall j :: i < j < |items| ==> !Streaming(items[j])
  {
    if |items| == 0 then -1
    else if Streaming(items[|items| - 1]) then |items| - 1
    else StreamTarget(items[..|items| - 1])
  }

  method FindStreamTarget(items: seq<Item>) returns (target: int)
    ensures target == StreamTarget(items)
  {
    target := -1;
    var i := |items| - 1;
    while i >= 0
      invariant -1 <= i < |items|
      invariant StreamTarget(items) == StreamTarget(items[..i + 1])
      invariant target == -1
    {
      if Streaming(items[i]) {
        target := i;
        break;
      }
      assert items[..i + 1][..i] == items[..i];
      i := i - 1;
    }
  }

  function TextOf(payload: Payload): string {
    if TEXT in payload && payload[TEXT].JStr? then payload[TEXT].s else ""
  }

  function Apply(items: seq<Item>, frame: Frame): seq<Item> {
    match frame
    case EventStarted(run, sequence, kind, externalId, payload) =>
      var placeholder := Item(run, sequence, externalId, kind, Started, payload);
      var i := Locate(items, externalId);
      if i == |items| then items + [placeholder] else items[i := placeholder]
    case EventPayloadDelta(_, externalId, payload) =>
      var i := Locate(items, externalId);
      if i == |items| then items
      else items[i := items[i].(payload := items[i].payload + payload)]
    case EventCompleted(run, kind, externalId, payload, _) =>
      var i := Locate(items, externalId);
      if i == |items| then
        items + [Item(run, |items| + 1, externalId, kind, Completed, payload)]
      else items[i := items[i].(kind := kind, status := Completed, payload := payload)]
    case MessageDelta(text) =>
      var i := StreamTarget(items);
      if i < 0 then items
      else
        var p := items[i].payload;
        items[i := items[i].(payload := p[TEXT := JStr(TextOf(p) + text)])]
    case _ => items
  }

  function StatusAfter(status: SessionStatus, frame: Frame): SessionStatus {
    match frame
    case SessionStarted => Running
    case SessionCompleted => Terminal
    case _ => status
  }

  function FindSession(entries: seq<Entry>, session: nat): (i: nat)
    ensures i <= |entries|
    ensures forall j :: 0 <= j < i ==> entries[j].session != session
    ensures i < |entries| ==> entries[i].session == session
  {
    if |entries| == 0 || entries[0].session == session then 0 else 1 + FindSession(entries[1..], session)
  }

  function ApplyToSessions(entries: seq<Entry>, session: nat, frame: Frame): seq<Entry> {
    var i := FindSession(entries, session);
    if i == |entries| then entries
    else
      var entry := entries[i];
      entries[i := Entry(session, StatusAfter(entry.status, frame), Apply(entry.items, frame))]
  }

  /** Frames of two different sessions can be swapped: neither touches the other's entry. */
  lemma {:induction false} SessionsAreIndependent(entries: seq<Entry>, s: nat, f: Frame, t: nat, g: Frame)
    requires s != t
    ensures ApplyToSessions(ApplyToSessions(entries, s, f), t, g)
         == ApplyToSessions(ApplyToSessions(entries, t, g), s, f)
  {
    SameFind(entries, s, f, t);
    SameFind(entries, t, g, s);
    var i, j := FindSession(entries, s), FindSession(entries, t);
    if i < |entries| && j < |entries| {
      SwapUpdates(entries, i, j, ApplyToSessions(entries, s, f)[i], ApplyToSessions(entries, t, g)[j]);
    }
  }

  lemma SwapUpdates(entries: seq<Entry>, i: nat, j: nat, a: Entry, b: Entry)
    requires i < |entries| && j < |entries| && i != j
    ensures entries[i := a][j := b] == entries[j := b][i := a]
  {
  }

  lemma {:induction false} FirstIsUnique(a: seq<Entry>, b: seq<Entry>, s: nat)
    requires |a| == |b| && forall i :: 0 <= i < |a| ==> a[i].session == b[i].session
    ensures FindSession(a, s) == FindSession(b, s)
  {
  }

  lemma {:induction false} SameFind(entries: seq<Entry>, s: nat, f: Frame, t: nat)
    requires s != t
    ensures FindSession(ApplyToSessions(entries, s, f), t) == FindSession(entries, t)
  {
    var after := ApplyToSessions(entries, s, f);
    assert |after| == |entries|;
    assert forall i :: 0 <= i < |entries| ==> after[i].session == entries[i].session;
    FirstIsUnique(entries, after, t);
  }

  /** No two items carry the same external id. */
  predicate DistinctItems(items: seq<Item>) {
    forall i, j :: 0 <= i < j < |items| && items[i].externalId.Some?
      ==> items[i].externalId != items[j].externalId
  }

  /** With distinct external ids, `findIndex` is the inverse of indexing. */
  lemma LocateIsUnique(items: seq<Item>, i: nat)
    requires DistinctItems(items) && i < |items| && items[i].externalId.Some?
    ensures Locate(items, items[i].externalId) == i
  {
    var k := FindExternal(items, items[i].externalId.value);
  }

  lemma ApplyKeepsDistinct(items: seq<Item>, frame: Frame)
    requires DistinctItems(items)
    ensures DistinctItems(Apply(items, frame))
  {
  }

  /** Delivering a completed frame twice is delivering it once, exactly when it names its event. */
  lemma DuplicateCompleted(items: seq<Item>, frame: Frame)
    requires frame.EventCompleted?
    ensures Apply(Apply(items, frame), frame) == Apply(items, frame) <==> frame.externalId.Some?
  {
    var once := Apply(items, frame);
    if frame.externalId.Some? {
      var i := Locate(items, frame.externalId);
      var id := frame.externalId.value;
      assert once[i].externalId == Some(id);
      assert forall j :: 0 <= j < i ==> once[j].externalId != Some(id);
      assert FindExternal(once, id) == i;
      assert once[i := once[i]] == once;
    } else {
      assert |Apply(once, frame)| == |once| + 1;
    }
  }

  /** A completed frame for an event the view does not know puts it last, complete and numbered by its place. */
  lemma CompletedWithoutStart(items: seq<Item>, frame: Frame)
    requires frame.EventCompleted?
    requires frame.externalId.Some? ==> forall i :: 0 <= i < |items| ==> items[i].externalId != frame.externalId
    ensures var after := Apply(items, frame);
            && |after| > 0 && after[..|after| - 1] == items
            && var last := after[|after| - 1];
            && last.sequence == |after| && last.status == Completed && last.externalId == frame.externalId
            && last.kind == frame.kind && last.payload == frame.payload && last.run == frame.run
  {
  }

  // ---------- Many sessions on one page ----------

  /** A frame and the session it is about. */
  datatype Addressed = Addressed(session: nat, frame: Frame)

  function AfterAll(entries: seq<Entry>, frames: seq<Addressed>): seq<Entry> {
    if |frames| == 0 then entries
    else
      var last := frames[|frames| - 1];
      ApplyToSessions(AfterAll(entries, frames[..|frames| - 1]), last.session, last.frame)
  }

  /** The frames about one session, in order. */
  function Own(frames: seq<Addressed>, session: nat): seq<Frame> {
    if |frames| == 0 then []
    else
      var last := frames[|frames| - 1];
      Own(frames[..|frames| - 1], session) + if last.session == session then [last.frame] else []
  }

  function Folded(items: seq<Item>, frames: seq<Frame>): seq<Item> {
    if |frames| == 0 then items else Apply(Folded(items, frames[..|frames| - 1]), frames[|frames| - 1])
  }

  /** The frame that the status follows. */
  predicate SetsStatus(frame: Frame) {
    frame.SessionStarted? || frame.SessionCompleted?
  }

  /** The status is what the last frame says that says anything, and else what it was. */
  ghost predicate StatusFollows(before: SessionStatus, frames: seq<Frame>, after: SessionStatus) {
    || (after == before && forall i :: 0 <= i < |frames| ==> !SetsStatus(frames[i]))
    || exists i :: 0 <= i < |frames| && after == (if frames[i].SessionStarted? then Running else Terminal)
                   && SetsStatus(frames[i]) && forall j :: i < j < |frames| ==> !SetsStatus(frames[j])
  }

  lemma {:induction false} StatusOneMore(
    before: SessionStatus, frames: seq<Frame>, frame: Frame, was: SessionStatus)
    requires StatusFollows(before, frames, was)
    ensures StatusFollows(before, frames + [frame], StatusAfter(was, frame))
  {
    var all := frames + [frame];
    if SetsStatus(frame) {
      assert all[|frames|] == frame;
    } else if !(was == before && forall i :: 0 <= i < |frames| ==> !SetsStatus(frames[i])) {
      var i :| 0 <= i < |frames| && was == (if frames[i].SessionStarted? then Running else Terminal)
               && SetsStatus(frames[i]) && forall j :: i < j < |frames| ==> !SetsStatus(frames[j]);
      assert all[i] == frames[i];
    }
  }

  /** However the frames of all sessions interleave, an entry shows what its own make of it, in its place. */
  lemma {:induction false} EntriesFollowTheirOwn(entries: seq<Entry>, frames: seq<Addressed>, session: nat)
    ensures var after, i := AfterAll(entries, frames), FindSession(entries, session);
            && |after| == |entries| && FindSession(after, session) == i
            && (forall j :: 0 <= j < |entries| ==> after[j].session == entries[j].session)
            && (i < |entries| ==>
                  && after[i].items == Folded(entries[i].items, Own(frames, session))
                  && StatusFollows(entries[i].status, Own(frames, session), after[i].status))
  {
    if |frames| > 0 {
      var before, last := frames[..|frames| - 1], frames[|frames| - 1];
      var was := AfterAll(entries, before);
      EntriesFollowTheirOwn(entries, before, session);
      FirstIsUnique(was, AfterAll(entries, frames), session);
      var i := FindSession(entries, session);
      if i < |entries| && last.session == session {
        var own := Own(before, session);
        assert (own + [last.frame])[..|own|] == own;
        StatusOneMore(entries[i].status, own, last.frame, was[i].status);
      } else if i < |entries| {
        assert FindSession(was, last.session) != i;
        assert Own(frames, session) == Own(before, session);
      }
    }
  }

  // ---------- Streamed text ----------

  /** The text a payload shows: its string under `text`, and nothing if there is none. */
  predicate ShowsText(payload: Payload, text: string) {
    if TEXT in payload && payload[TEXT].JStr? then payload[TEXT] == JStr(text) else text == ""
  }

  function Streamed(items: seq<Item>, texts: seq<string>): seq<Item> {
    if |texts| == 0 then items
    else Apply(Streamed(items, texts[..|texts| - 1]), MessageDelta(texts[|texts| - 1]))
  }

  function Concat(texts: seq<string>): string {
    if |texts| == 0 then "" else texts[0] + Concat(texts[1..])
  }

  predicate IsNewestOpen(items: seq<Item>, k: nat) {
    k < |items| && Streaming(items[k]) && forall j :: k < j < |items| ==> !Streaming(items[j])
  }

  predicate NoneOpen(items: seq<Item>) {
    forall j :: 0 <= j < |items| ==> !Streaming(items[j])
  }

  /** Two items alike but for their text. */
  predicate SameButText(a: Item, b: Item) {
    a.(payload := b.payload) == b && a.payload - {TEXT} == b.payload - {TEXT}
  }

  /** The newest open message, at `k`, is open and the newest still and shows this text; nothing else has changed. */
  predicate OnlyTextOf(k: nat, items: seq<Item>, after: seq<Item>, text: string) {
    && |after| == |items| && IsNewestOpen(after, k) && ShowsText(after[k].payload, text)
    && SameButText(after[k], items[k]) && forall i :: 0 <= i < |items| && i != k ==> after[i] == items[i]
  }

  lemma {:induction false} OnlyTextOnceMore(
    k: nat, items: seq<Item>, mid: seq<Item>, after: seq<Item>, text: string, more: string)
    requires OnlyTextOf(k, items, mid, text) && OnlyTextOf(k, mid, after, more)
    ensures OnlyTextOf(k, items, after, more)
  {
  }

  lemma {:induction false} ConcatOneMore(texts: seq<string>, last: string)
    ensures Concat(texts + [last]) == Concat(texts) + last
  {
    if |texts| > 0 {
      ConcatOneMore(texts[1..], last);
      assert (texts + [last])[1..] == texts[1..] + [last];
    } else {
      assert ([last])[1..] == [] && Concat([]) == "";
    }
  }

  lemma {:induction false} ShownSoFar(shown: string, texts: seq<string>)
    ensures |texts| == 0 ==> shown + Concat(texts) == shown
    ensures |texts| > 0 ==>
              shown + Concat(texts) == shown + Concat(texts[..|texts| - 1]) + texts[|texts| - 1]
  {
    if |texts| > 0 {
      var before, last := texts[..|texts| - 1], texts[|texts| - 1];
      ConcatOneMore(before, last);
      assert before + [last] == texts;
      assert shown + (Concat(before) + last) == shown + Concat(before) + last;
    }
  }

  lemma {:induction false} OneDelta(items: seq<Item>, k: nat, shown: string, more: string)
    requires IsNewestOpen(items, k) && ShowsText(items[k].payload, shown)
    ensures OnlyTextOf(k, items, Apply(items, MessageDelta(more)), shown + more)
  {
    assert StreamTarget(items) == k;
    var p := items[k].payload;
    assert p[TEXT := JStr(shown + more)] - {TEXT} == p - {TEXT};
  }

  /**
   Streamed text arrives in order: after any number of deltas the newest open agent message shows what it showed before
   and then the deltas one after the other; nothing else has changed.
   */
  lemma {:induction false} TextStreamsInOrder(items: seq<Item>, texts: seq<string>, k: nat, shown: string)
    requires IsNewestOpen(items, k) && ShowsText(items[k].payload, shown)
    ensures OnlyTextOf(k, items, Streamed(items, texts), shown + Concat(texts))
  {
    ShownSoFar(shown, texts);
    if |texts| > 0 {
      var before, last := texts[..|texts| - 1], texts[|texts| - 1];
      var mid, sofar := Streamed(items, before), shown + Concat(before);
      TextStreamsInOrder(items, before, k, shown);
      OneDelta(mid, k, sofar, last);
      OnlyTextOnceMore(k, items, mid, Apply(mid, MessageDelta(last)), sofar, sofar + last);
    }
  }

  /** Without an open agent message deltas change nothing. */
  lemma {:induction false} TextWithoutTarget(items: seq<Item>, texts: seq<string>)
    requires NoneOpen(items)
    ensures Streamed(items, texts) == items
  {
    if |texts| > 0 {
      TextWithoutTarget(items, texts[..|texts| - 1]);
    }
  }
}
