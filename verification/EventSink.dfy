/**
 The worker's event sink: rows of the `events` table and the frames published for them.
 One sink serves one agent run; the runs of a session are numbered from 1.
 */
module EventSink {
  import opened Prelude
  import opened Json

  type EventId = nat
  type Payload = map<string, Json>
  type ExternalId = Option<string>

  datatype Status = Started | Completed | Failed

  datatype Row = Row(
    run: nat, sequence: nat, externalId: ExternalId, kind: string, status: Status, payload: Payload)

  datatype Frame =
    | EventStarted(run: nat, sequence: nat, kind: string, externalId: ExternalId, payload: Payload)
    | EventPayloadDelta(kind: string, externalId: ExternalId, payload: Payload)
    | EventCompleted(run: nat, kind: string, externalId: ExternalId, payload: Payload, status: Status)
    | MessageDelta(text: string)
    | SessionStarted
    | RunStarted
    | RunCompleted
    | SessionCompleted

  /**
   What storing a payload text as `jsonb` yields: the stored object, or nothing when the
   database refuses the text and the call raises. Every result below holds for any such function.
   */
  type Storage = Payload -> Option<Payload>

  /** The calls made on the sinks of one session, run after run. */
  datatype Call =
    | NewRun
    | EmitStarted(id: EventId, kind: string, externalId: ExternalId, payload: Payload)
    | EmitPayloadDelta(id: EventId, externalId: ExternalId, payload: Payload)
    | EmitCompleted(id: EventId, externalId: ExternalId, payload: Payload, failed: bool)
    | EmitMessageDelta(text: string)

  datatype SinkState = SinkState(rows: map<EventId, Row>, run: nat, sequence: nat)

  /** The call reaches the table: the identifier is usable and the database accepts the payload. */
  predicate Effective(store: Storage, st: SinkState, call: Call) {
    match call
    case EmitStarted(id, _, _, payload) => id !in st.rows && store(payload).Some?
    case EmitPayloadDelta(id, _, payload) => id in st.rows && store(payload).Some?
    case EmitCompleted(id, _, payload, _) => id in st.rows && store(payload).Some?
    case _ => true
  }

  function Coalesce(a: ExternalId, b: ExternalId): ExternalId {
    if a.Some? then a else b
  }

  /** The table after a call, and the frame published for it, if any. */
  function Emit(store: Storage, st: SinkState, call: Call): (SinkState, Option<Frame>) {
    match call
    case NewRun => (st.(run := st.run + 1, sequence := 0), None)
    case EmitStarted(id, kind, externalId, payload) =>
      var bumped := st.(sequence := st.sequence + 1);
      if !Effective(store, st, call) then (bumped, None)
      else
        var row := Row(st.run, bumped.sequence, externalId, kind, Started, store(payload).value);
        (bumped.(rows := st.rows[id := row]),
         Some(EventStarted(st.run, bumped.sequence, kind, externalId, payload)))
    case EmitPayloadDelta(id, externalId, payload) =>
      if !Effective(store, st, call) then (st, None)
      else
        var row := st.rows[id].(payload := st.rows[id].payload + store(payload).value);
        (st.(rows := st.rows[id := row]), Some(EventPayloadDelta(row.kind, externalId, row.payload)))
    case EmitCompleted(id, externalId, payload, failed) =>
      if !Effective(store, st, call) then (st, None)
      else
        var prior := st.rows[id];
        var row := prior.(
          status := if failed then Failed else Completed,
          externalId := Coalesce(externalId, prior.externalId),
          payload := prior.payload + store(payload).value);
        (st.(rows := st.rows[id := row]),
         Some(EventCompleted(st.run, row.kind, row.externalId, row.payload, row.status)))
    case EmitMessageDelta(text) => (st, Some(MessageDelta(text)))
  }

  /** The `events` table. */
  class Database {
    var rows: map<EventId, Row>

    constructor ()
      ensures rows == map[]
    {
      rows := map[];
    }
  }

  /** The session's event channel; `frames` is everything published so far. */
  class Channel {
    var frames: seq<Frame>

    constructor ()
      ensures frames == []
    {
      frames := [];
    }

    method Publish(frame: Frame)
      modifies this
      ensures frames == old(frames) + [frame]
    {
      frames := frames + [frame];
    }
  }

  function Published(frame: Option<Frame>): seq<Frame> {
    if frame.Some? then [frame.value] else []
  }

  class DbEventSink {
    const conn: Database
    const channel: Channel
    const store: Storage
    const run: nat
    var sequence: nat

    constructor (conn: Database, channel: Channel, store: Storage, run: nat)
      ensures this.conn == conn && this.channel == channel && this.store == store && this.run == run
      ensures sequence == 0
    {
      this.conn, this.channel, this.store, this.run := conn, channel, store, run;
      sequence := 0;
    }

    function State(): SinkState
      reads this, conn
    {
      SinkState(conn.rows, run, sequence)
    }

    /** `raised` reports a refused insert; the sequence number is used up all the same. */
    method EmitEventStarted(id: EventId, kind: string, externalId: ExternalId, payload: Payload)
      returns (raised: bool)
      modifies this, conn, channel
      ensures raised == !Effective(store, old(State()), EmitStarted(id, kind, externalId, payload))
      ensures var (st, frame) := Emit(store, old(State()), EmitStarted(id, kind, externalId, payload));
              State() == st && channel.frames == old(channel.frames) + Published(frame)
    {
      sequence := sequence + 1;
      var stored := store(payload);
      if id in conn.rows || stored.None? {
        return true;
      }
      conn.rows := conn.rows[id := Row(run, sequence, externalId, kind, Started, stored.value)];
      channel.Publish(EventStarted(run, sequence, kind, externalId, payload));
      raised := false;
    }

    /** `raised` reports a refused UPDATE; a row that is gone is passed over in silence. */
    method EmitEventCompleted(id: EventId, externalId: ExternalId, payload: Payload, failed: bool)
      returns (raised: bool)
      modifies this, conn, channel
      ensures raised == store(payload).None?
      ensures var (st, frame) := Emit(store, old(State()), EmitCompleted(id, externalId, payload, failed));
              State() == st && channel.frames == old(channel.frames) + Published(frame)
    {
      var stored := store(payload);
      raised := stored.None?;
      if raised || id !in conn.rows {
        return;
      }
      var row := conn.rows[id];
      conn.rows := conn.rows[id := row.(
        status := if failed then Failed else Completed,
        externalId := Coalesce(externalId, row.externalId),
        payload := row.payload + stored.value)];
      row := conn.rows[id];
      channel.Publish(EventCompleted(run, row.kind, row.externalId, row.payload, row.status));
    }

    method EmitEventPayloadDelta(id: EventId, externalId: ExternalId, delta: Payload) returns (raised: bool)
      modifies this, conn, channel
      ensures raised == store(delta).None?
      ensures var (st, frame) := Emit(store, old(State()), EmitPayloadDelta(id, externalId, delta));
              State() == st && channel.frames == old(channel.frames) + Published(frame)
    {
      var stored := store(delta);
      raised := stored.None?;
      if raised || id !in conn.rows {
        return;
      }
      var row := conn.rows[id];
      conn.rows := conn.rows[id := row.(payload := row.payload + stored.value)];
      channel.Publish(EventPayloadDelta(row.kind, externalId, conn.rows[id].payload));
    }

    method EmitMessageText(text: string)
      modifies channel
      ensures State() == old(State())
      ensures channel.frames == old(channel.frames) + [MessageDelta(text)]
    {
      channel.Publish(MessageDelta(text));
    }
  }
}
