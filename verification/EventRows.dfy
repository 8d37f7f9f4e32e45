/** What the `events` table holds after any calls, told from the calls alone. */
module EventRows {
  import opened Prelude
  import opened EventSink

  function Table(store: Storage, calls: seq<Call>): SinkState {
    if |calls| == 0 then SinkState(map[], 0, 0)
    else Emit(store, Table(store, calls[..|calls| - 1]), calls[|calls| - 1]).0
  }

  /** Call `i` reaches the table. */
  predicate Reaches(store: Storage, calls: seq<Call>, i: nat) {
    i < |calls| && Effective(store, Table(store, calls[..i]), calls[i])
  }

  predicate StartsAt(store: Storage, calls: seq<Call>, id: EventId, i: nat) {
    Reaches(store, calls, i) && calls[i].EmitStarted? && calls[i].id == id
  }

  predicate CompletesAt(store: Storage, calls: seq<Call>, id: EventId, i: nat) {
    Reaches(store, calls, i) && calls[i].EmitCompleted? && calls[i].id == id
  }

  /** The last completion of the event. */
  ghost predicate LastCompletesAt(store: Storage, calls: seq<Call>, id: EventId, i: nat) {
    CompletesAt(store, calls, id, i) && forall j: nat :: i < j ==> !CompletesAt(store, calls, id, j)
  }

  /** How many runs had begun, and how many events had been tried in the last of them. */
  function RunsIn(calls: seq<Call>): nat {
    if |calls| == 0 then 0 else RunsIn(calls[..|calls| - 1]) + if calls[|calls| - 1].NewRun? then 1 else 0
  }

  function TriedIn(calls: seq<Call>): nat {
    if |calls| == 0 || calls[|calls| - 1].NewRun? then 0
    else TriedIn(calls[..|calls| - 1]) + if calls[|calls| - 1].EmitStarted? then 1 else 0
  }

  /** What the calls from the event's start on made of its payload: each adds its own keys, last one first. */
  ghost predicate Merges(store: Storage, calls: seq<Call>, id: EventId, i: nat) {
    && Reaches(store, calls, i) && (calls[i].EmitPayloadDelta? || calls[i].EmitCompleted? || calls[i].EmitStarted?)
    && calls[i].id == id
  }

  /** The value under a key is that of the last call that gave one. */
  ghost predicate GivesLast(store: Storage, calls: seq<Call>, id: EventId, key: string, i: nat) {
    && Merges(store, calls, id, i) && key in store(calls[i].payload).value
    && forall j: nat :: i < j && Merges(store, calls, id, j) ==> key !in store(calls[j].payload).value
  }

  // ---------- One more call ----------

  predicate IsAbout(call: Call, id: EventId) {
    (call.EmitStarted? || call.EmitPayloadDelta? || call.EmitCompleted?) && call.id == id
  }

  lemma {:induction false} OthersStay(store: Storage, st: SinkState, call: Call, id: EventId)
    requires !IsAbout(call, id) || !Effective(store, st, call)
    ensures var next := Emit(store, st, call).0;
            (id in next.rows <==> id in st.rows) && (id in st.rows ==> next.rows[id] == st.rows[id])
  {
  }

  /** What a call that reaches the table makes of the row it is about. */
  lemma {:induction false} RowAfter(store: Storage, st: SinkState, call: Call, id: EventId)
    requires IsAbout(call, id) && Effective(store, st, call)
    ensures var next, given := Emit(store, st, call).0, store(call.payload).value;
            && id in next.rows && (id in st.rows <==> !call.EmitStarted?)
            && var row := next.rows[id];
               if call.EmitStarted? then
                 row == Row(st.run, st.sequence + 1, call.externalId, call.kind, Started, given)
               else
                 && row.kind == st.rows[id].kind && row.run == st.rows[id].run
                 && row.sequence == st.rows[id].sequence && row.payload == st.rows[id].payload + given
                 && row.status == (if call.EmitPayloadDelta? then st.rows[id].status
                                   else if call.failed then Failed else Completed)
                 && row.externalId == (if call.EmitCompleted? && call.externalId.Some? then call.externalId
                                       else st.rows[id].externalId)
  {
  }

  /** The last call, as a step of the table. */
  lemma {:induction false} LastCall(store: Storage, calls: seq<Call>, id: EventId)
    requires |calls| > 0
    ensures var n, before := |calls| - 1, Table(store, calls[..|calls| - 1]);
            && Table(store, calls) == Emit(store, before, calls[n]).0
            && (Reaches(store, calls, n) <==> Effective(store, before, calls[n]))
            && (Merges(store, calls, id, n) <==> IsAbout(calls[n], id) && Effective(store, before, calls[n]))
  {
  }

  lemma {:induction false} InPrefix(store: Storage, calls: seq<Call>, i: nat)
    requires i < |calls| - 1
    ensures calls[..|calls| - 1][i] == calls[i]
    ensures Reaches(store, calls[..|calls| - 1], i) <==> Reaches(store, calls, i)
  {
    assert calls[..|calls| - 1][..i] == calls[..i];
  }

  lemma {:induction false} PrefixesAgree(store: Storage, calls: seq<Call>)
    requires |calls| > 0
    ensures forall i: nat :: i < |calls| - 1 ==>
              && calls[..|calls| - 1][i] == calls[i]
              && (Reaches(store, calls[..|calls| - 1], i) <==> Reaches(store, calls, i))
  {
    forall i: nat | i < |calls| - 1
      ensures calls[..|calls| - 1][i] == calls[i]
      ensures Reaches(store, calls[..|calls| - 1], i) <==> Reaches(store, calls, i)
    {
      InPrefix(store, calls, i);
    }
  }

  lemma {:induction false} Counters(store: Storage, calls: seq<Call>)
    ensures Table(store, calls).run == RunsIn(calls) && Table(store, calls).sequence == TriedIn(calls)
  {
    if |calls| > 0 {
      Counters(store, calls[..|calls| - 1]);
    }
  }

  // ---------- Main results ----------

  /** An event has a row if and only if one call started it, and its place is that call's: nothing else moves it. */
  lemma {:induction false} RowStartsOnce(store: Storage, calls: seq<Call>, id: EventId)
    ensures id in Table(store, calls).rows <==> exists i: nat :: StartsAt(store, calls, id, i)
    ensures forall i: nat :: StartsAt(store, calls, id, i) ==>
              id in Table(store, calls).rows && IsStartedBy(Table(store, calls).rows[id], calls, i)
  {
    if |calls| > 0 {
      var n, before := |calls| - 1, calls[..|calls| - 1];
      RowStartsOnce(store, before, id);
      forall i: nat
        ensures i < n ==> (StartsAt(store, before, id, i) <==> StartsAt(store, calls, id, i))
        ensures i < n && StartsAt(store, calls, id, i) ==> before[i] == calls[i] && before[..i] == calls[..i]
      {
        if i < n {
          InPrefix(store, calls, i);
        }
      }
      LastCall(store, calls, id);
      Counters(store, before);
      if IsAbout(calls[n], id) && Effective(store, Table(store, before), calls[n]) {
        RowAfter(store, Table(store, before), calls[n], id);
        assert calls[n].EmitStarted? ==> StartsAt(store, calls, id, n);
      } else {
        OthersStay(store, Table(store, before), calls[n], id);
      }
    }
  }

  /** The row has the kind and the place that call `i` gave it. */
  predicate IsStartedBy(row: Row, calls: seq<Call>, i: nat) {
    && i < |calls| && calls[i].EmitStarted? && row.kind == calls[i].kind
    && row.run == RunsIn(calls[..i]) && row.sequence == TriedIn(calls[..i]) + 1
  }

  lemma {:induction false} NoneBeforeStart(store: Storage, calls: seq<Call>, id: EventId)
    requires id !in Table(store, calls).rows
    ensures forall i: nat :: !Merges(store, calls, id, i)
  {
    if |calls| > 0 {
      var n, before := |calls| - 1, calls[..|calls| - 1];
      LastCall(store, calls, id);
      if IsAbout(calls[n], id) && Effective(store, Table(store, before), calls[n]) {
        RowAfter(store, Table(store, before), calls[n], id);
      } else {
        OthersStay(store, Table(store, before), calls[n], id);
        NoneBeforeStart(store, before, id);
        forall i: nat
          ensures !Merges(store, calls, id, i)
        {
          if i < n {
            InPrefix(store, calls, i);
            assert !Merges(store, before, id, i);
          }
        }
      }
    }
  }

  /** A row is open until a completion reaches it, and then says what the last one said. */
  lemma {:induction false} StatusIsTheLast(store: Storage, calls: seq<Call>, id: EventId)
    requires id in Table(store, calls).rows
    ensures var status := Table(store, calls).rows[id].status;
            && (status == Started <==> forall i: nat :: !CompletesAt(store, calls, id, i))
            && (forall i: nat :: LastCompletesAt(store, calls, id, i) ==>
                  status == if calls[i].failed then Failed else Completed)
  {
    var n, before := |calls| - 1, calls[..|calls| - 1];
    var was := Table(store, before);
    LastCall(store, calls, id);
    if CompletesAt(store, calls, id, n) {
      RowAfter(store, was, calls[n], id);
      assert forall i: nat :: LastCompletesAt(store, calls, id, i) ==> i == n;
    } else {
      SameCompletions(store, calls, before, id);
      if IsAbout(calls[n], id) && Effective(store, was, calls[n]) {
        RowAfter(store, was, calls[n], id);
      } else {
        OthersStay(store, was, calls[n], id);
      }
      if id in was.rows {
        StatusIsTheLast(store, before, id);
      } else {
        NoCompletionBeforeStart(store, before, id);
      }
      forall i: nat | LastCompletesAt(store, calls, id, i)
        ensures Table(store, calls).rows[id].status == if calls[i].failed then Failed else Completed
      {
        assert LastCompletesAt(store, before, id, i);
      }
    }
  }

  lemma {:induction false} NoCompletionBeforeStart(store: Storage, calls: seq<Call>, id: EventId)
    requires id !in Table(store, calls).rows
    ensures forall i: nat :: !CompletesAt(store, calls, id, i)
  {
    NoneBeforeStart(store, calls, id);
    forall i: nat
      ensures !CompletesAt(store, calls, id, i)
    {
      assert !Merges(store, calls, id, i);
    }
  }

  lemma {:induction false} SameCompletions(store: Storage, calls: seq<Call>, before: seq<Call>, id: EventId)
    requires |calls| > 0 && before == calls[..|calls| - 1] && !CompletesAt(store, calls, id, |calls| - 1)
    ensures forall i: nat :: CompletesAt(store, calls, id, i) <==> CompletesAt(store, before, id, i)
    ensures forall i: nat :: CompletesAt(store, calls, id, i) ==> before[i] == calls[i]
    ensures forall i: nat ::
              LastCompletesAt(store, calls, id, i) ==> LastCompletesAt(store, before, id, i)
  {
    forall i: nat
      ensures CompletesAt(store, calls, id, i) <==> CompletesAt(store, before, id, i)
      ensures CompletesAt(store, calls, id, i) ==> before[i] == calls[i]
    {
      if i < |calls| - 1 {
        InPrefix(store, calls, i);
      }
    }
  }

  /** Under every key a row holds what the last call that gave a value for it stored, and it has no other keys. */
  lemma {:induction false} PayloadIsTheLast(store: Storage, calls: seq<Call>, id: EventId, key: string)
    requires id in Table(store, calls).rows
    ensures var payload := Table(store, calls).rows[id].payload;
            && (key in payload <==> exists i: nat :: GivesLast(store, calls, id, key, i))
            && (forall i: nat :: GivesLast(store, calls, id, key, i) ==>
                  key in payload && payload[key] == store(calls[i].payload).value[key])
  {
    var n, before := |calls| - 1, calls[..|calls| - 1];
    var was := Table(store, before);
    LastCall(store, calls, id);
    if Merges(store, calls, id, n) {
      RowAfter(store, was, calls[n], id);
    } else {
      OthersStay(store, was, calls[n], id);
    }
    if Merges(store, calls, id, n) && key in store(calls[n].payload).value {
      assert GivesLast(store, calls, id, key, n);
      assert forall i: nat :: GivesLast(store, calls, id, key, i) ==> i == n;
    } else {
      SameGifts(store, calls, before, id, key);
      if id in was.rows {
        PayloadIsTheLast(store, before, id, key);
      } else {
        NoneBeforeStart(store, before, id);
      }
    }
  }

  lemma {:induction false} SameGifts(store: Storage, calls: seq<Call>, before: seq<Call>, id: EventId, key: string)
    requires |calls| > 0 && before == calls[..|calls| - 1]
    requires Merges(store, calls, id, |calls| - 1) ==> key !in store(calls[|calls| - 1].payload).value
    ensures forall i: nat ::
              GivesLast(store, calls, id, key, i) <==> GivesLast(store, before, id, key, i)
    ensures forall i: nat :: GivesLast(store, calls, id, key, i) ==> before[i] == calls[i]
  {
    forall i: nat
      ensures i < |calls| - 1 ==> before[i] == calls[i]
      ensures i < |calls| - 1 ==> (Merges(store, before, id, i) <==> Merges(store, calls, id, i))
    {
      if i < |calls| - 1 {
        InPrefix(store, calls, i);
      }
    }
    forall i: nat
      ensures GivesLast(store, calls, id, key, i) <==> GivesLast(store, before, id, key, i)
    {
      if GivesLast(store, before, id, key, i) {
        forall j: nat | i < j && Merges(store, calls, id, j)
          ensures key !in store(calls[j].payload).value
        {
          assert j < |calls| - 1 ==> Merges(store, before, id, j);
        }
      }
      if GivesLast(store, calls, id, key, i) {
        assert Merges(store, before, id, i);
        forall j: nat | i < j && Merges(store, before, id, j)
          ensures key !in store(before[j].payload).value
        {
          assert Merges(store, calls, id, j);
        }
      }
    }
  }

  /** Call `i` names the event: its start, or a completion that gives an external id. */
  predicate NamesAt(store: Storage, calls: seq<Call>, id: EventId, i: nat) {
    StartsAt(store, calls, id, i) || (CompletesAt(store, calls, id, i) && calls[i].externalId.Some?)
  }

  ghost predicate NamesLast(store: Storage, calls: seq<Call>, id: EventId, i: nat) {
    NamesAt(store, calls, id, i) && forall j: nat :: i < j ==> !NamesAt(store, calls, id, j)
  }

  /** A row has the external id given last; a completion without one leaves it. */
  lemma {:induction false} NameIsTheLast(store: Storage, calls: seq<Call>, id: EventId) returns (i: nat)
    requires id in Table(store, calls).rows
    ensures NamesLast(store, calls, id, i) && Table(store, calls).rows[id].externalId == calls[i].externalId
  {
    var n, before := |calls| - 1, calls[..|calls| - 1];
    var was := Table(store, before);
    LastCall(store, calls, id);
    if IsAbout(calls[n], id) && Effective(store, was, calls[n]) {
      RowAfter(store, was, calls[n], id);
    } else {
      OthersStay(store, was, calls[n], id);
    }
    if NamesAt(store, calls, id, n) {
      i := n;
    } else {
      i := NameIsTheLast(store, before, id);
      SameNames(store, calls, before, id);
    }
  }

  lemma {:induction false} SameNames(store: Storage, calls: seq<Call>, before: seq<Call>, id: EventId)
    requires |calls| > 0 && before == calls[..|calls| - 1] && !NamesAt(store, calls, id, |calls| - 1)
    ensures forall i: nat :: NamesAt(store, calls, id, i) <==> NamesAt(store, before, id, i)
    ensures forall i: nat :: NamesAt(store, calls, id, i) ==> before[i] == calls[i]
  {
    PrefixesAgree(store, calls);
    forall i: nat
      ensures NamesAt(store, calls, id, i) <==> NamesAt(store, before, id, i)
    {
    }
  }
}
