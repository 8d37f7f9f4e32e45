/** The chat stream's grouping: runs of noise collapse into clusters, everything else stands alone. */
module MessageGrouping {
  import opened Json

  /** A chat message: an agent's item, or any of the other kinds. */
  datatype Message = Item(id: string, kind: string, payload: Json) | Other(id: string)

  const COMMAND := "codex:command_execution"
  const REASONING := "codex:reasoning"
  const TOOL_CALL := "codex:mcp_tool_call"

  /** What JavaScript's `trim` removes. */
  predicate IsJsSpace(c: char) {
    || '\t' <= c <= '\r' || c == ' ' || c == '\U{A0}' || c == '\U{1680}' || '\U{2000}' <= c <= '\U{200A}'
    || c == '\U{2028}' || c == '\U{2029}' || c == '\U{202F}' || c == '\U{205F}' || c == '\U{3000}' || c == '\U{FEFF}'
  }

  /** A string with something to show. */
  predicate IsReadable(v: Json) {
    v.JStr? && exists i :: 0 <= i < |v.s| && !IsJsSpace(v.s[i])
  }

  predicate IsNoise(m: Message) {
    && m.Item?
    && m.kind in {COMMAND, REASONING, TOOL_CALL}
    && (m.kind == REASONING ==> !IsReadable(Get(m.payload, "summary")) && !IsReadable(Get(m.payload, "content")))
  }

  /** The white space and line terminators of ECMAScript, by code point. */
  const JS_SPACES := [9, 10, 11, 12, 13, 32, 160, 5760, 8192, 8193, 8194, 8195, 8196, 8197, 8198, 8199, 8200, 8201,
                      8202, 8232, 8233, 8239, 8287, 12288, 65279]

  lemma {:induction false} SpacesExactly(c: char)
    ensures IsJsSpace(c) <==> c as int in JS_SPACES
  {
    var n := c as int;
    assert 9 <= n <= 13 ==> n == JS_SPACES[n - 9];
    assert 8192 <= n <= 8202 ==> n == JS_SPACES[n - 8192 + 8];
    assert JS_SPACES[5] == 32 && JS_SPACES[6] == 160 && JS_SPACES[7] == 5760;
    assert JS_SPACES[19] == 8232 && JS_SPACES[20] == 8233 && JS_SPACES[21] == 8239;
    assert JS_SPACES[22] == 8287 && JS_SPACES[23] == 12288 && JS_SPACES[24] == 65279;
  }

  /** The text is there to be read: not all of it is space. */
  ghost predicate HasText(v: Json) {
    exists s: string, i: nat :: v == JStr(s) && i < |s| && s[i] as int !in JS_SPACES
  }

  /** Commands and tool calls are noise, and so is reasoning with nothing to read; nothing else is. */
  lemma {:induction false} NoiseExactly(m: Message)
    ensures IsNoise(m) <==>
            && m.Item?
            && (m.kind == "codex:command_execution" || m.kind == "codex:mcp_tool_call"
                || (m.kind == "codex:reasoning"
                    && !HasText(Get(m.payload, "summary")) && !HasText(Get(m.payload, "content"))))
  {
    if m.Item? {
      ReadableExactly(Get(m.payload, "summary"));
      ReadableExactly(Get(m.payload, "content"));
    }
  }

  lemma {:induction false} ReadableExactly(v: Json)
    ensures IsReadable(v) <==> HasText(v)
  {
    if IsReadable(v) {
      var i :| 0 <= i < |v.s| && !IsJsSpace(v.s[i]);
      SpacesExactly(v.s[i]);
      assert v == JStr(v.s);
    }
    if HasText(v) {
      var s: string, i: nat :| v == JStr(s) && i < |s| && s[i] as int !in JS_SPACES;
      SpacesExactly(v.s[i]);
    }
  }

  datatype Group = Single(message: Message) | Cluster(messages: seq<Message>)

  function MessagesOf(g: Group): seq<Message> {
    match g
    case Single(m) => [m]
    case Cluster(ms) => ms
  }

  function Flatten(groups: seq<Group>): seq<Message> {
    if |groups| == 0 then [] else MessagesOf(groups[0]) + Flatten(groups[1..])
  }

  predicate AllNoise(ms: seq<Message>) {
    forall i :: 0 <= i < |ms| ==> IsNoise(ms[i])
  }

  predicate IsWellMade(g: Group) {
    g.Cluster? ==> |g.messages| >= 2 && AllNoise(g.messages)
  }

  /** Clusters hold at least two messages, all noise, and no two neighbours could have been one cluster. */
  predicate IsCanonical(groups: seq<Group>) {
    && (forall i :: 0 <= i < |groups| ==> IsWellMade(groups[i]))
    && (forall i :: 0 <= i < |groups| - 1 ==> !(AllNoise(MessagesOf(groups[i])) && AllNoise(MessagesOf(groups[i + 1]))))
  }

  predicate EndsMeaningful(groups: seq<Group>) {
    |groups| > 0 ==> !AllNoise(MessagesOf(groups[|groups| - 1]))
  }

  lemma {:induction false} FlattenOneMore(groups: seq<Group>, g: Group)
    ensures Flatten(groups + [g]) == Flatten(groups) + MessagesOf(g)
  {
    if |groups| == 0 {
      assert groups + [g] == [g] && Flatten([g]) == MessagesOf(g) + Flatten([g][1..]);
    } else {
      assert (groups + [g])[1..] == groups[1..] + [g];
      FlattenOneMore(groups[1..], g);
    }
  }

  lemma {:induction false} CanonicalOneMore(groups: seq<Group>, g: Group)
    requires IsCanonical(groups) && IsWellMade(g)
    requires EndsMeaningful(groups) || !AllNoise(MessagesOf(g))
    ensures IsCanonical(groups + [g])
  {
    var more := groups + [g];
    forall i | 0 <= i < |more| - 1
      ensures !(AllNoise(MessagesOf(more[i])) && AllNoise(MessagesOf(more[i + 1])))
    {
      assert i < |groups| - 1 || (more[i] == groups[|groups| - 1] && more[i + 1] == g);
    }
  }

  /** A buffered run of noise, if any, becomes one group. */
  method FlushNoise(groups: seq<Group>, buffer: seq<Message>) returns (flushed: seq<Group>)
    requires IsCanonical(groups) && EndsMeaningful(groups) && AllNoise(buffer)
    ensures IsCanonical(flushed) && Flatten(flushed) == Flatten(groups) + buffer
    ensures buffer == [] ==> flushed == groups
  {
    if |buffer| == 0 {
      return groups;
    }
    var g := if |buffer| == 1 then Single(buffer[0]) else Cluster(buffer);
    assert MessagesOf(g) == buffer;
    CanonicalOneMore(groups, g);
    FlattenOneMore(groups, g);
    flushed := groups + [g];
  }

  /** `done` is grouped, up to a run of noise still buffered. */
  predicate Progress(groups: seq<Group>, buffer: seq<Message>, done: seq<Message>) {
    IsCanonical(groups) && EndsMeaningful(groups) && AllNoise(buffer) && Flatten(groups) + buffer == done
  }

  lemma {:induction false} NoiseIsBuffered(groups: seq<Group>, buffer: seq<Message>, done: seq<Message>, m: Message)
    requires Progress(groups, buffer, done) && IsNoise(m)
    ensures Progress(groups, buffer + [m], done + [m])
  {
    assert Flatten(groups) + (buffer + [m]) == Flatten(groups) + buffer + [m];
  }

  lemma {:induction false} MeaningfulStandsAlone(groups: seq<Group>, m: Message)
    requires IsCanonical(groups) && !IsNoise(m)
    ensures Progress(groups + [Single(m)], [], Flatten(groups) + [m])
  {
    assert MessagesOf(Single(m))[0] == m;
    CanonicalOneMore(groups, Single(m));
    FlattenOneMore(groups, Single(m));
    assert Flatten(groups + [Single(m)]) + [] == Flatten(groups + [Single(m)]);
  }

  lemma {:induction false} PrefixOneMore(messages: seq<Message>, i: nat)
    requires i < |messages|
    ensures messages[..i + 1] == messages[..i] + [messages[i]]
  {
  }

  /** The grouping loses nothing, keeps the order, and is canonical. */
  method GroupMessages(messages: seq<Message>) returns (groups: seq<Group>)
    ensures Flatten(groups) == messages && IsCanonical(groups)
  {
    groups := [];
    var buffer: seq<Message> := [];
    for i := 0 to |messages|
      invariant Progress(groups, buffer, messages[..i])
    {
      PrefixOneMore(messages, i);
      if IsNoise(messages[i]) {
        NoiseIsBuffered(groups, buffer, messages[..i], messages[i]);
        buffer := buffer + [messages[i]];
      } else {
        groups := FlushNoise(groups, buffer);
        MeaningfulStandsAlone(groups, messages[i]);
        groups := groups + [Single(messages[i])];
        buffer := [];
      }
    }
    assert messages[..|messages|] == messages;
    groups := FlushNoise(groups, buffer);
  }

  // ---------- There is only one such grouping ----------

  /** The length of the leading run of noise. */
  function NoiseRun(ms: seq<Message>): (n: nat)
    ensures n <= |ms|
  {
    if |ms| > 0 && IsNoise(ms[0]) then 1 + NoiseRun(ms[1..]) else 0
  }

  lemma {:induction false} NoiseRunOf(run: seq<Message>, rest: seq<Message>)
    requires AllNoise(run) && (|rest| > 0 ==> !IsNoise(rest[0]))
    ensures NoiseRun(run + rest) == |run|
  {
    if |run| == 0 {
      assert run + rest == rest;
    } else {
      assert (run + rest)[1..] == run[1..] + rest;
      NoiseRunOf(run[1..], rest);
    }
  }

  lemma {:induction false} MeaningfulGroup(g: Group)
    requires IsWellMade(g) && !AllNoise(MessagesOf(g))
    ensures g.Single? && !IsNoise(g.message)
  {
  }

  /** The first group is the whole first run of noise, or the first message if that is none. */
  lemma {:induction false} FirstGroup(groups: seq<Group>)
    requires IsCanonical(groups) && |groups| > 0
    ensures var ms := Flatten(groups);
            var n := NoiseRun(ms);
            && |ms| > 0
            && groups[0] == (if n >= 2 then Cluster(ms[..n]) else Single(ms[0]))
            && Flatten(groups[1..]) == ms[|MessagesOf(groups[0])|..]
  {
    var first, rest := MessagesOf(groups[0]), Flatten(groups[1..]);
    assert IsWellMade(groups[0]);
    if AllNoise(first) {
      if |groups| > 1 {
        assert IsWellMade(groups[1]);
        MeaningfulGroup(groups[1]);
        assert groups[1..][0] == groups[1];
        assert rest[0] == groups[1].message;
      }
      NoiseRunOf(first, rest);
    } else {
      MeaningfulGroup(groups[0]);
      NoiseRunOf([], first + rest);
      assert [] + (first + rest) == first + rest;
    }
  }

  lemma {:induction false} TailIsCanonical(groups: seq<Group>)
    requires IsCanonical(groups) && |groups| > 0
    ensures IsCanonical(groups[1..])
  {
    var tail := groups[1..];
    assert forall i :: 0 <= i < |tail| ==> tail[i] == groups[i + 1];
  }

  /** So what `GroupMessages` ensures determines its result. */
  lemma {:induction false} CanonicalIsUnique(a: seq<Group>, b: seq<Group>)
    requires IsCanonical(a) && IsCanonical(b) && Flatten(a) == Flatten(b)
    ensures a == b
  {
    if |a| == 0 || |b| == 0 {
      if |a| > 0 {
        FirstGroup(a);
      }
      if |b| > 0 {
        FirstGroup(b);
      }
    } else {
      FirstGroup(a);
      FirstGroup(b);
      TailIsCanonical(a);
      TailIsCanonical(b);
      CanonicalIsUnique(a[1..], b[1..]);
      assert a == [a[0]] + a[1..] && b == [b[0]] + b[1..];
    }
  }

  // ---------- Counting a cluster's kinds ----------

  datatype KindCount = KindCount(kind: string, count: nat)

  function CountOf(ms: seq<Message>, kind: string): nat {
    if |ms| == 0 then 0
    else
      var last := ms[|ms| - 1];
      CountOf(ms[..|ms| - 1], kind) + (if last.Item? && last.kind == kind then 1 else 0)
  }

  function ItemsIn(ms: seq<Message>): nat {
    if |ms| == 0 then 0 else ItemsIn(ms[..|ms| - 1]) + (if ms[|ms| - 1].Item? then 1 else 0)
  }

  /** The kinds in the order they are first seen. */
  function KindsOf(ms: seq<Message>): seq<string> {
    if |ms| == 0 then []
    else
      var before, last := KindsOf(ms[..|ms| - 1]), ms[|ms| - 1];
      if last.Item? && last.kind !in before then before + [last.kind] else before
  }

  function Counted(ms: seq<Message>, kinds: seq<string>): seq<KindCount> {
    seq(|kinds|, i requires 0 <= i < |kinds| => KindCount(kinds[i], CountOf(ms, kinds[i])))
  }

  method CountByKind(messages: seq<Message>) returns (rows: seq<KindCount>)
    ensures rows == Counted(messages, KindsOf(messages))
  {
    var order: seq<string> := [];
    var counts: map<string, nat> := map[];
    for i := 0 to |messages|
      invariant order == KindsOf(messages[..i])
      invariant forall k :: k in counts <==> k in order
      invariant forall k :: k in counts ==> counts[k] == CountOf(messages[..i], k)
      invariant forall k :: k !in counts ==> CountOf(messages[..i], k) == 0
    {
      assert messages[..i + 1][..i] == messages[..i];
      var m := messages[i];
      if m.Item? {
        var seen := if m.kind in counts then counts[m.kind] else 0;
        if m.kind !in counts {
          order := order + [m.kind];
        }
        counts := counts[m.kind := seen + 1];
      }
    }
    assert messages[..|messages|] == messages;
    rows := seq(|order|, i requires 0 <= i < |order| => KindCount(order[i], counts[order[i]]));
  }

  function Sum(ms: seq<Message>, kinds: seq<string>): nat {
    if |kinds| == 0 then 0 else Sum(ms, kinds[..|kinds| - 1]) + CountOf(ms, kinds[|kinds| - 1])
  }

  predicate DistinctKinds(kinds: seq<string>) {
    forall i, j :: 0 <= i < j < |kinds| ==> kinds[i] != kinds[j]
  }

  lemma {:induction false} SumOneMore(ms: seq<Message>, m: Message, kinds: seq<string>)
    requires DistinctKinds(kinds)
    ensures Sum(ms + [m], kinds) == Sum(ms, kinds) + (if m.Item? && m.kind in kinds then 1 else 0)
  {
    if |kinds| > 0 {
      SumOneMore(ms, m, kinds[..|kinds| - 1]);
      assert (ms + [m])[..|ms|] == ms;
      assert kinds == kinds[..|kinds| - 1] + [kinds[|kinds| - 1]];
    }
  }

  lemma {:induction false} UnseenCountsNothing(ms: seq<Message>, kind: string)
    requires kind !in KindsOf(ms)
    ensures CountOf(ms, kind) == 0
  {
    if |ms| > 0 {
      UnseenCountsNothing(ms[..|ms| - 1], kind);
    }
  }

  lemma {:induction false} KindsAreDistinct(ms: seq<Message>)
    ensures DistinctKinds(KindsOf(ms))
  {
    if |ms| > 0 {
      KindsAreDistinct(ms[..|ms| - 1]);
    }
  }

  lemma {:induction false} SeenCountsSomething(ms: seq<Message>, kind: string)
    requires kind in KindsOf(ms)
    ensures CountOf(ms, kind) > 0
  {
    if kind in KindsOf(ms[..|ms| - 1]) {
      SeenCountsSomething(ms[..|ms| - 1], kind);
    }
  }

  lemma {:induction false} KindsOneMore(ms: seq<Message>, m: Message)
    ensures KindsOf(ms + [m]) == if m.Item? && m.kind !in KindsOf(ms) then KindsOf(ms) + [m.kind] else KindsOf(ms)
    ensures ItemsIn(ms + [m]) == ItemsIn(ms) + (if m.Item? then 1 else 0)
    ensures forall k :: CountOf(ms + [m], k) == CountOf(ms, k) + (if m.Item? && m.kind == k then 1 else 0)
  {
    assert (ms + [m])[..|ms|] == ms;
  }

  lemma {:induction false} SumOverOneMore(ms: seq<Message>, kinds: seq<string>, kind: string)
    ensures Sum(ms, kinds + [kind]) == Sum(ms, kinds) + CountOf(ms, kind)
  {
    assert (kinds + [kind])[..|kinds|] == kinds;
  }

  lemma {:induction false} TotalOneMore(ms: seq<Message>, m: Message)
    requires Sum(ms, KindsOf(ms)) == ItemsIn(ms)
    ensures Sum(ms + [m], KindsOf(ms + [m])) == ItemsIn(ms + [m])
  {
    var kinds := KindsOf(ms);
    KindsAreDistinct(ms);
    SumOneMore(ms, m, kinds);
    KindsOneMore(ms, m);
    if m.Item? && m.kind !in kinds {
      UnseenCountsNothing(ms, m.kind);
      SumOverOneMore(ms + [m], kinds, m.kind);
    }
  }

  lemma {:induction false} TotalIsItems(ms: seq<Message>)
    ensures Sum(ms, KindsOf(ms)) == ItemsIn(ms)
  {
    if |ms| > 0 {
      var before, last := ms[..|ms| - 1], ms[|ms| - 1];
      TotalIsItems(before);
      TotalOneMore(before, last);
      assert before + [last] == ms;
    }
  }

  /** Every kind is listed once, with a count above zero, and the counts add up to the items. */
  lemma {:induction false} CountsAddUp(ms: seq<Message>)
    ensures DistinctKinds(KindsOf(ms))
    ensures forall kind :: kind in KindsOf(ms) <==> CountOf(ms, kind) > 0
    ensures Sum(ms, KindsOf(ms)) == ItemsIn(ms)
  {
    KindsAreDistinct(ms);
    TotalIsItems(ms);
    forall kind
      ensures kind in KindsOf(ms) <==> CountOf(ms, kind) > 0
    {
      if kind in KindsOf(ms) {
        SeenCountsSomething(ms, kind);
      } else {
        UnseenCountsNothing(ms, kind);
      }
    }
  }

  /** In a cluster, that is all of it. */
  lemma {:induction false} ClusterIsAllItems(ms: seq<Message>)
    requires AllNoise(ms)
    ensures ItemsIn(ms) == |ms| && Sum(ms, KindsOf(ms)) == |ms|
  {
    CountsAddUp(ms);
    if |ms| > 0 {
      ClusterIsAllItems(ms[..|ms| - 1]);
    }
  }
}
