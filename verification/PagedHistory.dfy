/** The chat's history, loaded page by page from the newest session back. */
module PagedHistory {
  import opened Prelude

  /** A project's sessions by their sequence number, in order. Only appends happen to them. */
  predicate Ascending(db: seq<nat>) {
    forall i, j :: 0 <= i < j < |db| ==> db[i] < db[j]
  }

  // ---------- The listing route ----------

  function Clamp(limit: int): nat {
    if limit < 1 then 1 else if limit > 100 then 100 else limit
  }

  function Below(db: seq<nat>, before: Option<nat>): seq<nat> {
    if before == None || |db| == 0 then db
    else if db[|db| - 1] < before.value then db
    else Below(db[..|db| - 1], before)
  }

  function LastOf<T>(s: seq<T>, k: nat): seq<T> {
    if k >= |s| then s else s[|s| - k..]
  }

  /** What the route answers: the newest sessions below the bound, oldest first. */
  function Page(db: seq<nat>, limit: Option<int>, before: Option<nat>): seq<nat> {
    match limit
    case None => Below(db, before)
    case Some(n) => LastOf(Below(db, before), Clamp(n))
  }

  function Reversed<T>(s: seq<T>): seq<T> {
    seq(|s|, i requires 0 <= i < |s| => s[|s| - 1 - i])
  }

  /** Python's `list.reverse`. */
  method ReverseInPlace(rows: array<nat>)
    modifies rows
    ensures rows[..] == Reversed(old(rows[..]))
  {
    var n := rows.Length;
    for i := 0 to n / 2
      invariant forall k :: 0 <= k < i ==> rows[k] == old(rows[n - 1 - k]) && rows[n - 1 - k] == old(rows[k])
      invariant forall k :: i <= k < n - i ==> rows[k] == old(rows[k])
    {
      rows[i], rows[n - 1 - i] := rows[n - 1 - i], rows[i];
    }
  }

  /** The query orders a limited page newest first, so the handler turns it round. */
  method ListProjectSessions(db: seq<nat>, limit: Option<int>, before: Option<nat>) returns (rows: array<nat>)
    ensures rows[..] == Page(db, limit, before)
  {
    var matching := Below(db, before);
    if limit == None {
      rows := new nat[|matching|](i requires 0 <= i < |matching| => matching[i]);
      assert rows[..] == matching;
    } else {
      var newest := LastOf(matching, Clamp(limit.value));
      var found := Reversed(newest);
      rows := new nat[|found|](i requires 0 <= i < |found| => found[i]);
      assert rows[..] == found;
      ReverseInPlace(rows);
      assert Reversed(found) == newest;
    }
  }

  // ---------- The chat ----------

  /** An older page is being listed from a bound, or its sessions' details are being fetched. */
  datatype Loading = Idle | Listing(before: nat) | Fetching(page: seq<nat>)

  datatype Shell = Shell(db: seq<nat>, loaded: seq<nat>, hasMore: bool, loading: Loading)

  /** `ok` and the like say whether a request succeeded; a session may be created though its answer is lost. */
  datatype Step =
    | Open(listed: bool, fetched: bool)
    | Send(answered: bool)
    | StartOlder
    | ListAnswer(ok: bool)
    | FetchAnswer(ok: bool)

  function NextSequence(db: seq<nat>): nat {
    if |db| == 0 then 1 else db[|db| - 1] + 1
  }

  /** `size` is the client's page size. */
  function Next(size: nat, st: Shell, step: Step): Shell {
    match step
    case Open(listed, fetched) =>
      if st.loading != Idle then st
      else
        var page := Page(st.db, Some(size), None);
        if !listed then st.(loaded := [])
        else st.(hasMore := |page| >= size, loaded := if fetched then page else [])
    case Send(answered) =>
      var s := NextSequence(st.db);
      st.(db := st.db + [s], loaded := if answered then st.loaded + [s] else st.loaded)
    case StartOlder =>
      if st.loading != Idle || !st.hasMore || |st.loaded| == 0 then st else st.(loading := Listing(st.loaded[0]))
    case ListAnswer(ok) =>
      if !st.loading.Listing? then st
      else if !ok then st.(loading := Idle)
      else
        var page := Page(st.db, Some(size), Some(st.loading.before));
        st.(hasMore := |page| >= size, loading := Fetching(page))
    case FetchAnswer(ok) =>
      if !st.loading.Fetching? then st
      else st.(loading := Idle, loaded := if ok then st.loading.page + st.loaded else st.loaded)
  }

  function Opened(size: nat, db: seq<nat>): Shell {
    Next(size, Shell(db, [], false, Idle), Open(true, true))
  }

  function From(size: nat, st: Shell, steps: seq<Step>): Shell {
    if |steps| == 0 then st else Next(size, From(size, st, steps[..|steps| - 1]), steps[|steps| - 1])
  }

  /** A chat that was opened with success, and what followed. */
  function Run(size: nat, db: seq<nat>, steps: seq<Step>): Shell {
    From(size, Opened(size, db), steps)
  }

  class ChatHistory {
    const size: nat
    var st: Shell

    constructor (size: nat, db: seq<nat>)
      ensures this.size == size && st == Opened(size, db)
    {
      this.size := size;
      st := Opened(size, db);
    }

    method CreateSession(answered: bool)
      modifies this
      ensures st == Next(size, old(st), Send(answered))
    {
      var s := NextSequence(st.db);
      st := st.(db := st.db + [s]);
      if answered {
        st := st.(loaded := st.loaded + [s]);
      }
    }

    /** Scrolling to the top; `sent` sessions are created while the page's details are on their way. */
    method LoadOlderSessions(listed: bool, fetched: bool, sent: nat)
      requires st.loading == Idle
      modifies this
      ensures st == LoadOlder(size, old(st), listed, fetched, sent) && st.loading == Idle
    {
      ghost var start := st;
      if st.hasMore && |st.loaded| > 0 {
        var before := st.loaded[0];
        st := st.(loading := Listing(before));
        if listed {
          var page := Page(st.db, Some(size), Some(before));
          st := st.(hasMore := |page| >= size);
          st := st.(loading := Fetching(page));
        } else {
          st := st.(loading := Idle);
        }
      }
      for i := 0 to sent
        invariant st == SendTimes(size, Asked(size, start, listed), i)
        invariant !st.loading.Listing?
      {
        CreateSession(true);
      }
      if st.loading.Fetching? {
        if fetched {
          st := st.(loaded := st.loading.page + st.loaded);
        }
        st := st.(loading := Idle);
      }
    }
  }

  function Asked(size: nat, st: Shell, listed: bool): Shell {
    Next(size, Next(size, st, StartOlder), ListAnswer(listed))
  }

  function SendTimes(size: nat, st: Shell, n: nat): Shell {
    if n == 0 then st else Next(size, SendTimes(size, st, n - 1), Send(true))
  }

  /** The steps of loading an older page, with sessions sent in between. */
  function LoadOlder(size: nat, st: Shell, listed: bool, fetched: bool, sent: nat): Shell {
    Next(size, SendTimes(size, Asked(size, st, listed), sent), FetchAnswer(fetched))
  }

  // ---------- What is loaded ----------

  predicate IsSuffix(part: seq<nat>, db: seq<nat>) {
    |part| <= |db| && part == db[|db| - |part|..]
  }

  lemma {:induction false} BelowBound(db: seq<nat>, m: nat)
    requires Ascending(db) && m < |db|
    ensures Below(db, Some(db[m])) == db[..m]
  {
    if m < |db| - 1 {
      BelowBound(db[..|db| - 1], m);
      assert db[..|db| - 1][..m] == db[..m];
    } else {
      BelowAll(db[..m], db[m]);
    }
  }

  lemma {:induction false} BelowAll(db: seq<nat>, bound: nat)
    requires forall i :: 0 <= i < |db| ==> db[i] < bound
    ensures Below(db, Some(bound)) == db
  {
  }

  /** A page below the oldest loaded session is what comes just before it. */
  lemma {:induction false} PageJoins(db: seq<nat>, loaded: seq<nat>, size: nat)
    requires Ascending(db) && IsSuffix(loaded, db) && |loaded| > 0
    ensures var page := Page(db, Some(size), Some(loaded[0]));
            && IsSuffix(page + loaded, db)
            && |page| == if Clamp(size) <= |db| - |loaded| then Clamp(size) else |db| - |loaded|
  {
    var m := |db| - |loaded|;
    BelowBound(db, m);
    var page := Page(db, Some(size), Some(loaded[0]));
    assert page == db[m - |page|..m];
    assert page + loaded == db[m - |page|..];
  }

  /** The client's page size is one the server grants. */
  predicate Fits(size: nat) {
    1 <= size <= 100
  }

  /**
   What a step may not do: lose the answer of a creation, fail to fetch the details of the last older page, or fail to
   open a project that has a history.
   */
  predicate Harmless(st: Shell, step: Step) {
    match step
    case Open(listed, fetched) =>
      st.loading != Idle || (listed && fetched) || (|st.db| == 0 && (listed || !st.hasMore))
    case Send(answered) => answered
    case FetchAnswer(ok) => ok || !st.loading.Fetching? || st.hasMore || st.loading.page == []
    case _ => true
  }

  predicate Consistent(size: nat, st: Shell) {
    && Ascending(st.db) && IsSuffix(st.loaded, st.db)
    && match st.loading
       case Idle => (st.hasMore ==> |st.loaded| > 0) && (!st.hasMore ==> st.loaded == st.db)
       case Listing(before) => |st.loaded| > 0 && before == st.loaded[0] && st.hasMore
       case Fetching(page) =>
         |st.loaded| > 0 && IsSuffix(page + st.loaded, st.db) && (!st.hasMore ==> page + st.loaded == st.db)
         && (st.hasMore ==> |page| == size)
  }

  lemma {:induction false} SendKeepsSuffix(db: seq<nat>, part: seq<nat>, s: nat)
    requires IsSuffix(part, db)
    ensures IsSuffix(part + [s], db + [s])
  {
  }

  lemma {:induction false} SendKeepsAscending(db: seq<nat>)
    requires Ascending(db)
    ensures Ascending(db + [NextSequence(db)])
  {
  }

  lemma {:induction false} Regroup(a: seq<nat>, b: seq<nat>, s: nat)
    ensures a + (b + [s]) == a + b + [s]
  {
  }

  lemma {:induction false} OpenIsConsistent(size: nat, st: Shell)
    requires Fits(size) && Ascending(st.db) && st.loading == Idle
    ensures Consistent(size, Next(size, st, Open(true, true)))
  {
  }

  lemma {:induction false} OpenExactly(size: nat, st: Shell, listed: bool, fetched: bool)
    requires Fits(size) && Consistent(size, st)
    ensures Consistent(size, Next(size, st, Open(listed, fetched))) <==> Harmless(st, Open(listed, fetched))
  {
    if st.loading == Idle && listed && fetched {
      OpenIsConsistent(size, st);
    }
  }

  lemma {:induction false} SendExactly(size: nat, st: Shell, answered: bool)
    requires Consistent(size, st)
    ensures Consistent(size, Next(size, st, Send(answered))) <==> answered
  {
    var s := NextSequence(st.db);
    SendKeepsAscending(st.db);
    if answered {
      SendKeepsSuffix(st.db, st.loaded, s);
      if st.loading.Fetching? {
        SendKeepsSuffix(st.db, st.loading.page + st.loaded, s);
        Regroup(st.loading.page, st.loaded, s);
      }
    } else if |st.loaded| > 0 {
      LostIsNoSuffix(st.db, st.loaded, s);
    }
  }

  lemma {:induction false} LostIsNoSuffix(db: seq<nat>, part: seq<nat>, s: nat)
    requires Ascending(db) && IsSuffix(part, db) && |part| > 0 && s == NextSequence(db)
    ensures !IsSuffix(part, db + [s])
  {
    assert part[|part| - 1] == db[|db| - 1] != s;
    assert (db + [s])[|db| + 1 - |part|..][|part| - 1] == s;
  }

  lemma {:induction false} ListStaysConsistent(size: nat, st: Shell, ok: bool)
    requires Fits(size) && Consistent(size, st)
    ensures Consistent(size, Next(size, st, ListAnswer(ok)))
  {
    if st.loading.Listing? {
      PageJoins(st.db, st.loaded, size);
      var both := Page(st.db, Some(size), Some(st.loaded[0])) + st.loaded;
      WholeSuffix(both, st.db);
    }
  }

  lemma {:induction false} WholeSuffix(part: seq<nat>, db: seq<nat>)
    requires IsSuffix(part, db)
    ensures |part| == |db| ==> part == db
  {
  }

  lemma {:induction false} SuffixOfJoined(page: seq<nat>, part: seq<nat>, db: seq<nat>)
    requires IsSuffix(page + part, db)
    ensures IsSuffix(part, db)
    ensures page + part == db ==> (part == db <==> page == [])
  {
    assert |page + part| == |page| + |part|;
    assert db[|db| - |page + part|..][|page|..] == db[|db| - |part|..];
  }

  lemma {:induction false} FetchExactly(size: nat, st: Shell, ok: bool)
    requires Consistent(size, st) && st.loading.Fetching?
    ensures Consistent(size, Next(size, st, FetchAnswer(ok))) <==> Harmless(st, FetchAnswer(ok))
  {
    SuffixOfJoined(st.loading.page, st.loaded, st.db);
  }

  /** Exactly the harmless steps keep the list consistent. */
  lemma {:induction false} StepExactly(size: nat, st: Shell, step: Step)
    requires Fits(size) && Consistent(size, st)
    ensures Consistent(size, Next(size, st, step)) <==> Harmless(st, step)
  {
    match step
    case Open(listed, fetched) => OpenExactly(size, st, listed, fetched);
    case Send(answered) => SendExactly(size, st, answered);
    case ListAnswer(ok) => ListStaysConsistent(size, st, ok);
    case StartOlder =>
    case FetchAnswer(ok) =>
      if st.loading.Fetching? {
        FetchExactly(size, st, ok);
      }
  }

  // ---------- Main results ----------

  ghost predicate AllHarmless(size: nat, db: seq<nat>, steps: seq<Step>) {
    forall k :: 0 <= k < |steps| ==> Harmless(Run(size, db, steps[..k]), steps[k])
  }

  ghost predicate AlwaysConsistent(size: nat, db: seq<nat>, steps: seq<Step>) {
    forall k :: 0 <= k <= |steps| ==> ConsistentAt(size, db, steps, k)
  }

  ghost predicate ConsistentAt(size: nat, db: seq<nat>, steps: seq<Step>, k: nat)
    requires k <= |steps|
  {
    Consistent(size, Run(size, db, steps[..k]))
  }

  lemma {:induction false} Prefixes(steps: seq<Step>, k: nat)
    requires k < |steps|
    ensures steps[..|steps| - 1][..k] == steps[..k]
    ensures k < |steps| - 1 ==> steps[..|steps| - 1][k] == steps[k]
  {
  }

  lemma {:induction false} HarmlessOneMore(size: nat, db: seq<nat>, steps: seq<Step>)
    requires |steps| > 0
    ensures AllHarmless(size, db, steps)
       <==> AllHarmless(size, db, steps[..|steps| - 1])
            && Harmless(Run(size, db, steps[..|steps| - 1]), steps[|steps| - 1])
  {
    forall k | 0 <= k < |steps| - 1
      ensures steps[..|steps| - 1][..k] == steps[..k] && steps[..|steps| - 1][k] == steps[k]
    {
      Prefixes(steps, k);
    }
  }

  lemma {:induction false} ConsistentOneMore(size: nat, db: seq<nat>, steps: seq<Step>)
    requires |steps| > 0
    ensures AlwaysConsistent(size, db, steps)
       <==> AlwaysConsistent(size, db, steps[..|steps| - 1]) && Consistent(size, Run(size, db, steps))
  {
    var before := steps[..|steps| - 1];
    assert steps[..|steps|] == steps;
    assert ConsistentAt(size, db, steps, |steps|) <==> Consistent(size, Run(size, db, steps));
    forall k | 0 <= k < |steps|
      ensures ConsistentAt(size, db, before, k) <==> ConsistentAt(size, db, steps, k)
    {
      Prefixes(steps, k);
    }
  }

  /** The list stays consistent throughout a run exactly when every step of it is harmless. */
  lemma {:induction false} RunsExactly(size: nat, db: seq<nat>, steps: seq<Step>)
    requires Fits(size) && Ascending(db)
    ensures AlwaysConsistent(size, db, steps) <==> AllHarmless(size, db, steps)
  {
    if |steps| == 0 {
      OpenIsConsistent(size, Shell(db, [], false, Idle));
    } else {
      var n := |steps| - 1;
      RunsExactly(size, db, steps[..n]);
      HarmlessOneMore(size, db, steps);
      ConsistentOneMore(size, db, steps);
      if AlwaysConsistent(size, db, steps[..n]) {
        assert ConsistentAt(size, db, steps[..n], n) && steps[..n][..n] == steps[..n];
        StepExactly(size, Run(size, db, steps[..n]), steps[n]);
      }
    }
  }

  /**
   Whatever is sent and loaded in between, through harmless steps: the list is a gap-free suffix, and `hasMore` is
   false only when all of it is loaded.
   */
  lemma {:induction false} HistoryIsASuffix(size: nat, db: seq<nat>, steps: seq<Step>)
    requires Fits(size) && Ascending(db) && AllHarmless(size, db, steps)
    ensures var st := Run(size, db, steps);
            && Consistent(size, st)
            && Ascending(st.loaded) && IsSuffix(st.loaded, st.db)
            && (st.loading == Idle && !st.hasMore ==> st.loaded == st.db)
  {
    RunsExactly(size, db, steps);
    assert ConsistentAt(size, db, steps, |steps|) && steps[..|steps|] == steps;
  }

  function Iterate<T>(f: T -> T, x: T, n: nat): T {
    if n == 0 then x else f(Iterate(f, x, n - 1))
  }

  predicate Carries<T>(f: T -> T, holds: (nat, T) -> bool, n: nat, x: T) {
    holds(n, x) ==> holds(n + 1, f(x))
  }

  lemma {:induction false} IterateKeeps<T(!new)>(f: T -> T, holds: (nat, T) -> bool, x: T, n: nat)
    requires holds(0, x) && forall m: nat, y: T :: Carries(f, holds, m, y)
    ensures holds(n, Iterate(f, x, n))
  {
    if n > 0 {
      IterateKeeps(f, holds, x, n - 1);
      assert Carries(f, holds, n - 1, Iterate(f, x, n - 1));
    }
  }

  /** Scrolling back `n` times, with every request answered. */
  function ScrollBack(size: nat, st: Shell, n: nat): Shell {
    Iterate(Scrolled(size), st, n)
  }

  /** Scrolling back once. */
  function Scrolled(size: nat): Shell -> Shell {
    st => LoadOlder(size, st, true, true, 0)
  }

  lemma {:induction false} LoadOlderGains(size: nat, st: Shell)
    requires Fits(size) && Consistent(size, st) && st.loading == Idle && st.hasMore
    ensures var next := LoadOlder(size, st, true, true, 0);
            && Consistent(size, next) && next.loading == Idle && next.db == st.db
            && (next.hasMore ==> |next.loaded| == |st.loaded| + size)
  {
    var a := Next(size, st, StartOlder);
    assert a == st.(loading := Listing(st.loaded[0]));
    StepExactly(size, st, StartOlder);
    var b := Next(size, a, ListAnswer(true));
    ListStaysConsistent(size, a, true);
    assert b.loading.Fetching? && b.db == st.db && b.loaded == st.loaded;
    StepExactly(size, b, FetchAnswer(true));
    assert SendTimes(size, b, 0) == b;
  }

  /** Without a loaded session, or without more, scrolling back asks for nothing. */
  lemma {:induction false} NothingToScroll(size: nat, st: Shell)
    requires st.loading == Idle && (!st.hasMore || st.loaded == [])
    ensures LoadOlder(size, st, true, true, 0) == st
  {
  }

  lemma {:induction false} FixedPoint<T>(f: T -> T, x: T, n: nat)
    requires f(x) == x
    ensures Iterate(f, x, n) == x
  {
    if n > 0 {
      FixedPoint(f, x, n - 1);
    }
  }

  /** The sessions on `n` pages. */
  function OnPages(n: nat, size: nat): nat {
    if n == 0 then 0 else OnPages(n - 1, size) + size
  }

  lemma {:induction false} OneMorePage(size: nat, st: Shell)
    requires Fits(size) && Consistent(size, st) && st.loading == Idle
    ensures var next := LoadOlder(size, st, true, true, 0);
            && Consistent(size, next) && next.loading == Idle && next.db == st.db
            && (next.hasMore ==> st.hasMore && |next.loaded| == |st.loaded| + size)
  {
    if st.hasMore {
      LoadOlderGains(size, st);
    } else {
      NothingToScroll(size, st);
    }
  }

  /** `last` shows a suffix, and each page so far was full while there was more. */
  predicate ScrolledTo(size: nat, st: Shell, n: nat, last: Shell) {
    && Consistent(size, last) && last.loading == Idle && last.db == st.db
    && (last.hasMore ==> |last.loaded| == |st.loaded| + OnPages(n, size))
  }

  lemma {:induction false} ScrolledOneMore(size: nat, st: Shell, n: nat, before: Shell)
    requires Fits(size) && ScrolledTo(size, st, n, before)
    ensures ScrolledTo(size, st, n + 1, Scrolled(size)(before))
  {
    OneMorePage(size, before);
  }

  /** Scrolling back reaches the whole history, a page at a time. */
  lemma {:induction false} ScrollingBackLoadsAll(size: nat, st: Shell, n: nat)
    requires Fits(size) && Consistent(size, st) && st.loading == Idle
    requires |st.db| - |st.loaded| < OnPages(n, size)
    ensures ScrollBack(size, st, n).loaded == st.db && !ScrollBack(size, st, n).hasMore
  {
    var f, holds := Scrolled(size), (m: nat, s: Shell) => ScrolledTo(size, st, m, s);
    forall m: nat, before: Shell
      ensures Carries(f, holds, m, before)
    {
      if holds(m, before) {
        ScrolledOneMore(size, st, m, before);
      }
    }
    IterateKeeps(f, holds, st, n);
    assert holds(n, ScrollBack(size, st, n));
  }

  /** A client that asks for more than the server grants is told the truth only by a short history. */
  lemma {:induction false} BeyondTheClampHistoryIsCut(size: nat, db: seq<nat>)
    requires size > 100
    ensures !Opened(size, db).hasMore
    ensures Opened(size, db).loaded == db <==> |db| <= 100
  {
  }

  // ---------- Limits, numbers and retries ----------

  /** A page is as long as asked for, between 1 and 100, as far as there are sessions; without a limit it is all. */
  lemma {:induction false} PagesAreAsLongAsAsked(db: seq<nat>, limit: Option<int>, before: Option<nat>)
    ensures var all, page := Page(db, None, before), Page(db, limit, before);
            && IsSuffix(page, all)
            && match limit
               case None => page == all
               case Some(n) =>
                 && (1 <= n <= 100 ==> |page| == if |all| < n then |all| else n)
                 && (n < 1 ==> |page| == if |all| < 1 then |all| else 1)
                 && (n > 100 ==> |page| == if |all| < 100 then |all| else 100)
  {
  }

  predicate IsNumberedFromOne(db: seq<nat>) {
    forall i :: 0 <= i < |db| ==> db[i] == i + 1
  }

  /** A project's sessions are numbered 1, 2, 3 and so on, whatever is sent and loaded. */
  lemma {:induction false} SessionsAreNumbered(size: nat, st: Shell, steps: seq<Step>)
    requires IsNumberedFromOne(st.db)
    ensures IsNumberedFromOne(From(size, st, steps).db)
  {
    if |steps| > 0 {
      SessionsAreNumbered(size, st, steps[..|steps| - 1]);
    }
  }

  /** A failed listing changes nothing, so that scrolling tries it again. */
  lemma {:induction false} FailedListingsAreRetried(size: nat, st: Shell)
    requires st.loading == Idle
    ensures From(size, st, [StartOlder, ListAnswer(false)]) == st
  {
    var steps := [StartOlder, ListAnswer(false)];
    assert steps[..1] == [StartOlder] && [StartOlder][..0] == [];
    assert From(size, st, []) == st;
    assert From(size, st, [StartOlder]) == Next(size, st, StartOlder);
  }

  // ---------- What the harmful steps do ----------

  predicate OpensNothing(steps: seq<Step>) {
    forall i :: 0 <= i < |steps| ==> !steps[i].Open?
  }

  /** Part of the history is not shown, and the chat believes that there is no more. */
  predicate HidesSome(st: Shell) {
    st.loading == Idle && !st.hasMore && |st.loaded| < |st.db|
  }

  /** Once hidden, it stays hidden until the project is opened again. */
  lemma {:induction false} HiddenStaysHidden(size: nat, st: Shell, steps: seq<Step>)
    requires HidesSome(st) && OpensNothing(steps)
    ensures HidesSome(From(size, st, steps))
  {
    if |steps| > 0 {
      HiddenStaysHidden(size, st, steps[..|steps| - 1]);
    }
  }

  /** A failed fetch of details on opening shows nothing; a history of less than a page is then hidden for good. */
  lemma {:induction false} FailedDetailsHideTheHistory(size: nat, st: Shell)
    requires |st.db| > 0 && st.loading == Idle
    ensures var next := Next(size, st, Open(true, false));
            && next.loaded == [] && next.db == st.db && next.loading == Idle
            && (forall n: nat :: ScrollBack(size, next, n) == next)
            && (Fits(size) ==> (HidesSome(next) <==> |st.db| < size))
  {
    var next := Next(size, st, Open(true, false));
    forall n: nat
      ensures ScrollBack(size, next, n) == next
    {
      NothingToScroll(size, next);
      FixedPoint(Scrolled(size), next, n);
    }
  }

  /** A failed fetch of the last, short page hides it for good. */
  lemma {:induction false} FailedLastPageHidesTheRest(size: nat, st: Shell, steps: seq<Step>)
    requires Consistent(size, st) && st.loading.Fetching? && !st.hasMore && st.loading.page != [] && OpensNothing(steps)
    ensures HidesSome(From(size, Next(size, st, FetchAnswer(false)), steps))
  {
    HiddenStaysHidden(size, Next(size, st, FetchAnswer(false)), steps);
  }

  /** A session newer than the oldest loaded one is not in the list. */
  predicate Misses(st: Shell, s: nat) {
    s in st.db && s !in st.loaded && |st.loaded| > 0 && st.loaded[0] < s
  }

  /** A page on its way lies before all that is loaded. */
  predicate InPlace(st: Shell) {
    && Ascending(st.db)
    && (st.loading.Listing? ==> |st.loaded| > 0 && st.loading.before == st.loaded[0])
    && (st.loading.Fetching? ==>
          |st.loaded| > 0 && forall i :: 0 <= i < |st.loading.page| ==> st.loading.page[i] < st.loaded[0])
  }

  lemma {:induction false} BelowIsBelow(db: seq<nat>, bound: nat)
    requires Ascending(db)
    ensures forall i :: 0 <= i < |Below(db, Some(bound))| ==> Below(db, Some(bound))[i] < bound
  {
    if |db| > 0 && db[|db| - 1] >= bound {
      BelowIsBelow(db[..|db| - 1], bound);
    }
  }

  lemma {:induction false} StepStaysInPlace(size: nat, st: Shell, step: Step)
    requires InPlace(st) && !step.Open?
    ensures InPlace(Next(size, st, step))
  {
    SendKeepsAscending(st.db);
    if step.ListAnswer? && st.loading.Listing? {
      BelowIsBelow(st.db, st.loading.before);
    }
  }

  lemma {:induction false} StepStillMisses(size: nat, st: Shell, step: Step, s: nat)
    requires InPlace(st) && Misses(st, s) && !step.Open?
    ensures Misses(Next(size, st, step), s)
  {
    if step.Send? {
      SendIsNewer(st.db, s);
    }
    if step.FetchAnswer? && st.loading.Fetching? && step.ok {
      var page := st.loading.page;
      assert forall i :: 0 <= i < |page| ==> page[i] < s;
      assert (page + st.loaded)[0] == if |page| > 0 then page[0] else st.loaded[0];
    }
  }

  lemma {:induction false} SendIsNewer(db: seq<nat>, s: nat)
    requires Ascending(db) && s in db
    ensures s < NextSequence(db)
  {
  }

  lemma {:induction false} SuffixHoldsNewer(db: seq<nat>, part: seq<nat>, s: nat)
    requires Ascending(db) && IsSuffix(part, db) && |part| > 0 && part[0] < s && s in db
    ensures s in part
  {
    var i :| 0 <= i < |db| && db[i] == s;
    var m := |db| - |part|;
    assert db[m] == part[0];
    assert i > m;
    assert part[i - m] == db[i];
  }

  lemma {:induction false} StillMissing(size: nat, st: Shell, steps: seq<Step>, s: nat)
    requires InPlace(st) && Misses(st, s) && OpensNothing(steps)
    ensures InPlace(From(size, st, steps)) && Misses(From(size, st, steps), s)
  {
    if |steps| > 0 {
      var n := |steps| - 1;
      StillMissing(size, st, steps[..n], s);
      StepStaysInPlace(size, From(size, st, steps[..n]), steps[n]);
      StepStillMisses(size, From(size, st, steps[..n]), steps[n], s);
    }
  }

  /** A session whose creation was not answered leaves a gap that no later step closes but opening anew. */
  lemma {:induction false} LostAnswersLeaveAGap(size: nat, st: Shell, steps: seq<Step>)
    requires InPlace(st) && |st.loaded| > 0 && (forall i :: 0 <= i < |st.loaded| ==> st.loaded[i] in st.db)
    requires OpensNothing(steps)
    ensures var s, last := NextSequence(st.db), From(size, Next(size, st, Send(false)), steps);
            Misses(last, s) && !IsSuffix(last.loaded, last.db)
  {
    var s, next := NextSequence(st.db), Next(size, st, Send(false));
    forall i | 0 <= i < |st.loaded|
      ensures st.loaded[i] < s
    {
      SendIsNewer(st.db, st.loaded[i]);
    }
    StepStaysInPlace(size, st, Send(false));
    assert Misses(next, s);
    StillMissing(size, next, steps, s);
    var last := From(size, next, steps);
    if IsSuffix(last.loaded, last.db) {
      SuffixHoldsNewer(last.db, last.loaded, s);
    }
  }
}
