/** Deleting a project under the schema's foreign keys: cascades, NO ACTION checks and the order of statements. */
module ProjectDeletion {
  import opened Prelude

  datatype Table =
    | Users | Projects | Workspaces | Sessions | AgentRuns | Events | Clarifications | DesignIntents
    | ProjectVersions | DepServices | Deployments | BrowserSessions

  /** The reference columns. Each refers to one table wherever it occurs. */
  datatype Column = UserId | ProjectId | WorkspaceId | SessionId | RunId | VersionId | SupersededBy

  type Id = nat

  datatype Key = Key(table: Table, id: Id)

  /** A row's non-null references, and the rest of it. */
  datatype Row = Row(refs: map<Column, Id>, rest: string)

  type Db = map<Key, Row>

  function Target(c: Column): Table {
    match c
    case UserId => Users
    case ProjectId => Projects
    case WorkspaceId => Workspaces
    case SessionId => Sessions
    case RunId => AgentRuns
    case VersionId => ProjectVersions
    case SupersededBy => Deployments
  }

  /** The columns a row of the table must have. */
  function Required(t: Table): set<Column> {
    match t
    case Users => {}
    case Projects => {UserId}
    case Workspaces => {ProjectId}
    case Sessions => {ProjectId, WorkspaceId}
    case AgentRuns => {SessionId}
    case Events => {RunId}
    case Clarifications => {ProjectId, SessionId, RunId}
    case DesignIntents => {ProjectId, SessionId}
    case ProjectVersions => {ProjectId}
    case DepServices => {WorkspaceId}
    case Deployments => {ProjectId}
    case BrowserSessions => {ProjectId, WorkspaceId}
  }

  function Nullable(t: Table): set<Column> {
    if t == Deployments then {VersionId, SupersededBy} else {}
  }

  /** `ON DELETE CASCADE`; every other reference is NO ACTION. */
  predicate Cascades(t: Table, c: Column) {
    match c
    case ProjectId => t in {Sessions, Clarifications, DesignIntents, Deployments}
    case SessionId => t in {AgentRuns, Clarifications, DesignIntents}
    case RunId => t in {Events, Clarifications}
    case WorkspaceId => t == DepServices
    case _ => false
  }

  ghost predicate WellTyped(db: Db) {
    forall k :: k in db ==> Required(k.table) <= db[k].refs.Keys <= Required(k.table) + Nullable(k.table)
  }

  function RefOf(db: Db, k: Key, c: Column): Key
    requires k in db && c in db[k].refs
  {
    Key(Target(c), db[k].refs[c])
  }

  ghost predicate Integral(db: Db) {
    forall k, c {:trigger RefOf(db, k, c)} :: k in db && c in db[k].refs ==> RefOf(db, k, c) in db
  }

  // ---------- One DELETE statement ----------

  /** A row that a cascade takes because of one already doomed. */
  predicate IsDragged(db: Db, doomed: set<Key>, k: Key) {
    k in db && exists c :: c in db[k].refs && Cascades(k.table, c) && RefOf(db, k, c) in doomed
  }

  function Dragged(db: Db, doomed: set<Key>): set<Key> {
    set k | k in db && IsDragged(db, doomed, k)
  }

  function Closure(db: Db, doomed: set<Key>): set<Key>
    requires doomed <= db.Keys
    decreases |db.Keys - doomed|
  {
    var grown := doomed + Dragged(db, doomed);
    if grown == doomed then doomed
    else
      assert db.Keys - grown < db.Keys - doomed;
      SubsetIsNoLarger(db.Keys - grown, db.Keys - doomed);
      Closure(db, grown)
  }

  /** Rows are gone with all that cascades from them, unless what is left would refer to one of them. */
  function DeleteRows(db: Db, doomed: set<Key>): Option<Db>
    requires doomed <= db.Keys
  {
    var gone := Closure(db, doomed);
    if Dangles(db, gone) then None else Some(db - gone)
  }

  /** Without these rows, one that is left would refer to one that is not. */
  predicate Dangles(db: Db, gone: set<Key>) {
    exists k, c :: k in db.Keys - gone && c in db[k].refs && RefOf(db, k, c) in gone
  }

  /** A set that a cascade never leaves. */
  ghost predicate IsClosed(db: Db, within: set<Key>) {
    forall k :: IsDragged(db, within, k) ==> k in within
  }

  /** The least set of rows that holds the doomed ones and everything `ON DELETE CASCADE` drags along. */
  ghost predicate IsCascadeOf(db: Db, doomed: set<Key>, gone: set<Key>) {
    && doomed <= gone <= db.Keys && IsClosed(db, gone)
    && forall within :: doomed <= within && IsClosed(db, within) ==> gone <= within
  }

  function RowsOf(db: Db, t: Table, project: Id): set<Key> {
    set k | k in db && k.table == t
         && (if t == Projects then k.id == project else ProjectId in db[k].refs && db[k].refs[ProjectId] == project)
  }

  /** `DELETE FROM t WHERE project_id = project`, or the project row itself. */
  function Execute(db: Db, t: Table, project: Id): Option<Db> {
    DeleteRows(db, RowsOf(db, t, project))
  }

  function ExecuteAll(db: Db, order: seq<Table>, project: Id): Option<Db> {
    if |order| == 0 then Some(db)
    else
      match ExecuteAll(db, order[..|order| - 1], project)
      case None => None
      case Some(next) => Execute(next, order[|order| - 1], project)
  }

  /** Both copies: the API's handler and the seed loader. */
  const ORDER := [BrowserSessions, Sessions, Deployments, ProjectVersions, Workspaces, Projects]

  class Store {
    var rows: Db

    constructor (db: Db)
      ensures rows == db
    {
      rows := db;
    }

    /**
     One statement: it takes its rows and exactly what cascades from them, and fails as a whole when a row that
     would be left refers to one of them.
     */
    method Delete(t: Table, project: Id) returns (ok: bool)
      modifies this
      ensures ok == Execute(old(rows), t, project).Some?
      ensures exists gone :: IsCascadeOf(old(rows), RowsOf(old(rows), t, project), gone)
                          && ok == !Dangles(old(rows), gone)
                          && rows == if ok then old(rows) - gone else old(rows)
      ensures ok ==> rows == Execute(old(rows), t, project).value && (Integral(old(rows)) ==> Integral(rows))
    {
      StatementTakesTheCascade(rows, t, project);
      var next := Execute(rows, t, project);
      ok := next.Some?;
      if ok {
        rows := next.value;
      }
    }

    /** The API's handler runs in one transaction, which a failure rolls back. */
    method DeleteProject(project: Id) returns (ok: bool)
      modifies this
      ensures ok == ExecuteAll(old(rows), ORDER, project).Some?
      ensures rows == if ok then ExecuteAll(old(rows), ORDER, project).value else old(rows)
      ensures IsSelfContained(old(rows), project) ==> ok && rows == old(rows) - OwnedBy(old(rows), project)
    {
      var before := rows;
      SelfContainedIsExact(before, project);
      ok := DeleteProjectCascade(project);
      if !ok {
        rows := before;
      }
    }

    /** The seed loader's statements commit one by one: a failure keeps what came before it. */
    method DeleteProjectCascade(project: Id) returns (ok: bool)
      modifies this
      ensures ok == ExecuteAll(old(rows), ORDER, project).Some?
      ensures ok ==> rows == ExecuteAll(old(rows), ORDER, project).value
      ensures !ok ==> exists n :: 0 <= n < |ORDER| && ExecuteAll(old(rows), ORDER[..n], project) == Some(rows)
                                  && Execute(rows, ORDER[n], project) == None
    {
      ghost var start := rows;
      for i := 0 to |ORDER|
        invariant ExecuteAll(start, ORDER[..i], project) == Some(rows)
      {
        assert ORDER[..i + 1][..i] == ORDER[..i];
        ok := Delete(ORDER[i], project);
        if !ok {
          FailureIsFinal(start, ORDER, i, project);
          return;
        }
      }
      assert ORDER[..|ORDER|] == ORDER;
      ok := true;
    }
  }

  /** A consistent database in which no other project's row refers to one of this project's. */
  ghost predicate IsSelfContained(db: Db, project: Id) {
    WellTyped(db) && Integral(db) && Sealed(db, OwnedBy(db, project))
  }

  lemma {:induction false} SelfContainedIsExact(db: Db, project: Id)
    ensures IsSelfContained(db, project) ==> ExecuteAll(db, ORDER, project) == Some(db - OwnedBy(db, project))
  {
    if IsSelfContained(db, project) {
      DeletionIsExact(db, project);
    }
  }

  lemma {:induction false} FailureIsFinal(db: Db, order: seq<Table>, n: nat, project: Id)
    requires n < |order| && ExecuteAll(db, order[..n + 1], project) == None
    ensures ExecuteAll(db, order, project) == None
    decreases |order|
  {
    if n + 1 == |order| {
      assert order[..n + 1] == order;
    } else {
      var shorter := order[..|order| - 1];
      assert shorter[..n + 1] == order[..n + 1];
      FailureIsFinal(db, shorter, n, project);
    }
  }

  // ---------- What a statement leaves ----------

  lemma {:induction false} ClosureIsLeast(db: Db, doomed: set<Key>, within: set<Key>)
    requires doomed <= db.Keys && doomed <= within && IsClosed(db, within)
    ensures doomed <= Closure(db, doomed) <= within && Closure(db, doomed) <= db.Keys
    ensures IsClosed(db, Closure(db, doomed))
    decreases |db.Keys - doomed|
  {
    var grown := doomed + Dragged(db, doomed);
    forall k | k in Dragged(db, doomed)
      ensures k in within
    {
      assert IsDragged(db, within, k);
    }
    if grown != doomed {
      assert db.Keys - grown < db.Keys - doomed;
      SubsetIsNoLarger(db.Keys - grown, db.Keys - doomed);
      ClosureIsLeast(db, grown, within);
    } else {
      assert forall k :: IsDragged(db, doomed, k) ==> k in Dragged(db, doomed);
    }
  }

  /** A statement that succeeds leaves every foreign key satisfied. */
  lemma {:induction false} DeleteStaysIntegral(db: Db, doomed: set<Key>)
    requires doomed <= db.Keys && Integral(db) && DeleteRows(db, doomed).Some?
    ensures Integral(DeleteRows(db, doomed).value)
  {
    var gone, next := Closure(db, doomed), DeleteRows(db, doomed).value;
    forall k, c | k in next && c in next[k].refs
      ensures RefOf(next, k, c) in next
    {
      assert RefOf(db, k, c) in db;
      assert k in db.Keys - gone;
    }
  }

  /** What one statement does, told without saying how the cascade is found. */
  lemma {:induction false} StatementTakesTheCascade(db: Db, t: Table, project: Id)
    ensures var rows, gone := RowsOf(db, t, project), Closure(db, RowsOf(db, t, project));
            && IsCascadeOf(db, rows, gone)
            && (Execute(db, t, project) == None <==> Dangles(db, gone))
            && (!Dangles(db, gone) ==> Execute(db, t, project) == Some(db - gone))
            && (Execute(db, t, project).Some? && Integral(db) ==> Integral(Execute(db, t, project).value))
  {
    var rows := RowsOf(db, t, project);
    ClosureIsLeast(db, rows, db.Keys);
    forall within | rows <= within && IsClosed(db, within)
      ensures Closure(db, rows) <= within
    {
      ClosureIsLeast(db, rows, within);
    }
    if Execute(db, t, project).Some? && Integral(db) {
      DeleteStaysIntegral(db, rows);
    }
  }

  // ---------- Whose rows ----------

  /** The column that leads from a row towards its project. */
  function Parent(t: Table): Column {
    match t
    case AgentRuns => SessionId
    case Events => RunId
    case DepServices => WorkspaceId
    case _ => ProjectId
  }

  function Depth(t: Table): nat {
    match t
    case Events => 2
    case AgentRuns | DepServices => 1
    case _ => 0
  }

  /** The project a row belongs to: through its own project id, or its parents'. */
  function Owner(db: Db, k: Key): Option<Id>
    decreases Depth(k.table)
  {
    var c := Parent(k.table);
    if k !in db || k.table == Users then None
    else if k.table == Projects then Some(k.id)
    else if c !in db[k].refs then None
    else if c == ProjectId then Some(db[k].refs[ProjectId])
    else Owner(db, RefOf(db, k, c))
  }

  function OwnedBy(db: Db, project: Id): set<Key> {
    set k | k in db && Owner(db, k) == Some(project)
  }

  /** No row outside the set refers into it. */
  ghost predicate Sealed(db: Db, owned: set<Key>) {
    forall k, c {:trigger RefOf(db, k, c)} :: k in db && c in db[k].refs && RefOf(db, k, c) in owned ==> k in owned
  }

  /** The tables the statements name. */
  predicate IsNamed(t: Table) {
    t in {BrowserSessions, Sessions, Deployments, ProjectVersions, Workspaces, Projects}
  }

  /** The tables a statement on `t` can reach by cascades. */
  function Reached(t: Table): set<Table> {
    match t
    case Sessions => {Sessions, AgentRuns, Events, Clarifications, DesignIntents}
    case Workspaces => {Workspaces, DepServices}
    case Projects => {Projects, Sessions, AgentRuns, Events, Clarifications, DesignIntents, Deployments}
    case _ => {t}
  }

  lemma {:induction false} ReachedIsClosed(t: Table, b: Table, c: Column)
    requires IsNamed(t) && Cascades(b, c) && Target(c) in Reached(t)
    ensures b in Reached(t)
  {
  }

  /** Rows of `b` can stand in the way of a statement on `t`. */
  predicate Blocks(b: Table, t: Table) {
    exists c :: c in Required(b) + Nullable(b) && !Cascades(b, c) && Target(c) in Reached(t)
  }

  /** Every table is emptied of the project only after all that can stand in the way. */
  ghost predicate RespectsBlockers(order: seq<Table>) {
    forall i, b :: 0 <= i < |order| && Blocks(b, order[i]) && b != order[i] ==> b in order[..i]
  }

  // ---------- One statement on one project ----------

  /** `next` is `db` without some of the rows in `owned`. */
  ghost predicate Without(db: Db, next: Db, owned: set<Key>) {
    && next.Keys <= db.Keys
    && (forall k :: k in next ==> next[k] == db[k])
    && (forall k :: k in db && k !in owned ==> k in next)
  }

  predicate Cleared(next: Db, owned: set<Key>, t: Table) {
    forall k :: k in next && k in owned ==> k.table != t
  }

  lemma {:induction false} NamedRowsAreOwned(db: Db, next: Db, project: Id, t: Table)
    requires WellTyped(db) && Without(db, next, OwnedBy(db, project)) && IsNamed(t)
    ensures forall k :: k in RowsOf(next, t, project) <==> k in next && k in OwnedBy(db, project) && k.table == t
  {
    forall k | k in next && k.table == t
      ensures k in RowsOf(next, t, project) <==> k in OwnedBy(db, project)
    {
      assert next[k] == db[k];
    }
  }

  /** What a statement can take at most. */
  function Reach(next: Db, owned: set<Key>, t: Table): set<Key> {
    set k | k in next && k in owned && k.table in Reached(t)
  }

  lemma {:induction false} StatementStaysInProject(db: Db, next: Db, project: Id, t: Table)
    requires WellTyped(db) && Without(db, next, OwnedBy(db, project)) && IsNamed(t)
    requires Sealed(next, OwnedBy(db, project))
    ensures var rows := RowsOf(next, t, project);
            && rows <= Closure(next, rows) <= Reach(next, OwnedBy(db, project), t)
            && IsClosed(next, Closure(next, rows))
  {
    var owned := OwnedBy(db, project);
    NamedRowsAreOwned(db, next, project, t);
    forall k | IsDragged(next, Reach(next, owned, t), k)
      ensures k in Reach(next, owned, t)
    {
      var c :| c in next[k].refs && Cascades(k.table, c) && RefOf(next, k, c) in Reach(next, owned, t);
      ReachedIsClosed(t, k.table, c);
    }
    ClosureIsLeast(next, RowsOf(next, t, project), Reach(next, owned, t));
  }

  /** A statement that succeeds takes only the project's rows, and all of its own table's. */
  lemma {:induction false} StatementTakesOnlyOwned(db: Db, next: Db, project: Id, t: Table)
    requires WellTyped(db) && Without(db, next, OwnedBy(db, project)) && IsNamed(t)
    requires Sealed(next, OwnedBy(db, project)) && Integral(next) && Execute(next, t, project).Some?
    ensures var after := Execute(next, t, project).value;
            && Without(db, after, OwnedBy(db, project)) && after.Keys <= next.Keys
            && Integral(after) && Cleared(after, OwnedBy(db, project), t)
  {
    StatementStaysInProject(db, next, project, t);
    NamedRowsAreOwned(db, next, project, t);
    DeleteStaysIntegral(next, RowsOf(next, t, project));
  }

  lemma {:induction false} StatementSucceeds(db: Db, next: Db, project: Id, t: Table)
    requires WellTyped(db) && Without(db, next, OwnedBy(db, project)) && IsNamed(t)
    requires Sealed(next, OwnedBy(db, project))
    requires forall b :: Blocks(b, t) && b != t ==> Cleared(next, OwnedBy(db, project), b)
    ensures Execute(next, t, project).Some?
  {
    var rows := RowsOf(next, t, project);
    var gone := Closure(next, rows);
    StatementStaysInProject(db, next, project, t);
    NamedRowsAreOwned(db, next, project, t);
    forall k, c | k in next && c in next[k].refs && RefOf(next, k, c) in gone
      ensures k in gone
    {
      assert k in OwnedBy(db, project);
      if Cascades(k.table, c) {
        assert IsDragged(next, gone, k);
      } else {
        assert next[k] == db[k];
        assert Blocks(k.table, t);
        assert k.table == t;
      }
    }
  }

  // ---------- A whole order ----------

  /** A shared invariant: what has been deleted so far is the project's, and the named tables are cleared. */
  ghost predicate Progress(db: Db, next: Db, project: Id, order: seq<Table>) {
    && Without(db, next, OwnedBy(db, project)) && Integral(next)
    && forall t :: t in order ==> Cleared(next, OwnedBy(db, project), t)
  }

  lemma {:induction false} PartStaysSealed(db: Db, next: Db, owned: set<Key>)
    requires Sealed(db, owned) && Without(db, next, owned)
    ensures Sealed(next, owned)
  {
    forall k, c | k in next && c in next[k].refs && RefOf(next, k, c) in owned
      ensures k in owned
    {
      assert RefOf(db, k, c) in owned;
    }
  }

  lemma {:induction false} OrderProgresses(db: Db, project: Id, order: seq<Table>)
    requires WellTyped(db) && Integral(db) && Sealed(db, OwnedBy(db, project))
    requires forall t :: t in order ==> IsNamed(t)
    requires ExecuteAll(db, order, project).Some?
    ensures Progress(db, ExecuteAll(db, order, project).value, project, order)
  {
    if |order| > 0 {
      var before, t := order[..|order| - 1], order[|order| - 1];
      OrderProgresses(db, project, before);
      var next := ExecuteAll(db, before, project).value;
      PartStaysSealed(db, next, OwnedBy(db, project));
      StatementTakesOnlyOwned(db, next, project, t);
      assert forall b :: b in order ==> b in before || b == t;
    }
  }

  lemma {:induction false} OrderSucceeds(db: Db, project: Id, order: seq<Table>)
    requires WellTyped(db) && Integral(db) && Sealed(db, OwnedBy(db, project))
    requires (forall t :: t in order ==> IsNamed(t)) && RespectsBlockers(order)
    ensures ExecuteAll(db, order, project).Some?
  {
    if |order| > 0 {
      var before, t := order[..|order| - 1], order[|order| - 1];
      assert forall i :: 0 <= i < |before| ==> before[..i] == order[..i];
      OrderSucceeds(db, project, before);
      OrderProgresses(db, project, before);
      var next := ExecuteAll(db, before, project).value;
      PartStaysSealed(db, next, OwnedBy(db, project));
      StatementSucceeds(db, next, project, t);
    }
  }

  /** A row of the project hangs on a named row of it, which the last foreign keys would keep. */
  lemma {:induction false} OwnedHangsOnNamed(db: Db, next: Db, project: Id, k: Key)
    requires WellTyped(db) && Without(db, next, OwnedBy(db, project)) && Integral(next)
    requires k in next && k in OwnedBy(db, project)
    ensures exists up :: up in next && up in OwnedBy(db, project) && IsNamed(up.table)
    decreases Depth(k.table)
  {
    if IsNamed(k.table) {
      assert k in next;
    } else {
      var up := RefOf(db, k, Parent(k.table));
      assert up == RefOf(next, k, Parent(k.table));
      assert up in OwnedBy(db, project);
      if Parent(k.table) != ProjectId {
        OwnedHangsOnNamed(db, next, project, up);
      }
    }
  }

  // ---------- Main results ----------

  ghost predicate NamesAll(order: seq<Table>) {
    forall t :: t in order <==> IsNamed(t)
  }

  lemma {:induction false} NothingOwnedIsLeft(db: Db, next: Db, project: Id, k: Key)
    requires WellTyped(db) && Without(db, next, OwnedBy(db, project)) && Integral(next)
    requires forall t :: IsNamed(t) ==> Cleared(next, OwnedBy(db, project), t)
    requires k in next
    ensures k !in OwnedBy(db, project)
  {
    if k in OwnedBy(db, project) {
      OwnedHangsOnNamed(db, next, project, k);
      assert false;
    }
  }

  lemma {:induction false} WithoutAll(db: Db, next: Db, owned: set<Key>)
    requires Without(db, next, owned) && forall k :: k in next ==> k !in owned
    ensures next == db - owned
  {
  }

  /** Whatever the order, a deletion that succeeds has the same result: the project's rows and no others are gone. */
  lemma {:induction false} AnySuccessfulOrderAgrees(db: Db, project: Id, order: seq<Table>)
    requires WellTyped(db) && Integral(db) && Sealed(db, OwnedBy(db, project))
    requires NamesAll(order) && ExecuteAll(db, order, project).Some?
    ensures ExecuteAll(db, order, project) == Some(db - OwnedBy(db, project))
  {
    var owned, last := OwnedBy(db, project), ExecuteAll(db, order, project).value;
    OrderProgresses(db, project, order);
    forall k | k in last
      ensures k !in owned
    {
      NothingOwnedIsLeft(db, last, project, k);
    }
    WithoutAll(db, last, owned);
  }

  function MustPrecede(t: Table): set<Table> {
    match t
    case ProjectVersions => {Deployments}
    case Workspaces => {Sessions, BrowserSessions}
    case Projects => {Deployments, ProjectVersions, Workspaces, BrowserSessions}
    case _ => {}
  }

  lemma {:induction false} BlockersPrecede(b: Table, t: Table)
    requires IsNamed(t) && Blocks(b, t) && b != t
    ensures b in MustPrecede(t)
  {
    var c :| c in Required(b) + Nullable(b) && !Cascades(b, c) && Target(c) in Reached(t);
    assert c != SessionId && c != RunId && c != UserId;
  }

  function Position(t: Table): nat {
    match t
    case BrowserSessions => 0
    case Sessions => 1
    case Deployments => 2
    case ProjectVersions => 3
    case Workspaces => 4
    case _ => 5
  }

  lemma {:induction false} OrderIsSafe()
    ensures NamesAll(ORDER) && RespectsBlockers(ORDER)
  {
    assert forall t :: IsNamed(t) ==> ORDER[Position(t)] == t;
    assert forall i :: 0 <= i < |ORDER| ==> Position(ORDER[i]) == i && IsNamed(ORDER[i]);
    forall i, b | 0 <= i < |ORDER| && Blocks(b, ORDER[i]) && b != ORDER[i]
      ensures b in ORDER[..i]
    {
      BlockersPrecede(b, ORDER[i]);
      assert Position(b) < i;
      assert ORDER[..i][Position(b)] == b;
    }
  }

  lemma {:induction false} ExecuteAllStaysIntegral(db: Db, project: Id, order: seq<Table>)
    requires Integral(db) && ExecuteAll(db, order, project).Some?
    ensures Integral(ExecuteAll(db, order, project).value)
  {
    if |order| > 0 {
      ExecuteAllStaysIntegral(db, project, order[..|order| - 1]);
      var next := ExecuteAll(db, order[..|order| - 1], project).value;
      DeleteStaysIntegral(next, RowsOf(next, order[|order| - 1], project));
    }
  }

  /**
   The six statements succeed and remove exactly the project's rows if and only if no other row refers to one of
   them; foreign keys hold afterwards.
   */
  lemma {:induction false} DeletionIsExact(db: Db, project: Id)
    requires WellTyped(db) && Integral(db)
    ensures Sealed(db, OwnedBy(db, project)) <==> ExecuteAll(db, ORDER, project) == Some(db - OwnedBy(db, project))
    ensures ExecuteAll(db, ORDER, project).Some? ==> Integral(ExecuteAll(db, ORDER, project).value)
  {
    var owned := OwnedBy(db, project);
    OrderIsSafe();
    if ExecuteAll(db, ORDER, project).Some? {
      ExecuteAllStaysIntegral(db, project, ORDER);
    }
    if Sealed(db, owned) {
      OrderSucceeds(db, project, ORDER);
      AnySuccessfulOrderAgrees(db, project, ORDER);
    }
    if ExecuteAll(db, ORDER, project) == Some(db - owned) {
      var last := db - owned;
      forall k, c | k in db && c in db[k].refs && k !in owned
        ensures RefOf(db, k, c) !in owned
      {
        assert k in last && RefOf(last, k, c) in last;
      }
    }
  }

  /** Every reference but the one to a user stays within a project: the denormalised project ids agree. */
  ghost predicate Agrees(db: Db) {
    forall k, c {:trigger RefOf(db, k, c)} ::
      k in db && c in db[k].refs && c != UserId ==> Owner(db, RefOf(db, k, c)) == Owner(db, k)
  }

  lemma {:induction false} OwnerExists(db: Db, k: Key)
    requires WellTyped(db) && Integral(db) && k in db && k.table != Users
    ensures Owner(db, k).Some?
    decreases Depth(k.table)
  {
    var c := Parent(k.table);
    if k.table != Projects && c != ProjectId {
      assert RefOf(db, k, c) in db;
      OwnerExists(db, RefOf(db, k, c));
    }
  }

  lemma {:induction false} AgreementSeals(db: Db, project: Id)
    requires WellTyped(db) && Integral(db) && Agrees(db)
    ensures Sealed(db, OwnedBy(db, project))
  {
    forall k, c | k in db && c in db[k].refs && RefOf(db, k, c) in OwnedBy(db, project)
      ensures k in OwnedBy(db, project)
    {
      assert c != UserId;
    }
  }

  lemma {:induction false} SealsAgree(db: Db, k: Key, c: Column)
    requires WellTyped(db) && Integral(db) && forall project :: Sealed(db, OwnedBy(db, project))
    requires k in db && c in db[k].refs && c != UserId
    ensures Owner(db, RefOf(db, k, c)) == Owner(db, k)
  {
    var up := RefOf(db, k, c);
    OwnerExists(db, up);
    var owned := OwnedBy(db, Owner(db, up).value);
    assert Sealed(db, owned) && up in owned;
  }

  ghost predicate IsDeletable(db: Db, project: Id) {
    ExecuteAll(db, ORDER, project) == Some(db - OwnedBy(db, project))
  }

  /** So every project can be deleted exactly when the project ids agree with their parents' throughout. */
  lemma {:induction false} EveryProjectIsDeletable(db: Db)
    requires WellTyped(db) && Integral(db)
    ensures Agrees(db) <==> forall project :: IsDeletable(db, project)
  {
    forall project
      ensures Sealed(db, OwnedBy(db, project)) <==> IsDeletable(db, project)
    {
      DeletionIsExact(db, project);
    }
    if Agrees(db) {
      forall project
        ensures Sealed(db, OwnedBy(db, project))
      {
        AgreementSeals(db, project);
      }
    }
    if forall project :: Sealed(db, OwnedBy(db, project)) {
      forall k, c | k in db && c in db[k].refs && c != UserId
        ensures Owner(db, RefOf(db, k, c)) == Owner(db, k)
      {
        SealsAgree(db, k, c);
      }
    }
  }
}
