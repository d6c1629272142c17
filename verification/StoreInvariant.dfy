/** What every run of store operations keeps, and what resolution can rely on. */
module StoreInvariant {
  import opened Text
  import opened Meta
  import opened Seqs
  import opened StoreSpec

  ghost predicate UniqueNames(snap: Snapshot) {
    && Unique(snap.credentials, (c: Credential) => c.name)
    && Unique(snap.servers, (s: Server) => s.name)
    && Unique(snap.tables, (t: Table) => (t.schema, t.name))
    && Unique(snap.functions, (f: Function) => (f.schema, f.name))
  }

  ghost predicate UniqueIds(snap: Snapshot) {
    && Unique(snap.credentials, (c: Credential) => c.id)
    && Unique(snap.servers, (s: Server) => s.id)
    && Unique(snap.tables, (t: Table) => t.id)
    && Unique(snap.columns, (c: Column) => c.id)
    && Unique(snap.functions, (f: Function) => f.id)
  }

  ghost predicate HasTable(snap: Snapshot, id: Id) {
    exists t :: t in snap.tables && t.id == id
  }

  ghost predicate Linked(snap: Snapshot) {
    && (forall t :: t in snap.tables ==> HasServer(snap, t.serverId))
    && (forall f :: f in snap.functions ==> HasServer(snap, f.serverId))
    && (forall c :: c in snap.columns ==> HasTable(snap, c.tableId))
  }

  ghost predicate IdsBelow(snap: Snapshot, next: Id) {
    && (forall c :: c in snap.credentials ==> c.id < next)
    && (forall s :: s in snap.servers ==> s.id < next)
    && (forall t :: t in snap.tables ==> t.id < next)
    && (forall c :: c in snap.columns ==> c.id < next)
    && (forall f :: f in snap.functions ==> f.id < next)
  }

  ghost predicate Valid(db: Db) {
    UniqueNames(db.snap) && UniqueIds(db.snap) && Linked(db.snap) && IdsBelow(db.snap, db.next)
  }

  // ---- One lemma for each way the code changes a slice. ----

  lemma ReplaceUnique<T, K>(s: seq<T>, i: nat, x: T, key: T -> K)
    requires Unique(s, key) && i < |s| && key(x) == key(s[i])
    ensures Unique(s[i := x], key)
  {
  }

  lemma RemoveUnique<T, K>(s: seq<T>, i: nat, key: T -> K)
    requires Unique(s, key) && i < |s|
    ensures Unique(RemoveAt(s, i), key)
  {
  }

  lemma RemoveMembers<T>(s: seq<T>, i: nat)
    requires i < |s|
    ensures forall x :: x in RemoveAt(s, i) ==> x in s
    ensures forall x :: x in s && x != s[i] ==> x in RemoveAt(s, i)
  {
    assert s == s[..i] + [s[i]] + s[i + 1..];
  }

  lemma AppendUnique<T, K>(a: seq<T>, b: seq<T>, key: T -> K)
    requires Unique(a, key) && Unique(b, key)
    requires forall x, y :: x in a && y in b ==> key(x) != key(y)
    ensures Unique(a + b, key)
  {
  }

  // ---- Every operation keeps the invariant. ----

  lemma CreateCredentialValid(db: Db, name: string, data: Fields)
    requires Valid(db)
    ensures Valid(CreateCredential(db, name, data).0)
  {
    var c := Credential(db.next, name, data);
    UniqueSnoc(db.snap.credentials, c, (c: Credential) => c.name);
    UniqueSnoc(db.snap.credentials, c, (c: Credential) => c.id);
  }

  lemma DeleteCredentialValid(db: Db, id: Id)
    requires Valid(db)
    ensures Valid(DeleteCredential(db, id).0)
  {
    var i := IndexWhere(db.snap.credentials, (c: Credential) => c.id == id);
    if i >= 0 {
      RemoveUnique(db.snap.credentials, i, (c: Credential) => c.name);
      RemoveUnique(db.snap.credentials, i, (c: Credential) => c.id);
      RemoveMembers(db.snap.credentials, i);
    }
  }

  lemma InsertServerValid(db: Db, req: CreateServerRequest, now: Timestamp)
    requires Valid(db)
    ensures Valid(InsertServer(db, req, now).0)
  {
    var db' := InsertServer(db, req, now).0;
    if db' != db {
      var s := db'.snap.servers[|db.snap.servers|];
      UniqueSnoc(db.snap.servers, s, (s: Server) => s.name);
      UniqueSnoc(db.snap.servers, s, (s: Server) => s.id);
      assert forall id :: HasServer(db.snap, id) ==> HasServer(db'.snap, id);
    }
  }

  lemma CreateServerValid(db: Db, req: CreateServerRequest, now: Timestamp)
    requires Valid(db)
    ensures Valid(CreateServer(db, req, now).0)
  {
    hide Valid;
    InsertServerValid(db, req, now);
    var name := if Trim(req.credentialName) == "" then req.name + "-credential" else Trim(req.credentialName);
    CreateCredentialValid(db, name, req.credential);
    InsertServerValid(CreateCredential(db, name, req.credential).0, req.(credentialRef := Some(db.next)), now);
  }

  lemma UpdateServerValid(db: Db, id: Id, req: UpdateServerRequest, now: Timestamp)
    requires Valid(db)
    ensures Valid(UpdateServer(db, id, req, now).0)
  {
    var i := IndexWhere(db.snap.servers, (s: Server) => s.id == id);
    if i >= 0 {
      var s := UpdatedServer(db.snap.servers[i], req, now);
      ReplaceUnique(db.snap.servers, i, s, (s: Server) => s.name);
      ReplaceUnique(db.snap.servers, i, s, (s: Server) => s.id);
      var servers := db.snap.servers[i := s];
      forall id | HasServer(db.snap, id)
        ensures exists r :: r in servers && r.id == id
      {
        var j :| 0 <= j < |db.snap.servers| && db.snap.servers[j].id == id;
        assert servers[j] in servers && servers[j].id == id;
      }
    }
  }

  lemma DeleteServerValid(db: Db, id: Id)
    requires Valid(db)
    ensures Valid(DeleteServer(db, id).0)
  {
    var snap, i := db.snap, IndexWhere(db.snap.servers, (s: Server) => s.id == id);
    if i >= 0 {
      var snap' := DeleteServer(db, id).0.snap;
      RemoveUnique(snap.servers, i, (s: Server) => s.name);
      RemoveUnique(snap.servers, i, (s: Server) => s.id);
      RemoveMembers(snap.servers, i);
      KeepUnique(snap.tables, TablesElsewhere(id), (t: Table) => (t.schema, t.name));
      KeepUnique(snap.tables, TablesElsewhere(id), (t: Table) => t.id);
      KeepUnique(snap.functions, FunctionsElsewhere(id), (f: Function) => (f.schema, f.name));
      KeepUnique(snap.functions, FunctionsElsewhere(id), (f: Function) => f.id);
      var dropped := TablesOfServer(snap, id);
      KeepUnique(snap.columns, ColumnsOutside(dropped), (c: Column) => c.id);
      forall k | HasServer(snap, k) && k != id
        ensures HasServer(snap', k)
      {
        var s :| s in snap.servers && s.id == k;
        assert s in snap'.servers;
      }
      forall k | HasTable(snap, k) && k !in dropped
        ensures HasTable(snap', k)
      {
        var t :| t in snap.tables && t.id == k;
        assert t in snap'.tables;
      }
    }
  }

  lemma {:induction false} NewColumnsShape(inputs: seq<ColumnInput>, tableId: Id, next: Id)
    ensures forall k :: 0 <= k < |NewColumns(inputs, tableId, next)| ==>
              NewColumns(inputs, tableId, next)[k].id == next + k
    ensures forall c :: c in NewColumns(inputs, tableId, next) ==> c.tableId == tableId && next <= c.id
    ensures forall c :: c in NewColumns(inputs, tableId, next) ==> c.id < next + |NewColumns(inputs, tableId, next)|
    ensures Unique(NewColumns(inputs, tableId, next), (c: Column) => c.id)
  {
    if inputs != [] {
      NewColumnsShape(inputs[..|inputs| - 1], tableId, next);
      var before := NewColumns(inputs[..|inputs| - 1], tableId, next);
      if inputs[|inputs| - 1].name != "" {
        assert NewColumns(inputs, tableId, next)[..|before|] == before;
      }
    }
  }

  /** Appending keeps every table and server. */
  lemma LinksStay(a: Snapshot, b: Snapshot)
    requires a.tables <= b.tables && a.servers <= b.servers
    ensures forall k :: HasTable(a, k) ==> HasTable(b, k)
    ensures forall k :: HasServer(a, k) ==> HasServer(b, k)
  {
  }

  lemma CreateTableValid(db: Db, req: CreateTableRequest)
    requires Valid(db)
    ensures Valid(CreateTable(db, req).0)
  {
    hide NewColumns;
    var snap, snap' := db.snap, CreateTable(db, req).0.snap;
    if snap' != snap {
      var t, cols := snap'.tables[|snap.tables|], NewColumns(req.columns, db.next, db.next + 1);
      NewColumnsShape(req.columns, db.next, db.next + 1);
      TableAppended(db, t, cols);
      var i := IndexWhere(snap.servers, (s: Server) => s.name == req.serverName);
      assert snap.servers[i] in snap.servers && HasServer(snap, t.serverId);
      LinksStay(snap, snap');
      assert snap'.tables == snap.tables + [t] && snap'.columns == snap.columns + cols;
      TableLinked(snap, snap', t, cols);
    }
  }

  lemma TableAppended(db: Db, t: Table, cols: seq<Column>)
    requires Valid(db) && t.id == db.next
    requires forall u :: u in db.snap.tables ==> (u.schema, u.name) != (t.schema, t.name)
    requires Unique(cols, (c: Column) => c.id) && forall c :: c in cols ==> c.id > db.next
    ensures Unique(db.snap.tables + [t], (t: Table) => (t.schema, t.name))
    ensures Unique(db.snap.tables + [t], (t: Table) => t.id)
    ensures Unique(db.snap.columns + cols, (c: Column) => c.id)
  {
    hide Linked, Unique;
    UniqueSnoc(db.snap.tables, t, (t: Table) => (t.schema, t.name));
    UniqueSnoc(db.snap.tables, t, (t: Table) => t.id);
    AppendUnique(db.snap.columns, cols, (c: Column) => c.id);
  }

  lemma TableLinked(a: Snapshot, b: Snapshot, t: Table, cols: seq<Column>)
    requires Linked(a) && b.servers == a.servers && b.functions == a.functions
    requires b.tables == a.tables + [t] && b.columns == a.columns + cols
    requires HasServer(a, t.serverId) && forall c :: c in cols ==> c.tableId == t.id
    ensures Linked(b)
  {
    hide HasServer;
    LinksStay(a, b);
    assert t in b.tables && HasTable(b, t.id);
    ServersStay(a, b);
  }

  lemma ServersStay(a: Snapshot, b: Snapshot)
    requires a.servers == b.servers
    ensures forall k :: HasServer(a, k) == HasServer(b, k)
  {
  }

  lemma UpdateTableValid(db: Db, id: Id, req: UpdateTableRequest)
    requires Valid(db)
    ensures Valid(UpdateTable(db, id, req).0)
  {
    var snap, i := db.snap, IndexWhere(db.snap.tables, (t: Table) => t.id == id);
    if i >= 0 {
      var t := UpdatedTable(snap.tables[i], req);
      ReplaceUnique(snap.tables, i, t, (t: Table) => (t.schema, t.name));
      ReplaceUnique(snap.tables, i, t, (t: Table) => t.id);
      var tables := snap.tables[i := t];
      forall k | HasTable(snap, k)
        ensures exists r :: r in tables && r.id == k
      {
        var j :| 0 <= j < |snap.tables| && snap.tables[j].id == k;
        assert tables[j] in tables && tables[j].id == k;
      }
    }
  }

  lemma DeleteTableValid(db: Db, id: Id)
    requires Valid(db)
    ensures Valid(DeleteTable(db, id).0)
  {
    var snap, i := db.snap, IndexWhere(db.snap.tables, (t: Table) => t.id == id);
    if i >= 0 {
      var snap' := DeleteTable(db, id).0.snap;
      RemoveUnique(snap.tables, i, (t: Table) => (t.schema, t.name));
      RemoveUnique(snap.tables, i, (t: Table) => t.id);
      RemoveMembers(snap.tables, i);
      KeepUnique(snap.columns, ColumnsOutside({id}), (c: Column) => c.id);
      forall k | HasTable(snap, k) && k != id
        ensures HasTable(snap', k)
      {
        var t :| t in snap.tables && t.id == k;
        assert t in snap'.tables;
      }
      assert forall k :: HasServer(snap, k) ==> HasServer(snap', k);
    }
  }

  lemma CreateColumnValid(db: Db, tableId: Id, req: ColumnInput)
    requires Valid(db)
    ensures Valid(CreateColumn(db, tableId, req).0)
  {
    var snap, snap' := db.snap, CreateColumn(db, tableId, req).0.snap;
    if snap' != snap {
      var i, c := IndexWhere(snap.tables, (t: Table) => t.id == tableId), snap'.columns[|snap.columns|];
      assert snap.tables[i] in snap.tables && HasTable(snap, tableId);
      UniqueSnoc(snap.columns, c, (c: Column) => c.id);
      ColumnLinked(snap, snap', c);
    }
  }

  lemma ColumnLinked(a: Snapshot, b: Snapshot, c: Column)
    requires Linked(a) && b == a.(columns := a.columns + [c]) && HasTable(a, c.tableId)
    ensures Linked(b)
  {
    LinksStay(a, b);
    hide HasServer, HasTable;
  }

  lemma UpdateColumnValid(db: Db, id: Id, req: UpdateColumnRequest)
    requires Valid(db)
    ensures Valid(UpdateColumn(db, id, req).0)
  {
    var snap := db.snap;
    var i := IndexWhere(snap.columns, (c: Column) => c.id == id);
    if i >= 0 {
      var c := UpdatedColumn(snap.columns[i], req);
      assert snap.columns[i] in snap.columns;
      ReplaceUnique(snap.columns, i, c, (c: Column) => c.id);
      ColumnReplaced(snap, snap.(columns := snap.columns[i := c]));
    }
  }

  lemma ColumnReplaced(a: Snapshot, b: Snapshot)
    requires Linked(a) && b == a.(columns := b.columns) && forall c :: c in b.columns ==> HasTable(a, c.tableId)
    ensures Linked(b)
  {
    LinksStay(a, b);
    hide HasServer, HasTable;
  }

  lemma DeleteColumnValid(db: Db, id: Id)
    requires Valid(db)
    ensures Valid(DeleteColumn(db, id).0)
  {
    var snap, snap' := db.snap, DeleteColumn(db, id).0.snap;
    var i := IndexWhere(snap.columns, (c: Column) => c.id == id);
    if i >= 0 {
      assert forall k :: HasTable(snap, k) ==> HasTable(snap', k);
      assert forall k :: HasServer(snap, k) ==> HasServer(snap', k);
      RemoveUnique(snap.columns, i, (c: Column) => c.id);
      RemoveMembers(snap.columns, i);
    }
  }

  lemma ColumnOpsValid(db: Db, op: Op)
    requires Valid(db) && (op.OpCreateColumn? || op.OpUpdateColumn? || op.OpDeleteColumn?)
    ensures Valid(Apply(db, op).0)
  {
    hide Valid, CreateColumn, UpdateColumn, DeleteColumn;
    match op
    case OpCreateColumn(tableId, req) => CreateColumnValid(db, tableId, req);
    case OpUpdateColumn(id, req) => UpdateColumnValid(db, id, req);
    case OpDeleteColumn(id) => DeleteColumnValid(db, id);
  }

  lemma CreateFunctionValid(db: Db, req: CreateFunctionRequest)
    requires Valid(db)
    ensures Valid(CreateFunction(db, req).0)
  {
    var snap, snap' := db.snap, CreateFunction(db, req).0.snap;
    if snap' != snap {
      var f := snap'.functions[|snap.functions|];
      assert HasServer(snap, f.serverId);
      UniqueSnoc(snap.functions, f, (f: Function) => f.id);
      UniqueSnoc(snap.functions, f, (f: Function) => (f.schema, f.name));
      FunctionsOnly(snap, snap');
    }
  }

  lemma UpdateFunctionValid(db: Db, id: Id, req: UpdateFunctionRequest)
    requires Valid(db)
    ensures Valid(UpdateFunction(db, id, req).0)
  {
    var snap, i := db.snap, IndexWhere(db.snap.functions, (f: Function) => f.id == id);
    if i >= 0 {
      var f := UpdatedFunction(snap.functions[i], req);
      ReplaceUnique(snap.functions, i, f, (f: Function) => f.id);
      ReplaceUnique(snap.functions, i, f, (f: Function) => (f.schema, f.name));
      assert snap.functions[i] in snap.functions;
      FunctionsOnly(snap, snap.(functions := snap.functions[i := f]));
    }
  }

  lemma DeleteFunctionValid(db: Db, id: Id)
    requires Valid(db)
    ensures Valid(DeleteFunction(db, id).0)
  {
    var snap, i := db.snap, IndexWhere(db.snap.functions, (f: Function) => f.id == id);
    if i >= 0 {
      RemoveUnique(snap.functions, i, (f: Function) => f.id);
      RemoveUnique(snap.functions, i, (f: Function) => (f.schema, f.name));
      RemoveMembers(snap.functions, i);
      FunctionsOnly(snap, snap.(functions := RemoveAt(snap.functions, i)));
    }
  }

  /** Changing functions alone leaves the other links as they are. */
  lemma FunctionsOnly(snap: Snapshot, snap': Snapshot)
    requires Linked(snap) && snap' == snap.(functions := snap'.functions)
    requires forall f :: f in snap'.functions ==> HasServer(snap, f.serverId)
    ensures Linked(snap')
  {
    assert forall k :: HasTable(snap, k) ==> HasTable(snap', k);
    assert forall k :: HasServer(snap, k) ==> HasServer(snap', k);
  }

  lemma OpKeepsValid(db: Db, op: Op)
    requires Valid(db)
    ensures Valid(Apply(db, op).0)
  {
    hide Valid;
    match op
    case OpCreateCredential(name, data) => CreateCredentialValid(db, name, data);
    case OpDeleteCredential(id) => DeleteCredentialValid(db, id);
    case OpCreateServer(req, now) => CreateServerValid(db, req, now);
    case OpUpdateServer(id, req, now) => UpdateServerValid(db, id, req, now);
    case OpDeleteServer(id) => DeleteServerValid(db, id);
    case OpCreateTable(req) => CreateTableValid(db, req);
    case OpUpdateTable(id, req) => UpdateTableValid(db, id, req);
    case OpDeleteTable(id) => DeleteTableValid(db, id);
    case OpCreateColumn(_, _) => ColumnOpsValid(db, op);
    case OpUpdateColumn(_, _) => ColumnOpsValid(db, op);
    case OpDeleteColumn(_) => ColumnOpsValid(db, op);
    case OpCreateFunction(req) => CreateFunctionValid(db, req);
    case OpUpdateFunction(id, req) => UpdateFunctionValid(db, id, req);
    case OpDeleteFunction(id) => DeleteFunctionValid(db, id);
  }

  /** Names stay unique and links valid in every state reachable from the empty store. */
  lemma {:induction false} EveryReachableStateIsValid(ops: seq<Op>)
    ensures Valid(After(EmptyDb, ops))
  {
    if ops != [] {
      EveryReachableStateIsValid(ops[..|ops| - 1]);
      OpKeepsValid(After(EmptyDb, ops[..|ops| - 1]), ops[|ops| - 1]);
    }
  }

  // ---- Resolution. ----

  lemma ColumnOrder()
    ensures WeakOrder(ColumnBefore)
  {
    forall a: Column, b: Column | ColumnBefore(a, b)
      ensures !ColumnBefore(b, a)
    {
      if a.position == b.position {
        LessAsymmetric(a.name, b.name);
      }
    }
    forall a: Column, b: Column, c: Column | !ColumnBefore(b, a) && !ColumnBefore(c, b)
      ensures !ColumnBefore(c, a)
    {
      if a.position == b.position == c.position {
        NotLessTransitive(a.name, b.name, c.name);
      }
    }
  }

  /** In a valid store a table resolves exactly when it is registered and its server is enabled. It fails as not
      found exactly when it is not registered, and as disabled in the one remaining case. */
  lemma ResolvesExactlyWhenRegisteredAndEnabled(db: Db, schema: string, name: string)
    requires Valid(db)
    ensures var r := ResolveTable(db.snap, schema, name);
            && (r == Unresolved(NotFound) <==> !exists t :: t in db.snap.tables && t.schema == schema && t.name == name)
            && (r.Resolved? <==> exists t, s :: t in db.snap.tables && t.schema == schema && t.name == name
                                                && s in db.snap.servers && s.id == t.serverId && s.enabled)
            && (r.Unresolved? ==> r.error == NotFound || r.error == Disabled)
  {
    var t := IndexWhere(db.snap.tables, (t: Table) => t.schema == schema && t.name == name);
    if t >= 0 {
      assert db.snap.tables[t] in db.snap.tables;
      assert HasServer(db.snap, db.snap.tables[t].serverId);
      var s := IndexWhere(db.snap.servers, (s: Server) => s.id == db.snap.tables[t].serverId);
      assert s >= 0 && db.snap.servers[s] in db.snap.servers;
    }
  }

  lemma FoundAlone<T>(s: seq<T>, x: T, p: T -> bool)
    requires x in s && p(x) && forall y :: y in s && p(y) ==> y == x
    ensures IndexWhere(s, p) >= 0 && s[IndexWhere(s, p)] == x
  {
    var i :| 0 <= i < |s| && s[i] == x;
    var j := IndexWhere(s, p);
    assert j >= 0 ==> s[j] in s;
  }

  lemma TableFound(db: Db, t: Table, s: Server)
    requires Valid(db) && t in db.snap.tables && s in db.snap.servers && s.id == t.serverId
    ensures ResolveTable(db.snap, t.schema, t.name)
            == if s.enabled then Resolved(ResolvedTable(t, s, Sort(ColumnsOf(db.snap, t.id), ColumnBefore)))
               else Unresolved(Disabled)
  {
    hide ColumnsOf, Sort, Linked, IdsBelow;
    FoundAlone(db.snap.tables, t, (u: Table) => u.schema == t.schema && u.name == t.name);
    FoundAlone(db.snap.servers, s, (u: Server) => u.id == t.serverId);
  }

  /** What a resolved table is: the only table of that name, the only server it can belong to, and exactly its
      columns, by position and then by name. */
  lemma ResolvedTableIsTheTable(db: Db, schema: string, name: string, t: Table, s: Server)
    requires Valid(db) && ResolveTable(db.snap, schema, name).Resolved?
    requires t in db.snap.tables && t.schema == schema && t.name == name
    requires s in db.snap.servers && s.id == t.serverId
    ensures var r := ResolveTable(db.snap, schema, name).value;
            && r.table == t && r.server == s && Sorted(r.columns, ColumnBefore)
            && multiset(r.columns) == multiset(ColumnsOf(db.snap, t.id))
            && forall c :: c in r.columns <==> c in db.snap.columns && c.tableId == t.id
  {
    hide Valid, ResolveTable, Sort, Sorted, Keep;
    ColumnOrder();
    var cols := ColumnsOf(db.snap, t.id);
    SortSorted(cols, ColumnBefore);
    TableFound(db, t, s);
    var sorted := Sort(cols, ColumnBefore);
    assert forall c :: c in sorted <==> c in multiset(sorted);
    assert forall c :: c in cols <==> c in multiset(cols);
  }

  // ---- Deletion. ----

  ghost predicate InSubtree(snap: Snapshot, id: Id, c: Column) {
    exists t :: t in snap.tables && t.id == c.tableId && t.serverId == id
  }

  /** DeleteServer leaves, in order, exactly the records outside the deleted server's subtree. */
  lemma DeleteServerKeepsTheRest(db: Db, id: Id)
    requires Valid(db) && HasServer(db.snap, id)
    ensures DeleteServer(db, id).1 == None
    ensures DeleteServer(db, id).0.snap == Snapshot(
              db.snap.credentials,
              Keep(db.snap.servers, (s: Server) => s.id != id),
              Keep(db.snap.tables, (t: Table) => t.serverId != id),
              Keep(db.snap.columns, (c: Column) => !InSubtree(db.snap, id, c)),
              Keep(db.snap.functions, (f: Function) => f.serverId != id))
  {
    var snap, i := db.snap, IndexWhere(db.snap.servers, (s: Server) => s.id == id);
    var dropped := TablesOfServer(snap, id);
    RemoveIsKeep(snap.servers, i, (s: Server) => s.id, (s: Server) => s.id != id);
    KeepSame(snap.tables, TablesElsewhere(id), (t: Table) => t.serverId != id);
    KeepSame(snap.functions, FunctionsElsewhere(id), (f: Function) => f.serverId != id);
    KeepSame(snap.columns, ColumnsOutside(dropped), (c: Column) => !InSubtree(snap, id, c));
  }

  // ---- Failures. ----

  /** The name under which an inline credential is stored. */
  function InlineName(req: CreateServerRequest): string {
    if Trim(req.credentialName) == "" then req.name + "-credential" else Trim(req.credentialName)
  }

  /** CreateServer never creates a server from a request with an inline credential. */
  lemma InlineCredentialIsAlwaysRejected(db: Db, req: CreateServerRequest, now: Timestamp)
    requires req.credential != map[]
    ensures CreateServer(db, req, now).1.Some?
    ensures CreateServer(db, req, now).0.snap.servers == db.snap.servers
  {
  }

  lemma ApplyCreateServer(db: Db, op: Op)
    requires op.OpCreateServer?
    ensures Apply(db, op) == CreateServer(db, op.server, op.now)
  {
  }

  lemma OtherFailuresChangeNothing(db: Db, op: Op)
    requires Apply(db, op).1.Some? && !op.OpCreateServer?
    ensures Apply(db, op).0 == db
  {
    hide Keep, NewColumns, IndexWhere;
  }

  lemma FailedCreateServer(db: Db, req: CreateServerRequest, now: Timestamp)
    requires CreateServer(db, req, now).1.Some?
    ensures CreateServer(db, req, now).0 != db <==>
            && req.name != "" && req.protocol != "" && req.credentialRef.None? && req.credential != map[]
            && forall c :: c in db.snap.credentials ==> c.name != InlineName(req)
    ensures CreateServer(db, req, now).0 != db ==>
            CreateServer(db, req, now).0.snap == db.snap.(credentials :=
              db.snap.credentials + [Credential(db.next, InlineName(req), req.credential)])
  {
    hide Trim;
    var i := IndexWhere(db.snap.credentials, (c: Credential) => c.name == InlineName(req));
    assert i >= 0 ==> db.snap.credentials[i] in db.snap.credentials;
  }

  /** A failed operation changes nothing, with one exception: a CreateServer with an inline credential whose name
      is still free leaves that credential behind. */
  lemma FailureChangesNothingExactlyUnless(db: Db, op: Op)
    requires Apply(db, op).1.Some?
    ensures Apply(db, op).0 != db <==>
            op.OpCreateServer? && op.server.name != "" && op.server.protocol != ""
            && op.server.credentialRef.None? && op.server.credential != map[]
            && forall c :: c in db.snap.credentials ==> c.name != InlineName(op.server)
    ensures Apply(db, op).0 != db ==>
            Apply(db, op).0.snap == db.snap.(credentials :=
              db.snap.credentials + [Credential(db.next, InlineName(op.server), op.server.credential)])
  {
    hide Keep, NewColumns, Trim, Apply, CreateServer;
    if op.OpCreateServer? {
      ApplyCreateServer(db, op);
      FailedCreateServer(db, op.server, op.now);
    } else {
      OtherFailuresChangeNothing(db, op);
    }
  }
}
