/** What each operation of the store does to a caller's view: when it fails, what it changes, and what it leaves
    alone. */
module StoreEffects {
  import opened Text
  import opened Meta
  import opened Seqs
  import opened StoreSpec
  import opened StoreInvariant

  // ---- Asking for records. ----

  ghost predicate NamesServer(snap: Snapshot, name: string) {
    exists s :: s in snap.servers && s.name == name
  }

  ghost predicate NamesTable(snap: Snapshot, schema: string, name: string) {
    exists t :: t in snap.tables && t.schema == schema && t.name == name
  }

  ghost predicate NamesFunction(snap: Snapshot, schema: string, name: string) {
    exists f :: f in snap.functions && f.schema == schema && f.name == name
  }

  /** The value given, or else the one there was. */
  ghost predicate Given<T(!new)>(o: Option<T>, was: T, became: T) {
    (o.Some? ==> became == o.value) && (o.None? ==> became == was)
  }

  lemma NoneWhere<T>(s: seq<T>, p: T -> bool)
    ensures IndexWhere(s, p) < 0 <==> forall x :: x in s ==> !p(x)
  {
    var i := IndexWhere(s, p);
    assert i >= 0 ==> s[i] in s;
  }

  // ---- Credentials. ----

  lemma CreateCredentialEffect(db: Db, name: string, data: Fields)
    ensures var (db', failed) := CreateCredential(db, name, data);
            var taken := exists c :: c in db.snap.credentials && c.name == name;
            && failed == (if name == "" then Some(Invalid) else if taken then Some(AlreadyExists) else None)
            && (failed.Some? ==> db' == db)
            && (failed.None? ==>
                  db'.snap == db.snap.(credentials := db.snap.credentials + [Credential(db.next, name, data)]))
  {
    NoneWhere(db.snap.credentials, (c: Credential) => c.name == name);
  }

  lemma DeleteCredentialEffect(db: Db, id: Id)
    requires Valid(db)
    ensures var (db', failed) := DeleteCredential(db, id);
            var known := exists c :: c in db.snap.credentials && c.id == id;
            var used := exists s :: s in db.snap.servers && s.credentialRef == Some(id);
            && failed == (if !known then Some(NotFound) else if used then Some(InUse) else None)
            && (failed.Some? ==> db' == db)
            && (failed.None? ==>
                  db' == db.(snap := db.snap.(credentials := Keep(db.snap.credentials, (c: Credential) => c.id != id))))
  {
    NoneWhere(db.snap.credentials, (c: Credential) => c.id == id);
    NoneWhere(db.snap.servers, (s: Server) => s.credentialRef == Some(id));
    var i := IndexWhere(db.snap.credentials, (c: Credential) => c.id == id);
    if i >= 0 {
      RemoveIsKeep(db.snap.credentials, i, (c: Credential) => c.id, (c: Credential) => c.id != id);
    }
  }

  // ---- Servers. ----

  /** Without an inline credential: refused for a blank name or protocol or a taken name, otherwise added, enabled
      unless asked otherwise. */
  lemma CreateServerEffect(db: Db, req: CreateServerRequest, now: Timestamp)
    requires req.credential == map[]
    ensures var (db', failed) := CreateServer(db, req, now);
            && failed == (if req.name == "" || req.protocol == "" then Some(Invalid)
                          else if NamesServer(db.snap, req.name) then Some(AlreadyExists) else None)
            && (failed.Some? ==> db' == db)
            && (failed.None? ==>
                  && |db'.snap.servers| == |db.snap.servers| + 1
                  && db'.snap == db.snap.(servers := db.snap.servers + [db'.snap.servers[|db.snap.servers|]])
                  && var s := db'.snap.servers[|db.snap.servers|];
                     && s.id == db.next && db.next < db'.next && s.name == req.name && s.protocol == req.protocol
                     && s.credentialRef == req.credentialRef && s.updatedAt == now
                     && (s.enabled <==> req.enabled != Some(false))
                     && Given(req.options, map[], s.options))
  {
    hide Trim;
    NoneWhere(db.snap.servers, (s: Server) => s.name == req.name);
  }

  /** The records before and after, alike but for those of the identifier. */
  ghost predicate OneChanged<T(!new)>(a: seq<T>, b: seq<T>, isIt: T -> bool) {
    |a| == |b| && forall i :: 0 <= i < |a| && !isIt(a[i]) ==> b[i] == a[i]
  }

  lemma UpdateServerEffect(db: Db, id: Id, req: UpdateServerRequest, now: Timestamp)
    requires Valid(db)
    ensures var (db', failed) := UpdateServer(db, id, req, now);
            && failed == (if HasServer(db.snap, id) then None else Some(NotFound))
            && (failed.Some? ==> db' == db)
            && db'.next == db.next && db'.snap == db.snap.(servers := db'.snap.servers)
            && OneChanged(db.snap.servers, db'.snap.servers, (s: Server) => s.id == id)
            && forall i :: 0 <= i < |db.snap.servers| && db.snap.servers[i].id == id ==>
                 var was, became := db.snap.servers[i], db'.snap.servers[i];
                 && became.id == id && became.name == was.name && became.protocol == was.protocol
                      && became.updatedAt == now
                 && Given(req.options, was.options, became.options) && Given(req.enabled, was.enabled, became.enabled)
                 && (req.credentialRef.Some? ==> became.credentialRef == req.credentialRef)
                 && (req.credentialRef.None? ==> became.credentialRef == was.credentialRef)
  {
    NoneWhere(db.snap.servers, (s: Server) => s.id == id);
    OnlyOne(db.snap.servers, (s: Server) => s.id, id);
  }

  /** With unique identifiers there is one place to change. */
  lemma OnlyOne<T(!new)>(s: seq<T>, key: T -> Id, id: Id)
    requires Unique(s, key)
    ensures forall i, j :: 0 <= i < |s| && 0 <= j < |s| && key(s[i]) == id && key(s[j]) == id ==> i == j
  {
  }

  // ---- Tables. ----

  ghost predicate Named(inputs: seq<ColumnInput>, i: int) {
    0 <= i < |inputs| && inputs[i].name != ""
  }

  /** The column is the one asked for in the i-th place: type `text`, nullable and that place unless given. */
  ghost predicate IsAsked(c: Column, input: ColumnInput, i: nat) {
    && c.name == input.name && c.remoteName == input.remoteName
    && c.dataType == (if input.dataType == "" then "text" else input.dataType)
    && (c.nullable <==> input.nullable != Some(false))
    && c.position == (if input.position == 0 then i else input.position)
  }

  /** The columns are those asked for with a name, each once, in that order: `places` tells where each one was. */
  ghost predicate AreAsked(cols: seq<Column>, inputs: seq<ColumnInput>, places: seq<nat>) {
    && |places| == |cols|
    && (forall k :: 0 <= k < |cols| ==> Named(inputs, places[k]) && IsAsked(cols[k], inputs[places[k]], places[k]))
    && (forall j, k :: 0 <= j < k < |places| ==> places[j] < places[k])
    && (forall i :: Named(inputs, i) ==> i in places)
  }

  /** One more input without a name changes nothing; one with a name is one more column. */
  lemma MoreAsked(cols: seq<Column>, inputs: seq<ColumnInput>, places: seq<nat>, input: ColumnInput, c: Column)
    requires AreAsked(cols, inputs, places)
    ensures input.name == "" ==> AreAsked(cols, inputs + [input], places)
    ensures input.name != "" && IsAsked(c, input, |inputs|) ==>
              AreAsked(cols + [c], inputs + [input], places + [|inputs|])
  {
    hide IsAsked;
    var all := inputs + [input];
    assert forall i :: 0 <= i < |inputs| ==> all[i] == inputs[i];
    assert forall i :: Named(all, i) <==> Named(inputs, i) || (i == |inputs| && input.name != "");
    assert forall k :: 0 <= k < |places| ==> Named(inputs, places[k]);
    if input.name != "" {
      assert forall i :: i in places ==> i in places + [|inputs|];
      assert (places + [|inputs|])[|places|] == |inputs|;
    }
  }

  lemma NoneAsked()
    ensures AreAsked([], [], [])
  {
  }

  lemma {:induction false} NewColumnsAreAsked(inputs: seq<ColumnInput>, tableId: Id,
                                              next: Id) returns (places: seq<nat>)
    ensures AreAsked(NewColumns(inputs, tableId, next), inputs, places)
    ensures forall c :: c in NewColumns(inputs, tableId, next) ==> c.tableId == tableId
  {
    hide AreAsked;
    places := [];
    if inputs == [] {
      NoneAsked();
    } else {
      var before, input := inputs[..|inputs| - 1], inputs[|inputs| - 1];
      places := NewColumnsAreAsked(before, tableId, next);
      var cols, all := NewColumns(before, tableId, next), NewColumns(inputs, tableId, next);
      assert inputs == before + [input];
      if input.name == "" {
        MoreAsked(cols, before, places, input, Column(0, 0, "", "", "", true, 0));
      } else {
        var c := all[|cols|];
        assert all == cols + [c] && IsAsked(c, input, |before|);
        MoreAsked(cols, before, places, input, c);
        places := places + [|before|];
      }
    }
  }

  /** The table a request creates: on the server of that name, with what is asked for and defaults for the rest. */
  ghost predicate IsRequested(snap: Snapshot, t: Table, req: CreateTableRequest) {
    && t.schema == (if req.schema == "" then "public" else req.schema) && t.name == req.name
    && t.remoteName == req.remoteName && t.keyColumns == req.keyColumns && Given(req.options, map[], t.options)
    && exists s :: s in snap.servers && s.name == req.serverName && s.id == t.serverId
  }

  lemma CreateTableFails(db: Db, req: CreateTableRequest)
    ensures var schema := if req.schema == "" then "public" else req.schema;
            CreateTable(db, req).1
            == if req.serverName == "" || req.name == "" then Some(Invalid)
               else if !NamesServer(db.snap, req.serverName) then Some(NotFound)
               else if NamesTable(db.snap, schema, req.name) then Some(AlreadyExists) else None
    ensures CreateTable(db, req).1.Some? ==> CreateTable(db, req).0 == db
  {
    hide NewColumns;
    var schema := if req.schema == "" then "public" else req.schema;
    NoneWhere(db.snap.servers, (s: Server) => s.name == req.serverName);
    NoneWhere(db.snap.tables, (t: Table) => t.schema == schema && t.name == req.name);
  }

  /** The records a successful CreateTable adds. */
  lemma CreateTableAdds(db: Db, req: CreateTableRequest) returns (t: Table, cols: seq<Column>, places: seq<nat>)
    requires CreateTable(db, req).1.None?
    ensures var db' := CreateTable(db, req).0;
            && db'.snap == db.snap.(tables := db.snap.tables + [t], columns := db.snap.columns + cols)
            && t.id == db.next && IsRequested(db.snap, t, req)
            && AreAsked(cols, req.columns, places) && forall c :: c in cols ==> c.tableId == t.id
  {
    hide NewColumns;
    var db' := CreateTable(db, req).0;
    var i := IndexWhere(db.snap.servers, (s: Server) => s.name == req.serverName);
    assert db.snap.servers[i] in db.snap.servers;
    t := db'.snap.tables[|db.snap.tables|];
    cols := NewColumns(req.columns, db.next, db.next + 1);
    places := NewColumnsAreAsked(req.columns, db.next, db.next + 1);
  }

  /** A new table resolves to what was asked for, on the server that was named. */
  lemma CreatedTableResolves(db: Db, req: CreateTableRequest) returns (s: Server, cols: seq<Column>, places: seq<nat>)
    requires Valid(db) && CreateTable(db, req).1.None?
    ensures s in db.snap.servers && s.name == req.serverName && AreAsked(cols, req.columns, places)
    ensures var schema := if req.schema == "" then "public" else req.schema;
            var r := ResolveTable(CreateTable(db, req).0.snap, schema, req.name);
            if !s.enabled then r == Unresolved(Disabled)
            else && r.Resolved? && r.value.server == s && IsRequested(db.snap, r.value.table, req)
                 && Sorted(r.value.columns, ColumnBefore) && multiset(r.value.columns) == multiset(cols)
  {
    hide NewColumns, CreateTable, Sort, Sorted, Keep;
    var db' := CreateTable(db, req).0;
    var t: Table;
    t, cols, places := CreateTableAdds(db, req);
    CreateTableValid(db, req);
    s :| s in db.snap.servers && s.name == req.serverName && s.id == t.serverId;
    assert t in db'.snap.tables by { assert db'.snap.tables[|db.snap.tables|] == t; }
    hide Valid;
    TableFound(db', t, s);
    NewColumnsAlone(db, t, cols);
    assert ColumnsOf(db'.snap, t.id) == cols;
    ColumnOrder();
    SortSorted(cols, ColumnBefore);
  }

  lemma {:induction false} KeepNone<T>(s: seq<T>, p: T -> bool)
    requires forall x :: x in s ==> !p(x)
    ensures Keep(s, p) == []
  {
    if s != [] {
      KeepNone(s[..|s| - 1], p);
    }
  }

  lemma NewColumnsAlone(db: Db, t: Table, cols: seq<Column>)
    requires Valid(db) && t.id >= db.next && forall c :: c in cols ==> c.tableId == t.id
    ensures Keep(db.snap.columns + cols, OfTable(t.id)) == cols
  {
    forall c | c in db.snap.columns
      ensures c.tableId != t.id
    {
      assert HasTable(db.snap, c.tableId);
    }
    hide Valid;
    KeepConcat(db.snap.columns, cols, OfTable(t.id));
    KeepNone(db.snap.columns, OfTable(t.id));
    KeepAll(cols, OfTable(t.id));
    assert [] + cols == cols;
  }

  lemma SearchSnoc<T>(s: seq<T>, x: T, p: T -> bool)
    ensures IndexWhere(s + [x], p) == if IndexWhere(s, p) >= 0 then IndexWhere(s, p) else if p(x) then |s| else -1
  {
    assert (s + [x])[..|s|] == s;
  }

  lemma OtherColumnsStay(db: Db, added: seq<Column>, id: Id)
    requires forall c :: c in added ==> c.tableId != id
    ensures Keep(db.snap.columns + added, OfTable(id)) == Keep(db.snap.columns, OfTable(id))
  {
    KeepConcat(db.snap.columns, added, OfTable(id));
    KeepNone(added, OfTable(id));
  }

  /** Every other name resolves to what it did. */
  lemma CreateTableKeepsOthers(db: Db, req: CreateTableRequest, schema: string, name: string)
    requires Valid(db) && CreateTable(db, req).1.None?
    requires !(schema == (if req.schema == "" then "public" else req.schema) && name == req.name)
    ensures ResolveTable(CreateTable(db, req).0.snap, schema, name) == ResolveTable(db.snap, schema, name)
    ensures ResolveFunction(CreateTable(db, req).0.snap, schema, name) == ResolveFunction(db.snap, schema, name)
  {
    hide CreateTable, NewColumns, Keep, Sort;
    var t, cols, places := CreateTableAdds(db, req);
    var p := (u: Table) => u.schema == schema && u.name == name;
    SearchSnoc(db.snap.tables, t, p);
    var i := IndexWhere(db.snap.tables, p);
    if i >= 0 {
      assert db.snap.tables[i] in db.snap.tables;
      OtherColumnsStay(db, cols, db.snap.tables[i].id);
    }
  }

  lemma UpdateTableEffect(db: Db, id: Id, req: UpdateTableRequest)
    requires Valid(db)
    ensures var (db', failed) := UpdateTable(db, id, req);
            && failed == (if HasTable(db.snap, id) then None else Some(NotFound))
            && (failed.Some? ==> db' == db)
            && db'.next == db.next && db'.snap == db.snap.(tables := db'.snap.tables)
            && OneChanged(db.snap.tables, db'.snap.tables, (t: Table) => t.id == id)
            && forall i :: 0 <= i < |db.snap.tables| && db.snap.tables[i].id == id ==>
                 var was, became := db.snap.tables[i], db'.snap.tables[i];
                 && became.id == id && became.serverId == was.serverId
                 && became.schema == was.schema && became.name == was.name
                 && Given(req.remoteName, was.remoteName, became.remoteName)
                 && Given(req.keyColumns, was.keyColumns, became.keyColumns)
                 && Given(req.options, was.options, became.options)
  {
    NoneWhere(db.snap.tables, (t: Table) => t.id == id);
    OnlyOne(db.snap.tables, (t: Table) => t.id, id);
  }

  lemma DeleteTableEffect(db: Db, id: Id)
    requires Valid(db)
    ensures var (db', failed) := DeleteTable(db, id);
            && failed == (if HasTable(db.snap, id) then None else Some(NotFound))
            && (failed.Some? ==> db' == db)
            && (failed.None? ==>
                  db' == db.(snap := db.snap.(tables := Keep(db.snap.tables, (t: Table) => t.id != id),
                                              columns := Keep(db.snap.columns, (c: Column) => c.tableId != id))))
  {
    NoneWhere(db.snap.tables, (t: Table) => t.id == id);
    var i := IndexWhere(db.snap.tables, (t: Table) => t.id == id);
    if i >= 0 {
      RemoveIsKeep(db.snap.tables, i, (t: Table) => t.id, (t: Table) => t.id != id);
      KeepSame(db.snap.columns, ColumnsOutside({id}), (c: Column) => c.tableId != id);
    }
  }

  // ---- Columns. ----

  ghost predicate NamesColumn(snap: Snapshot, tableId: Id, name: string) {
    exists c :: c in snap.columns && c.tableId == tableId && c.name == name
  }

  lemma CreateColumnFails(db: Db, tableId: Id, req: ColumnInput)
    ensures CreateColumn(db, tableId, req).1
            == if req.name == "" then Some(Invalid)
               else if !HasTable(db.snap, tableId) then Some(NotFound)
               else if NamesColumn(db.snap, tableId, req.name) then Some(AlreadyExists) else None
    ensures CreateColumn(db, tableId, req).1.Some? ==> CreateColumn(db, tableId, req).0 == db
  {
    NoneWhere(db.snap.tables, (t: Table) => t.id == tableId);
    NoneWhere(db.snap.columns, (c: Column) => c.tableId == tableId && c.name == req.name);
  }

  /** A new column is last among its table's, with what is asked for, its position as given; those of other tables
      stay. */
  lemma CreateColumnEffect(db: Db, tableId: Id, req: ColumnInput) returns (c: Column)
    requires CreateColumn(db, tableId, req).1.None?
    ensures var db' := CreateColumn(db, tableId, req).0;
            && db'.snap == db.snap.(columns := db.snap.columns + [c])
            && c.id == db.next && c.tableId == tableId && c.name == req.name && c.remoteName == req.remoteName
            && c.dataType == (if req.dataType == "" then "text" else req.dataType)
            && (c.nullable <==> req.nullable != Some(false)) && c.position == req.position
            && ColumnsOf(db'.snap, tableId) == ColumnsOf(db.snap, tableId) + [c]
            && forall id :: id != tableId ==> ColumnsOf(db'.snap, id) == ColumnsOf(db.snap, id)
  {
    hide Keep;
    var db' := CreateColumn(db, tableId, req).0;
    c := db'.snap.columns[|db.snap.columns|];
    KeepSnoc(db.snap.columns, c, OfTable(tableId));
    forall id | id != tableId
      ensures ColumnsOf(db'.snap, id) == ColumnsOf(db.snap, id)
    {
      KeepSnoc(db.snap.columns, c, OfTable(id));
    }
  }

  lemma UpdateColumnEffect(db: Db, id: Id, req: UpdateColumnRequest)
    requires Valid(db)
    ensures var (db', failed) := UpdateColumn(db, id, req);
            && failed == (if exists c :: c in db.snap.columns && c.id == id then None else Some(NotFound))
            && (failed.Some? ==> db' == db)
            && db'.next == db.next && db'.snap == db.snap.(columns := db'.snap.columns)
            && OneChanged(db.snap.columns, db'.snap.columns, (c: Column) => c.id == id)
            && forall i :: 0 <= i < |db.snap.columns| && db.snap.columns[i].id == id ==>
                 var was, became := db.snap.columns[i], db'.snap.columns[i];
                 && became.id == id && became.tableId == was.tableId && became.name == was.name
                 && Given(req.dataType, was.dataType, became.dataType)
                 && Given(req.remoteName, was.remoteName, became.remoteName)
                 && Given(req.nullable, was.nullable, became.nullable)
                 && Given(req.position, was.position, became.position)
  {
    NoneWhere(db.snap.columns, (c: Column) => c.id == id);
    OnlyOne(db.snap.columns, (c: Column) => c.id, id);
  }

  lemma DeleteColumnEffect(db: Db, id: Id)
    requires Valid(db)
    ensures var (db', failed) := DeleteColumn(db, id);
            && failed == (if exists c :: c in db.snap.columns && c.id == id then None else Some(NotFound))
            && (failed.Some? ==> db' == db)
            && (failed.None? ==>
                  db' == db.(snap := db.snap.(columns := Keep(db.snap.columns, (c: Column) => c.id != id))))
  {
    NoneWhere(db.snap.columns, (c: Column) => c.id == id);
    var i := IndexWhere(db.snap.columns, (c: Column) => c.id == id);
    if i >= 0 {
      RemoveIsKeep(db.snap.columns, i, (c: Column) => c.id, (c: Column) => c.id != id);
    }
  }

  // ---- Functions. ----

  ghost predicate IsRequestedFunction(snap: Snapshot, f: Function, req: CreateFunctionRequest) {
    && f.schema == (if req.schema == "" then "public" else req.schema) && f.name == req.name
    && f.operation == req.operation && f.remotePath == req.remotePath && f.httpMethod == req.httpMethod
    && Given(req.options, map[], f.options)
    && exists s :: s in snap.servers && s.name == req.serverName && s.id == f.serverId
  }

  lemma CreateFunctionFails(db: Db, req: CreateFunctionRequest)
    ensures var schema := if req.schema == "" then "public" else req.schema;
            CreateFunction(db, req).1
            == if req.serverName == "" || req.name == "" || req.operation == "" then Some(Invalid)
               else if !NamesServer(db.snap, req.serverName) then Some(NotFound)
               else if NamesFunction(db.snap, schema, req.name) then Some(AlreadyExists) else None
    ensures CreateFunction(db, req).1.Some? ==> CreateFunction(db, req).0 == db
  {
    var schema := if req.schema == "" then "public" else req.schema;
    NoneWhere(db.snap.servers, (s: Server) => s.name == req.serverName);
    NoneWhere(db.snap.functions, (f: Function) => f.schema == schema && f.name == req.name);
  }

  lemma CreateFunctionAdds(db: Db, req: CreateFunctionRequest) returns (f: Function)
    requires CreateFunction(db, req).1.None?
    ensures var db' := CreateFunction(db, req).0;
            && db'.snap == db.snap.(functions := db.snap.functions + [f])
            && f.id == db.next && db.next < db'.next && IsRequestedFunction(db.snap, f, req)
  {
    var i := IndexWhere(db.snap.servers, (s: Server) => s.name == req.serverName);
    assert db.snap.servers[i] in db.snap.servers;
    f := CreateFunction(db, req).0.snap.functions[|db.snap.functions|];
  }

  lemma FunctionFound(snap: Snapshot, f: Function, s: Server)
    requires Unique(snap.functions, (g: Function) => (g.schema, g.name)) && Unique(snap.servers, (u: Server) => u.id)
    requires f in snap.functions && s in snap.servers && s.id == f.serverId
    ensures ResolveFunction(snap, f.schema, f.name)
            == if s.enabled then Resolved(ResolvedFunction(f, s)) else Unresolved(Disabled)
  {
    FoundAlone(snap.functions, f, (g: Function) => g.schema == f.schema && g.name == f.name);
    FoundAlone(snap.servers, s, (u: Server) => u.id == f.serverId);
  }

  /** A new function resolves to what was asked for, on the server that was named. */
  lemma CreatedFunctionResolves(db: Db, req: CreateFunctionRequest) returns (s: Server)
    requires Valid(db) && CreateFunction(db, req).1.None?
    ensures s in db.snap.servers && s.name == req.serverName
    ensures var schema := if req.schema == "" then "public" else req.schema;
            var r := ResolveFunction(CreateFunction(db, req).0.snap, schema, req.name);
            if !s.enabled then r == Unresolved(Disabled)
            else r.Resolved? && r.value.server == s && IsRequestedFunction(db.snap, r.value.target, req)
  {
    hide CreateFunction, ResolveFunction, Linked, IdsBelow, Unique;
    var db' := CreateFunction(db, req).0;
    var f := CreateFunctionAdds(db, req);
    CreateFunctionValid(db, req);
    s :| s in db.snap.servers && s.name == req.serverName && s.id == f.serverId;
    assert f in db'.snap.functions by { assert db'.snap.functions[|db.snap.functions|] == f; }
    FunctionFound(db'.snap, f, s);
  }

  lemma CreateFunctionKeepsOthers(db: Db, req: CreateFunctionRequest, schema: string, name: string)
    requires CreateFunction(db, req).1.None?
    requires !(schema == (if req.schema == "" then "public" else req.schema) && name == req.name)
    ensures ResolveTable(CreateFunction(db, req).0.snap, schema, name) == ResolveTable(db.snap, schema, name)
    ensures ResolveFunction(CreateFunction(db, req).0.snap, schema, name) == ResolveFunction(db.snap, schema, name)
  {
    hide CreateFunction, Keep, Sort;
    var f := CreateFunctionAdds(db, req);
    SearchSnoc(db.snap.functions, f, (g: Function) => g.schema == schema && g.name == name);
  }

  lemma UpdateFunctionEffect(db: Db, id: Id, req: UpdateFunctionRequest)
    requires Valid(db)
    ensures var (db', failed) := UpdateFunction(db, id, req);
            && failed == (if exists f :: f in db.snap.functions && f.id == id then None else Some(NotFound))
            && (failed.Some? ==> db' == db)
            && db'.next == db.next && db'.snap == db.snap.(functions := db'.snap.functions)
            && OneChanged(db.snap.functions, db'.snap.functions, (f: Function) => f.id == id)
            && forall i :: 0 <= i < |db.snap.functions| && db.snap.functions[i].id == id ==>
                 var was, became := db.snap.functions[i], db'.snap.functions[i];
                 && became.id == id && became.serverId == was.serverId
                 && became.schema == was.schema && became.name == was.name
                 && Given(req.operation, was.operation, became.operation)
                 && Given(req.remotePath, was.remotePath, became.remotePath)
                 && Given(req.httpMethod, was.httpMethod, became.httpMethod)
                 && Given(req.options, was.options, became.options)
  {
    NoneWhere(db.snap.functions, (f: Function) => f.id == id);
    OnlyOne(db.snap.functions, (f: Function) => f.id, id);
  }

  lemma DeleteFunctionEffect(db: Db, id: Id)
    requires Valid(db)
    ensures var (db', failed) := DeleteFunction(db, id);
            && failed == (if exists f :: f in db.snap.functions && f.id == id then None else Some(NotFound))
            && (failed.Some? ==> db' == db)
            && (failed.None? ==>
                  db' == db.(snap := db.snap.(functions := Keep(db.snap.functions, (f: Function) => f.id != id))))
  {
    NoneWhere(db.snap.functions, (f: Function) => f.id == id);
    var i := IndexWhere(db.snap.functions, (f: Function) => f.id == id);
    if i >= 0 {
      RemoveIsKeep(db.snap.functions, i, (f: Function) => f.id, (f: Function) => f.id != id);
    }
  }

  // ---- What an update does to resolution. ----

  /** Updating a server leaves what resolves on others, and what resolves on it unless it is disabled. */
  lemma UpdatedServerResolves(db: Db, id: Id, req: UpdateServerRequest, now: Timestamp, schema: string, name: string)
    requires Valid(db) && UpdateServer(db, id, req, now).1.None?
    ensures var before, after := ResolveTable(db.snap, schema, name),
                                 ResolveTable(UpdateServer(db, id, req, now).0.snap, schema, name);
            && (before == Unresolved(NotFound) <==> after == Unresolved(NotFound))
            && (before.Resolved? && before.value.server.id != id ==> after == before)
            && (before.Resolved? && before.value.server.id == id && req.enabled != Some(false) ==>
                  && after.Resolved? && after.value.table == before.value.table
                  && after.value.columns == before.value.columns)
            && (before.Resolved? && before.value.server.id == id && req.enabled == Some(false) ==>
                  after == Unresolved(Disabled))
  {
    UpdateServerEffect(db, id, req, now);
    UpdateServerValid(db, id, req, now);
    hide UpdateServer, Keep, Sort, UniqueNames, IdsBelow;
    var db' := UpdateServer(db, id, req, now).0;
    var i := IndexWhere(db.snap.tables, (t: Table) => t.schema == schema && t.name == name);
    if i >= 0 {
      var t := db.snap.tables[i];
      var p := (s: Server) => s.id == t.serverId;
      assert t in db.snap.tables && HasServer(db.snap, t.serverId);
      NoneWhere(db.snap.servers, p);
      SamePlace(db.snap.servers, db'.snap.servers, p);
    }
  }

  lemma {:induction false} SamePlace<T>(a: seq<T>, b: seq<T>, p: T -> bool)
    requires |a| == |b| && forall i :: 0 <= i < |a| ==> p(a[i]) == p(b[i])
    ensures IndexWhere(a, p) == IndexWhere(b, p)
  {
    if a != [] {
      SamePlace(a[..|a| - 1], b[..|b| - 1], p);
    }
  }
}
