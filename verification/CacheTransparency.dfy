/** When the only store changes are imports, creations, deletions and server updates, the cache cannot be told from the
    store. */
module CacheTransparency {
  import opened Text
  import opened Meta
  import opened Seqs
  import opened StoreSpec
  import opened StoreInvariant
  import opened MetaCache
  import opened CacheRuns
  import opened Documents
  import opened Declarative
  import opened CompiledIds
  import V = Revision

  /** The changes that either leave resolution alone or change the revision. */
  predicate RevisionedOp(op: Op) {
    !(op.OpUpdateTable? || op.OpCreateColumn? || op.OpUpdateColumn? || op.OpDeleteColumn? || op.OpUpdateFunction?)
  }

  /** What every such change keeps; names need not be unique, as they are not after some imports. */
  ghost predicate Sound(db: Db) {
    InOrder(db.snap) && IdsBelow(db.snap, db.next)
  }

  /** Records with the same identity are the same record, with the same columns. */
  ghost predicate Agree(a: Snapshot, b: Snapshot) {
    && (forall x, y :: x in a.servers && y in b.servers && x.id == y.id && x.updatedAt == y.updatedAt ==> x == y)
    && (forall x, y :: x in a.tables && y in b.tables && x.id == y.id ==>
          x == y && ColumnsOf(a, x.id) == ColumnsOf(b, x.id))
    && (forall x, y :: x in a.functions && y in b.functions && x.id == y.id ==> x == y)
  }

  // ---- Equal revisions, equal answers. ----

  ghost predicate Decodable(snap: Snapshot, next: Id) {
    && IdsBelow(snap, next) && next <= V.Pow(256, 16)
    && forall v :: v in VersionsIn(snap) ==> V.Writable(v.1)
  }

  lemma SortedRecords(snap: Snapshot)
    ensures forall x :: x in V.Servers(snap) <==> x in snap.servers
    ensures forall x :: x in V.Tables(snap) <==> x in snap.tables
    ensures forall x :: x in V.Functions(snap) <==> x in snap.functions
  {
    assert forall x :: x in V.Servers(snap) <==> x in multiset(V.Servers(snap));
    assert forall x :: x in V.Tables(snap) <==> x in multiset(V.Tables(snap));
    assert forall x :: x in V.Functions(snap) <==> x in multiset(V.Functions(snap));
  }

  lemma RecordsEncodable(snap: Snapshot, next: Id)
    requires Decodable(snap, next)
    ensures V.Encodable(V.Versions(V.Servers(snap)), V.TableIds(V.Tables(snap)), V.FunctionIds(V.Functions(snap)))
  {
    hide V.Writable, V.Pow, V.Servers, V.Tables, V.Functions;
    SortedRecords(snap);
    var servers, tables, functions := V.Servers(snap), V.Tables(snap), V.Functions(snap);
    forall v | v in V.Versions(servers)
      ensures V.IsUuid(v.0) && V.Writable(v.1)
    {
      var i :| 0 <= i < |servers| && V.Versions(servers)[i] == v;
      assert servers[i] in snap.servers && v in VersionsIn(snap);
    }
    forall id | id in V.TableIds(tables)
      ensures V.IsUuid(id)
    {
      var i :| 0 <= i < |tables| && V.TableIds(tables)[i] == id;
      assert tables[i] in snap.tables;
    }
    forall id | id in V.FunctionIds(functions)
      ensures V.IsUuid(id)
    {
      var i :| 0 <= i < |functions| && V.FunctionIds(functions)[i] == id;
      assert functions[i] in snap.functions;
    }
  }

  lemma ServersShared(a: Snapshot, b: Snapshot)
    requires Agree(a, b) && V.Versions(V.Servers(a)) == V.Versions(V.Servers(b))
    ensures forall x :: x in a.servers ==> x in b.servers
  {
    hide V.Servers, ColumnsOf;
    SortedRecords(a);
    SortedRecords(b);
    var sa, sb := V.Servers(a), V.Servers(b);
    forall x | x in a.servers
      ensures x in b.servers
    {
      var i :| 0 <= i < |sa| && sa[i] == x;
      assert V.Versions(sa)[i] == V.Versions(sb)[i] && sb[i] in b.servers;
    }
  }

  lemma TablesShared(a: Snapshot, b: Snapshot)
    requires Agree(a, b) && V.TableIds(V.Tables(a)) == V.TableIds(V.Tables(b))
    ensures forall x :: x in a.tables ==> x in b.tables && ColumnsOf(a, x.id) == ColumnsOf(b, x.id)
  {
    hide V.Tables, ColumnsOf;
    SortedRecords(a);
    SortedRecords(b);
    var ta, tb := V.Tables(a), V.Tables(b);
    forall x | x in a.tables
      ensures x in b.tables && ColumnsOf(a, x.id) == ColumnsOf(b, x.id)
    {
      var i :| 0 <= i < |ta| && ta[i] == x;
      assert V.TableIds(ta)[i] == V.TableIds(tb)[i] && tb[i] in b.tables;
    }
  }

  lemma FunctionsShared(a: Snapshot, b: Snapshot)
    requires Agree(a, b) && V.FunctionIds(V.Functions(a)) == V.FunctionIds(V.Functions(b))
    ensures forall x :: x in a.functions ==> x in b.functions
  {
    hide V.Functions, ColumnsOf;
    SortedRecords(a);
    SortedRecords(b);
    var fa, fb := V.Functions(a), V.Functions(b);
    forall x | x in a.functions
      ensures x in b.functions
    {
      var i :| 0 <= i < |fa| && fa[i] == x;
      assert V.FunctionIds(fa)[i] == V.FunctionIds(fb)[i] && fb[i] in b.functions;
    }
  }

  lemma SameRevisionSameRecords(a: Snapshot, b: Snapshot, next: Id)
    requires Decodable(a, next) && Decodable(b, next) && Agree(a, b)
    requires V.RevisionBytes(a) == V.RevisionBytes(b)
    ensures forall x :: x in a.servers ==> x in b.servers
    ensures forall x :: x in a.tables ==> x in b.tables && ColumnsOf(a, x.id) == ColumnsOf(b, x.id)
    ensures forall x :: x in a.functions ==> x in b.functions
  {
    hide V.Encodable, V.Fingerprint, V.Servers, V.Tables, V.Functions, Agree, Decodable;
    RecordsEncodable(a, next);
    RecordsEncodable(b, next);
    V.FingerprintInjective(V.Versions(V.Servers(a)), V.TableIds(V.Tables(a)), V.FunctionIds(V.Functions(a)),
                           V.Versions(V.Servers(b)), V.TableIds(V.Tables(b)), V.FunctionIds(V.Functions(b)));
    ServersShared(a, b);
    TablesShared(a, b);
    FunctionsShared(a, b);
  }

  /** In the order of creation, resolution is determined by the records. */
  lemma SameRecordsSameAnswers(a: Snapshot, b: Snapshot, schema: string, name: string)
    requires InOrder(a) && InOrder(b)
    requires forall x :: x in a.servers <==> x in b.servers
    requires forall x :: x in a.tables <==> x in b.tables
    requires forall x :: x in a.tables ==> ColumnsOf(a, x.id) == ColumnsOf(b, x.id)
    requires forall x :: x in a.functions <==> x in b.functions
    ensures ResolveTable(a, schema, name) == ResolveTable(b, schema, name)
    ensures ResolveFunction(a, schema, name) == ResolveFunction(b, schema, name)
  {
    hide ColumnsOf, Sort, Ascending;
    AscendingDetermined(a.servers, b.servers, (s: Server) => s.id);
    AscendingDetermined(a.tables, b.tables, (t: Table) => t.id);
    AscendingDetermined(a.functions, b.functions, (f: Function) => f.id);
    var i := IndexWhere(a.tables, (t: Table) => t.schema == schema && t.name == name);
    if i >= 0 {
      assert a.tables[i] in a.tables;
    }
  }

  lemma AgreeSymmetric(a: Snapshot, b: Snapshot)
    requires Agree(a, b)
    ensures Agree(b, a)
  {
  }

  /** Two snapshots of one run with the same revision answer every request alike. */
  lemma SameRevisionSameAnswers(a: Snapshot, b: Snapshot, next: Id, schema: string, name: string)
    requires InOrder(a) && InOrder(b) && Decodable(a, next) && Decodable(b, next) && Agree(a, b)
    requires V.RevisionBytes(a) == V.RevisionBytes(b)
    ensures ResolveTable(a, schema, name) == ResolveTable(b, schema, name)
    ensures ResolveFunction(a, schema, name) == ResolveFunction(b, schema, name)
  {
    hide ResolveTable, ResolveFunction, ColumnsOf, Agree, Decodable, InOrder;
    AgreeSymmetric(a, b);
    SameRevisionSameRecords(a, b, next);
    SameRevisionSameRecords(b, a, next);
    SameRecordsSameAnswers(a, b, schema, name);
  }

  // ---- Changes keep an earlier snapshot and the present one in agreement. ----

  lemma {:induction false} KeepNone<T>(s: seq<T>, p: T -> bool)
    requires forall x :: x in s ==> !p(x)
    ensures Keep(s, p) == []
  {
    if s != [] {
      KeepNone(s[..|s| - 1], p);
    }
  }

  /** Agreement survives if every table of the later state is either new or an old one with its old columns,
      and every server and function is either new or unchanged. */
  lemma AgreeAfter(base: Snapshot, now: Snapshot, later: Snapshot, next: Id, used: set<V.Version>)
    requires Agree(base, now) && IdsBelow(base, next) && VersionsIn(base) <= used
    requires forall y :: y in later.servers ==> y in now.servers || (y.id, y.updatedAt) !in used
    requires forall y :: y in later.tables ==>
               y.id >= next || (y in now.tables && ColumnsOf(later, y.id) == ColumnsOf(now, y.id))
    requires forall y :: y in later.functions ==> y.id >= next || y in now.functions
    ensures Agree(base, later)
  {
    hide ColumnsOf;
  }

  lemma CreateTableColumns(db: Db, req: CreateTableRequest, t: Table)
    requires IdsBelow(db.snap, db.next) && t in db.snap.tables
    ensures ColumnsOf(CreateTable(db, req).0.snap, t.id) == ColumnsOf(db.snap, t.id)
  {
    hide Keep, OfTable;
    NewColumnsShape(req.columns, db.next, db.next + 1);
    assert t.id < db.next;
    AddedColumns(db.snap.columns, NewColumns(req.columns, db.next, db.next + 1), t.id);
  }

  lemma AddedColumns(cols: seq<Column>, added: seq<Column>, id: Id)
    requires forall c :: c in added ==> c.tableId != id
    ensures Keep(cols + added, OfTable(id)) == Keep(cols, OfTable(id))
  {
    KeepConcat(cols, added, OfTable(id));
    KeepNone(added, OfTable(id));
  }

  lemma DeleteServerColumns(db: Db, id: Id, t: Table)
    requires InOrder(db.snap) && t in DeleteServer(db, id).0.snap.tables
    ensures ColumnsOf(DeleteServer(db, id).0.snap, t.id) == ColumnsOf(db.snap, t.id)
  {
    var i := IndexWhere(db.snap.servers, (s: Server) => s.id == id);
    if i >= 0 {
      var dropped := TablesOfServer(db.snap, id);
      AscendingUnique(db.snap.tables, (t: Table) => t.id);
      assert t.id !in dropped;
      KeepKeep(db.snap.columns, ColumnsOutside(dropped), OfTable(t.id));
    }
  }

  lemma DeleteTableColumns(db: Db, id: Id, t: Table)
    requires InOrder(db.snap) && t in DeleteTable(db, id).0.snap.tables
    ensures t in db.snap.tables
    ensures ColumnsOf(DeleteTable(db, id).0.snap, t.id) == ColumnsOf(db.snap, t.id)
  {
    var i := IndexWhere(db.snap.tables, (t: Table) => t.id == id);
    if i >= 0 {
      RemoveMembers(db.snap.tables, i);
      AscendingUnique(db.snap.tables, (t: Table) => t.id);
      RemoveIsKeep(db.snap.tables, i, (t: Table) => t.id, (t: Table) => t.id != id);
      KeepKeep(db.snap.columns, ColumnsOutside({id}), OfTable(t.id));
    }
  }

  /** The calendar fields of timestamps are in range, and an update never reuses a timestamp its server had: a clock
      that strictly increases between updates gives that. The identifier space is not used up. */
  ghost predicate Allowed(w: World, a: Action) {
    match a
    case Change(op) =>
      && RevisionedOp(op)
      && (op.OpCreateServer? || op.OpUpdateServer? ==> V.Writable(op.now))
      && (op.OpUpdateServer? ==> (op.id, op.now) !in w.used)
      && Apply(w.db, op).0.next <= V.Pow(256, 16)
    case Import(env, doc, now) =>
      V.Writable(now) && Imported(w.db, env, doc, now).next <= V.Pow(256, 16)
    case _ => '\0' !in a.schema
  }

  ghost predicate AllowedRun(run: seq<Action>, ttl: int) {
    forall i :: 0 <= i < |run| ==> Allowed(Reached(run[..i], ttl), run[i])
  }

  lemma ServersAfter(db: Db, op: Op, y: Server)
    requires Sound(db) && RevisionedOp(op) && y in Apply(db, op).0.snap.servers
    ensures || y in db.snap.servers
            || (op.OpCreateServer? && y.id >= db.next && y.updatedAt == op.now)
            || (op.OpUpdateServer? && y.id == op.id && y.updatedAt == op.now)
  {
    if op.OpDeleteServer? {
      var i := IndexWhere(db.snap.servers, (s: Server) => s.id == op.id);
      if i >= 0 {
        RemoveMembers(db.snap.servers, i);
      }
    }
  }

  lemma TablesAfter(db: Db, op: Op, y: Table)
    requires Sound(db) && RevisionedOp(op) && y in Apply(db, op).0.snap.tables
    ensures y.id >= db.next
              || (y in db.snap.tables && ColumnsOf(Apply(db, op).0.snap, y.id) == ColumnsOf(db.snap, y.id))
  {
    hide ColumnsOf;
    match op
    case OpCreateTable(req) =>
      if y in db.snap.tables {
        CreateTableColumns(db, req, y);
      }
    case OpDeleteTable(id) => DeleteTableColumns(db, id, y);
    case OpDeleteServer(id) => DeleteServerColumns(db, id, y);
    case _ => SameColumns(db, op, y.id);
  }

  lemma SameColumns(db: Db, op: Op, id: Id)
    requires RevisionedOp(op) && !op.OpCreateTable? && !op.OpDeleteTable? && !op.OpDeleteServer?
    ensures Apply(db, op).0.snap.tables == db.snap.tables
    ensures ColumnsOf(Apply(db, op).0.snap, id) == ColumnsOf(db.snap, id)
  {
  }

  lemma FunctionsAfter(db: Db, op: Op, y: Function)
    requires Sound(db) && RevisionedOp(op) && y in Apply(db, op).0.snap.functions
    ensures y.id >= db.next || y in db.snap.functions
  {
    if op.OpDeleteFunction? {
      var i := IndexWhere(db.snap.functions, (f: Function) => f.id == op.id);
      if i >= 0 {
        RemoveMembers(db.snap.functions, i);
      }
    }
  }

  lemma NextGrows(db: Db, op: Op)
    ensures db.next <= Apply(db, op).0.next
  {
  }

  // ---- Each change keeps the order of creation. ----

  lemma CreateServerSound(db: Db, req: CreateServerRequest, now: Timestamp)
    requires Sound(db)
    ensures Sound(CreateServer(db, req, now).0)
  {
    hide Trim, Ascending;
    var snap, snap' := db.snap, CreateServer(db, req, now).0.snap;
    if snap'.servers != snap.servers {
      AscendingSnoc(snap.servers, snap'.servers[|snap.servers|], (s: Server) => s.id);
    }
  }

  lemma CreateTableSound(db: Db, req: CreateTableRequest)
    requires Sound(db)
    ensures Sound(CreateTable(db, req).0)
  {
    hide NewColumns, Ascending;
    var snap, snap' := db.snap, CreateTable(db, req).0.snap;
    if snap' != snap {
      AscendingSnoc(snap.tables, snap'.tables[|snap.tables|], (t: Table) => t.id);
      NewColumnsShape(req.columns, db.next, db.next + 1);
    }
  }

  lemma CreateFunctionSound(db: Db, req: CreateFunctionRequest)
    requires Sound(db)
    ensures Sound(CreateFunction(db, req).0)
  {
    hide Ascending;
    var snap, snap' := db.snap, CreateFunction(db, req).0.snap;
    if snap'.functions != snap.functions {
      AscendingSnoc(snap.functions, snap'.functions[|snap.functions|], (f: Function) => f.id);
    }
  }

  lemma CreateCredentialSound(db: Db, name: string, data: Fields)
    requires Sound(db)
    ensures Sound(CreateCredential(db, name, data).0)
  {
    hide Ascending;
  }

  lemma DeleteServerSound(db: Db, id: Id)
    requires Sound(db)
    ensures Sound(DeleteServer(db, id).0)
  {
    hide Ascending;
    var snap, i := db.snap, IndexWhere(db.snap.servers, (s: Server) => s.id == id);
    if i >= 0 {
      AscendingRemove(snap.servers, i, (s: Server) => s.id);
      RemoveMembers(snap.servers, i);
      AscendingKeep(snap.tables, TablesElsewhere(id), (t: Table) => t.id);
      AscendingKeep(snap.functions, FunctionsElsewhere(id), (f: Function) => f.id);
    }
  }

  lemma DeleteTableSound(db: Db, id: Id)
    requires Sound(db)
    ensures Sound(DeleteTable(db, id).0)
  {
    hide Ascending;
    var snap, i := db.snap, IndexWhere(db.snap.tables, (t: Table) => t.id == id);
    if i >= 0 {
      AscendingRemove(snap.tables, i, (t: Table) => t.id);
      RemoveMembers(snap.tables, i);
    }
  }

  lemma DeleteFunctionSound(db: Db, id: Id)
    requires Sound(db)
    ensures Sound(DeleteFunction(db, id).0)
  {
    hide Ascending;
    var snap, i := db.snap, IndexWhere(db.snap.functions, (f: Function) => f.id == id);
    if i >= 0 {
      AscendingRemove(snap.functions, i, (f: Function) => f.id);
      RemoveMembers(snap.functions, i);
    }
  }

  lemma DeleteCredentialSound(db: Db, id: Id)
    requires Sound(db)
    ensures Sound(DeleteCredential(db, id).0)
  {
    hide Ascending;
    var i := IndexWhere(db.snap.credentials, (c: Credential) => c.id == id);
    if i >= 0 {
      RemoveMembers(db.snap.credentials, i);
    }
  }

  lemma UpdateServerSound(db: Db, id: Id, req: UpdateServerRequest, now: Timestamp)
    requires Sound(db)
    ensures Sound(UpdateServer(db, id, req, now).0)
  {
    hide Ascending;
    var i := IndexWhere(db.snap.servers, (s: Server) => s.id == id);
    if i >= 0 {
      AscendingReplace(db.snap.servers, i, UpdatedServer(db.snap.servers[i], req, now), (s: Server) => s.id);
    }
  }

  lemma ChangeSound(db: Db, op: Op)
    requires Sound(db) && RevisionedOp(op)
    ensures Sound(Apply(db, op).0)
  {
    hide Sound, CreateServer, CreateTable, CreateFunction, CreateCredential, DeleteServer, DeleteTable, DeleteFunction,
         DeleteCredential, UpdateServer;
    match op
    case OpDeleteServer(id) => DeleteServerSound(db, id);
    case OpDeleteTable(id) => DeleteTableSound(db, id);
    case OpDeleteFunction(id) => DeleteFunctionSound(db, id);
    case OpDeleteCredential(id) => DeleteCredentialSound(db, id);
    case OpUpdateServer(id, req, now) => UpdateServerSound(db, id, req, now);
    case OpCreateServer(req, now) => CreateServerSound(db, req, now);
    case OpCreateTable(req) => CreateTableSound(db, req);
    case OpCreateFunction(req) => CreateFunctionSound(db, req);
    case OpCreateCredential(name, data) => CreateCredentialSound(db, name, data);
  }

  // ---- The invariant of allowed runs. ----

  ghost predicate Serves(c: Cache, base: Snapshot) {
    && (forall schema, name :: '\0' !in schema && Key(schema, name) in c.tables ==>
          ResolveTable(base, schema, name) == Resolved(c.tables[Key(schema, name)].value))
    && (forall schema, name :: '\0' !in schema && Key(schema, name) in c.funcs ==>
          ResolveFunction(base, schema, name) == Resolved(c.funcs[Key(schema, name)].value))
  }

  /** `base` is a snapshot the store had when the cache was last emptied, or one that answers alike. */
  ghost predicate Tracks(w: World, base: Snapshot) {
    && Sound(w.db) && Sound(Db(base, w.db.next)) && Agree(base, w.db.snap)
    && VersionsIn(base) <= w.used && VersionsIn(w.db.snap) <= w.used
    && (forall v :: v in w.used ==> V.Writable(v.1) && v.0 < w.db.next) && w.db.next <= V.Pow(256, 16)
    && (w.cache.rev == V.RevisionBytes(base) || (w.cache.tables == map[] && w.cache.funcs == map[]))
    && Serves(w.cache, base)
  }

  /** New data, with every record new or as it was. */
  lemma ReplacedTracks(w: World, base: Snapshot, later: Db)
    requires Tracks(w, base) && Sound(later) && w.db.next <= later.next <= V.Pow(256, 16)
    requires forall y :: y in later.snap.servers ==>
               V.Writable(y.updatedAt) && (y in w.db.snap.servers || (y.id, y.updatedAt) !in w.used)
    requires forall y :: y in later.snap.tables ==>
               || y.id >= w.db.next
               || (y in w.db.snap.tables && ColumnsOf(later.snap, y.id) == ColumnsOf(w.db.snap, y.id))
    requires forall y :: y in later.snap.functions ==> y.id >= w.db.next || y in w.db.snap.functions
    ensures Tracks(World(later, w.cache, w.used + VersionsIn(later.snap)), base)
  {
    hide ColumnsOf, V.Writable, V.Pow, Serves, V.RevisionBytes, InOrder;
    AgreeAfter(base, w.db.snap, later.snap, w.db.next, w.used);
  }

  lemma ChangeTracks(w: World, base: Snapshot, op: Op, ttl: int)
    requires Tracks(w, base) && Allowed(w, Change(op))
    ensures Tracks(Next(w, Change(op), ttl), base)
  {
    hide ColumnsOf, V.Writable, V.Pow, Serves, V.RevisionBytes, Sound, Agree, Apply;
    var later := Apply(w.db, op).0;
    ChangeSound(w.db, op);
    NextGrows(w.db, op);
    forall y | y in later.snap.servers
      ensures y in w.db.snap.servers || (y.id, y.updatedAt) !in w.used
      ensures V.Writable(y.updatedAt)
    {
      ServersAfter(w.db, op, y);
      assert y in w.db.snap.servers ==> (y.id, y.updatedAt) in VersionsIn(w.db.snap);
    }
    forall y | y in later.snap.tables
      ensures y.id >= w.db.next || (y in w.db.snap.tables && ColumnsOf(later.snap, y.id) == ColumnsOf(w.db.snap, y.id))
    {
      TablesAfter(w.db, op, y);
    }
    forall y | y in later.snap.functions
      ensures y.id >= w.db.next || y in w.db.snap.functions
    {
      FunctionsAfter(w.db, op, y);
    }
    ReplacedTracks(w, base, later);
  }

  lemma ImportTracks(w: World, base: Snapshot, a: Action, ttl: int)
    requires Tracks(w, base) && a.Import? && Allowed(w, a)
    ensures Tracks(Next(w, a, ttl), base)
  {
    hide ColumnsOf, V.Writable, V.Pow, Serves, V.RevisionBytes, InOrder, Agree, Compile;
    var later := Imported(w.db, a.env, a.doc, a.now);
    if Compile(a.env, a.doc, w.db.next, a.now).Some? {
      CompiledIdsAreNew(a.env, a.doc, w.db.next, a.now);
    }
    forall y | y in w.db.snap.servers
      ensures V.Writable(y.updatedAt)
    {
      assert (y.id, y.updatedAt) in VersionsIn(w.db.snap);
    }
    ReplacedTracks(w, base, later);
  }

  /** The snapshot the cache tracks after a resolve: the same one, or the present one if the cache was emptied. */
  ghost function BaseAfter(w: World, base: Snapshot): Snapshot {
    if w.cache.rev == V.RevisionBytes(w.db.snap) && w.cache.rev == V.RevisionBytes(base) then base else w.db.snap
  }

  /** After synchronising, every entry is what the store would answer now. */
  lemma SyncedServes(w: World, base: Snapshot)
    requires Tracks(w, base)
    ensures Tracks(w.(cache := Synced(w.cache, w.db.snap)), BaseAfter(w, base))
    ensures Serves(Synced(w.cache, w.db.snap), w.db.snap)
  {
    hide ResolveTable, ResolveFunction, ColumnsOf, V.Writable, V.Pow, V.RevisionBytes, InOrder;
    AgreeSelf(w.db);
    if BaseAfter(w, base) != w.db.snap {
      assert Decodable(base, w.db.next) && Decodable(w.db.snap, w.db.next) by { TracksDecodable(w, base); }
      forall schema, name
        ensures ResolveTable(base, schema, name) == ResolveTable(w.db.snap, schema, name)
        ensures ResolveFunction(base, schema, name) == ResolveFunction(w.db.snap, schema, name)
      {
        SameRevisionSameAnswers(base, w.db.snap, w.db.next, schema, name);
      }
    }
  }

  lemma AgreeSelf(db: Db)
    requires Sound(db)
    ensures Agree(db.snap, db.snap)
  {
    hide ColumnsOf;
    AscendingUnique(db.snap.servers, (s: Server) => s.id);
    AscendingUnique(db.snap.tables, (t: Table) => t.id);
    AscendingUnique(db.snap.functions, (f: Function) => f.id);
  }

  lemma TracksDecodable(w: World, base: Snapshot)
    requires Tracks(w, base)
    ensures Decodable(base, w.db.next) && Decodable(w.db.snap, w.db.next)
  {
  }

  /** A resolve answers like the store and keeps the invariant. */
  lemma ResolveTracks(w: World, base: Snapshot, a: Action, ttl: int) returns (base': Snapshot)
    requires Tracks(w, base) && Allowed(w, a) && Asks(a)
    ensures Tracks(Next(w, a, ttl), base')
    ensures a.ResolveT? ==> AskTable(w.cache, w.db.snap, ttl, a.schema, a.name, a.at, a.putAt).1
                            == ResolveTable(w.db.snap, a.schema, a.name)
    ensures a.ResolveF? ==> AskFunction(w.cache, w.db.snap, ttl, a.schema, a.name, a.at, a.putAt).1
                            == ResolveFunction(w.db.snap, a.schema, a.name)
  {
    hide ResolveTable, ResolveFunction, ColumnsOf, V.Writable, V.Pow, V.RevisionBytes, Sound, Agree, Key;
    base' := w.db.snap;
    SyncedServes(w, base);
    AgreeSelf(w.db);
    forall schema, name | '\0' !in schema && Key(schema, name) == Key(a.schema, a.name)
      ensures schema == a.schema && name == a.name
    {
      KeyInjective(schema, name, a.schema, a.name);
    }
  }

  lemma StartTracks()
    ensures Tracks(Start, EmptySnapshot)
  {
    hide V.RevisionBytes, V.Writable, V.Pow, ResolveTable, ResolveFunction, Key, ColumnsOf;
  }

  lemma {:induction false} AllowedRunTracks(run: seq<Action>, ttl: int) returns (base: Snapshot)
    requires AllowedRun(run, ttl)
    ensures Tracks(Reached(run, ttl), base)
  {
    hide Tracks, Next, Allowed;
    if run == [] {
      StartTracks();
      base := EmptySnapshot;
    } else {
      var n := |run| - 1;
      var w := Reached(run[..n], ttl);
      forall i | 0 <= i < n
        ensures Allowed(Reached(run[..n][..i], ttl), run[..n][i])
      {
        assert run[..n][..i] == run[..i];
      }
      base := AllowedRunTracks(run[..n], ttl);
      assert Allowed(w, run[n]);
      if run[n].Change? {
        ChangeTracks(w, base, run[n].op, ttl);
      } else if run[n].Import? {
        ImportTracks(w, base, run[n], ttl);
      } else {
        base := ResolveTracks(w, base, run[n], ttl);
      }
    }
  }

  /** Transparency: after every run whose store changes are imports, creations, deletions and server updates, a cached
      resolve of any table returns what the store returns. */
  lemma CachedTableIsStoreTable(run: seq<Action>, ttl: int, schema: string, name: string, at: int, putAt: int)
    requires AllowedRun(run, ttl) && '\0' !in schema
    ensures var w := Reached(run, ttl);
            AskTable(w.cache, w.db.snap, ttl, schema, name, at, putAt).1 == ResolveTable(w.db.snap, schema, name)
  {
    hide Tracks, AskTable, ResolveTable;
    var base := AllowedRunTracks(run, ttl);
    var base' := ResolveTracks(Reached(run, ttl), base, ResolveT(schema, name, at, putAt), ttl);
  }

  lemma CachedFunctionIsStoreFunction(run: seq<Action>, ttl: int, schema: string, name: string, at: int, putAt: int)
    requires AllowedRun(run, ttl) && '\0' !in schema
    ensures var w := Reached(run, ttl);
            AskFunction(w.cache, w.db.snap, ttl, schema, name, at, putAt).1 == ResolveFunction(w.db.snap, schema, name)
  {
    hide Tracks, AskFunction, ResolveFunction;
    var base := AllowedRunTracks(run, ttl);
    var base' := ResolveTracks(Reached(run, ttl), base, ResolveF(schema, name, at, putAt), ttl);
  }

  // ---- Why the other changes are excluded. ----

  lemma {:induction false} InsertMapped<T(!new), K>(s: seq<T>, t: seq<T>, x: T, y: T, less: (T, T) -> bool, key: T -> K)
    requires |s| == |t| && key(x) == key(y) && forall i :: 0 <= i < |s| ==> key(s[i]) == key(t[i])
    requires forall a, b, c, d :: key(a) == key(c) && key(b) == key(d) ==> less(a, b) == less(c, d)
    ensures |Insert(s, x, less)| == |Insert(t, y, less)|
    ensures forall i :: 0 <= i < |Insert(s, x, less)| ==> key(Insert(s, x, less)[i]) == key(Insert(t, y, less)[i])
  {
    if s != [] {
      var n := |s| - 1;
      assert less(x, s[n]) == less(y, t[n]);
      InsertMapped(s[..n], t[..n], x, y, less, key);
    }
  }

  /** Sorting two lists that agree on the key, when the order looks at the key alone. */
  lemma {:induction false} SortMapped<T(!new), K>(s: seq<T>, t: seq<T>, less: (T, T) -> bool, key: T -> K)
    requires |s| == |t| && forall i :: 0 <= i < |s| ==> key(s[i]) == key(t[i])
    requires forall a, b, c, d :: key(a) == key(c) && key(b) == key(d) ==> less(a, b) == less(c, d)
    ensures |Sort(s, less)| == |Sort(t, less)|
    ensures forall i :: 0 <= i < |Sort(s, less)| ==> key(Sort(s, less)[i]) == key(Sort(t, less)[i])
  {
    if s != [] {
      var n := |s| - 1;
      SortMapped(s[..n], t[..n], less, key);
      InsertMapped(Sort(s[..n], less), Sort(t[..n], less), s[n], t[n], less, key);
    }
  }

  lemma UpdatedTableKeepsOrder(db: Db, id: Id, req: UpdateTableRequest)
    ensures V.TableIds(V.Tables(UpdateTable(db, id, req).0.snap)) == V.TableIds(V.Tables(db.snap))
  {
    hide Sort;
    SortMapped(db.snap.tables, UpdateTable(db, id, req).0.snap.tables, V.TableBefore,
          (t: Table) => (t.id, t.schema, t.name));
  }

  lemma UpdatedFunctionKeepsOrder(db: Db, id: Id, req: UpdateFunctionRequest)
    ensures V.FunctionIds(V.Functions(UpdateFunction(db, id, req).0.snap)) == V.FunctionIds(V.Functions(db.snap))
  {
    hide Sort;
    SortMapped(db.snap.functions, UpdateFunction(db, id, req).0.snap.functions, V.FunctionBefore,
               (f: Function) => (f.id, f.schema, f.name));
  }

  /** A change to a table, a column or a function in place never changes the revision. */
  lemma InPlaceChangesAreInvisible(db: Db, op: Op)
    requires !RevisionedOp(op)
    ensures V.RevisionBytes(Apply(db, op).0.snap) == V.RevisionBytes(db.snap)
  {
    hide Sort, V.Fingerprint;
    match op
    case OpUpdateTable(id, req) => UpdatedTableKeepsOrder(db, id, req);
    case OpUpdateFunction(id, req) => UpdatedFunctionKeepsOrder(db, id, req);
    case _ =>
  }

  /** So a table that was just cached keeps being served as it was, whatever such a change did to it, until the
      entry expires. */
  lemma InPlaceChangeIsServedLate(c: Cache, db: Db, ttl: int, schema: string, name: string, at: int, putAt: int,
                                  op: Op, later: int, putLater: int)
    requires !RevisionedOp(op)
    requires var (c', r) := AskTable(c, db.snap, ttl, schema, name, at, putAt);
             r.Resolved? && Fresh(Synced(c, db.snap).tables, Key(schema, name), at).None?
    ensures var (c', r) := AskTable(c, db.snap, ttl, schema, name, at, putAt);
            later <= putAt + ttl ==>
              AskTable(c', Apply(db, op).0.snap, ttl, schema, name, later, putLater).1 == r
  {
    hide V.RevisionBytes, Apply, ResolveTable;
    InPlaceChangesAreInvisible(db, op);
  }
}
