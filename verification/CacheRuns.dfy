/** Runs that mix store changes with cached resolves: when the cache is transparent, and how stale it can be. */
module CacheRuns {
  import opened Text
  import opened Meta
  import opened Seqs
  import opened StoreSpec
  import opened StoreInvariant
  import opened MetaCache
  import opened Documents
  import opened Declarative
  import V = Revision

  datatype Action =
    | Change(op: Op)
    | Import(env: Env, doc: Doc, now: Timestamp)
    | ResolveT(schema: string, name: string, at: int, putAt: int)
    | ResolveF(schema: string, name: string, at: int, putAt: int)

  /** The store, the cache, and every (server, timestamp) pair the store has ever shown. */
  datatype World = World(db: Db, cache: Cache, used: set<V.Version>)

  function VersionsIn(snap: Snapshot): set<V.Version> {
    set s | s in snap.servers :: (s.id, s.updatedAt)
  }

  /** An import or a reload puts what the document compiles to, with identifiers of its own, in place of the data. */
  function Imported(db: Db, env: Env, doc: Doc, now: Timestamp): Db {
    match Compile(env, doc, db.next, now)
    case None => db
    case Some((snap, next)) => Db(snap, next)
  }

  const Start := World(EmptyDb, EmptyCache, {})

  function Next(w: World, a: Action, ttl: int): World {
    match a
    case Change(op) =>
      var db := Apply(w.db, op).0;
      World(db, w.cache, w.used + VersionsIn(db.snap))
    case Import(env, doc, now) =>
      var db := Imported(w.db, env, doc, now);
      World(db, w.cache, w.used + VersionsIn(db.snap))
    case ResolveT(schema, name, at, putAt) =>
      w.(cache := AskTable(w.cache, w.db.snap, ttl, schema, name, at, putAt).0)
    case ResolveF(schema, name, at, putAt) =>
      w.(cache := AskFunction(w.cache, w.db.snap, ttl, schema, name, at, putAt).0)
  }

  function Reached(run: seq<Action>, ttl: int): World {
    if run == [] then Start else Next(Reached(run[..|run| - 1], ttl), run[|run| - 1], ttl)
  }

  // ---- Staleness, over every run. ----

  /** A step leaves a cached table as it was, or has just resolved it. */
  lemma StepTableEntry(w: World, a: Action, ttl: int, key: string)
    requires key in Next(w, a, ttl).cache.tables
    ensures var entry := Next(w, a, ttl).cache.tables[key];
            || (key in w.cache.tables && w.cache.tables[key] == entry)
            || (&& a.ResolveT? && Key(a.schema, a.name) == key
                && ResolveTable(w.db.snap, a.schema, a.name) == Resolved(entry.value)
                && entry.expires == a.putAt + ttl)
  {
    hide Apply, Imported, ResolveTable, ResolveFunction, VersionsIn, V.RevisionBytes;
  }

  /** Every cached table was the store's answer at the step that put it, which gave it its expiry. */
  lemma {:induction false} TableEntryHasOrigin(run: seq<Action>, ttl: int, key: string) returns (i: nat)
    requires key in Reached(run, ttl).cache.tables
    ensures i < |run| && run[i].ResolveT? && Key(run[i].schema, run[i].name) == key
    ensures var entry := Reached(run, ttl).cache.tables[key];
            && ResolveTable(Reached(run[..i], ttl).db.snap, run[i].schema, run[i].name) == Resolved(entry.value)
            && entry.expires == run[i].putAt + ttl
  {
    hide Next, ResolveTable, ResolveFunction;
    var n := |run| - 1;
    var before := Reached(run[..n], ttl);
    StepTableEntry(before, run[n], ttl, key);
    if key in before.cache.tables && Reached(run, ttl).cache.tables[key] == before.cache.tables[key] {
      i := TableEntryHasOrigin(run[..n], ttl, key);
      assert run[..n][..i] == run[..i];
    } else {
      i := n;
    }
  }

  /** A step leaves a cached function as it was, or has just resolved it. */
  lemma StepFunctionEntry(w: World, a: Action, ttl: int, key: string)
    requires key in Next(w, a, ttl).cache.funcs
    ensures var entry := Next(w, a, ttl).cache.funcs[key];
            || (key in w.cache.funcs && w.cache.funcs[key] == entry)
            || (&& a.ResolveF? && Key(a.schema, a.name) == key
                && ResolveFunction(w.db.snap, a.schema, a.name) == Resolved(entry.value)
                && entry.expires == a.putAt + ttl)
  {
    hide Apply, Imported, ResolveTable, ResolveFunction, VersionsIn, V.RevisionBytes;
  }

  /** Every cached function was the store's answer at the step that put it, which gave it its expiry. */
  lemma {:induction false} FunctionEntryHasOrigin(run: seq<Action>, ttl: int, key: string) returns (i: nat)
    requires key in Reached(run, ttl).cache.funcs
    ensures i < |run| && run[i].ResolveF? && Key(run[i].schema, run[i].name) == key
    ensures var entry := Reached(run, ttl).cache.funcs[key];
            && ResolveFunction(Reached(run[..i], ttl).db.snap, run[i].schema, run[i].name) == Resolved(entry.value)
            && entry.expires == run[i].putAt + ttl
  {
    hide Next, ResolveTable, ResolveFunction;
    var n := |run| - 1;
    var before := Reached(run[..n], ttl);
    StepFunctionEntry(before, run[n], ttl, key);
    if key in before.cache.funcs && Reached(run, ttl).cache.funcs[key] == before.cache.funcs[key] {
      i := FunctionEntryHasOrigin(run[..n], ttl, key);
      assert run[..n][..i] == run[..i];
    } else {
      i := n;
    }
  }

  // ---- Keys. ----

  /** A schema name without NUL keeps keys apart. */
  lemma KeyInjective(schema1: string, name1: string, schema2: string, name2: string)
    requires '\0' !in schema1 && '\0' !in schema2 && Key(schema1, name1) == Key(schema2, name2)
    ensures schema1 == schema2 && name1 == name2
  {
    CutAt(schema1, schema2, '\0', name1, name2);
  }

  lemma SplitAtNul(text: string) returns (a: string, b: string)
    requires '\0' in text
    ensures text == a + ['\0'] + b
  {
    var i :| 0 <= i < |text| && text[i] == '\0';
    a, b := text[..i], text[i + 1..];
  }

  /** A request has its key to itself exactly when there is no NUL in its schema or name. */
  lemma KeyDecidesExactlyWhenNulFree(schema: string, name: string)
    ensures (forall s, n :: Key(s, n) == Key(schema, name) ==> s == schema && n == name)
            <==> '\0' !in schema && '\0' !in name
  {
    if '\0' in schema {
      var a, b := SplitAtNul(schema);
      assert Key(a, b + ['\0'] + name) == Key(schema, name) && a != schema;
    } else if '\0' in name {
      var a, b := SplitAtNul(name);
      assert Key(schema + ['\0'] + a, b) == Key(schema, name) && schema + ['\0'] + a != schema;
    } else {
      forall s, n | Key(s, n) == Key(schema, name)
        ensures s == schema && n == name
      {
        var key := Key(schema, name);
        assert key[|s|] == '\0' && forall k :: 0 <= k < |key| && key[k] == '\0' ==> k == |schema|;
        assert s == key[..|s|] && n == key[|s| + 1..];
      }
    }
  }

  predicate Asks(a: Action) {
    a.ResolveT? || a.ResolveF?
  }

  /** No other request of the run has the key of this one: in particular if there is no NUL in its schema or name, or in
      no schema at all. */
  ghost predicate OwnKey(run: seq<Action>, schema: string, name: string) {
    forall i :: 0 <= i < |run| && Asks(run[i]) && Key(run[i].schema, run[i].name) == Key(schema, name) ==>
      run[i].schema == schema && run[i].name == name
  }

  ghost predicate NulFreeSchemas(run: seq<Action>) {
    forall i :: 0 <= i < |run| && Asks(run[i]) ==> '\0' !in run[i].schema
  }

  lemma NulFreeKeysAreOwn(run: seq<Action>, schema: string, name: string)
    requires '\0' !in schema && ('\0' !in name || NulFreeSchemas(run))
    ensures OwnKey(run, schema, name)
  {
    forall i | 0 <= i < |run| && Asks(run[i]) && Key(run[i].schema, run[i].name) == Key(schema, name)
      ensures run[i].schema == schema && run[i].name == name
    {
      if '\0' !in name {
        KeyDecidesExactlyWhenNulFree(schema, name);
      } else {
        KeyInjective(run[i].schema, run[i].name, schema, name);
      }
    }
  }

  // ---- Staleness, over every run. ----

  /** For every run, with any store changes and imports at all: what a cached resolve returns is the store's answer now,
      or was the store's answer at an earlier resolve of the same table whose put was no more than the ttl ago. An error
      is always the store's answer now. */
  lemma TableStalenessIsBounded(run: seq<Action>, ttl: int, schema: string, name: string, at: int, putAt: int)
    returns (i: nat)
    requires OwnKey(run, schema, name)
    ensures var w := Reached(run, ttl);
            var r := AskTable(w.cache, w.db.snap, ttl, schema, name, at, putAt).1;
            || r == ResolveTable(w.db.snap, schema, name)
            || (&& i < |run| && run[i].ResolveT? && run[i].schema == schema && run[i].name == name
                && r.Resolved? && r == ResolveTable(Reached(run[..i], ttl).db.snap, schema, name)
                && at <= run[i].putAt + ttl)
  {
    hide ResolveTable, ResolveFunction, V.RevisionBytes, Next, Key;
    i := 0;
    var w := Reached(run, ttl);
    var key := Key(schema, name);
    if key in Synced(w.cache, w.db.snap).tables {
      assert Synced(w.cache, w.db.snap) == w.cache;
      i := TableEntryHasOrigin(run, ttl, key);
    }
  }

  lemma FunctionStalenessIsBounded(run: seq<Action>, ttl: int, schema: string, name: string, at: int, putAt: int)
    returns (i: nat)
    requires OwnKey(run, schema, name)
    ensures var w := Reached(run, ttl);
            var r := AskFunction(w.cache, w.db.snap, ttl, schema, name, at, putAt).1;
            || r == ResolveFunction(w.db.snap, schema, name)
            || (&& i < |run| && run[i].ResolveF? && run[i].schema == schema && run[i].name == name
                && r.Resolved? && r == ResolveFunction(Reached(run[..i], ttl).db.snap, schema, name)
                && at <= run[i].putAt + ttl)
  {
    hide ResolveTable, ResolveFunction, V.RevisionBytes, Next, Key;
    i := 0;
    var w := Reached(run, ttl);
    var key := Key(schema, name);
    if key in Synced(w.cache, w.db.snap).funcs {
      assert Synced(w.cache, w.db.snap) == w.cache;
      i := FunctionEntryHasOrigin(run, ttl, key);
    }
  }

  // ---- Two requests with one key. ----

  /** Once one of them is cached, the other gets its table. */
  lemma CollidingRequestGetsTheOther(w: World, ttl: int, schema1: string, name1: string, schema2: string, name2: string,
                                     at: int, putAt: int, later: int, putLater: int)
    requires Key(schema1, name1) == Key(schema2, name2) && later <= putAt + ttl
    requires Fresh(Synced(w.cache, w.db.snap).tables, Key(schema1, name1), at).None?
    requires ResolveTable(w.db.snap, schema1, name1).Resolved?
    ensures var w' := Next(w, ResolveT(schema1, name1, at, putAt), ttl);
            AskTable(w'.cache, w'.db.snap, ttl, schema2, name2, later, putLater).1
                  == ResolveTable(w.db.snap, schema1, name1)
  {
    hide ResolveTable, ResolveFunction, V.RevisionBytes, VersionsIn;
  }

  const SCHEMA_1 := "a"
  const NAME_1 := ['b', '\0', 'c']
  const SCHEMA_2 := ['a', '\0', 'b']
  const NAME_2 := "c"

  const NOON := Timestamp(2024, 1, 1, 12, 0, 0, 0)

  const TwoTables: seq<Action> :=
    [Change(OpCreateServer(CreateServerRequest("s", "pg", None, None, map[], "", None), NOON)),
     Change(OpCreateTable(CreateTableRequest("s", SCHEMA_1, NAME_1, "", [], None, []))),
     Change(OpCreateTable(CreateTableRequest("s", SCHEMA_2, NAME_2, "", [], None, []))),
     ResolveT(SCHEMA_1, NAME_1, 0, 0)]

  const THE_SERVER := Server(0, "s", "pg", map[], None, true, NOON)
  const TABLE_1 := Table(1, 0, SCHEMA_1, NAME_1, "", [], map[])
  const TABLE_2 := Table(2, 0, SCHEMA_2, NAME_2, "", [], map[])
  const BOTH := Snapshot([], [THE_SERVER], [TABLE_1, TABLE_2], [], [])

  lemma ReachedSnoc(run: seq<Action>, a: Action, ttl: int)
    ensures Reached(run + [a], ttl) == Next(Reached(run, ttl), a, ttl)
  {
    assert (run + [a])[..|run|] == run;
  }

  lemma NothingYet(ttl: int)
    ensures Reached([], ttl) == Start
  {
  }

  lemma ServerMade()
    ensures CreateServer(EmptyDb, TwoTables[0].op.server, NOON).0 == Db(Snapshot([], [THE_SERVER], [], [], []), 1)
  {
  }

  lemma FirstTableMade()
    ensures CreateTable(Db(Snapshot([], [THE_SERVER], [], [], []), 1), TwoTables[1].op.table).0
            == Db(Snapshot([], [THE_SERVER], [TABLE_1], [], []), 2)
  {
    var servers := [THE_SERVER];
    assert servers[0].name == "s" && NewColumns([], 1, 2) == [];
  }

  lemma SecondTableMade()
    ensures CreateTable(Db(Snapshot([], [THE_SERVER], [TABLE_1], [], []), 2), TwoTables[2].op.table).0 == Db(BOTH, 3)
  {
    var servers := [THE_SERVER];
    assert servers[0].name == "s" && NewColumns([], 2, 3) == [];
    assert SCHEMA_1[0] == 'a' && |SCHEMA_1| != |SCHEMA_2|;
  }

  lemma BothTablesReached(ttl: int)
    ensures Reached(TwoTables[..3], ttl).db == Db(BOTH, 3) && Reached(TwoTables[..3], ttl).cache == EmptyCache
  {
    hide CreateTable, CreateServer, Reached;
    var run := TwoTables;
    assert Reached(run[..0], ttl) == Start by { NothingYet(ttl); }
    ServerMade();
    ReachedSnoc(run[..0], run[0], ttl);
    ReachedSnoc(run[..1], run[1], ttl);
    ReachedSnoc(run[..2], run[2], ttl);
    assert run[..1] == run[..0] + [run[0]] && run[..2] == run[..1] + [run[1]] && run[..3] == run[..2] + [run[2]];
    FirstTableMade();
    SecondTableMade();
  }

  lemma BothTablesResolve()
    ensures ResolveTable(BOTH, SCHEMA_1, NAME_1) == Resolved(ResolvedTable(TABLE_1, THE_SERVER, []))
    ensures ResolveTable(BOTH, SCHEMA_2, NAME_2) == Resolved(ResolvedTable(TABLE_2, THE_SERVER, []))
  {
    assert |SCHEMA_1| != |SCHEMA_2|;
    var tables, servers := [TABLE_1, TABLE_2], [THE_SERVER];
    assert tables[0] == TABLE_1 && tables[1] == TABLE_2 && servers[0] == THE_SERVER;
  }

  /** A run after which a cached resolve of the second table returns the first, for a whole ttl. */
  lemma KeysCollideOnNul(ttl: int, later: int, putLater: int)
    requires later <= ttl
    ensures var w := Reached(TwoTables, ttl);
            && ResolveTable(w.db.snap, SCHEMA_2, NAME_2) == Resolved(ResolvedTable(TABLE_2, THE_SERVER, []))
            && AskTable(w.cache, w.db.snap, ttl, SCHEMA_2, NAME_2, later, putLater).1
               == Resolved(ResolvedTable(TABLE_1, THE_SERVER, []))
  {
    hide ResolveTable, Synced, AskTable;
    BothTablesReached(ttl);
    BothTablesResolve();
    var w := Reached(TwoTables[..3], ttl);
    ReachedSnoc(TwoTables[..3], TwoTables[3], ttl);
    assert TwoTables[..3] + [TwoTables[3]] == TwoTables;
    assert Fresh(Synced(w.cache, w.db.snap).tables, Key(SCHEMA_1, NAME_1), 0).None? by { NothingCached(w.db.snap); }
    assert Key(SCHEMA_1, NAME_1) == Key(SCHEMA_2, NAME_2);
    CollidingRequestGetsTheOther(w, ttl, SCHEMA_1, NAME_1, SCHEMA_2, NAME_2, 0, 0, later, putLater);
  }

  lemma NothingCached(snap: Snapshot)
    ensures Synced(EmptyCache, snap).tables == map[]
  {
  }
}
