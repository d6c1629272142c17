/** Restarts of stores that operations alone have changed: what always comes back. */
module Restarts {
  import opened Text
  import opened Meta
  import opened Seqs
  import opened Documents
  import opened Merge
  import opened Declarative
  import opened StoreSpec
  import opened Decompile
  import opened CompileMeaning
  import opened RoundTrip
  import opened ImportMeaning
  import opened ImportResult
  import opened ImportKept
  import opened Answers
  import opened ImportResolves
  import opened Import
  import I = StoreInvariant

  lemma ValidIsDistinct(db: Db)
    requires I.Valid(db)
    ensures DistinctIds(db.snap)
  {
  }

  /** Names that the importer's keys tell apart. */
  predicate PlainText(name: string) {
    Clean(name) && '\0' !in name
  }

  ghost predicate PlainNames(snap: Snapshot) {
    && (forall s :: s in snap.servers ==> Clean(s.name))
    && (forall t :: t in snap.tables ==> PlainText(t.schema) && PlainText(t.name))
    && (forall f :: f in snap.functions ==> PlainText(f.schema) && PlainText(f.name))
  }

  lemma ServerNameClean(snap: Snapshot, id: Id)
    requires PlainNames(snap) && DistinctIds(snap) && HasServer(snap, id)
    ensures Clean(NameOfServer(snap.servers, id)) && Clean(ServerName(snap.servers, id))
  {
    hide Clean, PlainText;
    var s :| s in snap.servers && s.id == id;
    ServerLookup(snap.servers, s);
  }

  lemma SameTextSameNames(s1: string, n1: string, v1: string, s2: string, n2: string, v2: string)
    requires PlainText(s1) && PlainText(n1) && PlainText(s2) && PlainText(n2)
    requires s1 + ['\0'] + n1 + ['\0'] + v1 == s2 + ['\0'] + n2 + ['\0'] + v2
    ensures s1 == s2 && n1 == n2
  {
    hide Clean;
    KeyParts(s1, n1, v1);
    KeyParts(s2, n2, v2);
    CutAt(s1, s2, '\0', n1 + ['\0'] + v1, n2 + ['\0'] + v2);
    CutAt(n1, n2, '\0', v1, v2);
  }

  lemma PlainTableKey(snap: Snapshot, t: Table)
    requires PlainNames(snap) && DistinctIds(snap) && t in snap.tables && HasServer(snap, t.serverId)
    ensures TableKey(TableEntry(snap, t)) == TableText(snap, t)
  {
    hide Clean, DistinctIds, EntryKey, TableColumns, NameOfServer, ServerName;
    ServerNameClean(snap, t.serverId);
    CleanKey(NameOfServer(snap.servers, t.serverId), t.schema, t.name);
  }

  lemma PlainTableIsAlone(db: Db, t: Table)
    requires I.Valid(db) && PlainNames(db.snap) && t in db.snap.tables
    ensures TableAlone(db.snap, t)
  {
    hide PlainNames, PlainText, DistinctIds, TableEntry, TableKey, NameOfServer, HasServer;
    var snap := db.snap;
    ValidIsDistinct(db);
    PlainTableKey(snap, t);
    forall u | u in snap.tables && u != t
      ensures TableText(snap, u) != TableText(snap, t) && TableKey(TableEntry(snap, u)) != TableKey(TableEntry(snap, t))
    {
      PlainTableKey(snap, u);
      if TableText(snap, u) == TableText(snap, t) {
        PlainTableNames(snap, t);
        PlainTableNames(snap, u);
        SameTextSameNames(u.schema, u.name, NameOfServer(snap.servers, u.serverId),
                          t.schema, t.name, NameOfServer(snap.servers, t.serverId));
        SameKeySameElement(snap.tables, (t: Table) => (t.schema, t.name), t, u);
      }
    }
  }

  lemma PlainTableNames(snap: Snapshot, t: Table)
    requires PlainNames(snap) && t in snap.tables
    ensures PlainText(t.schema) && PlainText(t.name) && Clean(t.schema) && Clean(t.name)
  {
    hide Clean;
  }

  lemma PlainFunctionNames(snap: Snapshot, f: Function)
    requires PlainNames(snap) && f in snap.functions
    ensures PlainText(f.schema) && PlainText(f.name) && Clean(f.schema) && Clean(f.name)
  {
    hide Clean;
  }

  lemma PlainFunctionKey(snap: Snapshot, f: Function)
    requires PlainNames(snap) && DistinctIds(snap) && f in snap.functions && HasServer(snap, f.serverId)
    ensures FunctionKey(FunctionEntry(snap, f))
              == f.schema + ['\0'] + f.name + ['\0'] + NameOfServer(snap.servers, f.serverId)
  {
    hide Clean, DistinctIds, EntryKey, NameOfServer, ServerName;
    ServerNameClean(snap, f.serverId);
    CleanKey(NameOfServer(snap.servers, f.serverId), f.schema, f.name);
  }

  lemma PlainFunctionIsAlone(db: Db, f: Function)
    requires I.Valid(db) && PlainNames(db.snap) && f in db.snap.functions
    ensures FunctionAlone(db.snap, f)
  {
    hide PlainNames, PlainText, DistinctIds, FunctionEntry, FunctionKey, NameOfServer, HasServer;
    var snap := db.snap;
    ValidIsDistinct(db);
    PlainFunctionKey(snap, f);
    forall g | g in snap.functions && g != f
      ensures FunctionKey(FunctionEntry(snap, g)) != FunctionKey(FunctionEntry(snap, f))
    {
      PlainFunctionKey(snap, g);
      if FunctionKey(FunctionEntry(snap, g)) == FunctionKey(FunctionEntry(snap, f)) {
        PlainFunctionNames(snap, f);
        PlainFunctionNames(snap, g);
        SameTextSameNames(g.schema, g.name, NameOfServer(snap.servers, g.serverId),
                          f.schema, f.name, NameOfServer(snap.servers, f.serverId));
        SameKeySameElement(snap.functions, (f: Function) => (f.schema, f.name), f, g);
      }
    }
  }

  /** A store that only operations have changed, with clean names without NUL: after a restart every function is there
      as it was, and every table exactly when its columns are in normal form. */
  lemma PlainStoreComesBack(env: Env, db: Db, order: seq<Id>, after: Snapshot)
    requires I.Valid(db) && PlainNames(db.snap) && IsOutcome(env, db.snap, order, NothingIncoming, after)
    ensures forall t :: t in db.snap.tables ==>
              (HasTableContent(after, TableContentOf(db.snap, t))
               <==> ColumnsNormal(ColumnContents(ColumnsOf(db.snap, t.id))))
    ensures forall f :: f in db.snap.functions ==> HasFunctionContent(after, FunctionContentOf(db.snap, f))
  {
    hide IsOutcome, TableAlone, FunctionAlone, PlainNames, HasTableContent, HasFunctionContent, HasServerContent,
         KeepsSecret, Listed, Clean, ColumnsNormal, ColumnsOf, TableEntry, FunctionEntry, DeclaredTable,
         DeclaredFunction, ServerName, DistinctIds, ServerAlone;
    var snap := db.snap;
    ValidIsDistinct(db);
    RestartConserves(env, snap, order, after);
    forall t | t in snap.tables
      ensures HasTableContent(after, TableContentOf(snap, t)) <==> ColumnsNormal(ColumnContents(ColumnsOf(snap, t.id)))
    {
      PlainTableIsAlone(db, t);
      PlainTableNames(snap, t);
      ServerNameClean(snap, t.serverId);
    }
    forall f | f in snap.functions
      ensures HasFunctionContent(after, FunctionContentOf(snap, f))
    {
      PlainFunctionIsAlone(db, f);
      PlainFunctionNames(snap, f);
      ServerNameClean(snap, f.serverId);
    }
  }

  // ---- What names resolve to after a restart. ----

  /** On any data that loads. */
  lemma RestartedTableResolvesExactlyWhen(env: Env, snap: Snapshot, t: Table)
    requires DistinctIds(snap) && Loads(snap) && TableStays(snap, NothingIncoming, t) && OwnColumns(snap, t)
    ensures var c := TableContentOf(snap, t);
            (forall order, after :: IsOutcome(env, snap, order, NothingIncoming, after) ==>
               TableAnswer(after, c.schema, c.name) == Resolved(Presented(c)))
            <==> && CleanTable(c) && EnabledAfter(snap, NothingIncoming, c.server)
                 && OnlyTableOfName(snap, NothingIncoming, t)
  {
    hide *;
    LoadsIsImportable(snap);
    StayingTableResolvesExactlyWhen(env, snap, NothingIncoming, t);
  }

  lemma RestartedFunctionResolvesExactlyWhen(env: Env, snap: Snapshot, f: Function)
    requires DistinctIds(snap) && Loads(snap) && FunctionStays(snap, NothingIncoming, f)
    ensures var c := FunctionContentOf(snap, f);
            (forall order, after :: IsOutcome(env, snap, order, NothingIncoming, after) ==>
               FunctionAnswer(after, c.schema, c.name) == Resolved(c))
            <==> && CleanFunction(c) && EnabledAfter(snap, NothingIncoming, c.server)
                 && OnlyFunctionOfName(snap, NothingIncoming, f)
  {
    hide *;
    LoadsIsImportable(snap);
    StayingFunctionResolvesExactlyWhen(env, snap, NothingIncoming, f);
  }

  lemma PlainTableStays(db: Db, t: Table)
    requires I.Valid(db) && PlainNames(db.snap) && t in db.snap.tables
    ensures TableStays(db.snap, NothingIncoming, t) && OwnColumns(db.snap, t)
    ensures OnlyTableOfName(db.snap, NothingIncoming, t)
  {
    hide PlainNames, DistinctIds, TableEntry, TableKey, ServerName, HasServer, Keyed, Wins, CurrentTables, Trim;
    var snap := db.snap;
    NothingKeyed();
    ValidIsDistinct(db);
    PlainTableIsAlone(db, t);
    PlainTableKey(snap, t);
    AloneTableStays(snap, NothingIncoming, t);
    AloneTableColumns(snap, t);
    forall e | TableStands(snap, NothingIncoming, e) && SchemaOf(e.schema) == t.schema && Trim(e.name) == t.name
      ensures e == TableEntry(snap, t)
    {
      NothingStandsAlone(snap, e);
      var u :| u in snap.tables && e == TableEntry(snap, u);
      PlainTableNames(snap, u);
      EntryNames(snap, u);
      SameKeySameElement(snap.tables, (t: Table) => (t.schema, t.name), t, u);
    }
  }

  lemma NothingStandsAlone(snap: Snapshot, e: DeclTable)
    requires TableStands(snap, NothingIncoming, e)
    ensures exists t :: t in snap.tables && e == TableEntry(snap, t)
  {
    hide TableEntry, TableKey, Wins;
    NothingKeyed();
    assert !TableComes(NothingIncoming, e) by { NothingWins(e); }
  }

  lemma NothingWins(e: DeclTable)
    ensures !TableComes(NothingIncoming, e)
  {
    hide TableKey;
    NothingKeyed();
  }

  lemma EntryNames(snap: Snapshot, t: Table)
    ensures TableEntry(snap, t).schema == t.schema && TableEntry(snap, t).name == t.name
    ensures TableEntry(snap, t).server == NameOfServer(snap.servers, t.serverId)
  {
    hide NameOfServer, TableColumns;
  }

  lemma PlainServerStands(db: Db, s: Server)
    requires I.Valid(db) && PlainNames(db.snap) && s in db.snap.servers
    ensures EnabledAfter(db.snap, NothingIncoming, s.name) <==> s.enabled
  {
    hide CredentialFieldOf, Keyed, Trim, CurrentServers;
    NothingKeyed();
    forall u | u in db.snap.servers && u != s
      ensures Trim(u.name) != Trim(s.name)
    {
      if u.name == s.name {
        SameKeySameElement(db.snap.servers, (s: Server) => s.name, s, u);
      }
    }
    AloneServerStays(db.snap, NothingIncoming, s);
  }

  ghost predicate OnEnabledServer(snap: Snapshot, t: Table) {
    exists s :: s in snap.servers && s.id == t.serverId && s.enabled
  }

  /** The answer before the restart. */
  lemma PlainTableAnswer(db: Db, t: Table)
    requires I.Valid(db) && t in db.snap.tables
    ensures TableAnswer(db.snap, t.schema, t.name)
            == if OnEnabledServer(db.snap, t)
                  then Resolved(Presented(TableContentOf(db.snap, t))) else Unresolved(Disabled)
    ensures exists s :: s in db.snap.servers && s.id == t.serverId && s.name == TableContentOf(db.snap, t).server
                        && (s.enabled <==> OnEnabledServer(db.snap, t))
  {
    hide Presented, ColumnsOf, TableAnswer;
    var snap := db.snap;
    TableAnswerIs(snap, t.schema, t.name);
    var u := snap.tables[FirstTable(snap, t.schema, t.name)];
    SameKeySameElement(snap.tables, (t: Table) => (t.schema, t.name), t, u);
    assert HasServer(snap, t.serverId);
    var s := ServerAt(snap, t.serverId).value;
    forall r | r in snap.servers && r.id == t.serverId
      ensures r == s
    {
      SameKeySameElement(snap.servers, (s: Server) => s.id, s, r);
    }
  }

  lemma UnknownStaysUnknown(env: Env, db: Db, order: seq<Id>, after: Snapshot, schema: string, name: string)
    requires PlainNames(db.snap) && IsOutcome(env, db.snap, order, NothingIncoming, after)
    requires forall t :: t in db.snap.tables ==> !(t.schema == schema && t.name == name)
    ensures TableAnswer(after, schema, name) == TableAnswer(db.snap, schema, name)
  {
    hide IsOutcome, TableAnswer, TableEntry, PlainNames, EnabledAfter, CleanTable, DeclaredColumns, Trim, ServerName,
         ColumnsOf;
    TableAnswerIs(db.snap, schema, name);
    TableAnswerIs(after, schema, name);
    if FirstTable(after, schema, name) >= 0 {
      TableAnswerAfter(env, db.snap, order, NothingIncoming, after, schema, name);
      var d := TableContentOf(after, after.tables[FirstTable(after, schema, name)]);
      var e :| TableStands(db.snap, NothingIncoming, e) && d == DeclaredTable(e);
      NothingStandsAlone(db.snap, e);
      var u :| u in db.snap.tables && e == TableEntry(db.snap, u);
      PlainTableNames(db.snap, u);
      EntryNames(db.snap, u);
    }
  }

  lemma PlainContentIsClean(db: Db, t: Table)
    requires I.Valid(db) && PlainNames(db.snap) && t in db.snap.tables
    ensures CleanTable(TableContentOf(db.snap, t)) <==> ColumnsNormal(ColumnContents(ColumnsOf(db.snap, t.id)))
    ensures DeclaredTable(TableEntry(db.snap, t)).server == TableContentOf(db.snap, t).server
  {
    hide PlainNames, Trim, NameOfServer, ServerName, ColumnsNormal, ColumnsOf, DistinctIds, HasServer, DeclaredColumns,
         TableColumns;
    ValidIsDistinct(db);
    PlainTableNames(db.snap, t);
    ServerNameClean(db.snap, t.serverId);
    NamesAgree(db.snap, t.serverId);
    EntryNames(db.snap, t);
  }

  lemma KnownAnswersExactlyWhen(env: Env, db: Db, t: Table)
    requires I.Valid(db) && PlainNames(db.snap) && Loads(db.snap) && t in db.snap.tables
    ensures (forall order, after :: IsOutcome(env, db.snap, order, NothingIncoming, after) ==>
               TableAnswer(after, t.schema, t.name) == TableAnswer(db.snap, t.schema, t.name))
            <==> (OnEnabledServer(db.snap, t) ==> ColumnsNormal(ColumnContents(ColumnsOf(db.snap, t.id))))
  {
    var c := TableContentOf(db.snap, t);
    assert c.schema == t.schema && c.name == t.name;
    hide PlainNames, IsOutcome, TableAnswer, Presented, TableContentOf, ColumnsNormal, CleanTable, TableStays,
         OwnColumns, OnlyTableOfName, OnEnabledServer, EnabledAfter, Importable, Loads, DistinctIds, TableEntry,
         DeclaredTable, ColumnsOf;
    ValidIsDistinct(db);
    LoadsIsImportable(db.snap);
    PlainTableStays(db, t);
    PlainTableAnswer(db, t);
    PlainContentIsClean(db, t);
    var s :| s in db.snap.servers && s.id == t.serverId && s.name == c.server
          && (s.enabled <==> OnEnabledServer(db.snap, t));
    PlainServerStands(db, s);
    hide I.Valid;
    if OnEnabledServer(db.snap, t) {
      StayingTableResolvesExactlyWhen(env, db.snap, NothingIncoming, t);
    } else {
      PlainTableNames(db.snap, t);
      forall order, after | IsOutcome(env, db.snap, order, NothingIncoming, after)
        ensures TableAnswer(after, t.schema, t.name) == TableAnswer(db.snap, t.schema, t.name)
      {
        OnlyTableIsTheAnswer(env, db.snap, order, NothingIncoming, after, t);
      }
    }
  }

  /** A store that only operations have changed, with clean names without NUL: a name resolves to the same after a
      restart, errors included and whatever the order of iteration, exactly when it is not that of a table on an
      enabled server whose columns are not in normal form. */
  lemma PlainStoreAnswersExactlyWhen(env: Env, db: Db, schema: string, name: string)
    requires I.Valid(db) && PlainNames(db.snap) && Loads(db.snap)
    ensures (forall order, after :: IsOutcome(env, db.snap, order, NothingIncoming, after) ==>
               TableAnswer(after, schema, name) == TableAnswer(db.snap, schema, name))
            <==> forall t :: t in db.snap.tables && t.schema == schema && t.name == name
                             && OnEnabledServer(db.snap, t) ==>
                   ColumnsNormal(ColumnContents(ColumnsOf(db.snap, t.id)))
  {
    hide IsOutcome, TableAnswer, PlainNames, Loads, ColumnsNormal, ColumnsOf, OnEnabledServer;
    if t :| t in db.snap.tables && t.schema == schema && t.name == name {
      KnownAnswersExactlyWhen(env, db, t);
      forall u | u in db.snap.tables && u.schema == schema && u.name == name
        ensures u == t
      {
        SameKeySameElement(db.snap.tables, (t: Table) => (t.schema, t.name), t, u);
      }
    } else {
      forall order, after | IsOutcome(env, db.snap, order, NothingIncoming, after)
        ensures TableAnswer(after, schema, name) == TableAnswer(db.snap, schema, name)
      {
        UnknownStaysUnknown(env, db, order, after, schema, name);
      }
    }
  }

  // ---- Functions. ----

  lemma FunctionEntryNames(snap: Snapshot, f: Function)
    ensures FunctionEntry(snap, f).schema == f.schema && FunctionEntry(snap, f).name == f.name
  {
    hide NameOfServer;
  }

  lemma NoFunctionStandsAlone(snap: Snapshot, e: DeclFunction)
    requires FunctionStands(snap, NothingIncoming, e)
    ensures exists f :: f in snap.functions && e == FunctionEntry(snap, f)
  {
    hide FunctionEntry, FunctionKey;
    NothingKeyed();
  }

  lemma PlainFunctionStays(db: Db, f: Function)
    requires I.Valid(db) && PlainNames(db.snap) && f in db.snap.functions
    ensures FunctionStays(db.snap, NothingIncoming, f) && OnlyFunctionOfName(db.snap, NothingIncoming, f)
  {
    hide PlainNames, DistinctIds, FunctionEntry, FunctionKey, ServerName, NameOfServer, HasServer, Keyed, Wins,
         CurrentFunctions, Trim;
    var snap := db.snap;
    NothingKeyed();
    ValidIsDistinct(db);
    PlainFunctionIsAlone(db, f);
    PlainFunctionKey(snap, f);
    AloneFunctionStays(snap, NothingIncoming, f);
    forall e | FunctionStands(snap, NothingIncoming, e) && SchemaOf(e.schema) == f.schema && Trim(e.name) == f.name
      ensures e == FunctionEntry(snap, f)
    {
      NoFunctionStandsAlone(snap, e);
      var g :| g in snap.functions && e == FunctionEntry(snap, g);
      PlainFunctionNames(snap, g);
      FunctionEntryNames(snap, g);
      SameKeySameElement(snap.functions, (f: Function) => (f.schema, f.name), f, g);
    }
  }

  lemma PlainFunctionAnswer(db: Db, f: Function)
    requires I.Valid(db) && PlainNames(db.snap) && f in db.snap.functions
    ensures FunctionAnswer(db.snap, f.schema, f.name)
            == if EnabledAfter(db.snap, NothingIncoming, FunctionContentOf(db.snap, f).server)
               then Resolved(FunctionContentOf(db.snap, f)) else Unresolved(Disabled)
    ensures CleanFunction(FunctionContentOf(db.snap, f))
  {
    hide FunctionAnswer, EnabledAfter, PlainNames, DistinctIds;
    var snap := db.snap;
    ValidIsDistinct(db);
    FunctionAnswerIs(snap, f.schema, f.name);
    var g := snap.functions[FirstFunction(snap, f.schema, f.name)];
    SameKeySameElement(snap.functions, (f: Function) => (f.schema, f.name), f, g);
    assert HasServer(snap, f.serverId);
    PlainServerStands(db, ServerAt(snap, f.serverId).value);
    PlainFunctionNames(snap, f);
    ServerNameClean(snap, f.serverId);
  }

  /** In such a store every function's name resolves to the same after a restart, and every other to nothing still. */
  lemma PlainFunctionsAnswerAlike(env: Env, db: Db, order: seq<Id>, after: Snapshot, schema: string, name: string)
    requires I.Valid(db) && PlainNames(db.snap) && IsOutcome(env, db.snap, order, NothingIncoming, after)
    ensures FunctionAnswer(after, schema, name) == FunctionAnswer(db.snap, schema, name)
  {
    hide IsOutcome, FunctionAnswer, FunctionEntry, PlainNames, EnabledAfter, CleanFunction, Trim, ServerName,
         DistinctIds, FunctionStays, OnlyFunctionOfName, FunctionContentOf;
    if f :| f in db.snap.functions && f.schema == schema && f.name == name {
      ValidIsDistinct(db);
      PlainFunctionStays(db, f);
      PlainFunctionAnswer(db, f);
      FunctionContentNames(db.snap, f);
      OnlyFunctionIsTheAnswer(env, db.snap, order, NothingIncoming, after, f);
    } else {
      UnknownFunctionStays(env, db, order, after, schema, name);
    }
  }

  lemma FunctionContentNames(snap: Snapshot, f: Function)
    ensures FunctionContentOf(snap, f).schema == f.schema && FunctionContentOf(snap, f).name == f.name
  {
  }

  lemma UnknownFunctionStays(env: Env, db: Db, order: seq<Id>, after: Snapshot, schema: string, name: string)
    requires PlainNames(db.snap) && IsOutcome(env, db.snap, order, NothingIncoming, after)
    requires forall f :: f in db.snap.functions ==> !(f.schema == schema && f.name == name)
    ensures FunctionAnswer(after, schema, name) == FunctionAnswer(db.snap, schema, name)
  {
    hide IsOutcome, FunctionAnswer, FunctionEntry, PlainNames, EnabledAfter, CleanFunction, Trim, ServerName;
    FunctionAnswerIs(db.snap, schema, name);
    FunctionAnswerIs(after, schema, name);
    if FirstFunction(after, schema, name) >= 0 {
      FunctionAnswerAfter(env, db.snap, order, NothingIncoming, after, schema, name);
      var d := FunctionContentOf(after, after.functions[FirstFunction(after, schema, name)]);
      var e :| FunctionStands(db.snap, NothingIncoming, e) && d == DeclaredFunction(e);
      NoFunctionStandsAlone(db.snap, e);
      var g :| g in db.snap.functions && e == FunctionEntry(db.snap, g);
      PlainFunctionNames(db.snap, g);
      FunctionEntryNames(db.snap, g);
    }
  }
}
