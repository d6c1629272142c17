/** What names resolve to after an import: exactly when an entry that stays is still the one its name resolves to. */
module ImportResolves {
  import opened Text
  import opened Meta
  import opened Seqs
  import opened Documents
  import opened Merge
  import opened Declarative
  import opened StoreSpec
  import opened Decompile
  import opened CompileMeaning
  import opened RoundTrip
  import opened CompiledForm
  import opened ImportMeaning
  import opened ImportResult
  import opened ImportKept
  import opened Answers

  // ---- Every entry of the merged document can come first. ----

  lemma {:induction false} ReferencesEnumerated(servers: seq<Server>) returns (order: seq<Id>)
    ensures Enumerates(servers, order)
  {
    order := [];
    if servers != [] {
      var before, last := servers[..|servers| - 1], servers[|servers| - 1];
      order := ReferencesEnumerated(before);
      if last.credentialRef.Some? && last.credentialRef.value !in order {
        UniqueSnoc(order, last.credentialRef.value, (id: Id) => id);
        order := order + [last.credentialRef.value];
      }
    }
  }

  lemma {:induction false} Listing<V>(m: map<string, V>, key: V -> string) returns (entries: seq<V>)
    requires KeysMatch(m, key)
    ensures Lists(entries, m, key)
    decreases |m|, 1
  {
    entries := [];
    if m != map[] {
      var k :| k in m;
      entries := ListingFrom(m, key, k);
    }
  }

  /** The values of a map, each once, beginning with one of them. */
  lemma {:induction false} ListingFrom<V>(m: map<string, V>, key: V -> string, k: string) returns (entries: seq<V>)
    requires KeysMatch(m, key) && k in m
    ensures Lists(entries, m, key) && entries != [] && entries[0] == m[k]
    decreases |m|, 0
  {
    var rest := m - {k};
    assert rest.Keys == m.Keys - {k} && |rest.Keys| < |m.Keys|;
    var others := Listing(rest, key);
    entries := [m[k]] + others;
    ConsListed(m, key, k, others);
  }

  lemma ConsListed<V>(m: map<string, V>, key: V -> string, k: string, others: seq<V>)
    requires KeysMatch(m, key) && k in m && Lists(others, m - {k}, key)
    ensures Lists([m[k]] + others, m, key)
  {
    var entries := [m[k]] + others;
    assert entries[0] == m[k];
    forall k' | k' in m
      ensures m[k'] in entries
    {
      if k' != k {
        assert (m - {k})[k'] == m[k'] && m[k'] in others;
      }
    }
    forall i, j | 0 <= i < j < |entries|
      ensures key(entries[i]) != key(entries[j])
    {
      assert entries[j] == others[j - 1] && entries[j] in others;
      if i > 0 {
        assert entries[i] == others[i - 1];
      }
    }
  }

  lemma ListingFirst<V>(m: map<string, V>, key: V -> string, k: string) returns (entries: seq<V>)
    requires KeysMatch(m, key)
    ensures Lists(entries, m, key) && (k in m ==> entries != [] && entries[0] == m[k])
  {
    if k in m {
      entries := ListingFrom(m, key, k);
    } else {
      entries := Listing(m, key);
    }
  }

  /** A merge with the entries of two keys in front. */
  lemma MergeWithFirst(a: ImpDoc, b: ImpDoc, tableKey: string, functionKey: string) returns (merged: ImpDoc)
    ensures IsMerge([a, b], merged)
    ensures var m := Override(DocMaps(a), DocMaps(b));
            && (tableKey in m.tables ==> merged.tables != [] && merged.tables[0] == m.tables[tableKey])
            && (functionKey in m.functions ==>
                 merged.functions != [] && merged.functions[0] == m.functions[functionKey])
  {
    hide KeysMatch, DocMaps, Override, Lists;
    AllMapsMatch([a, b]);
    TwoMaps(a, b);
    var m := AllMaps([a, b]);
    hide AllMaps;
    var credentials := Listing(m.credentials, CredentialKey);
    var servers := Listing(m.servers, ServerKey);
    var tables := ListingFirst(m.tables, TableKey, tableKey);
    var functions := ListingFirst(m.functions, FunctionKey, functionKey);
    merged := ImpDoc(credentials, servers, tables, functions);
  }

  // ---- The entries that stand after an import. ----

  ghost predicate TableStands(snap: Snapshot, incoming: ImpDoc, e: DeclTable) {
    (exists t :: TableStays(snap, incoming, t) && e == TableEntry(snap, t)) || TableComes(incoming, e)
  }

  ghost predicate FunctionStands(snap: Snapshot, incoming: ImpDoc, e: DeclFunction) {
    (exists f :: FunctionStays(snap, incoming, f) && e == FunctionEntry(snap, f)) || FunctionComes(incoming, e)
  }

  lemma StandingTableIsKeyed(snap: Snapshot, order: seq<Id>, incoming: ImpDoc, e: DeclTable)
    requires TableStands(snap, incoming, e)
    ensures var m := Override(DocMaps(CurrentDoc(snap, order)), DocMaps(incoming)).tables;
            TableKey(e) in m && m[TableKey(e)] == e
  {
    hide Keyed, TableEntry, TableKey, SharedEntries, CurrentDoc, CurrentTables, CurrentServers, CurrentFunctions;
    CurrentDocIs(snap, order);
  }

  lemma StandingFunctionIsKeyed(snap: Snapshot, order: seq<Id>, incoming: ImpDoc, e: DeclFunction)
    requires FunctionStands(snap, incoming, e)
    ensures var m := Override(DocMaps(CurrentDoc(snap, order)), DocMaps(incoming)).functions;
            FunctionKey(e) in m && m[FunctionKey(e)] == e
  {
    hide Keyed, FunctionEntry, FunctionKey, SharedEntries, CurrentDoc, CurrentTables, CurrentServers, CurrentFunctions;
    CurrentDocIs(snap, order);
  }

  /** An importable document has outcomes, and any two entries that stand can be the first table and the first
      function. */
  lemma OutcomeWithFirst(env: Env, snap: Snapshot, incoming: ImpDoc, tableKey: string, functionKey: string)
    returns (order: seq<Id>, merged: ImpDoc, after: Snapshot)
    requires Importable(snap, incoming)
    ensures IsOutcome(env, snap, order, incoming, after)
    ensures Says(after, FromImporter(merged), Secrets(env, FromImporter(merged)))
    ensures var m := Override(DocMaps(CurrentDoc(snap, order)), DocMaps(incoming));
            && (tableKey in m.tables ==> merged.tables != [] && merged.tables[0] == m.tables[tableKey])
            && (functionKey in m.functions ==>
                 merged.functions != [] && merged.functions[0] == m.functions[functionKey])
  {
    hide Enumerates, IsMerge, Compile, FromImporter, Says, Secrets, Compilable, CurrentDoc, DocMaps, Override;
    order := ReferencesEnumerated(snap.servers);
    merged := MergeWithFirst(CurrentDoc(snap, order), incoming, tableKey, functionKey);
    MergedCompiles(snap, order, incoming, merged);
    var now := Timestamp(2024, 1, 1, 0, 0, 0, 0);
    CompilesExactlyWhen(env, FromImporter(merged), 0, now);
    CompiledSays(env, FromImporter(merged), 0, now);
    var done := Compile(env, FromImporter(merged), 0, now).value;
    after := done.0;
    assert Compile(env, FromImporter(merged), 0, now) == Some((done.0, done.1));
  }

  // ---- What a name resolves to in an outcome. ----

  /** The server entries by name, the incoming ones over those of the store. */
  function Standing(snap: Snapshot, incoming: ImpDoc): map<string, ImpServer> {
    Keyed(CurrentServers(snap), ServerKey) + Keyed(incoming.servers, ServerKey)
  }

  /** The entry that stands under the name is of an enabled server. */
  predicate EnabledAfter(snap: Snapshot, incoming: ImpDoc, n: string) {
    var m := Standing(snap, incoming);
    n in m && (m[n].enabled.Some? ==> m[n].enabled.value)
  }

  lemma ServerIsEnabledAs(env: Env, snap: Snapshot, order: seq<Id>, incoming: ImpDoc, after: Snapshot, s: Server)
    requires IsOutcome(env, snap, order, incoming, after) && s in after.servers
    ensures s.enabled <==> EnabledAfter(snap, incoming, s.name)
  {
    hide IsOutcome, Keyed, CurrentServers, ServerKey, Secret, EntrySecret, Listed, CurrentServer;
    var c, listed := ServerContentOf(after, s), Listed(env, snap, order, incoming);
    var i :| 0 <= i < |after.servers| && after.servers[i] == s;
    ServersAfterImport(env, snap, order, incoming, after, c);
    if t :| ServerStays(snap, incoming, t) && c == EntryContent(env, listed, CurrentServer(snap, t)) {
      ContentName(env, listed, CurrentServer(snap, t));
    } else {
      var e :| ServerComes(incoming, e) && c == EntryContent(env, listed, e);
      ContentName(env, listed, e);
    }
  }

  lemma NormalLinks(snap: Snapshot)
    requires Normal(snap)
    ensures forall t :: t in snap.tables ==> HasServer(snap, t.serverId)
    ensures forall f :: f in snap.functions ==> HasServer(snap, f.serverId)
  {
    hide CredentialsNormal, ServerNormal, Clean, ColumnsNormal;
    forall t | t in snap.tables
      ensures HasServer(snap, t.serverId)
    {
      assert TableNormal(snap, t);
    }
    forall f | f in snap.functions
      ensures HasServer(snap, f.serverId)
    {
      assert FunctionNormal(snap, f);
    }
  }

  /** The content of the first table of the name decides the answer, and is what some entry declares. */
  lemma TableAnswerAfter(env: Env, snap: Snapshot, order: seq<Id>, incoming: ImpDoc, after: Snapshot,
                         schema: string, name: string)
    requires IsOutcome(env, snap, order, incoming, after) && FirstTable(after, schema, name) >= 0
    ensures var d := TableContentOf(after, after.tables[FirstTable(after, schema, name)]);
            && d.schema == schema && d.name == name && HasTableContent(after, d) && CleanTable(d)
            && (exists e :: TableStands(snap, incoming, e) && d == DeclaredTable(e))
            && TableAnswer(after, schema, name)
               == if EnabledAfter(snap, incoming, d.server) then Resolved(Presented(d)) else Unresolved(Disabled)
  {
    hide IsOutcome, Normal, IsMergedWith, Says, SharesByName, Compilable, TableStays, TableComes, DeclaredTable,
         TableEntry, EnabledAfter, Presented, CleanTable, ServerName, ColumnsOf, TableAnswer, FromImporter, Secrets;
    var m := OutcomeSays(env, snap, order, incoming, after);
    var i := FirstTable(after, schema, name);
    var t := after.tables[i];
    var d := TableContentOf(after, t);
    assert HasTableContent(after, d);
    NormalIsClean(after);
    NormalLinks(after);
    TableAnswerIs(after, schema, name);
    ServerIsEnabledAs(env, snap, order, incoming, after, ServerAt(after, t.serverId).value);
    TablesAfterImport(env, snap, order, incoming, after, d);
  }

  lemma FunctionAnswerAfter(env: Env, snap: Snapshot, order: seq<Id>, incoming: ImpDoc, after: Snapshot,
                            schema: string, name: string)
    requires IsOutcome(env, snap, order, incoming, after) && FirstFunction(after, schema, name) >= 0
    ensures var d := FunctionContentOf(after, after.functions[FirstFunction(after, schema, name)]);
            && d.schema == schema && d.name == name && HasFunctionContent(after, d) && CleanFunction(d)
            && (exists e :: FunctionStands(snap, incoming, e) && d == DeclaredFunction(e))
            && FunctionAnswer(after, schema, name)
               == if EnabledAfter(snap, incoming, d.server) then Resolved(d) else Unresolved(Disabled)
  {
    hide IsOutcome, Normal, IsMergedWith, Says, SharesByName, Compilable, FunctionStays, FunctionComes,
         DeclaredFunction, FunctionEntry, EnabledAfter, CleanFunction, ServerName, FunctionAnswer, FromImporter,
         Secrets;
    var m := OutcomeSays(env, snap, order, incoming, after);
    var i := FirstFunction(after, schema, name);
    var f := after.functions[i];
    var d := FunctionContentOf(after, f);
    assert HasFunctionContent(after, d);
    NormalIsClean(after);
    NormalLinks(after);
    FunctionAnswerIs(after, schema, name);
    ServerIsEnabledAs(env, snap, order, incoming, after, ServerAt(after, f.serverId).value);
    FunctionsAfterImport(env, snap, order, incoming, after, d);
  }

  /** Whatever stands can be what its name resolves to: the entries come in the order in which a map is iterated. */
  lemma AnyStandingTableCanAnswer(env: Env, snap: Snapshot, incoming: ImpDoc, e: DeclTable)
    returns (order: seq<Id>, after: Snapshot)
    requires Importable(snap, incoming) && TableStands(snap, incoming, e)
    ensures IsOutcome(env, snap, order, incoming, after)
    ensures var d := DeclaredTable(e);
            TableAnswer(after, d.schema, d.name)
            == if EnabledAfter(snap, incoming, d.server) then Resolved(Presented(d)) else Unresolved(Disabled)
  {
    hide IsOutcome, Importable, TableStands, DeclaredFunction, DeclaredServer, Presented, TableAnswer, EnabledAfter,
         Secrets, ServerContentOf, FunctionContentOf, DocMaps, Override, CurrentDoc, TableKey, CleanTable;
    var merged: ImpDoc;
    order, merged, after := OutcomeWithFirst(env, snap, incoming, TableKey(e), "");
    StandingTableIsKeyed(snap, order, incoming, e);
    var d := DeclaredTable(e);
    assert FromImporter(merged).tables[0] == e;
    assert TableContentOf(after, after.tables[0]) == d;
    assert FirstTable(after, d.schema, d.name) == 0;
    TableAnswerAfter(env, snap, order, incoming, after, d.schema, d.name);
  }

  lemma AnyStandingFunctionCanAnswer(env: Env, snap: Snapshot, incoming: ImpDoc, e: DeclFunction)
    returns (order: seq<Id>, after: Snapshot)
    requires Importable(snap, incoming) && FunctionStands(snap, incoming, e)
    ensures IsOutcome(env, snap, order, incoming, after)
    ensures var d := DeclaredFunction(e);
            FunctionAnswer(after, d.schema, d.name)
            == if EnabledAfter(snap, incoming, d.server) then Resolved(d) else Unresolved(Disabled)
  {
    hide IsOutcome, Importable, FunctionStands, DeclaredTable, DeclaredServer, FunctionAnswer, EnabledAfter, Secrets,
         ServerContentOf, TableContentOf, DocMaps, Override, CurrentDoc, FunctionKey, CleanFunction;
    var merged: ImpDoc;
    order, merged, after := OutcomeWithFirst(env, snap, incoming, "", FunctionKey(e));
    StandingFunctionIsKeyed(snap, order, incoming, e);
    var d := DeclaredFunction(e);
    assert FromImporter(merged).functions[0] == e;
    assert FunctionContentOf(after, after.functions[0]) == d;
    assert FirstFunction(after, d.schema, d.name) == 0;
    FunctionAnswerAfter(env, snap, order, incoming, after, d.schema, d.name);
  }

  // ---- Tables that stay. ----

  /** No later table of the store is written under the same schema, name and server name. */
  ghost predicate OwnColumns(snap: Snapshot, t: Table) {
    TableEntry(snap, t).columns == ColumnEntries(ColumnsOf(snap, t.id))
  }

  /** No other entry that stands has the table's schema and name. */
  ghost predicate OnlyTableOfName(snap: Snapshot, incoming: ImpDoc, t: Table) {
    forall e :: TableStands(snap, incoming, e) && SchemaOf(e.schema) == t.schema && Trim(e.name) == t.name ==>
      e == TableEntry(snap, t)
  }

  lemma StayingEntryComesBack(snap: Snapshot, t: Table)
    requires DistinctIds(snap) && OwnColumns(snap, t) && CleanTable(TableContentOf(snap, t))
    ensures DeclaredTable(TableEntry(snap, t)) == TableContentOf(snap, t)
  {
    hide ColumnsNormal, ColumnsOf, TableColumns, DeclaredColumns, Trim, NameOfServer, ServerName;
    NamesAgree(snap, t.serverId);
    ColumnsComeBack(ColumnsOf(snap, t.id));
  }

  /** A standing entry with the table's names is the table's. */
  lemma SameNamesSameEntry(snap: Snapshot, incoming: ImpDoc, t: Table, e: DeclTable)
    requires DistinctIds(snap) && TableStays(snap, incoming, t) && TableStands(snap, incoming, e)
    requires var c, d := TableContentOf(snap, t), DeclaredTable(e);
             d.server == c.server && d.schema == c.schema && d.name == c.name && CleanTable(d)
    ensures e == TableEntry(snap, t)
  {
    hide ColumnsNormal, ColumnsOf, TableColumns, DeclaredColumns, Trim, NameOfServer, ServerName, Keyed, CurrentTables;
    NamesAgree(snap, t.serverId);
    assert TableKey(e) == TableKey(TableEntry(snap, t));
  }

  /** The only table of its name that stands is the answer, as its entry declares it. */
  lemma OnlyTableIsTheAnswer(env: Env, snap: Snapshot, order: seq<Id>, incoming: ImpDoc, after: Snapshot, t: Table)
    requires TableStays(snap, incoming, t) && OnlyTableOfName(snap, incoming, t) && Clean(t.schema) && Clean(t.name)
    requires IsOutcome(env, snap, order, incoming, after)
    ensures var d := DeclaredTable(TableEntry(snap, t));
            TableAnswer(after, t.schema, t.name)
            == if EnabledAfter(snap, incoming, d.server) then Resolved(Presented(d)) else Unresolved(Disabled)
  {
    hide IsOutcome, EnabledAfter, CleanTable, ServerName, NameOfServer, ColumnsOf, TableAnswer, Presented, TableColumns,
         TableText, TableStays, TableComes, DeclaredColumns, Trim;
    var d := DeclaredTable(TableEntry(snap, t));
    TablesAfterImport(env, snap, order, incoming, after, d);
    var i :| 0 <= i < |after.tables| && TableContentOf(after, after.tables[i]) == d;
    assert after.tables[i] in after.tables;
    TableAnswerAfter(env, snap, order, incoming, after, t.schema, t.name);
  }

  /** An answer that is the table's content shows that the table is clean and its server enabled. */
  lemma AnswerShowsCleanTable(env: Env, snap: Snapshot, order: seq<Id>, incoming: ImpDoc, after: Snapshot, t: Table)
    requires DistinctIds(snap) && TableStays(snap, incoming, t) && OwnColumns(snap, t)
    requires IsOutcome(env, snap, order, incoming, after)
    requires var c := TableContentOf(snap, t); TableAnswer(after, c.schema, c.name) == Resolved(Presented(c))
    ensures CleanTable(TableContentOf(snap, t)) && EnabledAfter(snap, incoming, TableContentOf(snap, t).server)
  {
    hide DistinctIds, IsOutcome, EnabledAfter, OwnColumns, ServerName, TableStays, TableStands, ColumnsNormal,
         ColumnsOf, Clean, Sort, TableEntry, DeclaredTable, TableAnswer;
    var c := TableContentOf(snap, t);
    TableAnswerIs(after, c.schema, c.name);
    TableAnswerAfter(env, snap, order, incoming, after, c.schema, c.name);
    var d := TableContentOf(after, after.tables[FirstTable(after, c.schema, c.name)]);
    assert Presented(d) == Presented(c);
    var e :| TableStands(snap, incoming, e) && d == DeclaredTable(e);
    SameNamesSameEntry(snap, incoming, t, e);
    EntryColumns(snap, t);
    assert multiset(d.columns) == multiset(Sort(d.columns, ContentBefore)) == multiset(c.columns);
    SameColumnsMeanNormal(ColumnsOf(snap, t.id));
  }

  lemma EntryColumns(snap: Snapshot, t: Table)
    requires OwnColumns(snap, t)
    ensures DeclaredTable(TableEntry(snap, t)).columns == DeclaredColumns(ColumnEntries(ColumnsOf(snap, t.id)))
  {
    hide TableEntry, DeclaredColumns;
  }

  /** A table that stays is what its schema and name resolve to in every outcome exactly when its names are clean and
      its columns normal, the server that stands under its server's name is enabled, and no other table that stays or
      comes has its schema and name. */
  lemma StayingTableResolvesExactlyWhen(env: Env, snap: Snapshot, incoming: ImpDoc, t: Table)
    requires DistinctIds(snap) && Importable(snap, incoming) && TableStays(snap, incoming, t) && OwnColumns(snap, t)
    ensures var c := TableContentOf(snap, t);
            (forall order, after :: IsOutcome(env, snap, order, incoming, after) ==>
               TableAnswer(after, c.schema, c.name) == Resolved(Presented(c)))
            <==> && CleanTable(c) && EnabledAfter(snap, incoming, c.server) && OnlyTableOfName(snap, incoming, t)
  {
    var c := TableContentOf(snap, t);
    assert c.schema == t.schema && c.name == t.name;
    hide DistinctIds, Importable, IsOutcome, TableStays, OwnColumns, CleanTable, EnabledAfter, OnlyTableOfName,
         TableAnswer, Presented, TableContentOf, TableEntry, DeclaredTable;
    if CleanTable(c) && EnabledAfter(snap, incoming, c.server) && OnlyTableOfName(snap, incoming, t) {
      forall order, after | IsOutcome(env, snap, order, incoming, after)
        ensures TableAnswer(after, c.schema, c.name) == Resolved(Presented(c))
      {
        StayingEntryComesBack(snap, t);
        CleanNamesOf(snap, t);
        OnlyTableIsTheAnswer(env, snap, order, incoming, after, t);
      }
    } else if forall order, after :: IsOutcome(env, snap, order, incoming, after) ==>
                TableAnswer(after, c.schema, c.name) == Resolved(Presented(c)) {
      var order, merged, after := OutcomeWithFirst(env, snap, incoming, "", "");
      AnswerShowsCleanTable(env, snap, order, incoming, after, t);
      var e := OtherOfName(snap, incoming, t);
      OtherWouldAnswer(env, snap, incoming, t, e);
    }
  }

  lemma CleanNamesOf(snap: Snapshot, t: Table)
    requires CleanTable(TableContentOf(snap, t))
    ensures Clean(t.schema) && Clean(t.name)
  {
    hide Clean, ColumnsNormal;
  }

  lemma OtherOfName(snap: Snapshot, incoming: ImpDoc, t: Table) returns (e: DeclTable)
    requires !OnlyTableOfName(snap, incoming, t)
    ensures TableStands(snap, incoming, e) && e != TableEntry(snap, t)
    ensures DeclaredTable(e).schema == t.schema && DeclaredTable(e).name == t.name
  {
    hide TableStands, TableEntry, SchemaOf, Trim, DeclaredColumns;
    e :| TableStands(snap, incoming, e) && SchemaOf(e.schema) == t.schema && Trim(e.name) == t.name
          && e != TableEntry(snap, t);
  }

  /** Another entry of the name is the answer in some outcome. */
  lemma OtherWouldAnswer(env: Env, snap: Snapshot, incoming: ImpDoc, t: Table, e: DeclTable)
    requires DistinctIds(snap) && Importable(snap, incoming) && TableStays(snap, incoming, t)
    requires CleanTable(TableContentOf(snap, t)) && TableStands(snap, incoming, e) && e != TableEntry(snap, t)
    requires DeclaredTable(e).schema == t.schema && DeclaredTable(e).name == t.name
    ensures exists order, after :: IsOutcome(env, snap, order, incoming, after)
              && TableAnswer(after, t.schema, t.name) != Resolved(Presented(TableContentOf(snap, t)))
  {
    hide DistinctIds, Importable, IsOutcome, TableStays, TableStands, EnabledAfter, TableAnswer, TableEntry, ColumnsOf,
         ServerName, DeclaredTable, Sort, Clean;
    var order, after := AnyStandingTableCanAnswer(env, snap, incoming, e);
    var c, d := TableContentOf(snap, t), DeclaredTable(e);
    if TableAnswer(after, t.schema, t.name) == Resolved(Presented(c)) {
      assert Presented(d) == Presented(c);
      DeclaredIsNormal(e);
      SameNamesSameEntry(snap, incoming, t, e);
    }
  }

  lemma DeclaredIsNormal(e: DeclTable)
    ensures ColumnsNormal(DeclaredTable(e).columns)
  {
    hide DeclaredColumns, ColumnsNormal;
    DeclaredColumnsNormal(e.columns);
  }

  // ---- Functions that stay. ----

  ghost predicate OnlyFunctionOfName(snap: Snapshot, incoming: ImpDoc, f: Function) {
    forall e :: FunctionStands(snap, incoming, e) && SchemaOf(e.schema) == f.schema && Trim(e.name) == f.name ==>
      e == FunctionEntry(snap, f)
  }

  /** A standing entry with the function's names is the function's. */
  lemma SameNamesSameFunction(snap: Snapshot, incoming: ImpDoc, f: Function, e: DeclFunction)
    requires DistinctIds(snap) && FunctionStays(snap, incoming, f) && FunctionStands(snap, incoming, e)
    requires var c, d := FunctionContentOf(snap, f), DeclaredFunction(e);
             d.server == c.server && d.schema == c.schema && d.name == c.name && CleanFunction(d)
    ensures e == FunctionEntry(snap, f)
  {
    hide Trim, NameOfServer, ServerName, Keyed, CurrentFunctions;
    NamesAgree(snap, f.serverId);
    assert FunctionKey(e) == FunctionKey(FunctionEntry(snap, f));
  }

  lemma OnlyFunctionIsTheAnswer(env: Env, snap: Snapshot, order: seq<Id>, incoming: ImpDoc, after: Snapshot,
                                f: Function)
    requires DistinctIds(snap) && FunctionStays(snap, incoming, f) && OnlyFunctionOfName(snap, incoming, f)
    requires CleanFunction(FunctionContentOf(snap, f)) && IsOutcome(env, snap, order, incoming, after)
    ensures var c := FunctionContentOf(snap, f);
            FunctionAnswer(after, c.schema, c.name)
            == if EnabledAfter(snap, incoming, c.server) then Resolved(c) else Unresolved(Disabled)
  {
    hide DistinctIds, IsOutcome, EnabledAfter, CleanFunction, ServerName, FunctionAnswer, FunctionEntry, FunctionStays,
         FunctionComes;
    var c := FunctionContentOf(snap, f);
    CleanFunctionComesBack(snap, f);
    FunctionsAfterImport(env, snap, order, incoming, after, c);
    var i :| 0 <= i < |after.functions| && FunctionContentOf(after, after.functions[i]) == c;
    assert after.functions[i] in after.functions;
    FunctionAnswerAfter(env, snap, order, incoming, after, c.schema, c.name);
  }

  lemma AnswerShowsCleanFunction(env: Env, snap: Snapshot, order: seq<Id>, incoming: ImpDoc, after: Snapshot,
                                 f: Function)
    requires IsOutcome(env, snap, order, incoming, after)
    requires var c := FunctionContentOf(snap, f); FunctionAnswer(after, c.schema, c.name) == Resolved(c)
    ensures CleanFunction(FunctionContentOf(snap, f)) && EnabledAfter(snap, incoming, FunctionContentOf(snap, f).server)
  {
    hide IsOutcome, EnabledAfter, CleanFunction, FunctionContentOf, FunctionStands, DeclaredFunction, FunctionAnswer;
    var c := FunctionContentOf(snap, f);
    FunctionAnswerIs(after, c.schema, c.name);
    FunctionAnswerAfter(env, snap, order, incoming, after, c.schema, c.name);
  }

  /** The same for functions, which have no columns. */
  lemma StayingFunctionResolvesExactlyWhen(env: Env, snap: Snapshot, incoming: ImpDoc, f: Function)
    requires DistinctIds(snap) && Importable(snap, incoming) && FunctionStays(snap, incoming, f)
    ensures var c := FunctionContentOf(snap, f);
            (forall order, after :: IsOutcome(env, snap, order, incoming, after) ==>
               FunctionAnswer(after, c.schema, c.name) == Resolved(c))
            <==> && CleanFunction(c) && EnabledAfter(snap, incoming, c.server) && OnlyFunctionOfName(snap, incoming, f)
  {
    var c := FunctionContentOf(snap, f);
    assert c.schema == f.schema && c.name == f.name;
    hide DistinctIds, Importable, IsOutcome, FunctionStays, CleanFunction, EnabledAfter, OnlyFunctionOfName,
         FunctionAnswer, FunctionContentOf, FunctionEntry, DeclaredFunction;
    if CleanFunction(c) && EnabledAfter(snap, incoming, c.server) && OnlyFunctionOfName(snap, incoming, f) {
      forall order, after | IsOutcome(env, snap, order, incoming, after)
        ensures FunctionAnswer(after, c.schema, c.name) == Resolved(c)
      {
        OnlyFunctionIsTheAnswer(env, snap, order, incoming, after, f);
      }
    } else if forall order, after :: IsOutcome(env, snap, order, incoming, after) ==>
                FunctionAnswer(after, c.schema, c.name) == Resolved(c) {
      var order, merged, after := OutcomeWithFirst(env, snap, incoming, "", "");
      AnswerShowsCleanFunction(env, snap, order, incoming, after, f);
      var e := OtherFunctionOfName(snap, incoming, f);
      OtherFunctionWouldAnswer(env, snap, incoming, f, e);
    }
  }

  lemma OtherFunctionOfName(snap: Snapshot, incoming: ImpDoc, f: Function) returns (e: DeclFunction)
    requires !OnlyFunctionOfName(snap, incoming, f)
    ensures FunctionStands(snap, incoming, e) && e != FunctionEntry(snap, f)
    ensures DeclaredFunction(e).schema == f.schema && DeclaredFunction(e).name == f.name
  {
    hide FunctionStands, FunctionEntry, SchemaOf, Trim;
    e :| FunctionStands(snap, incoming, e) && SchemaOf(e.schema) == f.schema && Trim(e.name) == f.name
         && e != FunctionEntry(snap, f);
  }

  lemma OtherFunctionWouldAnswer(env: Env, snap: Snapshot, incoming: ImpDoc, f: Function, e: DeclFunction)
    requires DistinctIds(snap) && Importable(snap, incoming) && FunctionStays(snap, incoming, f)
    requires CleanFunction(FunctionContentOf(snap, f)) && FunctionStands(snap, incoming, e)
              && e != FunctionEntry(snap, f)
    requires DeclaredFunction(e).schema == f.schema && DeclaredFunction(e).name == f.name
    ensures exists order, after :: IsOutcome(env, snap, order, incoming, after)
              && FunctionAnswer(after, f.schema, f.name) != Resolved(FunctionContentOf(snap, f))
  {
    hide DistinctIds, Importable, IsOutcome, FunctionStays, FunctionStands, EnabledAfter, FunctionAnswer, FunctionEntry,
         ServerName, DeclaredFunction, Clean;
    var order, after := AnyStandingFunctionCanAnswer(env, snap, incoming, e);
    if FunctionAnswer(after, f.schema, f.name) == Resolved(FunctionContentOf(snap, f)) {
      SameNamesSameFunction(snap, incoming, f, e);
    }
  }
}
