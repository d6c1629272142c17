/** ImportDeclarative and load: documents replace or join the store's data, or leave it alone. */
module Import {
  import opened Text
  import opened Meta
  import opened Seqs
  import opened Documents
  import opened Merge
  import opened Declarative
  import opened StoreSpec
  import opened FileStore
  import opened Decompile
  import opened CompileMeaning
  import opened RoundTrip
  import opened ImportMeaning
  import opened ImportResult
  import opened ImportKept

  datatype Counts = Counts(servers: nat, tables: nat, functions: nat)

  function CountResult(doc: ImpDoc): Counts {
    Counts(|doc.servers|, |doc.tables|, |doc.functions|)
  }

  /** The document current in the store, merged with the incoming one. */
  method MergeWithCurrent(snap: Snapshot, incoming: ImpDoc) returns (r: Option<ImpDoc>)
    ensures r.Some? <==> NamesAllServers(snap) && NamesServers(incoming)
    ensures r.Some? ==> exists order :: IsMergedWith(snap, order, incoming, r.value)
  {
    hide Trim, DocumentOf, Enumerates, IsMerge, NamesServers, NamesAllServers;
    var doc := DecompileDeclarative(snap);
    var current := DeclarativeToImporter(doc);
    ghost var order :| Enumerates(snap.servers, order) && doc == DocumentOf(snap, order);
    assert current == CurrentDoc(snap, order);
    r := MergeDeclarativeDocs([current, incoming]);
    assert incoming in [current, incoming] && current in [current, incoming];
    CurrentNamed(snap, order);
    assert r.Some? ==> IsMergedWith(snap, order, incoming, r.value);
  }

  /** Which imports are accepted: what a caller can check beforehand. */
  ghost predicate Accepted(snap: Snapshot, incoming: ImpDoc, mode: string) {
    if mode == "" || mode == "replace" then Compilable(FromImporter(incoming))
    else mode == "merge" && Importable(snap, incoming)
  }

  /** An import that is not accepted leaves the store as it was. One that is accepted takes effect, and is reported as
      failed all the same if the document cannot be written afterwards. */
  method ImportDeclarative(store: Store, env: Env, incoming: ImpDoc, mode: string, now: Timestamp, saved: bool)
    returns (r: Option<Counts>)
    modifies store
    ensures r.Some? <==> saved && Accepted(old(store.data), incoming, mode)
    ensures !Accepted(old(store.data), incoming, mode) ==> store.View() == old(store.View())
    ensures Accepted(old(store.data), incoming, mode) && mode != "merge" ==>
              Compile(env, FromImporter(incoming), old(store.next), now) == Some((store.data, store.next))
    ensures Accepted(old(store.data), incoming, mode) && mode == "merge" ==>
              exists order :: IsOutcome(env, old(store.data), order, incoming, store.data)
    ensures r.Some? ==> r.value == Counts(|store.data.servers|, |store.data.tables|, |store.data.functions|)
  {
    hide Compile, Compilable, FromImporter, IsMergedWith, Importable;
    var merged: ImpDoc;
    if mode == "" || mode == "replace" {
      merged := incoming;
    } else if mode == "merge" {
      var m := MergeWithCurrent(store.data, incoming);
      if m.None? {
        NamesNeeded(store.data, incoming);
        return None;
      }
      merged := m.value;
      ghost var order :| IsMergedWith(store.data, order, incoming, merged);
      MergedCompiles(store.data, order, incoming, merged);
    } else {
      return None;
    }
    var doc := DeclarativeFromImporter(merged);
    CompilesExactlyWhen(env, doc, store.next, now);
    var compiled := CompileDeclarative(env, doc, store.next, now);
    if compiled.None? {
      return None;
    }
    CompiledCounts(env, merged, store.next, now);
    if mode == "merge" {
      ghost var order :| IsMergedWith(store.data, order, incoming, merged);
      OutcomeIs(env, store.data, order, incoming, merged, store.next, now);
    }
    store.data, store.next := compiled.value.0, compiled.value.1;
    if !saved {
      return None;
    }
    return Some(CountResult(merged));
  }

  lemma OutcomeIs(env: Env, snap: Snapshot, order: seq<Id>, incoming: ImpDoc, merged: ImpDoc, next: Id, now: Timestamp)
    requires IsMergedWith(snap, order, incoming, merged) && Compile(env, FromImporter(merged), next, now).Some?
    ensures IsOutcome(env, snap, order, incoming, Compile(env, FromImporter(merged), next, now).value.0)
  {
    hide IsMergedWith, Compile;
    var done := Compile(env, FromImporter(merged), next, now).value;
    assert Compile(env, FromImporter(merged), next, now) == Some((done.0, done.1));
  }

  lemma NamesNeeded(snap: Snapshot, incoming: ImpDoc)
    ensures Importable(snap, incoming) ==> NamesAllServers(snap) && NamesServers(incoming)
  {
  }

  lemma CompiledCounts(env: Env, m: ImpDoc, next: Id, now: Timestamp)
    requires Compile(env, FromImporter(m), next, now).Some?
    ensures var snap := Compile(env, FromImporter(m), next, now).value.0;
            |snap.servers| == |m.servers| && |snap.tables| == |m.tables| && |snap.functions| == |m.functions|
  {
    hide Compile, ServerContentOf, TableContentOf, FunctionContentOf, DeclaredServer, DeclaredTable, DeclaredFunction;
    CompiledSays(env, FromImporter(m), next, now);
  }

  function ImporterDocs(docs: seq<Doc>): seq<ImpDoc> {
    seq(|docs|, i requires 0 <= i < |docs| => ToImporter(docs[i]))
  }

  method ConvertAll(docs: seq<Doc>) returns (importerDocs: seq<ImpDoc>)
    ensures importerDocs == ImporterDocs(docs)
  {
    importerDocs := [];
    for i := 0 to |docs|
      invariant importerDocs == ImporterDocs(docs)[..i]
    {
      var d := DeclarativeToImporter(docs[i]);
      importerDocs := importerDocs + [d];
    }
  }

  /** load, from the declarative documents found on disk in the order of their names. */
  method Load(store: Store, env: Env, docs: seq<Doc>, now: Timestamp) returns (ok: bool)
    modifies store
    ensures !ok || docs == [] ==> store.View() == old(store.View())
    ensures docs == [] ==> ok
    ensures !ok ==>
              || (exists d :: d in ImporterDocs(docs) && !NamesServers(d))
              || exists merged :: IsMerge(ImporterDocs(docs), merged) && !Compilable(FromImporter(merged))
    ensures ok ==> forall d :: d in ImporterDocs(docs) ==> NamesServers(d)
    ensures ok && docs != [] ==>
              exists merged :: && IsMerge(ImporterDocs(docs), merged)
                               && Compile(env, FromImporter(merged), old(store.next), now)
                                    == Some((store.data, store.next))
  {
    hide Compile, Compilable, IsMerge, ToImporter, FromImporter, NamesServers;
    var importerDocs := ConvertAll(docs);
    if |importerDocs| == 0 {
      return true;
    }
    var merged := MergeDeclarativeDocs(importerDocs);
    if merged.None? {
      return false;
    }
    var doc := DeclarativeFromImporter(merged.value);
    CompilesExactlyWhen(env, doc, store.next, now);
    var compiled := CompileDeclarative(env, doc, store.next, now);
    if compiled.None? {
      return false;
    }
    store.data, store.next := compiled.value.0, compiled.value.1;
    return true;
  }

  const NothingIncoming := ImpDoc([], [], [], [])

  lemma NothingComes()
    ensures DocMaps(NothingIncoming) == NoMaps
  {
  }

  /** Reading back what was written is a merge with nothing. */
  lemma RestartIsEmptyMerge(snap: Snapshot, order: seq<Id>, merged: ImpDoc)
    requires Enumerates(snap.servers, order) && IsMerge([CurrentDoc(snap, order)], merged)
    ensures IsMergedWith(snap, order, NothingIncoming, merged)
  {
    hide ListsAll, DocMaps, Override, CurrentDoc, Enumerates;
    AllMapsOne(CurrentDoc(snap, order));
    TwoMaps(CurrentDoc(snap, order), NothingIncoming);
    NothingComes();
    OverrideAssociative(DocMaps(CurrentDoc(snap, order)), NoMaps, NoMaps);
    assert IsMerge([CurrentDoc(snap, order), NothingIncoming], merged);
  }

  /** The written document can be read back: every server has a name, and what is found under each name has a protocol,
      and each function an operation. */
  ghost predicate Loads(snap: Snapshot) {
    && NamesAllServers(snap)
    && (forall s :: s in snap.servers && Wins(CurrentServers(snap), ServerKey, CurrentServer(snap, s)) ==>
         Trim(s.protocol) != "")
    && (forall f :: f in snap.functions && Wins(CurrentFunctions(snap), FunctionKey, FunctionEntry(snap, f)) ==>
          Trim(f.operation) != "")
  }

  lemma NothingKeyed()
    ensures Keyed(NothingIncoming.servers, ServerKey) == map[] && Keyed(NothingIncoming.tables, TableKey) == map[]
    ensures Keyed(NothingIncoming.functions, FunctionKey) == map[]
              && Keyed(NothingIncoming.credentials, CredentialKey) == map[]
  {
  }

  lemma LoadsIsImportable(snap: Snapshot)
    ensures Loads(snap) <==> Importable(snap, NothingIncoming)
    ensures NamesServers(NothingIncoming)
  {
    hide Trim, Keyed, CurrentServers, CurrentFunctions, FunctionEntry, CurrentServer, NamesAllServers, ServerKey,
         FunctionKey, TableKey;
    NothingKeyed();
    assert forall s :: ServerStays(snap, NothingIncoming, s)
             <==> s in snap.servers && Wins(CurrentServers(snap), ServerKey, CurrentServer(snap, s));
    assert forall f :: FunctionStays(snap, NothingIncoming, f)
             <==> f in snap.functions && Wins(CurrentFunctions(snap), FunctionKey, FunctionEntry(snap, f));
    assert forall e :: !ServerComes(NothingIncoming, e);
    assert forall e :: !TableComes(NothingIncoming, e);
    assert forall e :: !FunctionComes(NothingIncoming, e);
  }

  /** Restart: the store's document is written, and read back into a store. */
  method Restart(store: Store, env: Env, now: Timestamp) returns (ok: bool)
    modifies store
    ensures ok <==> Loads(old(store.data))
    ensures !ok ==> store.View() == old(store.View())
    ensures ok ==> exists order :: IsOutcome(env, old(store.data), order, NothingIncoming, store.data)
  {
    hide DocumentOf, Enumerates, IsMerge, Compile, Compilable, NamesServers, NamesAllServers, Loads, IsMergedWith,
         FromImporter;
    var snap, next := store.data, store.next;
    var doc := DecompileDeclarative(snap);
    ghost var order :| Enumerates(snap.servers, order) && doc == DocumentOf(snap, order);
    assert ImporterDocs([doc]) == [CurrentDoc(snap, order)];
    CurrentNamed(snap, order);
    LoadsIsImportable(snap);
    NamesNeeded(snap, NothingIncoming);
    ok := Load(store, env, [doc], now);
    assert CurrentDoc(snap, order) in ImporterDocs([doc]);
    forall merged | IsMerge([CurrentDoc(snap, order)], merged) && NamesAllServers(snap)
      ensures IsMergedWith(snap, order, NothingIncoming, merged)
      ensures Compilable(FromImporter(merged)) <==> Loads(snap)
    {
      RestartIsEmptyMerge(snap, order, merged);
      MergedCompiles(snap, order, NothingIncoming, merged);
    }
    if ok {
      ghost var merged :| IsMerge([CurrentDoc(snap, order)], merged)
                    && Compile(env, FromImporter(merged), next, now) == Some((store.data, store.next));
      CompilesExactlyWhen(env, FromImporter(merged), next, now);
      OutcomeIs(env, snap, order, NothingIncoming, merged, next, now);
    }
  }

  /** What a restart brings back: each table and function whose key no other has exactly when its names are clean and
      its columns normal, and each such server exactly when its names are clean and it keeps its secret; nothing else
      than what was there, as its entry declares it. */
  lemma RestartConserves(env: Env, snap: Snapshot, order: seq<Id>, after: Snapshot)
    requires DistinctIds(snap) && IsOutcome(env, snap, order, NothingIncoming, after)
    ensures forall t :: TableAlone(snap, t) ==>
              (HasTableContent(after, TableContentOf(snap, t)) <==> CleanTable(TableContentOf(snap, t)))
    ensures forall f :: FunctionAlone(snap, f) ==>
              (HasFunctionContent(after, FunctionContentOf(snap, f)) <==> CleanFunction(FunctionContentOf(snap, f)))
    ensures forall s :: ServerAlone(snap, s) && Trim(s.name) != "" ==>
              (HasServerContent(after, ServerContentOf(snap, s))
               <==> CleanServer(ServerContentOf(snap, s))
                    && KeepsSecret(env, snap, Listed(env, snap, order, NothingIncoming), s))
    ensures forall c :: HasTableContent(after, c) ==>
              exists t :: t in snap.tables && c == DeclaredTable(TableEntry(snap, t))
    ensures forall c :: HasFunctionContent(after, c) ==>
              exists f :: f in snap.functions && c == DeclaredFunction(FunctionEntry(snap, f))
    ensures forall c :: HasServerContent(after, c) ==> exists s :: s in snap.servers && c.name == Trim(s.name)
  {
    hide DistinctIds, IsOutcome, TableAlone, FunctionAlone, ServerAlone, HasTableContent, HasFunctionContent,
         HasServerContent, TableContentOf, FunctionContentOf, ServerContentOf, CleanTable, CleanFunction, CleanServer,
         KeepsSecret, Listed, Trim, DeclaredTable, DeclaredFunction, TableEntry, FunctionEntry, Keyed, EntryContent,
         TableKey, FunctionKey, ServerKey, CurrentServer, CurrentServers, CurrentTables, CurrentFunctions;
    NothingKeyed();
    forall t | TableAlone(snap, t)
      ensures HasTableContent(after, TableContentOf(snap, t)) <==> CleanTable(TableContentOf(snap, t))
    {
      StayingTableIsKeptExactlyWhen(env, snap, order, NothingIncoming, after, t);
    }
    forall f | FunctionAlone(snap, f)
      ensures HasFunctionContent(after, FunctionContentOf(snap, f)) <==> CleanFunction(FunctionContentOf(snap, f))
    {
      StayingFunctionIsKeptExactlyWhen(env, snap, order, NothingIncoming, after, f);
    }
    forall s | ServerAlone(snap, s) && Trim(s.name) != ""
      ensures HasServerContent(after, ServerContentOf(snap, s))
              <==> CleanServer(ServerContentOf(snap, s))
                   && KeepsSecret(env, snap, Listed(env, snap, order, NothingIncoming), s)
    {
      AloneServerStays(snap, NothingIncoming, s);
      StayingServerIsKeptExactlyWhen(env, snap, order, NothingIncoming, after, s);
    }
    forall c | HasTableContent(after, c)
      ensures exists t :: t in snap.tables && c == DeclaredTable(TableEntry(snap, t))
    {
      TablesAfterImport(env, snap, order, NothingIncoming, after, c);
    }
    forall c | HasFunctionContent(after, c)
      ensures exists f :: f in snap.functions && c == DeclaredFunction(FunctionEntry(snap, f))
    {
      FunctionsAfterImport(env, snap, order, NothingIncoming, after, c);
    }
    forall c | HasServerContent(after, c)
      ensures exists s :: s in snap.servers && c.name == Trim(s.name)
    {
      ServersAfterImport(env, snap, order, NothingIncoming, after, c);
      ServerBack(env, snap, Listed(env, snap, order, NothingIncoming), c);
    }
  }

  lemma ServerBack(env: Env, snap: Snapshot, listed: map<string, Fields>, c: ServerContent)
    ensures (exists s :: ServerStays(snap, NothingIncoming, s)
                         && c == EntryContent(env, listed, CurrentServer(snap, s)))
            ==> exists s :: s in snap.servers && c.name == Trim(s.name)
  {
    hide EntryContent, CurrentServer, Keyed, Trim, ServerKey, Wins;
    if s :| ServerStays(snap, NothingIncoming, s) && c == EntryContent(env, listed, CurrentServer(snap, s)) {
      ContentName(env, listed, CurrentServer(snap, s));
      CurrentName(snap, s);
    }
  }
}
