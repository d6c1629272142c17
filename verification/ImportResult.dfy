/** When an import succeeds, and which secrets its document lists. */
module ImportResult {
  import opened Text
  import opened Meta
  import opened Seqs
  import opened Documents
  import opened Merge
  import opened Declarative
  import opened StoreSpec
  import opened Decompile
  import opened CompileMeaning
  import opened RoundTrip
  import opened CompiledForm
  import opened ImportMeaning

  // ---- Secrets of imported servers. ----

  /** A credential listed under the server's name comes before the server's own. */
  function EntrySecret(env: Env, listed: map<string, Fields>, e: ImpServer): Option<Fields> {
    if e.credential == map[] then None
    else if ServerKey(e) in listed then Some(listed[ServerKey(e)])
    else Some(ExpandMap(env, e.credential))
  }

  function EntryContent(env: Env, listed: map<string, Fields>, e: ImpServer): ServerContent {
    ServerContent(Trim(e.name), Trim(e.protocol), e.options, if e.enabled.Some? then e.enabled.value else true,
                  EntrySecret(env, listed, e))
  }

  lemma ImportedServer(env: Env, m: ImpDoc, e: ImpServer)
    requires Unique(m.servers, ServerKey) && e in m.servers
    ensures DeclaredServer(Secrets(env, FromImporter(m)), FromImporterServer(e))
            == EntryContent(env, ListedSecrets(env, m.credentials), e)
  {
    hide ListedSecrets, ServerSecrets, ExpandMap;
    var doc, listed, n := FromImporter(m), ListedSecrets(env, m.credentials), ServerKey(e);
    if e.credential != map[] {
      if n in listed {
        StartSecretsStay(env, listed, doc.servers, n);
      } else {
        var i :| 0 <= i < |m.servers| && m.servers[i] == e;
        assert doc.servers[i] == FromImporterServer(e) && doc.servers[i] in doc.servers;
        forall d | d in doc.servers && d.credential.data != map[] && Trim(d.name) == n
          ensures d.credential.data == e.credential
        {
          var j :| 0 <= j < |doc.servers| && doc.servers[j] == d;
          SameKeySameElement(m.servers, ServerKey, e, m.servers[j]);
        }
        InlineSecretIs(env, listed, doc.servers, n, e.credential);
      }
    } else {
      assert Trim("") == "";
    }
  }

  lemma ListedByKey(env: Env, creds: seq<DeclCredential>, m: map<string, DeclCredential>)
    requires Lists(creds, m, CredentialKey) && KeysMatch(m, CredentialKey)
    ensures ListedSecrets(env, creds) == map n | n in m :: ExpandMap(env, m[n].data)
  {
    hide ListedSecrets, ExpandMap, Trim;
    var listed := ListedSecrets(env, creds);
    ListedKeysClean(env, creds);
    forall n | n in listed
      ensures n in m
    {
      ListedKeys(env, creds, n);
      var c :| c in creds && Trim(c.name) == n;
      assert CredentialKey(c) == n;
    }
    forall n | n in m
      ensures n in listed && listed[n] == ExpandMap(env, m[n].data)
    {
      assert CredentialKey(m[n]) == n;
      forall c | c in creds && Trim(c.name) == n
        ensures c.data == m[n].data
      {
        assert CredentialKey(c) == n;
      }
      ListedSecretIs(env, creds, n, m[n].data);
    }
  }

  // ---- The secrets listed by name in the merged document. ----

  /** The shared credentials of the store, in their order, under those the incoming document lists. */
  function Listed(env: Env, snap: Snapshot, order: seq<Id>, incoming: ImpDoc): map<string, Fields> {
    var m := Keyed(SharedEntries(snap, order), CredentialKey) + Keyed(incoming.credentials, CredentialKey);
    map n | n in m :: ExpandMap(env, m[n].data)
  }

  lemma ListedAfterMerge(env: Env, snap: Snapshot, order: seq<Id>, incoming: ImpDoc, merged: ImpDoc)
    requires IsMergedWith(snap, order, incoming, merged)
    ensures ListedSecrets(env, merged.credentials) == Listed(env, snap, order, incoming)
  {
    hide ListedSecrets, ExpandMap, IsMerge, Enumerates, CurrentDoc, Keyed, Unique, MapsMatch, DocMaps, SharedEntries,
         CurrentServers, CurrentTables, CurrentFunctions;
    CurrentDocIs(snap, order);
    MergedLists(CurrentDoc(snap, order), incoming, merged);
    var shared, newcomers := SharedEntries(snap, order), incoming.credentials;
    KeyedMatches(shared, CredentialKey);
    KeyedMatches(newcomers, CredentialKey);
    UnionMatches(Keyed(shared, CredentialKey), Keyed(newcomers, CredentialKey), CredentialKey);
    ListedByKey(env, merged.credentials, Keyed(shared, CredentialKey) + Keyed(newcomers, CredentialKey));
  }

  /** A shared credential of the store goes by the name. */
  predicate SharedUnder(snap: Snapshot, n: string, id: Id) {
    IsShared(snap, id) && Trim(CredentialNameForID(snap.credentials, id)) == n
  }

  function SharedValue(env: Env, snap: Snapshot, id: Id): Fields
    requires IsShared(snap, id)
  {
    ExpandMap(env, OpenedPayload(snap.credentials, id).value)
  }

  /** A name is listed if the incoming document lists it, and then with its secret, or else if a shared credential of
      the store goes by it, with that one's secret. */
  lemma ListedIs(env: Env, snap: Snapshot, order: seq<Id>, incoming: ImpDoc, n: string)
    requires Enumerates(snap.servers, order)
    ensures var listed, newcomers := Listed(env, snap, order, incoming), Keyed(incoming.credentials, CredentialKey);
            && (n in listed <==> n in newcomers || (n != "" && exists id :: SharedUnder(snap, n, id)))
            && (n in newcomers ==> listed[n] == ExpandMap(env, newcomers[n].data))
            && (n in listed && n !in newcomers ==>
                  exists id :: SharedUnder(snap, n, id) && listed[n] == SharedValue(env, snap, id))
  {
    hide ExpandMap, Keyed, Trim, SharedEntries, OpenedPayload, CredentialNameForID, Unique, RefCount;
    var entries := SharedEntries(snap, order);
    KeyedHas(entries, CredentialKey, n);
    var known := Keyed(entries, CredentialKey);
    if n in known {
      var id := ListedAreShared(snap, order, known[n]);
      assert SharedUnder(snap, n, id);
    }
    if id :| SharedUnder(snap, n, id) && n != "" {
      SharedAreListed(snap, order, id);
      assert CredentialKey(SharedEntry(snap, id)) == n;
    }
  }

  lemma MergedKeysDiffer(snap: Snapshot, order: seq<Id>, incoming: ImpDoc, merged: ImpDoc)
    requires IsMergedWith(snap, order, incoming, merged)
    ensures Unique(merged.servers, ServerKey) && Unique(merged.tables, TableKey)
              && Unique(merged.functions, FunctionKey)
  {
    hide IsMerge, Enumerates, CurrentDoc, Keyed, Unique, MapsMatch, DocMaps;
    MergedLists(CurrentDoc(snap, order), incoming, merged);
  }

  // ---- When a merge-import succeeds. ----

  ghost predicate ServerAround(snap: Snapshot, incoming: ImpDoc, server: string) {
    || Trim(server) in Keyed(incoming.servers, ServerKey)
    || exists s :: s in snap.servers && Trim(s.name) == Trim(server)
  }

  ghost predicate NamesAllServers(snap: Snapshot) {
    forall s :: s in snap.servers ==> Trim(s.name) != ""
  }

  /** What a caller can check beforehand. */
  ghost predicate Importable(snap: Snapshot, incoming: ImpDoc) {
    && NamesAllServers(snap) && NamesServers(incoming)
    && (forall s :: ServerStays(snap, incoming, s) ==> Trim(s.protocol) != "")
    && (forall f :: FunctionStays(snap, incoming, f) ==> Trim(f.operation) != "")
    && (forall e :: ServerComes(incoming, e) ==> Trim(e.protocol) != "")
    && (forall e :: TableComes(incoming, e) ==> ServerAround(snap, incoming, e.server))
    && (forall e :: FunctionComes(incoming, e) ==> Trim(e.operation) != "" && ServerAround(snap, incoming, e.server))
  }

  lemma CurrentNamed(snap: Snapshot, order: seq<Id>)
    ensures NamesServers(CurrentDoc(snap, order)) <==> NamesAllServers(snap)
  {
    hide Trim, CredentialFieldOf, SharedEntries, CurrentTables, CurrentFunctions, CurrentDoc;
    var current := CurrentServers(snap);
    CurrentDocIs(snap, order);
    forall i | 0 <= i < |current|
      ensures ServerKey(current[i]) == Trim(snap.servers[i].name) && current[i] in current
                && snap.servers[i] in snap.servers
    {
    }
  }

  lemma MergedServerName(snap: Snapshot, order: seq<Id>, incoming: ImpDoc, merged: ImpDoc, n: string)
    requires IsMergedWith(snap, order, incoming, merged) && n != ""
    ensures (exists e :: e in merged.servers && ServerKey(e) == n)
            <==> n in Keyed(incoming.servers, ServerKey) || exists s :: s in snap.servers && Trim(s.name) == n
  {
    hide Keyed, Trim, CredentialFieldOf, Lists, IsMerge, Enumerates, CurrentDoc, SharedEntries, CurrentTables,
         CurrentFunctions;
    var current := CurrentServers(snap);
    CurrentDocIs(snap, order);
    MergedLists(CurrentDoc(snap, order), incoming, merged);
    KeyedHas(current, ServerKey, n);
    KeyedHas(incoming.servers, ServerKey, n);
    ListsKeys(merged.servers, Keyed(current, ServerKey) + Keyed(incoming.servers, ServerKey), ServerKey, n);
    forall i | 0 <= i < |current|
      ensures ServerKey(current[i]) == Trim(snap.servers[i].name) && current[i] in current
                && snap.servers[i] in snap.servers
    {
    }
  }

  lemma ListsKeys<V>(out: seq<V>, m: map<string, V>, key: V -> string, k: string)
    requires Lists(out, m, key) && (k in m ==> key(m[k]) == k)
    ensures (exists v :: v in out && key(v) == k) <==> k in m
  {
  }

  lemma MergedHasServer(snap: Snapshot, order: seq<Id>, incoming: ImpDoc, merged: ImpDoc, server: string)
    requires IsMergedWith(snap, order, incoming, merged) && Trim(server) != ""
    ensures KnownServer(FromImporter(merged), server) <==> ServerAround(snap, incoming, server)
  {
    hide IsMergedWith, Trim, Keyed;
    var doc := FromImporter(merged);
    MergedServerName(snap, order, incoming, merged, Trim(server));
    forall i | 0 <= i < |merged.servers|
      ensures Trim(doc.servers[i].name) == ServerKey(merged.servers[i]) && doc.servers[i] in doc.servers
              && merged.servers[i] in merged.servers
    {
    }
  }

  lemma NameOfServerIsName(servers: seq<Server>, id: Id)
    ensures NameOfServer(servers, id) == "" || exists s :: s in servers && s.name == NameOfServer(servers, id)
  {
    var i := LastWhere(servers, (s: Server) => s.id == id);
    if i >= 0 {
      assert servers[i] in servers;
    }
  }

  /** Once the names are there, the merged document compiles exactly when the data is importable. */
  lemma MergedCompiles(snap: Snapshot, order: seq<Id>, incoming: ImpDoc, merged: ImpDoc)
    requires IsMergedWith(snap, order, incoming, merged) && NamesAllServers(snap) && NamesServers(incoming)
    ensures Compilable(FromImporter(merged)) <==> Importable(snap, incoming)
  {
    hide IsMergedWith, Trim, Keyed, KnownServer, ServerAround, NamesServers, NamesAllServers, ServerStays,
         FunctionStays, ServerComes, TableComes, FunctionComes, ServerOk;
    var doc := FromImporter(merged);
    assert doc.tables == merged.tables && doc.functions == merged.functions;
    ServersOk(snap, order, incoming, merged);
    TablesOk(snap, order, incoming, merged);
    FunctionsOk(snap, order, incoming, merged);
  }

  lemma ServersOk(snap: Snapshot, order: seq<Id>, incoming: ImpDoc, merged: ImpDoc)
    requires IsMergedWith(snap, order, incoming, merged)
    ensures (forall i :: 0 <= i < |merged.servers| ==> ServerOk(FromImporter(merged), i))
            <==> && (forall s :: ServerStays(snap, incoming, s) ==> Trim(s.protocol) != "")
                 && (forall e :: ServerComes(incoming, e) ==> Trim(e.protocol) != "")
  {
    hide IsMergedWith, Keyed, Trim, CredentialFieldOf, ServerStays, ServerComes;
    assert Trim("") == "" by { TrimBlank(); }
    forall i | 0 <= i < |merged.servers|
      ensures ServerOk(FromImporter(merged), i) <==> Trim(merged.servers[i].protocol) != ""
      ensures Trim(merged.servers[i].protocol) != ""
              || (exists s :: ServerStays(snap, incoming, s) && Trim(s.protocol) == "")
              || (exists e :: ServerComes(incoming, e) && Trim(e.protocol) == "")
    {
      MergedServer(snap, order, incoming, merged, merged.servers[i]);
      MergedServerIsNamed(snap, order, incoming, merged, merged.servers[i]);
    }
    forall s | ServerStays(snap, incoming, s)
      ensures exists i :: 0 <= i < |merged.servers| && merged.servers[i].protocol == s.protocol
    {
      MergedServer(snap, order, incoming, merged, CurrentServer(snap, s));
    }
    forall e | ServerComes(incoming, e)
      ensures exists i :: 0 <= i < |merged.servers| && merged.servers[i] == e
    {
      MergedServer(snap, order, incoming, merged, e);
    }
  }

  lemma MergedServerIsNamed(snap: Snapshot, order: seq<Id>, incoming: ImpDoc, merged: ImpDoc, e: ImpServer)
    requires IsMergedWith(snap, order, incoming, merged) && e in merged.servers
    ensures ServerKey(e) != ""
  {
    hide IsMergedWith, Trim, CurrentServers, ServerKey;
    MergedServer(snap, order, incoming, merged, e);
    KeyedHas(CurrentServers(snap), ServerKey, ServerKey(e));
    KeyedHas(incoming.servers, ServerKey, ServerKey(e));
  }

  /** A table without a server or a name is left out of the merge. */
  lemma MergedTableIsNamed(snap: Snapshot, order: seq<Id>, incoming: ImpDoc, merged: ImpDoc, e: DeclTable)
    requires IsMergedWith(snap, order, incoming, merged) && e in merged.tables
    ensures Trim(e.server) != "" && Trim(e.name) != ""
  {
    hide IsMergedWith, Trim, CurrentTables;
    MergedTable(snap, order, incoming, merged, e);
    KeyedHas(CurrentTables(snap), TableKey, TableKey(e));
    KeyedHas(incoming.tables, TableKey, TableKey(e));
  }

  lemma MergedFunctionIsNamed(snap: Snapshot, order: seq<Id>, incoming: ImpDoc, merged: ImpDoc, e: DeclFunction)
    requires IsMergedWith(snap, order, incoming, merged) && e in merged.functions
    ensures Trim(e.server) != "" && Trim(e.name) != ""
  {
    hide IsMergedWith, Trim, CurrentFunctions;
    MergedFunction(snap, order, incoming, merged, e);
    KeyedHas(CurrentFunctions(snap), FunctionKey, FunctionKey(e));
    KeyedHas(incoming.functions, FunctionKey, FunctionKey(e));
  }

  lemma TablesOk(snap: Snapshot, order: seq<Id>, incoming: ImpDoc, merged: ImpDoc)
    requires IsMergedWith(snap, order, incoming, merged)
    ensures (forall t :: t in merged.tables ==>
               Trim(t.server) != "" && Trim(t.name) != "" && KnownServer(FromImporter(merged), t.server))
            <==> forall e :: TableComes(incoming, e) ==> ServerAround(snap, incoming, e.server)
  {
    hide IsMergedWith, Keyed, Trim, KnownServer, ServerAround, TableEntry, TableStays, TableComes;
    forall e
      ensures e in merged.tables
              ==> && Trim(e.server) != "" && Trim(e.name) != ""
                  && (KnownServer(FromImporter(merged), e.server) <==> ServerAround(snap, incoming, e.server))
                  && (ServerAround(snap, incoming, e.server) || TableComes(incoming, e))
      ensures TableComes(incoming, e) ==> e in merged.tables
    {
      MergedTable(snap, order, incoming, merged, e);
      if e in merged.tables {
        MergedTableIsNamed(snap, order, incoming, merged, e);
        MergedHasServer(snap, order, incoming, merged, e.server);
        if t :| TableStays(snap, incoming, t) && e == TableEntry(snap, t) {
          OwnServerAround(snap, incoming, t.serverId, e.server) by { TableServer(snap, t); }
        }
      }
    }
  }

  lemma TableServer(snap: Snapshot, t: Table)
    ensures TableEntry(snap, t).server == NameOfServer(snap.servers, t.serverId)
  {
  }

  lemma OwnServerAround(snap: Snapshot, incoming: ImpDoc, id: Id, server: string)
    requires server == NameOfServer(snap.servers, id) && Trim(server) != ""
    ensures ServerAround(snap, incoming, server)
  {
    hide Trim, Keyed, NameOfServer;
    TrimBlank();
    NameOfServerIsName(snap.servers, id);
  }

  lemma FunctionsOk(snap: Snapshot, order: seq<Id>, incoming: ImpDoc, merged: ImpDoc)
    requires IsMergedWith(snap, order, incoming, merged)
    ensures (forall f :: f in merged.functions ==>
               && Trim(f.server) != "" && Trim(f.name) != "" && Trim(f.operation) != ""
               && KnownServer(FromImporter(merged), f.server))
            <==> && (forall f :: FunctionStays(snap, incoming, f) ==> Trim(f.operation) != "")
                 && (forall e :: FunctionComes(incoming, e) ==>
                      Trim(e.operation) != "" && ServerAround(snap, incoming, e.server))
  {
    hide IsMergedWith, Keyed, Trim, KnownServer, ServerAround, FunctionEntry, FunctionStays, FunctionComes;
    forall e
      ensures e in merged.functions
              ==> && Trim(e.server) != "" && Trim(e.name) != ""
                  && (KnownServer(FromImporter(merged), e.server) <==> ServerAround(snap, incoming, e.server))
                  && (FunctionComes(incoming, e)
                      || (ServerAround(snap, incoming, e.server)
                          && exists f :: FunctionStays(snap, incoming, f) && e.operation == f.operation))
      ensures FunctionComes(incoming, e) ==> e in merged.functions
    {
      MergedFunction(snap, order, incoming, merged, e);
      if e in merged.functions {
        MergedFunctionIsNamed(snap, order, incoming, merged, e);
        MergedHasServer(snap, order, incoming, merged, e.server);
        if f :| FunctionStays(snap, incoming, f) && e == FunctionEntry(snap, f) {
          FunctionServer(snap, f);
          OwnServerAround(snap, incoming, f.serverId, e.server);
        }
      }
    }
    forall f | FunctionStays(snap, incoming, f)
      ensures exists e :: e in merged.functions && e.operation == f.operation
    {
      MergedFunction(snap, order, incoming, merged, FunctionEntry(snap, f));
      FunctionServer(snap, f);
      assert FunctionEntry(snap, f) in merged.functions;
    }
  }

  lemma FunctionServer(snap: Snapshot, f: Function)
    ensures FunctionEntry(snap, f).server == NameOfServer(snap.servers, f.serverId)
    ensures FunctionEntry(snap, f).operation == f.operation
  {
  }
}
