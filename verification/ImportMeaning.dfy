/** What a merge-import does to the metadata: which entries stay, which are replaced, and what becomes of secrets. */
module ImportMeaning {
  import opened Text
  import opened Meta
  import opened Seqs
  import opened Documents
  import opened Merge
  import opened Declarative
  import opened StoreSpec
  import opened Decompile
  import opened CompileMeaning
  import opened RoundTrip

  // ---- The entries of the store's own document. ----

  function CurrentServer(snap: Snapshot, s: Server): ImpServer {
    ToImporterServer(ServerEntry(snap, s))
  }

  function CurrentServers(snap: Snapshot): seq<ImpServer> {
    seq(|snap.servers|, i requires 0 <= i < |snap.servers| => CurrentServer(snap, snap.servers[i]))
  }

  function CurrentTables(snap: Snapshot): seq<DeclTable> {
    seq(|snap.tables|, i requires 0 <= i < |snap.tables| => TableEntry(snap, snap.tables[i]))
  }

  function CurrentFunctions(snap: Snapshot): seq<DeclFunction> {
    seq(|snap.functions|, i requires 0 <= i < |snap.functions| => FunctionEntry(snap, snap.functions[i]))
  }

  function CurrentDoc(snap: Snapshot, order: seq<Id>): ImpDoc {
    ToImporter(DocumentOf(snap, order))
  }

  lemma CurrentDocIs(snap: Snapshot, order: seq<Id>)
    ensures CurrentDoc(snap, order)
            == ImpDoc(SharedEntries(snap, order), CurrentServers(snap), CurrentTables(snap), CurrentFunctions(snap))
  {
    hide SharedEntries, ServerEntry, TableEntry, FunctionEntry;
    var doc := DocumentOf(snap, order);
    assert ToImporter(doc).servers == CurrentServers(snap);
  }

  /** What the merge of the store's own document with an incoming one may be; the order is that of the store's shared
      credentials. */
  ghost predicate IsMergedWith(snap: Snapshot, order: seq<Id>, incoming: ImpDoc, merged: ImpDoc) {
    Enumerates(snap.servers, order) && IsMerge([CurrentDoc(snap, order), incoming], merged)
  }

  // ---- The merged document, entry by entry. ----

  /** The entry is the last one under its key. */
  predicate Wins<V(==)>(entries: seq<V>, key: V -> string, e: V) {
    key(e) in Keyed(entries, key) && Keyed(entries, key)[key(e)] == e
  }

  lemma WinnerIsEntry<V>(entries: seq<V>, key: V -> string, e: V)
    requires Wins(entries, key, e)
    ensures e in entries && key(e) != ""
  {
    KeyedHas(entries, key, key(e));
  }

  /** An entry wins when no other has its key. */
  lemma AloneWins<V>(entries: seq<V>, key: V -> string, e: V)
    requires e in entries && key(e) != "" && forall d :: d in entries && key(d) == key(e) ==> d == e
    ensures Wins(entries, key, e)
  {
    KeyedHas(entries, key, key(e));
  }

  /** Merging is choosing: an entry of the result is a current one under a key the newcomers lack, or a newcomer. */
  lemma MergedEntry<V>(current: seq<V>, incoming: seq<V>, out: seq<V>, key: V -> string, e: V)
    requires Lists(out, Keyed(current, key) + Keyed(incoming, key), key)
    ensures e in out <==> (Wins(current, key, e) && key(e) !in Keyed(incoming, key)) || Wins(incoming, key, e)
  {
    hide Keyed;
    var m := Keyed(current, key) + Keyed(incoming, key);
    assert e in out <==> key(e) in m && m[key(e)] == e;
  }

  lemma TwoMaps(a: ImpDoc, b: ImpDoc)
    ensures AllMaps([a, b]) == Override(DocMaps(a), DocMaps(b))
  {
    hide DocMaps, Override;
    assert [a, b][..1] == [a];
    AllMapsOne(a);
  }

  lemma MergedLists(a: ImpDoc, b: ImpDoc, merged: ImpDoc)
    requires IsMerge([a, b], merged)
    ensures Lists(merged.credentials, Keyed(a.credentials, CredentialKey)
              + Keyed(b.credentials, CredentialKey), CredentialKey)
    ensures Lists(merged.servers, Keyed(a.servers, ServerKey) + Keyed(b.servers, ServerKey), ServerKey)
    ensures Lists(merged.tables, Keyed(a.tables, TableKey) + Keyed(b.tables, TableKey), TableKey)
    ensures Lists(merged.functions, Keyed(a.functions, FunctionKey) + Keyed(b.functions, FunctionKey), FunctionKey)
  {
    hide Keyed, Lists, AllMaps;
    TwoMaps(a, b);
  }

  // ---- The entries that stay, and the entries that come. ----

  /** The server's entry is the last of its name, and the incoming document has none of that name. */
  predicate ServerStays(snap: Snapshot, incoming: ImpDoc, s: Server) {
    var e := CurrentServer(snap, s);
    s in snap.servers && Wins(CurrentServers(snap), ServerKey, e) && ServerKey(e) !in Keyed(incoming.servers, ServerKey)
  }

  predicate TableStays(snap: Snapshot, incoming: ImpDoc, t: Table) {
    var e := TableEntry(snap, t);
    t in snap.tables && Wins(CurrentTables(snap), TableKey, e) && TableKey(e) !in Keyed(incoming.tables, TableKey)
  }

  predicate FunctionStays(snap: Snapshot, incoming: ImpDoc, f: Function) {
    var e := FunctionEntry(snap, f);
    && f in snap.functions && Wins(CurrentFunctions(snap), FunctionKey, e)
    && FunctionKey(e) !in Keyed(incoming.functions, FunctionKey)
  }

  predicate ServerComes(incoming: ImpDoc, e: ImpServer) {
    Wins(incoming.servers, ServerKey, e)
  }

  predicate TableComes(incoming: ImpDoc, e: DeclTable) {
    Wins(incoming.tables, TableKey, e)
  }

  predicate FunctionComes(incoming: ImpDoc, e: DeclFunction) {
    Wins(incoming.functions, FunctionKey, e)
  }

  lemma MergedServer(snap: Snapshot, order: seq<Id>, incoming: ImpDoc, merged: ImpDoc, e: ImpServer)
    requires IsMergedWith(snap, order, incoming, merged)
    ensures e in merged.servers
            <==> (exists s :: ServerStays(snap, incoming, s) && e == CurrentServer(snap, s)) || ServerComes(incoming, e)
  {
    hide Keyed, CurrentServer, Lists, IsMerge, Enumerates, CurrentDoc, ServerKey, Wins, CurrentTables, CurrentFunctions,
         SharedEntries;
    var current := CurrentServers(snap);
    CurrentDocIs(snap, order);
    MergedLists(CurrentDoc(snap, order), incoming, merged);
    MergedEntry(current, incoming.servers, merged.servers, ServerKey, e);
    if Wins(current, ServerKey, e) && ServerKey(e) !in Keyed(incoming.servers, ServerKey) {
      WinnerIsEntry(current, ServerKey, e);
      var i :| 0 <= i < |current| && current[i] == e;
      assert ServerStays(snap, incoming, snap.servers[i]);
    }
  }

  lemma MergedTable(snap: Snapshot, order: seq<Id>, incoming: ImpDoc, merged: ImpDoc, e: DeclTable)
    requires IsMergedWith(snap, order, incoming, merged)
    ensures e in merged.tables
            <==> (exists t :: TableStays(snap, incoming, t) && e == TableEntry(snap, t)) || TableComes(incoming, e)
  {
    hide Keyed, TableEntry, Lists, IsMerge, Enumerates, CurrentDoc, TableKey, Wins, CurrentServers, CurrentFunctions,
         SharedEntries;
    var current := CurrentTables(snap);
    CurrentDocIs(snap, order);
    MergedLists(CurrentDoc(snap, order), incoming, merged);
    MergedEntry(current, incoming.tables, merged.tables, TableKey, e);
    if Wins(current, TableKey, e) && TableKey(e) !in Keyed(incoming.tables, TableKey) {
      WinnerIsEntry(current, TableKey, e);
      var i :| 0 <= i < |current| && current[i] == e;
      assert TableStays(snap, incoming, snap.tables[i]);
    }
  }

  lemma MergedFunction(snap: Snapshot, order: seq<Id>, incoming: ImpDoc, merged: ImpDoc, e: DeclFunction)
    requires IsMergedWith(snap, order, incoming, merged)
    ensures e in merged.functions
            <==> (exists f :: FunctionStays(snap, incoming, f) && e == FunctionEntry(snap, f))
                 || FunctionComes(incoming, e)
  {
    hide Keyed, FunctionEntry, Lists, IsMerge, Enumerates, CurrentDoc, FunctionKey, Wins, CurrentServers, CurrentTables,
         SharedEntries;
    var current := CurrentFunctions(snap);
    CurrentDocIs(snap, order);
    MergedLists(CurrentDoc(snap, order), incoming, merged);
    MergedEntry(current, incoming.functions, merged.functions, FunctionKey, e);
    if Wins(current, FunctionKey, e) && FunctionKey(e) !in Keyed(incoming.functions, FunctionKey) {
      WinnerIsEntry(current, FunctionKey, e);
      var i :| 0 <= i < |current| && current[i] == e;
      assert FunctionStays(snap, incoming, snap.functions[i]);
    }
  }

  // ---- Entries whose key no other has. ----

  /** No other table of the store is written under its text or its key. */
  ghost predicate TableAlone(snap: Snapshot, t: Table) {
    t in snap.tables &&
    forall u :: u in snap.tables && u != t ==>
      TableText(snap, u) != TableText(snap, t) && TableKey(TableEntry(snap, u)) != TableKey(TableEntry(snap, t))
  }

  ghost predicate FunctionAlone(snap: Snapshot, f: Function) {
    f in snap.functions &&
    forall g :: g in snap.functions && g != f ==>
          FunctionKey(FunctionEntry(snap, g)) != FunctionKey(FunctionEntry(snap, f))
  }

  /** No other server's name is the same once trimmed. */
  ghost predicate ServerAlone(snap: Snapshot, s: Server) {
    s in snap.servers && forall t :: t in snap.servers && t != s ==> Trim(t.name) != Trim(s.name)
  }

  lemma AloneServerStays(snap: Snapshot, incoming: ImpDoc, s: Server)
    requires ServerAlone(snap, s) && Trim(s.name) != "" && Trim(s.name) !in Keyed(incoming.servers, ServerKey)
    ensures ServerStays(snap, incoming, s)
  {
    hide Trim, CredentialFieldOf, Keyed;
    var current, e := CurrentServers(snap), CurrentServer(snap, s);
    var i :| 0 <= i < |snap.servers| && snap.servers[i] == s;
    assert current[i] == e;
    AloneWins(current, ServerKey, e);
  }

  lemma AloneTableStays(snap: Snapshot, incoming: ImpDoc, t: Table)
    requires TableAlone(snap, t)
    requires var k := TableKey(TableEntry(snap, t)); k != "" && k !in Keyed(incoming.tables, TableKey)
    ensures TableStays(snap, incoming, t)
  {
    hide TableEntry, Keyed, TableKey, TableText;
    var current, e := CurrentTables(snap), TableEntry(snap, t);
    var i :| 0 <= i < |snap.tables| && snap.tables[i] == t;
    assert current[i] == e;
    AloneWins(current, TableKey, e);
  }

  lemma AloneFunctionStays(snap: Snapshot, incoming: ImpDoc, f: Function)
    requires FunctionAlone(snap, f)
    requires var k := FunctionKey(FunctionEntry(snap, f)); k != "" && k !in Keyed(incoming.functions, FunctionKey)
    ensures FunctionStays(snap, incoming, f)
  {
    hide FunctionEntry, Keyed, FunctionKey;
    var current, e := CurrentFunctions(snap), FunctionEntry(snap, f);
    var i :| 0 <= i < |snap.functions| && snap.functions[i] == f;
    assert current[i] == e;
    AloneWins(current, FunctionKey, e);
  }
}
