/** The store's data after an import: what is in it, and which of the entries that were there are kept as they were. */
module ImportKept {
  import opened Text
  import opened Meta
  import opened Seqs
  import opened Documents
  import opened Merge
  import opened Declarative
  import opened StoreSpec
  import opened Decompile
  import opened CompileMeaning
  import opened RoundTrip
  import opened CompiledForm
  import opened ImportMeaning
  import opened ImportResult

  // ---- What the data says afterwards. ----

  ghost predicate HasServerContent(snap: Snapshot, c: ServerContent) {
    exists i :: 0 <= i < |snap.servers| && ServerContentOf(snap, snap.servers[i]) == c
  }

  ghost predicate HasTableContent(snap: Snapshot, c: TableContent) {
    exists i :: 0 <= i < |snap.tables| && TableContentOf(snap, snap.tables[i]) == c
  }

  ghost predicate HasFunctionContent(snap: Snapshot, c: FunctionContent) {
    exists i :: 0 <= i < |snap.functions| && FunctionContentOf(snap, snap.functions[i]) == c
  }

  /** A merge-import's compiled outcome. */
  ghost predicate IsOutcome(env: Env, snap: Snapshot, order: seq<Id>, incoming: ImpDoc, after: Snapshot) {
    exists merged, next, now, next' ::
      && IsMergedWith(snap, order, incoming, merged)
      && Compile(env, FromImporter(merged), next, now) == Some((after, next'))
  }

  lemma OutcomeSays(env: Env, snap: Snapshot, order: seq<Id>, incoming: ImpDoc,
                    after: Snapshot) returns (merged: ImpDoc)
    requires IsOutcome(env, snap, order, incoming, after)
    ensures IsMergedWith(snap, order, incoming, merged) && Normal(after) && Compilable(FromImporter(merged))
    ensures Says(after, FromImporter(merged), Secrets(env, FromImporter(merged)))
    ensures SharesByName(after, FromImporter(merged))
    ensures ListedSecrets(env, merged.credentials) == Listed(env, snap, order, incoming)
    ensures Unique(merged.servers, ServerKey) && Unique(merged.tables, TableKey)
              && Unique(merged.functions, FunctionKey)
  {
    hide IsMergedWith, Compile, Normal, Says, SharesByName, Compilable, FromImporter, Listed;
    var m, next, now, next' :|
      IsMergedWith(snap, order, incoming, m) && Compile(env, FromImporter(m), next, now) == Some((after, next'));
    merged := m;
    CompiledSays(env, FromImporter(m), next, now);
    CompiledIsNormal(env, FromImporter(m), next, now);
    CompilesExactlyWhen(env, FromImporter(m), next, now);
    MergedKeysDiffer(snap, order, incoming, m);
    ListedAfterMerge(env, snap, order, incoming, m);
  }

  /** The servers afterwards are those that stay and those that come, secrets apart, and no others. */
  lemma ServersAfterImport(env: Env, snap: Snapshot, order: seq<Id>, incoming: ImpDoc, after: Snapshot,
                           c: ServerContent)
    requires IsOutcome(env, snap, order, incoming, after)
    ensures var listed := Listed(env, snap, order, incoming);
            HasServerContent(after, c)
            <==> || (exists s :: ServerStays(snap, incoming, s)
                               && c == EntryContent(env, listed, CurrentServer(snap, s)))
                 || (exists e :: ServerComes(incoming, e) && c == EntryContent(env, listed, e))
  {
    hide IsOutcome, IsMergedWith, SharesByName, Compilable, Secrets, DeclaredServer, ServerContentOf, Normal, Listed,
         TableContentOf, FunctionContentOf, DeclaredTable, DeclaredFunction, EntryContent, CurrentServer,
         ListedSecrets, ServerStays, ServerComes, Unique;
    var merged := OutcomeSays(env, snap, order, incoming, after);
    var listed := Listed(env, snap, order, incoming);
    forall i | 0 <= i < |merged.servers|
      ensures ServerContentOf(after, after.servers[i]) == EntryContent(env, listed, merged.servers[i])
    {
      ImportedServer(env, merged, merged.servers[i]);
      assert FromImporter(merged).servers[i] == FromImporterServer(merged.servers[i]);
    }
    if i :| 0 <= i < |after.servers| && ServerContentOf(after, after.servers[i]) == c {
      MergedServer(snap, order, incoming, merged, merged.servers[i]);
    }
    if s :| ServerStays(snap, incoming, s) && c == EntryContent(env, listed, CurrentServer(snap, s)) {
      MergedServer(snap, order, incoming, merged, CurrentServer(snap, s));
      var i :| 0 <= i < |merged.servers| && merged.servers[i] == CurrentServer(snap, s);
      assert ServerContentOf(after, after.servers[i]) == c;
    }
    if e :| ServerComes(incoming, e) && c == EntryContent(env, listed, e) {
      MergedServer(snap, order, incoming, merged, e);
      var i :| 0 <= i < |merged.servers| && merged.servers[i] == e;
      assert ServerContentOf(after, after.servers[i]) == c;
    }
  }

  /** The tables afterwards are those that stay, as their entries declare them, and those that come, and no others. */
  lemma TablesAfterImport(env: Env, snap: Snapshot, order: seq<Id>, incoming: ImpDoc, after: Snapshot, c: TableContent)
    requires IsOutcome(env, snap, order, incoming, after)
    ensures HasTableContent(after, c)
            <==> || (exists t :: TableStays(snap, incoming, t) && c == DeclaredTable(TableEntry(snap, t)))
                 || (exists e :: TableComes(incoming, e) && c == DeclaredTable(e))
  {
    hide IsOutcome, IsMergedWith, SharesByName, Compilable, Secrets, DeclaredServer, ServerContentOf, Normal,
         TableContentOf, FunctionContentOf, DeclaredTable, DeclaredFunction, TableEntry, TableStays, TableComes, Unique,
         ListedSecrets, Listed;
    var merged := OutcomeSays(env, snap, order, incoming, after);
    assert FromImporter(merged).tables == merged.tables;
    if i :| 0 <= i < |after.tables| && TableContentOf(after, after.tables[i]) == c {
      MergedTable(snap, order, incoming, merged, merged.tables[i]);
    }
    if t :| TableStays(snap, incoming, t) && c == DeclaredTable(TableEntry(snap, t)) {
      MergedTable(snap, order, incoming, merged, TableEntry(snap, t));
      var i :| 0 <= i < |merged.tables| && merged.tables[i] == TableEntry(snap, t);
      assert TableContentOf(after, after.tables[i]) == c;
    }
    if e :| TableComes(incoming, e) && c == DeclaredTable(e) {
      MergedTable(snap, order, incoming, merged, e);
      var i :| 0 <= i < |merged.tables| && merged.tables[i] == e;
      assert TableContentOf(after, after.tables[i]) == c;
    }
  }

  lemma FunctionsAfterImport(env: Env, snap: Snapshot, order: seq<Id>, incoming: ImpDoc, after: Snapshot,
                             c: FunctionContent)
    requires IsOutcome(env, snap, order, incoming, after)
    ensures HasFunctionContent(after, c)
            <==> || (exists f :: FunctionStays(snap, incoming, f) && c == DeclaredFunction(FunctionEntry(snap, f)))
                 || (exists e :: FunctionComes(incoming, e) && c == DeclaredFunction(e))
  {
    hide IsOutcome, IsMergedWith, SharesByName, Compilable, Secrets, DeclaredServer, ServerContentOf, Normal,
         TableContentOf, FunctionContentOf, DeclaredTable, DeclaredFunction, FunctionEntry, FunctionStays,
         FunctionComes, Unique, ListedSecrets, Listed;
    var merged := OutcomeSays(env, snap, order, incoming, after);
    assert FromImporter(merged).functions == merged.functions;
    if i :| 0 <= i < |after.functions| && FunctionContentOf(after, after.functions[i]) == c {
      MergedFunction(snap, order, incoming, merged, merged.functions[i]);
    }
    if f :| FunctionStays(snap, incoming, f) && c == DeclaredFunction(FunctionEntry(snap, f)) {
      MergedFunction(snap, order, incoming, merged, FunctionEntry(snap, f));
      var i :| 0 <= i < |merged.functions| && merged.functions[i] == FunctionEntry(snap, f);
      assert FunctionContentOf(after, after.functions[i]) == c;
    }
    if e :| FunctionComes(incoming, e) && c == DeclaredFunction(e) {
      MergedFunction(snap, order, incoming, merged, e);
      var i :| 0 <= i < |merged.functions| && merged.functions[i] == e;
      assert FunctionContentOf(after, after.functions[i]) == c;
    }
  }

  // ---- When an entry that stays is kept as it is. ----

  /** What the links of the data need: no two servers, and no two credentials, with one identifier. */
  ghost predicate DistinctIds(snap: Snapshot) {
    Unique(snap.servers, (s: Server) => s.id) && Unique(snap.credentials, (c: Credential) => c.id)
  }

  /** Names without blanks around them, and columns that only have position 0 in the first place. */
  ghost predicate CleanTable(c: TableContent) {
    Clean(c.server) && Clean(c.schema) && Clean(c.name) && ColumnsNormal(c.columns)
  }

  ghost predicate CleanFunction(c: FunctionContent) {
    Clean(c.server) && Clean(c.schema) && Clean(c.name)
  }

  ghost predicate CleanServer(c: ServerContent) {
    Clean(c.name) && Clean(c.protocol)
  }

  lemma CleanServerName(snap: Snapshot, id: Id)
    requires Normal(snap) && HasServer(snap, id)
    ensures Clean(ServerName(snap.servers, id))
  {
    hide TableNormal, FunctionNormal, Trim, CredentialsNormal;
    var s :| s in snap.servers && s.id == id;
    assert ServerNormal(snap, s);
    ServerLookup(snap.servers, s);
  }

  lemma NormalIsClean(snap: Snapshot)
    requires Normal(snap)
    ensures forall c :: HasTableContent(snap, c) ==> CleanTable(c)
    ensures forall c :: HasFunctionContent(snap, c) ==> CleanFunction(c)
    ensures forall c :: HasServerContent(snap, c) ==> CleanServer(c)
  {
    hide Trim, CredentialsNormal, ColumnsNormal, ColumnsOf, ServerName, Clean;
    forall t | t in snap.tables
      ensures CleanTable(TableContentOf(snap, t))
    {
      assert TableNormal(snap, t);
      CleanServerName(snap, t.serverId);
    }
    forall f | f in snap.functions
      ensures CleanFunction(FunctionContentOf(snap, f))
    {
      assert FunctionNormal(snap, f);
      CleanServerName(snap, f.serverId);
    }
    forall s | s in snap.servers
      ensures CleanServer(ServerContentOf(snap, s))
    {
      assert ServerNormal(snap, s);
    }
  }

  lemma NamesAgree(snap: Snapshot, id: Id)
    requires DistinctIds(snap)
    ensures NameOfServer(snap.servers, id) == ServerName(snap.servers, id)
  {
    var i := IndexWhere(snap.servers, (s: Server) => s.id == id);
    if i >= 0 {
      LookupUnique(snap.servers, i, (s: Server) => s.id == id);
    }
  }

  lemma AloneTableColumns(snap: Snapshot, t: Table)
    requires TableAlone(snap, t)
    ensures TableEntry(snap, t).columns == ColumnEntries(ColumnsOf(snap, t.id))
  {
    hide TableKey, ColumnsOf, TableText;
    var i := LastWhere(snap.tables, (u: Table) => TableText(snap, u) == TableText(snap, t));
    assert i >= 0 && snap.tables[i] in snap.tables;
  }

  lemma CleanTableComesBack(snap: Snapshot, t: Table)
    requires DistinctIds(snap) && TableAlone(snap, t) && CleanTable(TableContentOf(snap, t))
    ensures DeclaredTable(TableEntry(snap, t)) == TableContentOf(snap, t)
    ensures TableKey(TableEntry(snap, t)) != ""
  {
    hide ColumnsNormal, ColumnsOf, TableColumns, DeclaredColumns, Trim, NameOfServer, ServerName;
    NamesAgree(snap, t.serverId);
    AloneTableColumns(snap, t);
    ColumnsComeBack(ColumnsOf(snap, t.id));
  }

  /** A table that shares its text and key with no other, and whose key the incoming document lacks, is there with the
      same content afterwards exactly when its names are clean and its columns in normal form. */
  lemma StayingTableIsKeptExactlyWhen(env: Env, snap: Snapshot, order: seq<Id>, incoming: ImpDoc, after: Snapshot,
                                      t: Table)
    requires DistinctIds(snap) && IsOutcome(env, snap, order, incoming, after)
    requires TableAlone(snap, t) && TableKey(TableEntry(snap, t)) !in Keyed(incoming.tables, TableKey)
    ensures HasTableContent(after, TableContentOf(snap, t)) <==> CleanTable(TableContentOf(snap, t))
  {
    hide DistinctIds, IsOutcome, TableAlone, Keyed, HasTableContent, CleanTable, TableContentOf, TableEntry,
         DeclaredTable, TableKey, Normal, IsMergedWith, Says, SharesByName, Compilable;
    var m := OutcomeSays(env, snap, order, incoming, after);
    NormalIsClean(after);
    if CleanTable(TableContentOf(snap, t)) {
      CleanTableComesBack(snap, t);
      AloneTableStays(snap, incoming, t);
      TablesAfterImport(env, snap, order, incoming, after, TableContentOf(snap, t));
    }
  }

  lemma CleanFunctionComesBack(snap: Snapshot, f: Function)
    requires DistinctIds(snap) && CleanFunction(FunctionContentOf(snap, f))
    ensures DeclaredFunction(FunctionEntry(snap, f)) == FunctionContentOf(snap, f)
    ensures FunctionKey(FunctionEntry(snap, f)) != ""
  {
    hide Trim, NameOfServer, ServerName;
    NamesAgree(snap, f.serverId);
  }

  lemma StayingFunctionIsKeptExactlyWhen(env: Env, snap: Snapshot, order: seq<Id>, incoming: ImpDoc, after: Snapshot,
                                         f: Function)
    requires DistinctIds(snap) && IsOutcome(env, snap, order, incoming, after)
    requires FunctionAlone(snap, f) && FunctionKey(FunctionEntry(snap, f)) !in Keyed(incoming.functions, FunctionKey)
    ensures HasFunctionContent(after, FunctionContentOf(snap, f)) <==> CleanFunction(FunctionContentOf(snap, f))
  {
    hide DistinctIds, IsOutcome, FunctionAlone, Keyed, HasFunctionContent, CleanFunction, FunctionContentOf,
         FunctionEntry, DeclaredFunction, FunctionKey, Normal, IsMergedWith, Says, SharesByName, Compilable;
    var m := OutcomeSays(env, snap, order, incoming, after);
    NormalIsClean(after);
    if CleanFunction(FunctionContentOf(snap, f)) {
      CleanFunctionComesBack(snap, f);
      AloneFunctionStays(snap, incoming, f);
      FunctionsAfterImport(env, snap, order, incoming, after, FunctionContentOf(snap, f));
    }
  }

  /** It has no secret; or it owns one that is not empty, and what the import gives a server of its name, a listed
      secret or else its own expanded, is that secret. */
  ghost predicate KeepsSecret(env: Env, snap: Snapshot, listed: map<string, Fields>, s: Server) {
    var secret := Secret(snap.credentials, s.credentialRef);
    || secret.None?
    || (&& Owns(snap, s) && secret.value != map[]
        && secret.value == if s.name in listed then listed[s.name] else ExpandMap(env, secret.value))
  }

  lemma OpenedIsSecret(snap: Snapshot, id: Id)
    requires DistinctIds(snap)
    ensures OpenedPayload(snap.credentials, id) == Secret(snap.credentials, Some(id))
  {
    var i := IndexWhere(snap.credentials, (c: Credential) => c.id == id);
    if i >= 0 {
      LookupUnique(snap.credentials, i, (c: Credential) => c.id == id);
    }
  }

  lemma CurrentCredential(snap: Snapshot, s: Server)
    requires DistinctIds(snap)
    ensures CurrentServer(snap, s).credential
            == if Owns(snap, s) && Secret(snap.credentials, s.credentialRef).Some?
               then Secret(snap.credentials, s.credentialRef).value else map[]
  {
    hide DistinctIds, OpenedPayload, CredentialNameForID, RefCount;
    if s.credentialRef.Some? {
      OpenedIsSecret(snap, s.credentialRef.value);
    }
  }

  lemma StayingServerContent(env: Env, snap: Snapshot, listed: map<string, Fields>, s: Server)
    requires DistinctIds(snap) && CleanServer(ServerContentOf(snap, s))
    ensures EntryContent(env, listed, CurrentServer(snap, s)) == ServerContentOf(snap, s)
            <==> KeepsSecret(env, snap, listed, s)
  {
    hide DistinctIds, Trim, ExpandMap, CredentialFieldOf, Secret, Owns;
    CurrentCredential(snap, s);
  }

  lemma ContentName(env: Env, listed: map<string, Fields>, e: ImpServer)
    ensures EntryContent(env, listed, e).name == ServerKey(e)
  {
  }

  lemma CurrentName(snap: Snapshot, s: Server)
    ensures ServerKey(CurrentServer(snap, s)) == Trim(s.name)
  {
    hide Trim, CredentialFieldOf;
  }

  /** A server whose name the incoming document does not have is found with the same content afterwards exactly when its
      name and protocol are clean and it keeps its secret. */
  lemma StayingServerIsKeptExactlyWhen(env: Env, snap: Snapshot, order: seq<Id>, incoming: ImpDoc, after: Snapshot,
                                       s: Server)
    requires DistinctIds(snap) && IsOutcome(env, snap, order, incoming, after) && ServerStays(snap, incoming, s)
    ensures HasServerContent(after, ServerContentOf(snap, s))
            <==> CleanServer(ServerContentOf(snap, s)) && KeepsSecret(env, snap, Listed(env, snap, order, incoming), s)
  {
    hide DistinctIds, IsOutcome, HasServerContent, EntryContent, Listed, KeepsSecret, CurrentServer, Keyed, Secret,
         Normal, IsMergedWith, Says, SharesByName, Compilable, ServerKey, Trim, CurrentServers;
    var c, listed := ServerContentOf(snap, s), Listed(env, snap, order, incoming);
    var m := OutcomeSays(env, snap, order, incoming, after);
    NormalIsClean(after);
    if CleanServer(c) {
      ServersAfterImport(env, snap, order, incoming, after, c);
      StayingServerContent(env, snap, listed, s);
      CurrentName(snap, s);
      if t :| ServerStays(snap, incoming, t) && c == EntryContent(env, listed, CurrentServer(snap, t)) {
        ContentName(env, listed, CurrentServer(snap, t));
        assert CurrentServer(snap, t) == CurrentServer(snap, s);
      }
      if e :| ServerComes(incoming, e) && c == EntryContent(env, listed, e) {
        ContentName(env, listed, e);
      }
    }
  }

  /** A server is captured by a shared credential of its name, whatever its own secret. */
  lemma SharedNameCaptures(env: Env, snap: Snapshot, order: seq<Id>, incoming: ImpDoc, s: Server, id: Id)
    requires Enumerates(snap.servers, order) && Clean(s.name) && s.name !in Keyed(incoming.credentials, CredentialKey)
    requires SharedUnder(snap, s.name, id) && forall k :: SharedUnder(snap, s.name, k) ==> k == id
    ensures var secret := Secret(snap.credentials, s.credentialRef);
            KeepsSecret(env, snap, Listed(env, snap, order, incoming), s)
            <==> secret.None? || (Owns(snap, s) && secret.value != map[] && secret.value == SharedValue(env, snap, id))
  {
    hide Enumerates, Clean, SharedUnder, SharedValue, Listed, Keyed, Owns, ExpandMap, Secret;
    ListedIs(env, snap, order, incoming, s.name);
    NamedNotEmpty(s.name);
  }

  lemma NamedNotEmpty(n: string)
    requires Clean(n)
    ensures n != ""
  {
  }

  // ---- What every import leaves true. ----

  /** Every secret in use belongs to one server. */
  ghost predicate NoShared(snap: Snapshot) {
    forall id :: RefCount(snap.servers, id) <= 1
  }

  /** Names that tell servers, tables and functions apart. */
  ghost predicate Keyable(snap: Snapshot) {
    Distinguished(snap) && Unique(snap.functions, (f: Function) => FunctionText(snap, f))
  }

  function FunctionText(snap: Snapshot, f: Function): string {
    f.schema + ['\0'] + f.name + ['\0'] + NameOfServer(snap.servers, f.serverId)
  }

  lemma {:induction false} TwoReferences(servers: seq<Server>, id: Id) returns (i: nat, j: nat)
    requires RefCount(servers, id) > 1
    ensures i < j < |servers| && servers[i].credentialRef == servers[j].credentialRef == Some(id)
  {
    var before := servers[..|servers| - 1];
    if RefCount(before, id) > 1 {
      i, j := TwoReferences(before, id);
    } else {
      i := ReferringServer(before, id);
      j := |servers| - 1;
    }
  }

  lemma ReferencesDiffer(after: Snapshot, m: ImpDoc, i: nat, j: nat)
    requires Unique(m.servers, ServerKey) && SharesByName(after, FromImporter(m)) && i < j < |m.servers|
    requires after.servers[i].credentialRef.Some?
    ensures after.servers[i].credentialRef != after.servers[j].credentialRef
  {
    hide Trim;
    TrimBlank();
    assert ServerKey(m.servers[i]) != ServerKey(m.servers[j]);
    assert CredentialName(FromImporter(m).servers[i]) != CredentialName(FromImporter(m).servers[j]);
  }

  lemma NothingShared(after: Snapshot, m: ImpDoc)
    requires Unique(m.servers, ServerKey) && SharesByName(after, FromImporter(m))
    ensures NoShared(after)
  {
    hide Unique, CredentialName;
    forall i, j | 0 <= i < j < |after.servers| && after.servers[i].credentialRef.Some?
      ensures after.servers[i].credentialRef != after.servers[j].credentialRef
    {
      ReferencesDiffer(after, m, i, j);
    }
    forall id
      ensures RefCount(after.servers, id) <= 1
    {
      if RefCount(after.servers, id) > 1 {
        var i, j := TwoReferences(after.servers, id);
      }
    }
  }

  lemma ServerNamesDiffer(after: Snapshot, m: ImpDoc, secrets: map<string, Fields>)
    requires Unique(m.servers, ServerKey) && Says(after, FromImporter(m), secrets)
    ensures Unique(after.servers, (s: Server) => s.name)
  {
    hide Trim, TableContentOf, FunctionContentOf, DeclaredTable, DeclaredFunction, Secret, CredentialName;
    forall i, j | 0 <= i < j < |after.servers|
      ensures after.servers[i].name != after.servers[j].name
    {
      assert ServerContentOf(after, after.servers[i]).name == ServerKey(m.servers[i]);
      assert ServerContentOf(after, after.servers[j]).name == ServerKey(m.servers[j]);
    }
  }

  lemma TableTextIs(after: Snapshot, m: ImpDoc, secrets: map<string, Fields>, i: nat)
    requires Normal(after) && Compilable(FromImporter(m)) && Says(after, FromImporter(m), secrets) && i < |m.tables|
    ensures TableText(after, after.tables[i]) == TableKey(m.tables[i])
  {
    hide Trim, ServerNormal, FunctionNormal, CredentialsNormal, ColumnsNormal, ServerContentOf, FunctionContentOf,
         DeclaredServer, DeclaredFunction, ServerOk, KnownServer, ColumnsOf, DeclaredColumns;
    var t, e := after.tables[i], m.tables[i];
    assert e in FromImporter(m).tables && TableNormal(after, t);
    assert TableContentOf(after, t) == DeclaredTable(e);
    SameServerName(after, t.serverId);
  }

  lemma SameServerName(after: Snapshot, id: Id)
    requires Normal(after) && HasServer(after, id)
    ensures NameOfServer(after.servers, id) == ServerName(after.servers, id)
  {
    hide TableNormal, FunctionNormal, ServerNormal, CredentialsNormal;
    var s :| s in after.servers && s.id == id;
    ServerLookup(after.servers, s);
  }

  lemma FunctionTextIs(after: Snapshot, m: ImpDoc, secrets: map<string, Fields>, i: nat)
    requires Normal(after) && Compilable(FromImporter(m)) && Says(after, FromImporter(m), secrets) && i < |m.functions|
    ensures FunctionText(after, after.functions[i]) == FunctionKey(m.functions[i])
  {
    hide Trim, ServerNormal, TableNormal, CredentialsNormal, ServerContentOf, TableContentOf, DeclaredServer,
         DeclaredTable, ServerOk, KnownServer;
    var f, e := after.functions[i], m.functions[i];
    assert e in FromImporter(m).functions && FunctionNormal(after, f);
    assert FunctionContentOf(after, f) == DeclaredFunction(e);
    SameServerName(after, f.serverId);
  }

  /** Whatever the data before. */
  lemma ImportLeavesKeyableData(env: Env, snap: Snapshot, order: seq<Id>, incoming: ImpDoc, after: Snapshot)
    requires IsOutcome(env, snap, order, incoming, after)
    ensures Normal(after) && Keyable(after) && NoShared(after)
  {
    hide Normal, NoShared, IsOutcome, IsMergedWith, Says, SharesByName, Compilable, Secrets, ListedSecrets, Listed,
         TableText, FunctionText;
    var m := OutcomeSays(env, snap, order, incoming, after);
    var secrets := Secrets(env, FromImporter(m));
    NothingShared(after, m);
    ServerNamesDiffer(after, m, secrets);
    SaysCounts(after, m, secrets);
    forall i | 0 <= i < |m.tables|
      ensures TableText(after, after.tables[i]) == TableKey(m.tables[i])
    {
      TableTextIs(after, m, secrets, i);
    }
    forall i | 0 <= i < |m.functions|
      ensures FunctionText(after, after.functions[i]) == FunctionKey(m.functions[i])
    {
      FunctionTextIs(after, m, secrets, i);
    }
  }

  lemma SaysCounts(after: Snapshot, m: ImpDoc, secrets: map<string, Fields>)
    requires Says(after, FromImporter(m), secrets)
    ensures |after.tables| == |m.tables| && |after.functions| == |m.functions|
  {
  }

  // ---- The next import. ----

  lemma CleanKey(server: string, schema: string, name: string)
    requires Clean(server) && Clean(schema) && Clean(name)
    ensures EntryKey(server, schema, name) == schema + ['\0'] + name + ['\0'] + server != ""
  {
    hide Trim;
  }

  lemma TextIsKey(snap: Snapshot, t: Table)
    requires Normal(snap) && t in snap.tables
    ensures TableKey(TableEntry(snap, t)) == TableText(snap, t)
  {
    hide ServerNormal, FunctionNormal, CredentialsNormal, ColumnsNormal, Clean, EntryKey, TableColumns, NameOfServer;
    assert TableNormal(snap, t);
    CleanServerName(snap, t.serverId);
    NormalIsDistinct(snap);
    NamesAgree(snap, t.serverId);
    CleanKey(NameOfServer(snap.servers, t.serverId), t.schema, t.name);
  }

  lemma NormalIsDistinct(snap: Snapshot)
    requires Normal(snap)
    ensures DistinctIds(snap)
  {
    hide TableNormal, FunctionNormal, ServerNormal, Clean;
  }

  lemma FunctionTextIsKey(snap: Snapshot, f: Function)
    requires Normal(snap) && f in snap.functions
    ensures FunctionKey(FunctionEntry(snap, f)) == FunctionText(snap, f)
  {
    hide ServerNormal, TableNormal, CredentialsNormal, Clean, EntryKey, NameOfServer;
    assert FunctionNormal(snap, f);
    CleanServerName(snap, f.serverId);
    NormalIsDistinct(snap);
    NamesAgree(snap, f.serverId);
    CleanKey(NameOfServer(snap.servers, f.serverId), f.schema, f.name);
  }

  /** In what an import left, nothing stands in the way of any entry: the next one keeps all it does not replace, but
      for servers whose secrets it overrides or expands. */
  lemma ImportedEntriesAreAlone(snap: Snapshot)
    requires Normal(snap) && Keyable(snap)
    ensures DistinctIds(snap)
    ensures forall s :: s in snap.servers ==> ServerAlone(snap, s) && CleanServer(ServerContentOf(snap, s))
    ensures forall t :: t in snap.tables ==> TableAlone(snap, t) && CleanTable(TableContentOf(snap, t))
    ensures forall f :: f in snap.functions ==> FunctionAlone(snap, f) && CleanFunction(FunctionContentOf(snap, f))
  {
    hide Normal, DistinctIds, CleanTable, CleanFunction, CleanServer, TableContentOf, FunctionContentOf,
         ServerContentOf, TableEntry, FunctionEntry, TableKey, FunctionKey, TableText, FunctionText, HasTableContent,
         HasFunctionContent, HasServerContent, Unique, TableAlone, FunctionAlone, ServerAlone;
    NormalIsDistinct(snap);
    forall s | s in snap.servers
      ensures ServerAlone(snap, s) && CleanServer(ServerContentOf(snap, s))
    {
      ImportedServerIsAlone(snap, s);
    }
    forall t | t in snap.tables
      ensures TableAlone(snap, t) && CleanTable(TableContentOf(snap, t))
    {
      ImportedTableIsAlone(snap, t);
    }
    forall f | f in snap.functions
      ensures FunctionAlone(snap, f) && CleanFunction(FunctionContentOf(snap, f))
    {
      ImportedFunctionIsAlone(snap, f);
    }
  }

  lemma ImportedServerIsAlone(snap: Snapshot, s: Server)
    requires Normal(snap) && Keyable(snap) && s in snap.servers
    ensures ServerAlone(snap, s) && CleanServer(ServerContentOf(snap, s))
  {
    hide TableNormal, FunctionNormal, CredentialsNormal, Trim;
    assert ServerNormal(snap, s);
    forall t | t in snap.servers && t != s
      ensures Trim(t.name) != Trim(s.name)
    {
      assert ServerNormal(snap, t);
      if t.name == s.name {
        NameTellsServer(snap, s, t);
      }
    }
  }

  lemma ImportedTableIsAlone(snap: Snapshot, t: Table)
    requires Normal(snap) && Keyable(snap) && t in snap.tables
    ensures TableAlone(snap, t) && CleanTable(TableContentOf(snap, t))
  {
    hide Normal, CleanTable, TableContentOf, TableEntry, TableKey, TableText;
    NormalIsClean(snap);
    var i :| 0 <= i < |snap.tables| && snap.tables[i] == t;
    assert HasTableContent(snap, TableContentOf(snap, t));
    TextIsKey(snap, t);
    forall u | u in snap.tables && u != t
      ensures TableText(snap, u) != TableText(snap, t) && TableKey(TableEntry(snap, u)) != TableKey(TableEntry(snap, t))
    {
      TextIsKey(snap, u);
      if TableText(snap, u) == TableText(snap, t) {
        SameKeySameElement(snap.tables, (t: Table) => TableText(snap, t), t, u);
      }
    }
  }

  lemma ImportedFunctionIsAlone(snap: Snapshot, f: Function)
    requires Normal(snap) && Keyable(snap) && f in snap.functions
    ensures FunctionAlone(snap, f) && CleanFunction(FunctionContentOf(snap, f))
  {
    hide Normal, CleanFunction, FunctionContentOf, FunctionEntry, FunctionKey, FunctionText;
    NormalIsClean(snap);
    var i :| 0 <= i < |snap.functions| && snap.functions[i] == f;
    assert HasFunctionContent(snap, FunctionContentOf(snap, f));
    FunctionTextIsKey(snap, f);
    forall g | g in snap.functions && g != f
      ensures FunctionKey(FunctionEntry(snap, g)) != FunctionKey(FunctionEntry(snap, f))
    {
      FunctionTextIsKey(snap, g);
      if FunctionText(snap, g) == FunctionText(snap, f) {
        SameKeySameElement(snap.functions, (f: Function) => FunctionText(snap, f), f, g);
      }
    }
  }

  // ---- Shared secrets. ----

  lemma SharerWritesNothing(snap: Snapshot, s: Server)
    requires s.credentialRef.Some? && !Owns(snap, s)
    ensures CurrentServer(snap, s).credential == map[]
  {
    hide OpenedPayload, CredentialNameForID;
  }

  /** A server that stays but shared its secret has none afterwards, since the importer's documents cannot refer to a
      credential by name. */
  lemma SharedSecretIsLost(env: Env, snap: Snapshot, order: seq<Id>, incoming: ImpDoc, after: Snapshot, s: Server)
    requires IsOutcome(env, snap, order, incoming, after)
    requires ServerStays(snap, incoming, s) && s.credentialRef.Some? && !Owns(snap, s)
    ensures exists t :: t in after.servers && t.name == Trim(s.name) && t.credentialRef.None?
  {
    hide Normal, IsOutcome, IsMergedWith, TableContentOf, FunctionContentOf, DeclaredTable, DeclaredFunction, Trim,
         Listed, Keyed, Owns, Secrets, Secret, ListedSecrets, CurrentServer, ServerStays, Compilable, Unique;
    var e := CurrentServer(snap, s);
    var m := OutcomeSays(env, snap, order, incoming, after);
    MergedServer(snap, order, incoming, m, e);
    SharerWritesNothing(snap, s);
    CurrentName(snap, s);
    TrimBlank();
    var i :| 0 <= i < |m.servers| && m.servers[i] == e;
    assert CredentialName(FromImporter(m).servers[i]).None?;
    assert ServerContentOf(after, after.servers[i]).name == Trim(s.name);
    assert after.servers[i] in after.servers;
  }
}
