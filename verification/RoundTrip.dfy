/** Compiling a decompiled snapshot: exactly when it says the same again. */
module RoundTrip {
  import opened Text
  import opened Meta
  import opened Seqs
  import opened Documents
  import opened Merge
  import opened Declarative
  import opened StoreSpec
  import opened Decompile
  import opened CompileMeaning

  predicate Clean(name: string) {
    Trim(name) == name && name != ""
  }

  /** Columns as compilation leaves them: named, typed, and at position 0 only in the first place. */
  ghost predicate ColumnsNormal(cols: seq<ColumnContent>) {
    && (forall k :: 0 <= k < |cols| ==> Trim(cols[k].name) != "" && Clean(cols[k].dataType))
    && (forall k :: 0 <= k < |cols| && cols[k].position == 0 ==> k == 0)
  }

  ghost predicate ServerNormal(snap: Snapshot, s: Server) {
    && Clean(s.name) && Clean(s.protocol)
    && (s.credentialRef.Some? ==> exists c :: c in snap.credentials && c.id == s.credentialRef.value)
  }

  ghost predicate TableNormal(snap: Snapshot, t: Table) {
    && Clean(t.schema) && Clean(t.name) && HasServer(snap, t.serverId)
    && ColumnsNormal(ColumnContents(ColumnsOf(snap, t.id)))
  }

  ghost predicate FunctionNormal(snap: Snapshot, f: Function) {
    Clean(f.schema) && Clean(f.name) && Trim(f.operation) != "" && HasServer(snap, f.serverId)
  }

  ghost predicate CredentialsNormal(creds: seq<Credential>) {
    && Unique(creds, (c: Credential) => c.id) && Unique(creds, (c: Credential) => c.name)
    && (forall c :: c in creds ==> Clean(c.name))
  }

  /** What every compiled snapshot is like. */
  ghost predicate Normal(snap: Snapshot) {
    && CredentialsNormal(snap.credentials)
    && Unique(snap.servers, (s: Server) => s.id)
    && Unique(snap.tables, (t: Table) => t.id)
    && (forall s :: s in snap.servers ==> ServerNormal(snap, s))
    && (forall t :: t in snap.tables ==> TableNormal(snap, t))
    && (forall f :: f in snap.functions ==> FunctionNormal(snap, f))
  }

  /** Names that tell the servers, and the tables, apart. */
  ghost predicate Distinguished(snap: Snapshot) {
    && Unique(snap.servers, (s: Server) => s.name)
    && Unique(snap.tables, (t: Table) => TableText(snap, t))
  }

  predicate Owns(snap: Snapshot, s: Server) {
    s.credentialRef.Some? && RefCount(snap.servers, s.credentialRef.value) == 1
  }

  /** No server that owns its secret goes by the name of a shared credential. */
  ghost predicate NoClash(snap: Snapshot) {
    forall s, t :: s in snap.servers && t in snap.servers && Owns(snap, s)
                   && t.credentialRef.Some? && !Owns(snap, t) ==>
      s.name != CredentialNameForID(snap.credentials, t.credentialRef.value)
  }

  ghost predicate OwnedSecretsPresent(snap: Snapshot) {
    forall s :: s in snap.servers && Owns(snap, s) ==> Secret(snap.credentials, s.credentialRef) != Some(map[])
  }

  /** No secret in use is changed by expanding environment variables in it. */
  ghost predicate SecretsStable(env: Env, snap: Snapshot) {
    forall s :: s in snap.servers && s.credentialRef.Some? ==>
      var data := Secret(snap.credentials, s.credentialRef);
      data.Some? && ExpandMap(env, data.value) == data.value
  }

  /** The same servers, tables and functions in the same order, with the same content and the same sharing. */
  ghost predicate SameMeaning(a: Snapshot, b: Snapshot) {
    && |a.servers| == |b.servers| && |a.tables| == |b.tables| && |a.functions| == |b.functions|
    && (forall i :: 0 <= i < |a.servers| ==> ServerContentOf(a, a.servers[i]) == ServerContentOf(b, b.servers[i]))
    && (forall i :: 0 <= i < |a.tables| ==> TableContentOf(a, a.tables[i]) == TableContentOf(b, b.tables[i]))
    && (forall i :: 0 <= i < |a.functions| ==>
         FunctionContentOf(a, a.functions[i]) == FunctionContentOf(b, b.functions[i]))
    && (forall i :: 0 <= i < |a.servers| ==> (a.servers[i].credentialRef.None? <==> b.servers[i].credentialRef.None?))
    && (forall i, j :: 0 <= i < |a.servers| && 0 <= j < |a.servers| && a.servers[i].credentialRef.Some? ==>
          (a.servers[i].credentialRef == a.servers[j].credentialRef
           <==> b.servers[i].credentialRef == b.servers[j].credentialRef))
  }

  // ---- Looking up by a unique key. ----

  lemma LookupUnique<T>(s: seq<T>, i: nat, p: T -> bool)
    requires i < |s| && p(s[i])
    requires forall j :: 0 <= j < |s| && p(s[j]) ==> j == i
    ensures IndexWhere(s, p) == i && LastWhere(s, p) == i
  {
  }

  lemma CredentialLookup(creds: seq<Credential>, c: Credential)
    requires Unique(creds, (c: Credential) => c.id) && c in creds
    ensures OpenedPayload(creds, c.id) == Some(c.payload) == Secret(creds, Some(c.id))
    ensures CredentialNameForID(creds, c.id) == c.name
  {
    var i :| 0 <= i < |creds| && creds[i] == c;
    LookupUnique(creds, i, (d: Credential) => d.id == c.id);
  }

  lemma ServerLookup(servers: seq<Server>, s: Server)
    requires Unique(servers, (s: Server) => s.id) && s in servers
    ensures NameOfServer(servers, s.id) == s.name == ServerName(servers, s.id)
  {
    var i :| 0 <= i < |servers| && servers[i] == s;
    LookupUnique(servers, i, (d: Server) => d.id == s.id);
  }

  lemma TableLookup(snap: Snapshot, i: nat)
    requires Unique(snap.tables, (t: Table) => TableText(snap, t)) && i < |snap.tables|
    ensures TableEntry(snap, snap.tables[i]).columns == ColumnEntries(ColumnsOf(snap, snap.tables[i].id))
  {
    hide TableText, ColumnsOf;
    LookupUnique(snap.tables, i, (t: Table) => TableText(snap, t) == TableText(snap, snap.tables[i]));
  }

  // ---- Reference counts. ----

  lemma {:induction false} CountedTwice(servers: seq<Server>, i: nat, j: nat, id: Id)
    requires i < j < |servers| && servers[i].credentialRef == servers[j].credentialRef == Some(id)
    ensures RefCount(servers, id) >= 2
  {
    if j == |servers| - 1 {
      Counted(servers[..j], i, id);
    } else {
      CountedTwice(servers[..|servers| - 1], i, j, id);
    }
  }

  /** A secret with one reference has one owner. */
  lemma OwnerIsAlone(snap: Snapshot, i: nat, j: nat)
    requires i < |snap.servers| && j < |snap.servers| && Owns(snap, snap.servers[i])
    requires snap.servers[i].credentialRef == snap.servers[j].credentialRef
    ensures i == j
  {
    if i < j {
      CountedTwice(snap.servers, i, j, snap.servers[i].credentialRef.value);
    } else if j < i {
      CountedTwice(snap.servers, j, i, snap.servers[i].credentialRef.value);
    }
  }

  // ---- Columns, tables and functions. ----

  lemma ColumnPrefix(cols: seq<Column>)
    requires cols != [] && ColumnsNormal(ColumnContents(cols))
    ensures ColumnsNormal(ColumnContents(cols[..|cols| - 1]))
  {
    hide Trim;
    var contents, before := ColumnContents(cols), ColumnContents(cols[..|cols| - 1]);
    assert forall k :: 0 <= k < |before| ==> contents[k] == before[k];
  }

  lemma LastColumn(cols: seq<Column>)
    requires cols != [] && ColumnsNormal(ColumnContents(cols))
    ensures var e := ColumnEntry(cols[|cols| - 1]);
            && Trim(e.name) != "" && Clean(e.dataType) && (e.position == 0 ==> |cols| == 1)
  {
    hide Trim;
    var c := ColumnContents(cols)[|cols| - 1];
  }

  lemma {:induction false} ColumnsComeBack(cols: seq<Column>)
    requires ColumnsNormal(ColumnContents(cols))
    ensures DeclaredColumns(ColumnEntries(cols)) == ColumnContents(cols)
  {
    hide Trim, ColumnsNormal;
    if cols != [] {
      ColumnPrefix(cols);
      LastColumn(cols);
      ColumnsComeBack(cols[..|cols| - 1]);
      assert ColumnEntries(cols)[..|cols| - 1] == ColumnEntries(cols[..|cols| - 1]);
    }
  }

  lemma TableComesBack(snap: Snapshot, i: nat)
    requires Normal(snap) && Distinguished(snap) && i < |snap.tables|
    ensures DeclaredTable(TableEntry(snap, snap.tables[i])) == TableContentOf(snap, snap.tables[i])
  {
    hide ColumnsNormal, TableText, ColumnsOf, TableColumns, DeclaredColumns, CredentialsNormal, Trim;
    var t := snap.tables[i];
    assert TableNormal(snap, t);
    var s :| s in snap.servers && s.id == t.serverId;
    assert ServerNormal(snap, s);
    ServerLookup(snap.servers, s);
    TableLookup(snap, i);
    ColumnsComeBack(ColumnsOf(snap, t.id));
  }

  lemma FunctionComesBack(snap: Snapshot, f: Function)
    requires Normal(snap) && f in snap.functions
    ensures DeclaredFunction(FunctionEntry(snap, f)) == FunctionContentOf(snap, f)
  {
    hide CredentialsNormal, TableNormal, Trim;
    assert FunctionNormal(snap, f);
    var s :| s in snap.servers && s.id == f.serverId;
    assert ServerNormal(snap, s);
    ServerLookup(snap.servers, s);
  }

  // ---- Shared credentials. ----

  lemma {:induction false} SharedAreListed(snap: Snapshot, order: seq<Id>, id: Id)
    requires id in order && IsShared(snap, id)
    ensures SharedEntry(snap, id) in SharedEntries(snap, order)
  {
    hide IsShared, OpenedPayload, CredentialNameForID;
    var before := order[..|order| - 1];
    assert order == before + [order[|order| - 1]];
    if id != order[|order| - 1] {
      SharedAreListed(snap, before, id);
    }
  }

  function SharedEntry(snap: Snapshot, id: Id): DeclCredential
    requires IsShared(snap, id)
  {
    DeclCredential(CredentialNameForID(snap.credentials, id), OpenedPayload(snap.credentials, id).value)
  }

  lemma {:induction false} ListedAreShared(snap: Snapshot, order: seq<Id>, c: DeclCredential) returns (id: Id)
    requires c in SharedEntries(snap, order)
    ensures id in order && IsShared(snap, id) && c == SharedEntry(snap, id)
  {
    hide IsShared, OpenedPayload, CredentialNameForID;
    var before, last := order[..|order| - 1], order[|order| - 1];
    if IsShared(snap, last) && c == SharedEntry(snap, last) {
      id := last;
    } else {
      id := ListedAreShared(snap, before, c);
    }
  }

  /** The first secret listed under a name is the one that counts; here all listed under it agree. */
  lemma {:induction false} ListedSecretIs(env: Env, creds: seq<DeclCredential>, n: string, data: Fields)
    requires n != "" && exists c :: c in creds && Trim(c.name) == n
    requires forall c :: c in creds && Trim(c.name) == n ==> c.data == data
    ensures n in ListedSecrets(env, creds) && ListedSecrets(env, creds)[n] == ExpandMap(env, data)
  {
    hide Trim, ExpandMap;
    var before, last := creds[..|creds| - 1], creds[|creds| - 1];
    assert creds == before + [last];
    if exists c :: c in before && Trim(c.name) == n {
      ListedSecretIs(env, before, n, data);
    } else {
      ListedKeys(env, before, n);
      assert last in creds;
    }
  }

  lemma SharedSecret(env: Env, snap: Snapshot, order: seq<Id>, id: Id)
    requires CredentialsNormal(snap.credentials) && id in order && IsShared(snap, id)
    ensures var n := CredentialNameForID(snap.credentials, id);
            && Clean(n)
            && n in ListedSecrets(env, SharedEntries(snap, order))
            && ListedSecrets(env, SharedEntries(snap, order))[n]
               == ExpandMap(env, OpenedPayload(snap.credentials, id).value)
  {
    hide Trim, ExpandMap, OpenedPayload, CredentialNameForID, SharedEntries, ListedSecrets;
    var creds, n, data := SharedEntries(snap, order), CredentialNameForID(snap.credentials, id),
                          OpenedPayload(snap.credentials, id).value;
    SharedName(snap, id);
    SharedAreListed(snap, order, id);
    assert SharedEntry(snap, id) in creds && Trim(SharedEntry(snap, id).name) == n;
    forall c | c in creds && Trim(c.name) == n
      ensures c.data == data
    {
      var other := ListedAreShared(snap, order, c);
      SharedName(snap, other);
      SharedNamesDiffer(snap, id, other);
    }
    ListedSecretIs(env, creds, n, data);
  }

  lemma SharedName(snap: Snapshot, id: Id)
    requires CredentialsNormal(snap.credentials) && IsShared(snap, id)
    ensures Clean(CredentialNameForID(snap.credentials, id))
    ensures exists c :: c in snap.credentials && c.id == id && c.name == CredentialNameForID(snap.credentials, id)
  {
    var i := LastWhere(snap.credentials, (c: Credential) => c.id == id);
    var c := snap.credentials[i];
    CredentialLookup(snap.credentials, c);
    assert c in snap.credentials;
  }

  lemma SharedNamesDiffer(snap: Snapshot, id: Id, other: Id)
    requires CredentialsNormal(snap.credentials) && IsShared(snap, id) && IsShared(snap, other)
    requires CredentialNameForID(snap.credentials, id) == CredentialNameForID(snap.credentials, other)
    ensures id == other
  {
    hide CredentialNameForID, IsShared, Trim;
    SharedName(snap, id);
    SharedName(snap, other);
    var creds := snap.credentials;
    var c :| c in creds && c.id == id && c.name == CredentialNameForID(creds, id);
    var d :| d in creds && d.id == other && d.name == CredentialNameForID(creds, other);
    SameKeySameElement(creds, (c: Credential) => c.name, c, d);
  }

  // ---- The credentials of the entries. ----

  /** The name an entry's credential goes by; a secret without fields is not written at all. */
  lemma EntryCredentialName(snap: Snapshot, s: Server)
    requires Normal(snap) && s in snap.servers
    ensures var ref, n := s.credentialRef, CredentialName(ServerEntry(snap, s));
            && (ref.None? ==> n.None?)
            && (ref.Some? && Owns(snap, s) ==>
                 n == if Secret(snap.credentials, ref) == Some(map[]) then None else Some(s.name))
            && (ref.Some? && !Owns(snap, s) ==>
                  IsShared(snap, ref.value) && n == Some(CredentialNameForID(snap.credentials, ref.value)))
  {
    hide TableNormal, FunctionNormal, Trim, CredentialNameForID, OpenedPayload, Secret;
    assert ServerNormal(snap, s);
    if s.credentialRef.Some? {
      var id := s.credentialRef.value;
      var i :| 0 <= i < |snap.servers| && snap.servers[i] == s;
      Counted(snap.servers, i, id);
      var c :| c in snap.credentials && c.id == id;
      CredentialLookup(snap.credentials, c);
      if !Owns(snap, s) {
        SharedName(snap, id);
      }
    }
  }

  /** The field an entry carries. */
  lemma EntryCredentialField(snap: Snapshot, s: Server)
    requires Normal(snap) && s in snap.servers
    ensures ServerEntry(snap, s).credential.data
            == if Owns(snap, s) then Secret(snap.credentials, s.credentialRef).value else map[]
  {
    hide TableNormal, FunctionNormal, Trim, CredentialNameForID, OpenedPayload, Secret;
    assert ServerNormal(snap, s);
    if s.credentialRef.Some? {
      var id := s.credentialRef.value;
      var c :| c in snap.credentials && c.id == id;
      CredentialLookup(snap.credentials, c);
    }
  }

  lemma {:induction false} StartSecretsStay(env: Env, start: map<string, Fields>, ss: seq<DeclServer>, n: string)
    requires n in start
    ensures n in ServerSecrets(env, start, ss) && ServerSecrets(env, start, ss)[n] == start[n]
  {
    hide Trim, ExpandMap;
    if ss != [] {
      StartSecretsStay(env, start, ss[..|ss| - 1], n);
    }
  }

  lemma {:induction false} InlineSecretIs(env: Env, start: map<string, Fields>, ss: seq<DeclServer>, n: string,
                                          data: Fields)
    requires n !in start && exists s :: s in ss && s.credential.data != map[] && Trim(s.name) == n
    requires forall s :: s in ss && s.credential.data != map[] && Trim(s.name) == n ==> s.credential.data == data
    ensures n in ServerSecrets(env, start, ss) && ServerSecrets(env, start, ss)[n] == ExpandMap(env, data)
  {
    hide Trim, ExpandMap;
    var before, last := ss[..|ss| - 1], ss[|ss| - 1];
    assert ss == before + [last];
    if exists s :: s in before && s.credential.data != map[] && Trim(s.name) == n {
      InlineSecretIs(env, start, before, n, data);
    } else {
      ServerKeys(env, start, before, n);
      assert last in ss;
    }
  }

  lemma EntryOf(snap: Snapshot, order: seq<Id>, e: DeclServer) returns (s: Server)
    requires e in DocumentOf(snap, order).servers
    ensures s in snap.servers && e == ServerEntry(snap, s)
  {
    var servers := DocumentOf(snap, order).servers;
    var i :| 0 <= i < |servers| && servers[i] == e;
    s := snap.servers[i];
  }

  lemma NameTellsServer(snap: Snapshot, s: Server, t: Server)
    requires Distinguished(snap) && s in snap.servers && t in snap.servers && s.name == t.name
    ensures s == t
  {
    SameKeySameElement(snap.servers, (s: Server) => s.name, s, t);
  }

  lemma OwnedSecret(env: Env, snap: Snapshot, order: seq<Id>, i: nat)
    requires Normal(snap) && Distinguished(snap) && NoClash(snap) && OwnedSecretsPresent(snap)
    requires Enumerates(snap.servers, order) && i < |snap.servers| && Owns(snap, snap.servers[i])
    ensures var s, secrets := snap.servers[i], Secrets(env, DocumentOf(snap, order));
            && Secret(snap.credentials, s.credentialRef).Some? && s.name in secrets
            && secrets[s.name] == ExpandMap(env, Secret(snap.credentials, s.credentialRef).value)
  {
    hide ExpandMap, Secret, ServerEntry, TableNormal, FunctionNormal, TableEntry, FunctionEntry, SharedEntries,
         ServerSecrets, ListedSecrets, CredentialNameForID, Trim, CredentialsNormal;
    var s, doc := snap.servers[i], DocumentOf(snap, order);
    assert s in snap.servers && ServerNormal(snap, s);
    OwnedSecretExists(snap, s);
    var data := Secret(snap.credentials, s.credentialRef).value;
    NotListed(env, snap, order, s);
    EntryCredentialField(snap, s);
    EntryName(snap, s);
    assert doc.servers[i] == ServerEntry(snap, s) && doc.servers[i] in doc.servers;
    forall e | e in doc.servers && e.credential.data != map[] && Trim(e.name) == s.name
      ensures e.credential.data == data
    {
      var t := EntryOf(snap, order, e);
      EntryName(snap, t);
      assert ServerNormal(snap, t);
      NameTellsServer(snap, s, t);
    }
    InlineSecretIs(env, ListedSecrets(env, doc.credentials), doc.servers, s.name, data);
  }

  lemma EntryName(snap: Snapshot, s: Server)
    ensures ServerEntry(snap, s).name == s.name && ServerEntry(snap, s).protocol == s.protocol
  {
  }

  lemma OwnedSecretExists(snap: Snapshot, s: Server)
    requires Normal(snap) && s in snap.servers && s.credentialRef.Some?
    ensures Secret(snap.credentials, s.credentialRef).Some?
  {
    hide TableNormal, FunctionNormal, Trim;
    assert ServerNormal(snap, s);
    var c :| c in snap.credentials && c.id == s.credentialRef.value;
    CredentialLookup(snap.credentials, c);
  }

  /** A shared identifier is some server's, so the clash condition speaks of it. */
  lemma {:induction false} ReferringServer(servers: seq<Server>, id: Id) returns (i: nat)
    requires RefCount(servers, id) > 0
    ensures i < |servers| && servers[i].credentialRef == Some(id)
  {
    if servers[|servers| - 1].credentialRef == Some(id) {
      i := |servers| - 1;
    } else {
      i := ReferringServer(servers[..|servers| - 1], id);
    }
  }

  lemma NotListed(env: Env, snap: Snapshot, order: seq<Id>, s: Server)
    requires Normal(snap) && NoClash(snap) && s in snap.servers && Owns(snap, s)
    ensures s.name !in ListedSecrets(env, SharedEntries(snap, order))
  {
    hide TableNormal, FunctionNormal, CredentialNameForID, OpenedPayload, Trim, ListedSecrets, SharedEntries;
    assert ServerNormal(snap, s);
    ListedKeys(env, SharedEntries(snap, order), s.name);
    forall c | c in SharedEntries(snap, order)
      ensures Trim(c.name) != s.name
    {
      var id := ListedAreShared(snap, order, c);
      SharedName(snap, id);
      var j := ReferringServer(snap.servers, id);
      assert snap.servers[j] in snap.servers;
    }
  }

  /** Up to the expansion of its secret, every server comes back. */
  lemma ServerComesBack(env: Env, snap: Snapshot, order: seq<Id>, i: nat)
    requires Normal(snap) && Distinguished(snap) && NoClash(snap) && OwnedSecretsPresent(snap)
    requires Enumerates(snap.servers, order) && i < |snap.servers|
    ensures var s, c := snap.servers[i], ServerContentOf(snap, snap.servers[i]);
            DeclaredServer(Secrets(env, DocumentOf(snap, order)), ServerEntry(snap, s))
            == c.(credential := if c.credential.None? then None else Some(ExpandMap(env, c.credential.value)))
  {
    hide ExpandMap, Secret, TableNormal, FunctionNormal, TableEntry, FunctionEntry, SharedEntries, ServerSecrets,
         ListedSecrets, CredentialNameForID, Trim, CredentialsNormal, CredentialName, CredentialFieldOf, OpenedPayload;
    var s, doc := snap.servers[i], DocumentOf(snap, order);
    assert s in snap.servers && ServerNormal(snap, s);
    EntryCredentialName(snap, s);
    if s.credentialRef.Some? {
      OwnedSecretExists(snap, s);
      if Owns(snap, s) {
        OwnedSecret(env, snap, order, i);
      } else {
        var id := s.credentialRef.value;
        Counted(snap.servers, i, id);
        SharedSecret(env, snap, order, id);
        StartSecretsStay(env, ListedSecrets(env, doc.credentials), doc.servers,
              CredentialNameForID(snap.credentials, id));
        var c :| c in snap.credentials && c.id == id;
        CredentialLookup(snap.credentials, c) by {
          assert CredentialsNormal(snap.credentials);
          UniqueIds(snap);
        }
      }
    } else {
      assert Secret(snap.credentials, s.credentialRef).None? by {
        NoSecret(snap.credentials);
      }
    }
  }

  lemma NoSecret(creds: seq<Credential>)
    ensures Secret(creds, None).None?
  {
  }

  lemma UniqueIds(snap: Snapshot)
    requires CredentialsNormal(snap.credentials)
    ensures Unique(snap.credentials, (c: Credential) => c.id)
  {
  }

  // ---- The whole snapshot. ----

  lemma EntriesCompile(snap: Snapshot, order: seq<Id>)
    requires Normal(snap) && Enumerates(snap.servers, order)
    ensures Compilable(DocumentOf(snap, order))
  {
    hide TableNormal, FunctionNormal, ServerNormal, CredentialsNormal, Trim, SharedEntries, ServerEntry,
         KnownCredential, ServerOk, BareTableEntry, TableEntry, FunctionEntry, KnownServer;
    var doc := DocumentOf(snap, order);
    forall i | 0 <= i < |doc.servers|
      ensures ServerOk(doc, i)
    {
      EntryOk(snap, order, i);
    }
    forall t | t in doc.tables
      ensures Trim(t.server) != "" && Trim(t.name) != "" && KnownServer(doc, t.server)
    {
      var i :| 0 <= i < |snap.tables| && doc.tables[i] == t;
      TableEntryOk(snap, order, snap.tables[i]);
    }
    forall f | f in doc.functions
      ensures Trim(f.server) != "" && Trim(f.name) != "" && Trim(f.operation) != "" && KnownServer(doc, f.server)
    {
      var i :| 0 <= i < |snap.functions| && doc.functions[i] == f;
      FunctionEntryOk(snap, order, snap.functions[i]);
    }
  }

  lemma EntryOk(snap: Snapshot, order: seq<Id>, i: nat)
    requires Normal(snap) && Enumerates(snap.servers, order) && i < |snap.servers|
    ensures ServerOk(DocumentOf(snap, order), i)
  {
    hide TableNormal, FunctionNormal, Trim, SharedEntries, CredentialNameForID, OpenedPayload, TableEntry,
         FunctionEntry, CredentialsNormal;
    var s, doc := snap.servers[i], DocumentOf(snap, order);
    assert ServerNormal(snap, s);
    if s.credentialRef.Some? && !Owns(snap, s) {
      var id := s.credentialRef.value;
      Counted(snap.servers, i, id);
      EntryCredentialName(snap, s);
      SharedName(snap, id);
      SharedAreListed(snap, order, id);
      assert SharedEntry(snap, id) in doc.credentials;
    }
  }

  lemma ServerKnown(snap: Snapshot, order: seq<Id>, id: Id)
    requires Normal(snap) && HasServer(snap, id)
    ensures var n := Decompile.NameOfServer(snap.servers, id);
            Trim(n) == n && n != "" && KnownServer(DocumentOf(snap, order), n)
  {
    hide TableNormal, FunctionNormal, Trim, SharedEntries, CredentialFieldOf, TableEntry, FunctionEntry,
         CredentialsNormal;
    var i :| 0 <= i < |snap.servers| && snap.servers[i].id == id;
    var s := snap.servers[i];
    assert ServerNormal(snap, s);
    ServerLookup(snap.servers, s);
    assert DocumentOf(snap, order).servers[i] == ServerEntry(snap, s);
    assert DocumentOf(snap, order).servers[i] in DocumentOf(snap, order).servers;
  }

  lemma TableEntryOk(snap: Snapshot, order: seq<Id>, t: Table)
    requires Normal(snap) && t in snap.tables
    ensures var e := TableEntry(snap, t);
            Trim(e.server) != "" && Trim(e.name) != "" && KnownServer(DocumentOf(snap, order), e.server)
  {
    hide Trim, ServerNormal, FunctionNormal, CredentialsNormal, ColumnsNormal, DocumentOf, NameOfServer;
    assert TableNormal(snap, t);
    ServerKnown(snap, order, t.serverId);
  }

  lemma FunctionEntryOk(snap: Snapshot, order: seq<Id>, f: Function)
    requires Normal(snap) && f in snap.functions
    ensures var e := FunctionEntry(snap, f);
            && Trim(e.server) != "" && Trim(e.name) != "" && Trim(e.operation) != ""
            && KnownServer(DocumentOf(snap, order), e.server)
  {
    hide Trim, ServerNormal, TableNormal, CredentialsNormal, DocumentOf, NameOfServer;
    assert FunctionNormal(snap, f);
    ServerKnown(snap, order, f.serverId);
  }

  /** Two entries go by the same credential name exactly when their servers share the credential. */
  lemma NamesShareAsRefs(snap: Snapshot, i: nat, j: nat)
    requires Normal(snap) && Distinguished(snap) && NoClash(snap) && OwnedSecretsPresent(snap)
    requires i < |snap.servers| && j < |snap.servers| && snap.servers[i].credentialRef.Some?
    ensures CredentialName(ServerEntry(snap, snap.servers[i])) == CredentialName(ServerEntry(snap, snap.servers[j]))
            <==> snap.servers[i].credentialRef == snap.servers[j].credentialRef
  {
    hide TableNormal, FunctionNormal, ServerNormal, Trim, CredentialNameForID, CredentialName, ServerEntry,
         CredentialsNormal, IsShared, Secret;
    var s, t := snap.servers[i], snap.servers[j];
    assert s in snap.servers && t in snap.servers;
    EntryCredentialName(snap, s);
    EntryCredentialName(snap, t);
    if t.credentialRef.Some? {
      if Owns(snap, s) && Owns(snap, t) {
        if s.name == t.name {
          NameTellsServer(snap, s, t);
        }
        if s.credentialRef == t.credentialRef {
          OwnerIsAlone(snap, i, j);
        }
      } else if !Owns(snap, s) && !Owns(snap, t) {
        var m, n := s.credentialRef.value, t.credentialRef.value;
        if CredentialNameForID(snap.credentials, m) == CredentialNameForID(snap.credentials, n) {
          SharedNamesDiffer(snap, m, n);
        }
      }
    }
  }

  lemma DocumentEntries(snap: Snapshot, order: seq<Id>)
    ensures var doc := DocumentOf(snap, order);
            && |doc.servers| == |snap.servers| && |doc.tables| == |snap.tables| && |doc.functions| == |snap.functions|
            && (forall i :: 0 <= i < |snap.servers| ==> doc.servers[i] == ServerEntry(snap, snap.servers[i]))
            && (forall i :: 0 <= i < |snap.tables| ==> doc.tables[i] == TableEntry(snap, snap.tables[i]))
            && (forall i :: 0 <= i < |snap.functions| ==> doc.functions[i] == FunctionEntry(snap, snap.functions[i]))
  {
    hide ServerEntry, TableEntry, FunctionEntry, SharedEntries;
  }

  /** Servers come back the same exactly when expansion leaves their secrets alone. */
  lemma ServersComeBack(env: Env, snap: Snapshot, order: seq<Id>, again: Snapshot)
    requires Normal(snap) && Distinguished(snap) && NoClash(snap) && OwnedSecretsPresent(snap)
    requires Enumerates(snap.servers, order)
    requires Says(again, DocumentOf(snap, order), Secrets(env, DocumentOf(snap, order)))
    ensures |again.servers| == |snap.servers|
    ensures (forall i :: 0 <= i < |snap.servers| ==>
               ServerContentOf(snap, snap.servers[i]) == ServerContentOf(again, again.servers[i]))
            <==> SecretsStable(env, snap)
  {
    hide Normal, Distinguished, NoClash, OwnedSecretsPresent, Enumerates, ServerEntry, DocumentOf, Secrets,
         DeclaredServer, TableContentOf, FunctionContentOf, DeclaredTable, DeclaredFunction, ExpandMap, Secret,
         SecretsStable;
    DocumentEntries(snap, order);
    forall i | 0 <= i < |snap.servers|
      ensures ServerContentOf(snap, snap.servers[i]) == ServerContentOf(again, again.servers[i])
              <==> StableServer(env, snap, snap.servers[i])
    {
      ServerComesBack(env, snap, order, i);
      assert ServerContentOf(again, again.servers[i])
             == DeclaredServer(Secrets(env, DocumentOf(snap, order)), ServerEntry(snap, snap.servers[i]));
      ServerSecretExists(snap, snap.servers[i]);
    }
    StableByIndex(env, snap);
  }

  ghost predicate StableServer(env: Env, snap: Snapshot, s: Server) {
    s.credentialRef.Some? ==>
      var data := Secret(snap.credentials, s.credentialRef);
      data.Some? && ExpandMap(env, data.value) == data.value
  }

  lemma StableByIndex(env: Env, snap: Snapshot)
    ensures SecretsStable(env, snap)
            <==> forall i :: 0 <= i < |snap.servers| ==> StableServer(env, snap, snap.servers[i])
  {
    hide Secret, ExpandMap;
    if forall i :: 0 <= i < |snap.servers| ==> StableServer(env, snap, snap.servers[i]) {
      forall s | s in snap.servers
        ensures StableServer(env, snap, s)
      {
        var i :| 0 <= i < |snap.servers| && snap.servers[i] == s;
      }
    }
  }

  lemma ServerSecretExists(snap: Snapshot, s: Server)
    requires Normal(snap) && s in snap.servers
    ensures s.credentialRef.Some? <==> Secret(snap.credentials, s.credentialRef).Some?
  {
    hide Normal;
    if s.credentialRef.Some? {
      OwnedSecretExists(snap, s);
    }
  }

  lemma SharingKept(snap: Snapshot, order: seq<Id>, again: Snapshot)
    requires Normal(snap) && Distinguished(snap) && NoClash(snap) && OwnedSecretsPresent(snap)
    requires SharesByName(again, DocumentOf(snap, order))
    ensures |again.servers| == |snap.servers|
    ensures forall i :: 0 <= i < |snap.servers| ==>
              (snap.servers[i].credentialRef.None? <==> again.servers[i].credentialRef.None?)
    ensures forall i, j :: 0 <= i < |snap.servers| && 0 <= j < |snap.servers| && snap.servers[i].credentialRef.Some? ==>
              (snap.servers[i].credentialRef == snap.servers[j].credentialRef
               <==> again.servers[i].credentialRef == again.servers[j].credentialRef)
  {
    hide Normal, Distinguished, NoClash, ServerEntry, DocumentOf, CredentialName, Secret, CredentialNameForID, IsShared;
    DocumentEntries(snap, order);
    forall i | 0 <= i < |snap.servers|
      ensures snap.servers[i].credentialRef.None? <==> CredentialName(ServerEntry(snap, snap.servers[i])).None?
    {
      assert snap.servers[i] in snap.servers;
      EntryCredentialName(snap, snap.servers[i]);
    }
    forall i, j | 0 <= i < |snap.servers| && 0 <= j < |snap.servers| && snap.servers[i].credentialRef.Some?
      ensures CredentialName(ServerEntry(snap, snap.servers[i])) == CredentialName(ServerEntry(snap, snap.servers[j]))
              <==> snap.servers[i].credentialRef == snap.servers[j].credentialRef
    {
      NamesShareAsRefs(snap, i, j);
    }
  }

  lemma MeaningKept(env: Env, snap: Snapshot, order: seq<Id>, again: Snapshot)
    requires Normal(snap) && Distinguished(snap) && NoClash(snap) && OwnedSecretsPresent(snap)
    requires Enumerates(snap.servers, order)
    requires Says(again, DocumentOf(snap, order), Secrets(env, DocumentOf(snap, order)))
    requires SharesByName(again, DocumentOf(snap, order))
    ensures SameMeaning(snap, again) <==> SecretsStable(env, snap)
  {
    hide Normal, Distinguished, NoClash, OwnedSecretsPresent, SecretsStable, Enumerates, ServerEntry, TableEntry,
         FunctionEntry, DocumentOf, Secrets, DeclaredServer, ServerContentOf, TableContentOf, FunctionContentOf,
         DeclaredTable, DeclaredFunction, SharesByName;
    DocumentEntries(snap, order);
    ServersComeBack(env, snap, order, again);
    SharingKept(snap, order, again);
    forall i | 0 <= i < |snap.tables|
      ensures TableContentOf(snap, snap.tables[i]) == TableContentOf(again, again.tables[i])
    {
      TableComesBack(snap, i);
    }
    forall i | 0 <= i < |snap.functions|
      ensures FunctionContentOf(snap, snap.functions[i]) == FunctionContentOf(again, again.functions[i])
    {
      FunctionComesBack(snap, snap.functions[i]);
    }
  }

  lemma SharingForces(snap: Snapshot, order: seq<Id>, again: Snapshot)
    requires Normal(snap) && SharesByName(again, DocumentOf(snap, order)) && SameMeaning(snap, again)
    ensures NoClash(snap) && OwnedSecretsPresent(snap)
  {
    hide Normal, ServerEntry, DocumentOf, CredentialName, Secret, CredentialNameForID, IsShared,
         ServerContentOf, TableContentOf, FunctionContentOf;
    DocumentEntries(snap, order);
    forall s | s in snap.servers && Owns(snap, s)
      ensures Secret(snap.credentials, s.credentialRef) != Some(map[])
    {
      var i :| 0 <= i < |snap.servers| && snap.servers[i] == s;
      EntryCredentialName(snap, s);
    }
    forall s, t | s in snap.servers && t in snap.servers && Owns(snap, s) && t.credentialRef.Some? && !Owns(snap, t)
      ensures s.name != CredentialNameForID(snap.credentials, t.credentialRef.value)
    {
      var i :| 0 <= i < |snap.servers| && snap.servers[i] == s;
      var j :| 0 <= j < |snap.servers| && snap.servers[j] == t;
      EntryCredentialName(snap, s);
      EntryCredentialName(snap, t);
      assert snap.servers[i].credentialRef != snap.servers[j].credentialRef;
    }
  }

  /** Round trip. For a snapshot in normal form whose names tell its servers and tables apart, compiling the decompiled
      document always succeeds, and means the same exactly when no owned secret is captured by a shared credential's
      name, none is empty, and no secret in use changes under expansion. */
  lemma RoundTripExactlyWhen(env: Env, snap: Snapshot, doc: Doc, next: Id, now: Timestamp)
    requires Normal(snap) && Distinguished(snap) && IsDocumentOf(snap, doc)
    ensures Compile(env, doc, next, now).Some?
    ensures SameMeaning(snap, Compile(env, doc, next, now).value.0)
            <==> NoClash(snap) && OwnedSecretsPresent(snap) && SecretsStable(env, snap)
  {
    hide Normal, Distinguished, NoClash, OwnedSecretsPresent, SecretsStable, SameMeaning, Enumerates, DocumentOf,
         Compile, Compilable, Says, SharesByName, Secrets;
    var order :| Enumerates(snap.servers, order) && doc == DocumentOf(snap, order);
    EntriesCompile(snap, order);
    CompilesExactlyWhen(env, doc, next, now);
    CompiledSays(env, doc, next, now);
    var again := Compile(env, doc, next, now).value.0;
    if NoClash(snap) && OwnedSecretsPresent(snap) {
      MeaningKept(env, snap, order, again);
    } else if SameMeaning(snap, again) {
      SharingForces(snap, order, again);
    }
  }
}
