/** Every compiled snapshot is in the normal form in which decompilation can be undone. */
module CompiledForm {
  import opened Text
  import opened Meta
  import opened Seqs
  import opened Documents
  import opened Merge
  import opened Declarative
  import opened StoreSpec
  import opened Decompile
  import opened CompileMeaning
  import opened RoundTrip

  lemma CleanTrim(s: string)
    requires Trim(s) != ""
    ensures Clean(Trim(s))
  {
    TrimTwice(s);
  }

  lemma CleanSchema(s: string)
    ensures Clean(SchemaOf(s))
  {
    TrimTwice(s);
    assert Trim("public") == "public";
  }

  // ---- Credential names. ----

  ghost predicate CleanKeys(secrets: map<string, Fields>) {
    forall n :: n in secrets ==> Clean(n)
  }

  lemma {:induction false} ListedKeysClean(env: Env, creds: seq<DeclCredential>)
    ensures CleanKeys(ListedSecrets(env, creds))
  {
    hide Trim, ExpandMap, Clean;
    if creds != [] {
      ListedKeysClean(env, creds[..|creds| - 1]);
      var c := creds[|creds| - 1];
      if Trim(c.name) != "" {
        CleanTrim(c.name);
      }
    }
  }

  lemma {:induction false} ServerKeysClean(env: Env, start: map<string, Fields>, ss: seq<DeclServer>)
    requires CleanKeys(start) && forall s :: s in ss ==> Trim(s.name) != ""
    ensures CleanKeys(ServerSecrets(env, start, ss))
  {
    hide Trim, ExpandMap, Clean;
    if ss != [] {
      assert ss[|ss| - 1] in ss;
      ServerKeysClean(env, start, ss[..|ss| - 1]);
      CleanTrim(ss[|ss| - 1].name);
    }
  }

  lemma SecretKeysClean(env: Env, doc: Doc)
    requires forall s :: s in doc.servers ==> Trim(s.name) != ""
    ensures CleanKeys(Secrets(env, doc))
  {
    hide CleanKeys, Trim;
    ListedKeysClean(env, doc.credentials);
    ServerKeysClean(env, ListedSecrets(env, doc.credentials), doc.servers);
  }

  lemma CompiledCredentials(reg: Registry, secrets: map<string, Fields>)
    requires Holds(reg, secrets) && CleanKeys(secrets)
    ensures CredentialsNormal(reg.records)
  {
    hide Clean, Trim;
    forall c | c in reg.records
      ensures Clean(c.name)
    {
    }
    var records := reg.records;
    forall i, j | 0 <= i < j < |records|
      ensures records[i].name != records[j].name
    {
      assert records[i] in records && records[j] in records && records[i].id != records[j].id;
    }
  }

  // ---- Servers, tables, functions. ----

  lemma CompiledServerNormal(ss: Servers, secrets: map<string, Fields>, doc: Doc, snap: Snapshot, i: nat)
    requires ServersMatch(ss, secrets, doc.servers) && snap.servers == ss.records && snap.credentials == ss.reg.records
    requires i < |doc.servers| && ServerOk(doc, i)
    ensures ServerNormal(snap, snap.servers[i])
  {
    hide Trim, Clean, KnownCredential;
    var s := doc.servers[i];
    assert ServerMatches(ss.reg, s, ss.records[i]);
    CleanTrim(s.name);
    CleanTrim(s.protocol);
    var n := CredentialName(s);
    if n.Some? {
      assert HasRecord(ss.reg, n.value, secrets[n.value]);
    }
  }

  lemma {:induction false} DeclaredColumnsNormal(cols: seq<DeclColumn>)
    ensures ColumnsNormal(DeclaredColumns(cols)) && |DeclaredColumns(cols)| <= |cols|
  {
    hide Trim, Clean;
    if cols != [] {
      var c := cols[|cols| - 1];
      DeclaredColumnsNormal(cols[..|cols| - 1]);
      CleanText();
      if Trim(c.dataType) != "" {
        CleanTrim(c.dataType);
      }
    }
  }

  lemma CleanText()
    ensures Clean("text")
  {
    assert Trim("text") == "text";
  }

  lemma RegisteredServer(ss: Servers, secrets: map<string, Fields>, entries: seq<DeclServer>, snap: Snapshot, n: string)
    requires ServersMatch(ss, secrets, entries) && snap.servers == ss.records && n in ss.ids
    ensures HasServer(snap, ss.ids[n])
  {
    hide Holds, ServerMatches;
    var k :| 0 <= k < |entries| && ss.records[k].name == n && ss.records[k].id == ss.ids[n];
    assert ss.records[k] in snap.servers;
  }

  lemma CompiledTableNormal(ss: Servers, ts: Tables, secrets: map<string, Fields>, doc: Doc, snap: Snapshot, i: nat)
    requires ServersMatch(ss, secrets, doc.servers) && TablesMatch(ss.ids, ts, doc.tables) && i < |doc.tables|
    requires snap.servers == ss.records && snap.tables == ts.tables && snap.columns == ts.columns
    requires Trim(doc.tables[i].name) != ""
    ensures TableNormal(snap, snap.tables[i])
  {
    hide ServersMatch, DeclaredColumns, ColumnsNormal, Trim, Clean, Keep, HasServer, SchemaOf;
    var t := doc.tables[i];
    assert TableMatches(ss.ids, t, ts.tables[i], ts.columns);
    CleanSchema(t.schema);
    CleanTrim(t.name);
    DeclaredColumnsNormal(t.columns);
    RegisteredServer(ss, secrets, doc.servers, snap, Trim(t.server));
  }

  lemma CompiledFunctionNormal(ss: Servers, secrets: map<string, Fields>, doc: Doc, snap: Snapshot, id: Id,
                               f: DeclFunction, rec: Function)
    requires ServersMatch(ss, secrets, doc.servers) && snap.servers == ss.records
    requires CompileFunction(ss.ids, id, f) == Some(rec)
    ensures FunctionNormal(snap, rec)
  {
    hide ServersMatch, Trim, Clean, HasServer, SchemaOf;
    CleanSchema(f.schema);
    CleanTrim(f.name);
    RegisteredServer(ss, secrets, doc.servers, snap, Trim(f.server));
  }

  lemma AllServersNormal(ss: Servers, secrets: map<string, Fields>, doc: Doc, snap: Snapshot)
    requires ServersMatch(ss, secrets, doc.servers) && snap.servers == ss.records && snap.credentials == ss.reg.records
    requires Compilable(doc)
    ensures forall s :: s in snap.servers ==> ServerNormal(snap, s)
  {
    hide ServersMatch, ServerOk, ServerNormal, KnownServer;
    MatchCount(ss, secrets, doc.servers);
    forall s | s in snap.servers
      ensures ServerNormal(snap, s)
    {
      var i :| 0 <= i < |snap.servers| && snap.servers[i] == s;
      CompiledServerNormal(ss, secrets, doc, snap, i);
    }
  }

  lemma MatchCount(ss: Servers, secrets: map<string, Fields>, entries: seq<DeclServer>)
    requires ServersMatch(ss, secrets, entries)
    ensures |ss.records| == |entries| && Holds(ss.reg, secrets) && Unique(ss.records, (s: Server) => s.id)
  {
  }

  lemma AllTablesNormal(ss: Servers, ts: Tables, secrets: map<string, Fields>, doc: Doc, snap: Snapshot)
    requires ServersMatch(ss, secrets, doc.servers) && TablesMatch(ss.ids, ts, doc.tables) && Compilable(doc)
    requires snap.servers == ss.records && snap.tables == ts.tables && snap.columns == ts.columns
    ensures forall t :: t in snap.tables ==> TableNormal(snap, t)
  {
    hide ServersMatch, ServerOk, TableNormal, KnownServer, TableMatches, Trim;
    forall t | t in snap.tables
      ensures TableNormal(snap, t)
    {
      var i :| 0 <= i < |snap.tables| && snap.tables[i] == t;
      assert doc.tables[i] in doc.tables;
      CompiledTableNormal(ss, ts, secrets, doc, snap, i);
    }
  }

  lemma CompiledIsNormal(env: Env, doc: Doc, next: Id, now: Timestamp)
    requires Compile(env, doc, next, now).Some?
    ensures Normal(Compile(env, doc, next, now).value.0)
  {
    hide Compile, ServersMatch, TablesMatch, TableNormal, ServerNormal, FunctionNormal, CompileFunction,
         CredentialsNormal, Holds, CleanKeys, Compilable, Unique, Secrets, ListedSecrets, ServerSecrets;
    var snap, secrets := Compile(env, doc, next, now).value.0, Secrets(env, doc);
    CompilesExactlyWhen(env, doc, next, now);
    var ss, ts := Stages(env, doc, next, now);
    MatchCount(ss, secrets, doc.servers);
    CompilableNames(doc);
    SecretKeysClean(env, doc);
    CompiledCredentials(ss.reg, secrets);
    AllServersNormal(ss, secrets, doc, snap);
    AllTablesNormal(ss, ts, secrets, doc, snap);
    TablesUnique(ss.ids, ts, doc.tables);
    AllFunctionsNormal(ss, ts, secrets, doc, snap);
  }

  lemma AllFunctionsNormal(ss: Servers, ts: Tables, secrets: map<string, Fields>, doc: Doc, snap: Snapshot)
    requires ServersMatch(ss, secrets, doc.servers) && snap.servers == ss.records && |snap.functions| == |doc.functions|
    requires forall i :: 0 <= i < |doc.functions| ==>
              CompileFunction(ss.ids, ts.next + i, doc.functions[i]) == Some(snap.functions[i])
    ensures forall f :: f in snap.functions ==> FunctionNormal(snap, f)
  {
    hide ServersMatch, FunctionNormal, CompileFunction;
    forall f | f in snap.functions
      ensures FunctionNormal(snap, f)
    {
      var i :| 0 <= i < |snap.functions| && snap.functions[i] == f;
      CompiledFunctionNormal(ss, secrets, doc, snap, ts.next + i, doc.functions[i], f);
    }
  }

  lemma CompilableNames(doc: Doc)
    requires Compilable(doc)
    ensures forall s :: s in doc.servers ==> Trim(s.name) != ""
  {
    hide Trim, KnownCredential, KnownServer;
    forall s | s in doc.servers
      ensures Trim(s.name) != ""
    {
      var i :| 0 <= i < |doc.servers| && doc.servers[i] == s;
      assert ServerOk(doc, i);
    }
  }

  lemma TablesUnique(servers: map<string, Id>, ts: Tables, tables: seq<DeclTable>)
    requires TablesMatch(servers, ts, tables)
    ensures Unique(ts.tables, (t: Table) => t.id)
  {
  }

  /** Any document that compiles to distinguishable servers and tables: decompiling and compiling once more succeeds,
      and the second snapshot means what the first does exactly under the round trip's conditions. */
  lemma CompiledRoundTrip(env: Env, doc: Doc, next: Id, now: Timestamp, again: Doc, next': Id, now': Timestamp)
    requires Compile(env, doc, next, now).Some?
    requires var snap := Compile(env, doc, next, now).value.0; Distinguished(snap) && IsDocumentOf(snap, again)
    ensures var snap := Compile(env, doc, next, now).value.0;
            && Compile(env, again, next', now').Some?
            && (SameMeaning(snap, Compile(env, again, next', now').value.0)
                <==> NoClash(snap) && OwnedSecretsPresent(snap) && SecretsStable(env, snap))
  {
    hide Compile, Normal, Distinguished, IsDocumentOf, SameMeaning, NoClash, OwnedSecretsPresent, SecretsStable;
    CompiledIsNormal(env, doc, next, now);
    RoundTripExactlyWhen(env, Compile(env, doc, next, now).value.0, again, next', now');
  }

  /** The first credential listed under a name is the one that counts. */
  lemma {:induction false} FirstListedCounts(env: Env, creds: seq<DeclCredential>, k: nat)
    requires k < |creds| && Trim(creds[k].name) != ""
    requires forall j :: 0 <= j < k ==> Trim(creds[j].name) != Trim(creds[k].name)
    ensures var n := Trim(creds[k].name);
            n in ListedSecrets(env, creds) && ListedSecrets(env, creds)[n] == ExpandMap(env, creds[k].data)
  {
    hide Trim, ExpandMap;
    var before := creds[..|creds| - 1];
    if k < |creds| - 1 {
      FirstListedCounts(env, before, k);
    } else {
      ListedKeys(env, before, Trim(creds[k].name));
    }
  }

  /** The first listed credential with a server's name captures that server's inline secret, whatever the server
      gives. */
  lemma ListedCredentialCaptures(env: Env, doc: Doc, next: Id, now: Timestamp, i: nat, k: nat)
    requires Compile(env, doc, next, now).Some? && i < |doc.servers| && k < |doc.credentials|
    requires Trim(doc.credentials[k].name) == Trim(doc.servers[i].name) && doc.servers[i].credential.data != map[]
    requires forall j :: 0 <= j < k ==> Trim(doc.credentials[j].name) != Trim(doc.credentials[k].name)
    ensures var snap := Compile(env, doc, next, now).value.0;
            && i < |snap.servers|
            && ServerContentOf(snap, snap.servers[i]).credential == Some(ExpandMap(env, doc.credentials[k].data))
  {
    hide Compile, Trim, ExpandMap, ListedSecrets, ServerSecrets, SharesByName, TableContentOf, FunctionContentOf,
         DeclaredTable, DeclaredFunction, Secret, ServerContentOf, Compilable;
    CompilesExactlyWhen(env, doc, next, now);
    CompilableNames(doc);
    CompiledSays(env, doc, next, now);
    assert doc.servers[i] in doc.servers;
    FirstListedCounts(env, doc.credentials, k);
    StartSecretsStay(env, ListedSecrets(env, doc.credentials), doc.servers, Trim(doc.credentials[k].name));
  }
}
