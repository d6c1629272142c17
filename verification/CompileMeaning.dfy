/** What a compiled snapshot says once identifiers are forgotten: exactly what each entry of the document declares. */
module CompileMeaning {
  import opened Text
  import opened Meta
  import opened Seqs
  import opened Documents
  import opened Merge
  import opened Declarative
  import opened StoreSpec

  datatype ColumnContent = ColumnContent(name: string, dataType: string, remoteName: string, nullable: bool,
        position: int)

  datatype TableContent = TableContent(
    server: string, schema: string, name: string, remoteName: string, keyColumns: seq<string>,
    options: Fields, columns: seq<ColumnContent>)

  datatype FunctionContent = FunctionContent(
    server: string, schema: string, name: string, operation: string, remotePath: string,
    httpMethod: string, options: Fields)

  datatype ServerContent = ServerContent(
    name: string, protocol: string, options: Fields, enabled: bool, credential: Option<Fields>)

  // ---- The content of a snapshot. ----

  function ServerName(servers: seq<Server>, id: Id): string {
    var i := IndexWhere(servers, (s: Server) => s.id == id);
    if i < 0 then "" else servers[i].name
  }

  function Secret(creds: seq<Credential>, ref: Option<Id>): Option<Fields> {
    if ref.None? then None
    else
      var i := IndexWhere(creds, (c: Credential) => c.id == ref.value);
      if i < 0 then None else Some(creds[i].payload)
  }

  function ColumnContents(cols: seq<Column>): seq<ColumnContent> {
    seq(|cols|, i requires 0 <= i < |cols| =>
      ColumnContent(cols[i].name, cols[i].dataType, cols[i].remoteName, cols[i].nullable, cols[i].position))
  }

  function TableContentOf(snap: Snapshot, t: Table): TableContent {
    TableContent(ServerName(snap.servers, t.serverId), t.schema, t.name, t.remoteName, t.keyColumns, t.options,
                 ColumnContents(ColumnsOf(snap, t.id)))
  }

  function FunctionContentOf(snap: Snapshot, f: Function): FunctionContent {
    FunctionContent(ServerName(snap.servers, f.serverId), f.schema, f.name, f.operation, f.remotePath, f.httpMethod,
          f.options)
  }

  function ServerContentOf(snap: Snapshot, s: Server): ServerContent {
    ServerContent(s.name, s.protocol, s.options, s.enabled, Secret(snap.credentials, s.credentialRef))
  }

  // ---- What an entry of a document declares. ----

  function DeclaredColumns(cols: seq<DeclColumn>): seq<ColumnContent> {
    if cols == [] then []
    else
      var i := |cols| - 1;
      var before, c := DeclaredColumns(cols[..i]), cols[i];
      if Trim(c.name) == "" then before
      else before + [ColumnContent(c.name, if Trim(c.dataType) == "" then "text" else Trim(c.dataType), c.remoteName,
                                   if c.nullable.Some? then c.nullable.value else true,
                                   if c.position == 0 then i else c.position)]
  }

  function DeclaredTable(t: DeclTable): TableContent {
    TableContent(Trim(t.server), SchemaOf(t.schema), Trim(t.name), t.remoteName, t.keyColumns, t.options,
                 DeclaredColumns(t.columns))
  }

  function DeclaredFunction(f: DeclFunction): FunctionContent {
    FunctionContent(Trim(f.server), SchemaOf(f.schema), Trim(f.name), f.operation, f.remotePath, f.httpMethod,
          f.options)
  }

  /** The secrets by credential name: the first one given for a name, the document's own list before the servers. */
  function ListedSecrets(env: Env, creds: seq<DeclCredential>): map<string, Fields> {
    if creds == [] then map[]
    else
      var before, c := ListedSecrets(env, creds[..|creds| - 1]), creds[|creds| - 1];
      if Trim(c.name) == "" || Trim(c.name) in before then before else before[Trim(c.name) := ExpandMap(env, c.data)]
  }

  function ServerSecrets(env: Env, start: map<string, Fields>, ss: seq<DeclServer>): map<string, Fields> {
    if ss == [] then start
    else
      var before, s := ServerSecrets(env, start, ss[..|ss| - 1]), ss[|ss| - 1];
      if s.credential.data == map[] || Trim(s.name) in before then before
      else before[Trim(s.name) := ExpandMap(env, s.credential.data)]
  }

  function Secrets(env: Env, doc: Doc): map<string, Fields> {
    ServerSecrets(env, ListedSecrets(env, doc.credentials), doc.servers)
  }

  function DeclaredServer(secrets: map<string, Fields>, s: DeclServer): ServerContent {
    ServerContent(Trim(s.name), Trim(s.protocol), s.options, Enabled(s),
                  var n := CredentialName(s);
                  if n.Some? && n.value in secrets then Some(secrets[n.value]) else None)
  }

  // ---- The registry holds the secrets. ----

  ghost predicate HasRecord(r: Registry, n: string, data: Fields) {
    n in r.ids && Credential(r.ids[n], n, data) in r.records
  }

  ghost predicate Holds(r: Registry, secrets: map<string, Fields>) {
    && r.ids.Keys == secrets.Keys
    && (forall n :: n in secrets ==> HasRecord(r, n, secrets[n]))
    && (forall c :: c in r.records ==> c.id < r.next && c.name in r.ids && r.ids[c.name] == c.id)
    && Unique(r.records, (c: Credential) => c.id)
    && (forall m, n :: m in r.ids && n in r.ids && r.ids[m] == r.ids[n] ==> m == n)
  }

  lemma IdsBelowNext(r: Registry, secrets: map<string, Fields>)
    requires Holds(r, secrets)
    ensures forall m :: m in r.ids ==> r.ids[m] < r.next
  {
    hide Unique;
    forall m | m in r.ids
      ensures r.ids[m] < r.next
    {
      assert HasRecord(r, m, secrets[m]);
    }
  }

  lemma RecordsGrow(r: Registry, secrets: map<string, Fields>, n: string, data: Fields)
    requires Holds(r, secrets) && n !in secrets
    ensures var r' := Registry(r.ids[n := r.next], r.records + [Credential(r.next, n, data)], r.next + 1);
            HasRecord(r', n, data) && forall m :: m in secrets ==> HasRecord(r', m, secrets[m])
  {
    hide Unique;
    var r' := Registry(r.ids[n := r.next], r.records + [Credential(r.next, n, data)], r.next + 1);
    forall m | m in secrets
      ensures HasRecord(r', m, secrets[m])
    {
      assert HasRecord(r, m, secrets[m]);
    }
    assert HasRecord(r', n, data);
  }

  lemma RegisterHolds(env: Env, r: Registry, secrets: map<string, Fields>, name: string, data: Fields)
    requires Holds(r, secrets)
    ensures var n := Trim(name);
            Holds(Register(env, r, name, data), if n in secrets then secrets else secrets[n := ExpandMap(env, data)])
  {
    hide Trim, ExpandMap, HasRecord, Unique;
    var n := Trim(name);
    if n !in secrets {
      var c := Credential(r.next, n, ExpandMap(env, data));
      UniqueSnoc(r.records, c, (c: Credential) => c.id);
      IdsBelowNext(r, secrets);
      RecordsGrow(r, secrets, n, ExpandMap(env, data));
    }
  }

  lemma {:induction false} RegisterAllHolds(env: Env, creds: seq<DeclCredential>, next: Id)
    ensures Holds(RegisterAll(env, creds, next), ListedSecrets(env, creds))
    ensures next <= RegisterAll(env, creds, next).next
  {
    hide Holds, ExpandMap;
    if creds == [] {
      assert Holds(Registry(map[], [], next), map[]) by { EmptyHolds(next); }
    } else {
      var before, c := creds[..|creds| - 1], creds[|creds| - 1];
      RegisterAllHolds(env, before, next);
      RegisterHolds(env, RegisterAll(env, before, next), ListedSecrets(env, before), c.name, c.data);
    }
  }

  lemma EmptyHolds(next: Id)
    ensures Holds(Registry(map[], [], next), map[])
  {
  }

  /** A later registry keeps the identifiers and records of an earlier one. */
  ghost predicate Extends(a: Registry, b: Registry) {
    && (forall n :: n in a.ids ==> n in b.ids && b.ids[n] == a.ids[n])
    && a.records <= b.records && a.next <= b.next
  }

  lemma CompileServerHolds(env: Env, reg: Registry, secrets: map<string, Fields>, s: DeclServer, now: Timestamp)
    requires Holds(reg, secrets) && CompileServer(env, reg, s, now).Some?
    ensures var reg' := CompileServer(env, reg, s, now).value.0;
            && Extends(reg, reg') && reg.next < reg'.next
            && Holds(reg', if s.credential.data == map[] || Trim(s.name) in secrets then secrets
                           else secrets[Trim(s.name) := ExpandMap(env, s.credential.data)])
  {
    hide ExpandMap, Trim, Holds, Register, Extends;
    if s.credential.data == map[] {
      NextMayGrow(reg, secrets);
      ExtendsItself(reg);
    } else {
      RegisterHolds(env, reg, secrets, s.name, s.credential.data);
      RegisterExtends(env, reg, s.name, s.credential.data);
      NextMayGrow(Register(env, reg, s.name, s.credential.data),
                  if Trim(s.name) in secrets
                        then secrets else secrets[Trim(s.name) := ExpandMap(env, s.credential.data)]);
    }
  }

  lemma ExtendsItself(r: Registry)
    ensures Extends(r, r.(next := r.next + 1))
  {
  }

  lemma RegisterExtends(env: Env, r: Registry, name: string, data: Fields)
    ensures var r' := Register(env, r, name, data);
            Extends(r, r'.(next := r'.next + 1)) && r.next <= r'.next
  {
    hide ExpandMap, Trim;
  }

  lemma NextMayGrow(r: Registry, secrets: map<string, Fields>)
    requires Holds(r, secrets)
    ensures Holds(r.(next := r.next + 1), secrets)
  {
    forall n | n in secrets
      ensures HasRecord(r.(next := r.next + 1), n, secrets[n])
    {
      assert HasRecord(r, n, secrets[n]);
    }
  }

  /** A server record has what its entry declares, and refers to the credential of the entry's credential name. */
  ghost predicate ServerMatches(reg: Registry, s: DeclServer, rec: Server) {
    && rec.name == Trim(s.name) && rec.protocol == Trim(s.protocol) && rec.options == s.options
    && rec.enabled == Enabled(s)
    && (CredentialName(s).None? ==> rec.credentialRef.None?)
    && (CredentialName(s).Some? ==>
          CredentialName(s).value in reg.ids && rec.credentialRef == Some(reg.ids[CredentialName(s).value]))
  }

  ghost predicate ServersMatch(st: Servers, secrets: map<string, Fields>, ss: seq<DeclServer>) {
    && Holds(st.reg, secrets)
    && |st.records| == |ss|
    && (forall i :: 0 <= i < |ss| ==> ServerMatches(st.reg, ss[i], st.records[i]))
    && (forall i :: 0 <= i < |ss| ==> st.records[i].id < st.reg.next)
    && Unique(st.records, (s: Server) => s.id)
    && IdsKnown(st.ids, st.records)
  }

  lemma MatchesExtend(a: Registry, b: Registry, s: DeclServer, rec: Server)
    requires ServerMatches(a, s, rec) && Extends(a, b)
    ensures ServerMatches(b, s, rec)
  {
  }

  lemma NoServersMatch(start: Registry, secrets: map<string, Fields>)
    requires Holds(start, secrets)
    ensures ServersMatch(Servers(start, map[], []), secrets, [])
  {
    hide Holds;
  }

  lemma {:induction false} CompiledServersMatch(env: Env, start: Registry, secrets: map<string, Fields>,
                                                ss: seq<DeclServer>, now: Timestamp)
    requires Holds(start, secrets) && CompileServers(env, start, ss, now).Some?
    ensures ServersMatch(CompileServers(env, start, ss, now).value, ServerSecrets(env, secrets, ss), ss)
  {
    hide Holds, ServersMatch, CompileServer;
    if ss == [] {
      NoServersMatch(start, secrets);
    } else {
      var before, s := ss[..|ss| - 1], ss[|ss| - 1];
      CompiledServersMatch(env, start, secrets, before, now);
      var st := CompileServers(env, start, before, now).value;
      ServerAdded(env, st, ServerSecrets(env, secrets, before), before, s, now);
      assert ss == before + [s];
    }
  }

  /** The record a server compiles to. */
  lemma CompiledRecord(env: Env, reg: Registry, s: DeclServer, now: Timestamp)
    requires CompileServer(env, reg, s, now).Some?
    ensures var (reg', rec) := CompileServer(env, reg, s, now).value;
            reg.next <= rec.id < reg'.next && ServerMatches(reg', s, rec)
  {
    hide ExpandMap, Trim;
  }

  ghost predicate IdsKnown(ids: map<string, Id>, records: seq<Server>) {
    && (forall n :: n in ids ==> exists i :: 0 <= i < |records| && records[i].name == n && records[i].id == ids[n])
    && (forall i :: 0 <= i < |records| ==> records[i].name in ids)
  }

  lemma IdsKnownSnoc(ids: map<string, Id>, records: seq<Server>, rec: Server)
    requires IdsKnown(ids, records)
    ensures IdsKnown(ids[rec.name := rec.id], records + [rec])
  {
    var records', ids' := records + [rec], ids[rec.name := rec.id];
    forall n | n in ids'
      ensures exists i :: 0 <= i < |records'| && records'[i].name == n && records'[i].id == ids'[n]
    {
      if n == rec.name {
        assert records'[|records|] == rec;
      } else {
        var i :| 0 <= i < |records| && records[i].name == n && records[i].id == ids[n];
        assert records'[i] == records[i];
      }
    }
  }

  lemma ServerAdded(env: Env, st: Servers, secrets: map<string, Fields>, ss: seq<DeclServer>, s: DeclServer,
                    now: Timestamp)
    requires ServersMatch(st, secrets, ss) && CompileServer(env, st.reg, s, now).Some?
    ensures var (reg, rec) := CompileServer(env, st.reg, s, now).value;
            ServersMatch(Servers(reg, st.ids[rec.name := rec.id], st.records + [rec]),
                         if s.credential.data == map[] || Trim(s.name) in secrets then secrets
                         else secrets[Trim(s.name) := ExpandMap(env, s.credential.data)],
                         ss + [s])
  {
    hide Holds, ExpandMap, Trim, Extends, CompileServer, ServerMatches, IdsKnown, Unique;
    var (reg, rec) := CompileServer(env, st.reg, s, now).value;
    CompileServerHolds(env, st.reg, secrets, s, now);
    CompiledRecord(env, st.reg, s, now);
    UniqueSnoc(st.records, rec, (s: Server) => s.id);
    IdsKnownSnoc(st.ids, st.records, rec);
    forall i | 0 <= i < |ss|
      ensures ServerMatches(reg, ss[i], st.records[i])
    {
      MatchesExtend(st.reg, reg, ss[i], st.records[i]);
    }
    assert forall x :: x in st.records ==> x.id != rec.id;
  }

  // ---- Tables and columns. ----

  lemma {:induction false} CompiledColumnsShape(cols: seq<DeclColumn>, tableId: Id, next: Id)
    ensures forall c :: c in CompileColumns(cols, tableId, next) ==> c.tableId == tableId
    ensures ColumnContents(CompileColumns(cols, tableId, next)) == DeclaredColumns(cols)
  {
    if cols != [] {
      CompiledColumnsShape(cols[..|cols| - 1], tableId, next);
    }
  }

  lemma KeepOwn(cols: seq<Column>, id: Id)
    requires forall c :: c in cols ==> c.tableId == id
    ensures Keep(cols, OfTable(id)) == cols
  {
    KeepAll(cols, OfTable(id));
  }

  lemma {:induction false} KeepOthers(cols: seq<Column>, id: Id)
    requires forall c :: c in cols ==> c.tableId != id
    ensures Keep(cols, OfTable(id)) == []
  {
    if cols != [] {
      KeepOthers(cols[..|cols| - 1], id);
    }
  }

  ghost predicate TableMatches(servers: map<string, Id>, t: DeclTable, rec: Table, columns: seq<Column>) {
    && Trim(t.server) in servers && rec.serverId == servers[Trim(t.server)]
    && rec.schema == SchemaOf(t.schema) && rec.name == Trim(t.name) && rec.remoteName == t.remoteName
    && rec.keyColumns == t.keyColumns && rec.options == t.options
    && ColumnContents(Keep(columns, OfTable(rec.id))) == DeclaredColumns(t.columns)
  }

  ghost predicate TablesMatch(servers: map<string, Id>, st: Tables, ts: seq<DeclTable>) {
    && |st.tables| == |ts|
    && (forall i :: 0 <= i < |ts| ==> TableMatches(servers, ts[i], st.tables[i], st.columns))
    && (forall i :: 0 <= i < |ts| ==> st.tables[i].id < st.next)
    && (forall c :: c in st.columns ==> c.tableId < st.next)
    && Unique(st.tables, (t: Table) => t.id)
  }

  lemma TableAdded(servers: map<string, Id>, st: Tables, ts: seq<DeclTable>, t: DeclTable, rec: Table)
    requires TablesMatch(servers, st, ts) && CompileTable(servers, st.next, t) == Some(rec)
    ensures var cols := CompileColumns(t.columns, st.next, st.next + 1);
            TablesMatch(servers, Tables(st.next + 1 + |cols|, st.tables + [rec], st.columns + cols), ts + [t])
  {
    hide CompileColumns, DeclaredColumns, Keep;
    var cols := CompileColumns(t.columns, st.next, st.next + 1);
    CompiledColumnsShape(t.columns, st.next, st.next + 1);
    UniqueSnoc(st.tables, rec, (t: Table) => t.id);
    KeepConcat(st.columns, cols, OfTable(rec.id));
    KeepOwn(cols, rec.id);
    KeepOthers(st.columns, rec.id);
    assert [] + cols == cols;
    forall i | 0 <= i < |ts|
      ensures TableMatches(servers, ts[i], st.tables[i], st.columns + cols)
    {
      KeepConcat(st.columns, cols, OfTable(st.tables[i].id));
      KeepOthers(cols, st.tables[i].id);
      assert Keep(st.columns, OfTable(st.tables[i].id)) + [] == Keep(st.columns, OfTable(st.tables[i].id));
    }
  }

  lemma {:induction false} CompiledTablesMatch(servers: map<string, Id>, ts: seq<DeclTable>, next: Id)
    requires CompileTables(servers, ts, next).Some?
    ensures TablesMatch(servers, CompileTables(servers, ts, next).value, ts)
  {
    hide CompileTable, CompileColumns, TableMatches;
    if ts != [] {
      var before, t := ts[..|ts| - 1], ts[|ts| - 1];
      CompiledTablesMatch(servers, before, next);
      var st := CompileTables(servers, before, next).value;
      TableAdded(servers, st, before, t, CompileTable(servers, st.next, t).value);
      assert ts == before + [t];
    }
  }

  lemma {:induction false} CompiledFunctionsMatch(servers: map<string, Id>, fs: seq<DeclFunction>, next: Id)
    requires CompileFunctions(servers, fs, next).Some?
    ensures var out := CompileFunctions(servers, fs, next).value;
            && |out| == |fs|
            && forall i :: 0 <= i < |fs| ==> CompileFunction(servers, next + i, fs[i]) == Some(out[i])
  {
    hide CompileFunction;
    if fs != [] {
      CompiledFunctionsMatch(servers, fs[..|fs| - 1], next);
    }
  }

  // ---- The whole document. ----

  /** Entry by entry, the snapshot says what the document declares. */
  ghost predicate Says(snap: Snapshot, doc: Doc, secrets: map<string, Fields>) {
    && |snap.servers| == |doc.servers| && |snap.tables| == |doc.tables| && |snap.functions| == |doc.functions|
    && (forall i :: 0 <= i < |doc.servers| ==>
         ServerContentOf(snap, snap.servers[i]) == DeclaredServer(secrets, doc.servers[i]))
    && (forall i :: 0 <= i < |doc.tables| ==> TableContentOf(snap, snap.tables[i]) == DeclaredTable(doc.tables[i]))
    && (forall i :: 0 <= i < |doc.functions| ==>
         FunctionContentOf(snap, snap.functions[i]) == DeclaredFunction(doc.functions[i]))
  }

  /** Two servers share a credential record exactly when their entries go by the same credential name. */
  ghost predicate SharesByName(snap: Snapshot, doc: Doc) {
    && |snap.servers| == |doc.servers|
    && (forall i :: 0 <= i < |doc.servers| ==>
         (snap.servers[i].credentialRef.None? <==> CredentialName(doc.servers[i]).None?))
    && (forall i, j :: 0 <= i < |doc.servers| && 0 <= j < |doc.servers| && snap.servers[i].credentialRef.Some? ==>
          (snap.servers[i].credentialRef == snap.servers[j].credentialRef
           <==> CredentialName(doc.servers[i]) == CredentialName(doc.servers[j])))
  }

  lemma SecretOfName(reg: Registry, secrets: map<string, Fields>, n: string)
    requires Holds(reg, secrets) && n in reg.ids
    ensures n in secrets && Secret(reg.records, Some(reg.ids[n])) == Some(secrets[n])
  {
    assert HasRecord(reg, n, secrets[n]);
    var c := Credential(reg.ids[n], n, secrets[n]);
    var k :| 0 <= k < |reg.records| && reg.records[k] == c;
    var i := IndexWhere(reg.records, (c: Credential) => c.id == reg.ids[n]);
    assert i >= 0 && reg.records[i].id == c.id;
  }

  lemma RegisteredServerName(st: Servers, secrets: map<string, Fields>, ss: seq<DeclServer>, n: string)
    requires ServersMatch(st, secrets, ss) && n in st.ids
    ensures ServerName(st.records, st.ids[n]) == n
  {
    hide Holds, ServerMatches;
    var k :| 0 <= k < |ss| && st.records[k].name == n && st.records[k].id == st.ids[n];
    var i := IndexWhere(st.records, (s: Server) => s.id == st.ids[n]);
    assert i >= 0;
  }

  lemma CompiledServerContent(st: Servers, secrets: map<string, Fields>, ss: seq<DeclServer>, snap: Snapshot, i: nat)
    requires ServersMatch(st, secrets, ss) && i < |ss|
    requires snap.servers == st.records && snap.credentials == st.reg.records
    ensures ServerContentOf(snap, snap.servers[i]) == DeclaredServer(secrets, ss[i])
  {
    var n := CredentialName(ss[i]);
    assert ServerMatches(st.reg, ss[i], st.records[i]);
    if n.Some? {
      SecretOfName(st.reg, secrets, n.value);
    }
  }

  /** The stages of a successful compilation. */
  lemma Stages(env: Env, doc: Doc, next: Id, now: Timestamp) returns (ss: Servers, ts: Tables)
    requires Compile(env, doc, next, now).Some?
    ensures var snap := Compile(env, doc, next, now).value.0;
            && ServersMatch(ss, Secrets(env, doc), doc.servers) && TablesMatch(ss.ids, ts, doc.tables)
            && snap.credentials == ss.reg.records && snap.servers == ss.records
            && snap.tables == ts.tables && snap.columns == ts.columns
            && |snap.functions| == |doc.functions|
            && forall i :: 0 <= i < |doc.functions| ==>
                 CompileFunction(ss.ids, ts.next + i, doc.functions[i]) == Some(snap.functions[i])
  {
    hide CompileServers, CompileTables, CompileFunctions, RegisterAll, ServersMatch, TablesMatch, Holds,
         CompileFunction;
    var start := RegisterAll(env, doc.credentials, next);
    RegisterAllHolds(env, doc.credentials, next);
    CompiledServersMatch(env, start, ListedSecrets(env, doc.credentials), doc.servers, now);
    ss := CompileServers(env, start, doc.servers, now).value;
    CompiledTablesMatch(ss.ids, doc.tables, ss.reg.next);
    ts := CompileTables(ss.ids, doc.tables, ss.reg.next).value;
    CompiledFunctionsMatch(ss.ids, doc.functions, ts.next);
  }

  /** Compilation means what the document declares. */
  lemma CompiledSays(env: Env, doc: Doc, next: Id, now: Timestamp)
    requires Compile(env, doc, next, now).Some?
    ensures Says(Compile(env, doc, next, now).value.0, doc, Secrets(env, doc))
    ensures SharesByName(Compile(env, doc, next, now).value.0, doc)
  {
    hide Compile, ServersMatch, TablesMatch, ServerContentOf, DeclaredServer, TableContentOf, DeclaredTable,
         FunctionContentOf, DeclaredFunction, SharesByName, CompileFunction, Secrets;
    var snap, secrets := Compile(env, doc, next, now).value.0, Secrets(env, doc);
    var ss, ts := Stages(env, doc, next, now);
    MatchSizes(ss, secrets, doc, ts);
    forall i | 0 <= i < |doc.servers|
      ensures ServerContentOf(snap, snap.servers[i]) == DeclaredServer(secrets, doc.servers[i])
    {
      CompiledServerContent(ss, secrets, doc.servers, snap, i);
    }
    forall i | 0 <= i < |doc.tables|
      ensures TableContentOf(snap, snap.tables[i]) == DeclaredTable(doc.tables[i])
    {
      CompiledTableContent(ss, secrets, doc.servers, ts, doc.tables, snap, i);
    }
    forall i | 0 <= i < |doc.functions|
      ensures FunctionContentOf(snap, snap.functions[i]) == DeclaredFunction(doc.functions[i])
    {
      CompiledFunctionContent(ss, secrets, doc.servers, doc.functions[i], ts.next + i, snap, snap.functions[i]);
    }
    RefsShareByName(ss, secrets, doc.servers, snap, doc);
  }

  lemma MatchSizes(ss: Servers, secrets: map<string, Fields>, doc: Doc, ts: Tables)
    requires ServersMatch(ss, secrets, doc.servers) && TablesMatch(ss.ids, ts, doc.tables)
    ensures |ss.records| == |doc.servers| && |ts.tables| == |doc.tables|
  {
  }

  lemma CompiledTableContent(ss: Servers, secrets: map<string, Fields>, entries: seq<DeclServer>, ts: Tables,
                             tables: seq<DeclTable>, snap: Snapshot, i: nat)
    requires ServersMatch(ss, secrets, entries) && TablesMatch(ss.ids, ts, tables) && i < |tables|
    requires snap.servers == ss.records && snap.tables == ts.tables && snap.columns == ts.columns
    ensures TableContentOf(snap, snap.tables[i]) == DeclaredTable(tables[i])
  {
    hide Holds, Keep, DeclaredColumns;
    assert TableMatches(ss.ids, tables[i], ts.tables[i], ts.columns);
    RegisteredServerName(ss, secrets, entries, Trim(tables[i].server));
  }

  lemma CompiledFunctionContent(ss: Servers, secrets: map<string, Fields>, entries: seq<DeclServer>, f: DeclFunction,
                                id: Id, snap: Snapshot, rec: Function)
    requires ServersMatch(ss, secrets, entries) && CompileFunction(ss.ids, id, f) == Some(rec)
    requires snap.servers == ss.records
    ensures FunctionContentOf(snap, rec) == DeclaredFunction(f)
  {
    RegisteredServerName(ss, secrets, entries, Trim(f.server));
  }

  lemma RefsShareByName(ss: Servers, secrets: map<string, Fields>, entries: seq<DeclServer>, snap: Snapshot, doc: Doc)
    requires ServersMatch(ss, secrets, entries) && snap.servers == ss.records && doc.servers == entries
    ensures SharesByName(snap, doc)
  {
    hide Holds, ServerMatches, CredentialName, IdsKnown, Unique;
    forall i, j | 0 <= i < |entries| && 0 <= j < |entries|
      ensures snap.servers[i].credentialRef.None? <==> CredentialName(entries[i]).None?
      ensures snap.servers[i].credentialRef.Some? ==>
                (snap.servers[i].credentialRef == snap.servers[j].credentialRef
                 <==> CredentialName(entries[i]) == CredentialName(entries[j]))
    {
      TwoShare(ss.reg, secrets, entries[i], entries[j], ss.records[i], ss.records[j]);
    }
  }

  lemma TwoShare(reg: Registry, secrets: map<string, Fields>, s: DeclServer, t: DeclServer, a: Server, b: Server)
    requires Holds(reg, secrets) && ServerMatches(reg, s, a) && ServerMatches(reg, t, b)
    ensures a.credentialRef.None? <==> CredentialName(s).None?
    ensures a.credentialRef.Some? ==> (a.credentialRef == b.credentialRef <==> CredentialName(s) == CredentialName(t))
  {
    hide CredentialName, HasRecord, Unique;
  }

  // ---- When compilation succeeds. ----

  /** A credential of that name is listed, or comes inline with an earlier server of that name. */
  ghost predicate KnownCredential(creds: seq<DeclCredential>, earlier: seq<DeclServer>, n: string) {
    || (exists c :: c in creds && Trim(c.name) == n)
    || (exists s :: s in earlier && s.credential.data != map[] && Trim(s.name) == n)
  }

  ghost predicate ServerOk(doc: Doc, i: nat)
    requires i < |doc.servers|
  {
    var s := doc.servers[i];
    && Trim(s.name) != "" && Trim(s.protocol) != ""
    && (s.credential.data == map[] && Trim(s.credential.name) != "" ==>
          KnownCredential(doc.credentials, doc.servers[..i], Trim(s.credential.name)))
  }

  ghost predicate KnownServer(doc: Doc, server: string) {
    exists s :: s in doc.servers && Trim(s.name) == Trim(server)
  }

  ghost predicate Compilable(doc: Doc) {
    && (forall i :: 0 <= i < |doc.servers| ==> ServerOk(doc, i))
    && (forall t :: t in doc.tables ==> Trim(t.server) != "" && Trim(t.name) != "" && KnownServer(doc, t.server))
    && (forall f :: f in doc.functions ==>
          Trim(f.server) != "" && Trim(f.name) != "" && Trim(f.operation) != "" && KnownServer(doc, f.server))
  }

  lemma {:induction false} ListedKeys(env: Env, creds: seq<DeclCredential>, n: string)
    requires n != ""
    ensures n in ListedSecrets(env, creds) <==> exists c :: c in creds && Trim(c.name) == n
  {
    hide Trim, ExpandMap;
    if creds != [] {
      var before, c := creds[..|creds| - 1], creds[|creds| - 1];
      ListedKeys(env, before, n);
      assert creds == before + [c];
    }
  }

  lemma {:induction false} ServerKeys(env: Env, start: map<string, Fields>, ss: seq<DeclServer>, n: string)
    ensures n in ServerSecrets(env, start, ss)
            <==> n in start || exists s :: s in ss && s.credential.data != map[] && Trim(s.name) == n
  {
    hide Trim, ExpandMap;
    if ss != [] {
      var before, s := ss[..|ss| - 1], ss[|ss| - 1];
      ServerKeys(env, start, before, n);
      assert ss == before + [s];
    }
  }

  lemma OneServerCompiles(env: Env, reg: Registry, secrets: map<string, Fields>, s: DeclServer, now: Timestamp)
    requires Holds(reg, secrets)
    ensures CompileServer(env, reg, s, now).Some?
            <==> && Trim(s.name) != "" && Trim(s.protocol) != ""
                 && (s.credential.data == map[] && Trim(s.credential.name) != "" ==> Trim(s.credential.name) in secrets)
  {
    hide Trim, ExpandMap;
  }

  /** Once the servers before it have compiled, a server compiles exactly when its entry is in order. */
  lemma NextServerCompiles(env: Env, doc: Doc, next: Id, i: nat, now: Timestamp)
    requires i < |doc.servers|
    requires CompileServers(env, RegisterAll(env, doc.credentials, next), doc.servers[..i], now).Some?
    ensures var st := CompileServers(env, RegisterAll(env, doc.credentials, next), doc.servers[..i], now).value;
            CompileServer(env, st.reg, doc.servers[i], now).Some? <==> ServerOk(doc, i)
  {
    hide CompileServer, CompileServers, RegisterAll, Holds, Trim, ServersMatch, ListedSecrets, ServerSecrets;
    var start, before := RegisterAll(env, doc.credentials, next), doc.servers[..i];
    var listed := ListedSecrets(env, doc.credentials);
    RegisterAllHolds(env, doc.credentials, next);
    CompiledServersMatch(env, start, listed, before, now);
    var st := CompileServers(env, start, before, now).value;
    MatchHolds(st, ServerSecrets(env, listed, before), before);
    var s := doc.servers[i];
    OneServerCompiles(env, st.reg, ServerSecrets(env, listed, before), s, now);
    var wanted := Trim(s.credential.name);
    if wanted != "" {
      ServerKeys(env, listed, before, wanted);
      ListedKeys(env, doc.credentials, wanted);
      assert KnownCredential(doc.credentials, before, wanted) <==> wanted in ServerSecrets(env, listed, before);
    }
  }

  lemma {:induction false} ServersCompile(env: Env, doc: Doc, next: Id, n: nat, now: Timestamp)
    requires n <= |doc.servers|
    ensures CompileServers(env, RegisterAll(env, doc.credentials, next), doc.servers[..n], now).Some?
            <==> forall i :: 0 <= i < n ==> ServerOk(doc, i)
  {
    hide CompileServer, RegisterAll, ServerOk;
    if n > 0 {
      ServersCompile(env, doc, next, n - 1, now);
      var start, before := RegisterAll(env, doc.credentials, next), doc.servers[..n - 1];
      assert doc.servers[..n][..n - 1] == before;
      if CompileServers(env, start, before, now).Some? {
        NextServerCompiles(env, doc, next, n - 1, now);
      }
    }
  }

  lemma MatchHolds(st: Servers, secrets: map<string, Fields>, ss: seq<DeclServer>)
    requires ServersMatch(st, secrets, ss)
    ensures Holds(st.reg, secrets)
    ensures forall n :: n in st.ids <==> exists s :: s in ss && Trim(s.name) == n
  {
    hide Holds;
    forall n
      ensures n in st.ids <==> exists s :: s in ss && Trim(s.name) == n
    {
      if n in st.ids {
        var i :| 0 <= i < |ss| && st.records[i].name == n && st.records[i].id == st.ids[n];
        assert ServerMatches(st.reg, ss[i], st.records[i]) && ss[i] in ss;
      }
      if s :| s in ss && Trim(s.name) == n {
        var i :| 0 <= i < |ss| && ss[i] == s;
        assert ServerMatches(st.reg, ss[i], st.records[i]);
      }
    }
  }

  predicate TableOk(servers: map<string, Id>, t: DeclTable) {
    Trim(t.server) != "" && Trim(t.name) != "" && Trim(t.server) in servers
  }

  predicate FunctionOk(servers: map<string, Id>, f: DeclFunction) {
    Trim(f.server) != "" && Trim(f.name) != "" && Trim(f.operation) != "" && Trim(f.server) in servers
  }

  lemma OneTableCompiles(servers: map<string, Id>, id: Id, t: DeclTable)
    ensures CompileTable(servers, id, t).Some? <==> TableOk(servers, t)
  {
    hide Trim;
  }

  lemma OneFunctionCompiles(servers: map<string, Id>, id: Id, f: DeclFunction)
    ensures CompileFunction(servers, id, f).Some? <==> FunctionOk(servers, f)
  {
    hide Trim;
  }

  lemma {:induction false} TablesCompile(servers: map<string, Id>, ts: seq<DeclTable>, next: Id)
    ensures CompileTables(servers, ts, next).Some? <==> forall t :: t in ts ==> TableOk(servers, t)
  {
    hide CompileTable, CompileColumns, TableOk;
    if ts != [] {
      var before, t := ts[..|ts| - 1], ts[|ts| - 1];
      TablesCompile(servers, before, next);
      if CompileTables(servers, before, next).Some? {
        OneTableCompiles(servers, CompileTables(servers, before, next).value.next, t);
      }
      assert ts == before + [t];
    }
  }

  lemma {:induction false} FunctionsCompile(servers: map<string, Id>, fs: seq<DeclFunction>, next: Id)
    ensures CompileFunctions(servers, fs, next).Some? <==> forall f :: f in fs ==> FunctionOk(servers, f)
  {
    hide CompileFunction, FunctionOk;
    if fs != [] {
      var before, f := fs[..|fs| - 1], fs[|fs| - 1];
      FunctionsCompile(servers, before, next);
      if CompileFunctions(servers, before, next).Some? {
        OneFunctionCompiles(servers, next + |CompileFunctions(servers, before, next).value|, f);
      }
      assert fs == before + [f];
    }
  }

  /** Compilation fails exactly when a name, a protocol or an operation is blank, a server's credential name is unknown
      by the time the server is reached, or a table or function belongs to no server of the document. */
  lemma CompilesExactlyWhen(env: Env, doc: Doc, next: Id, now: Timestamp)
    ensures Compile(env, doc, next, now).Some? <==> Compilable(doc)
  {
    hide CompileServers, CompileTables, CompileFunctions, RegisterAll, ServersMatch, Trim, ServerOk;
    var start, listed := RegisterAll(env, doc.credentials, next), ListedSecrets(env, doc.credentials);
    ServersCompile(env, doc, next, |doc.servers|, now);
    assert doc.servers[..|doc.servers|] == doc.servers;
    var ss := CompileServers(env, start, doc.servers, now);
    if ss.Some? {
      RegisterAllHolds(env, doc.credentials, next);
      CompiledServersMatch(env, start, listed, doc.servers, now);
      MatchHolds(ss.value, ServerSecrets(env, listed, doc.servers), doc.servers);
      TablesCompile(ss.value.ids, doc.tables, ss.value.reg.next);
      var ts := CompileTables(ss.value.ids, doc.tables, ss.value.reg.next);
      if ts.Some? {
        FunctionsCompile(ss.value.ids, doc.functions, ts.value.next);
      }
    }
  }
}
