/** compileDeclarative: a document becomes a snapshot with identifiers, links, defaults and one sealed record for
    each credential name. */
module Declarative {
  import opened Text
  import opened Meta
  import opened Documents
  import opened Merge

  type Env = map<string, string>

  /** "${KEY}" becomes the variable's value if that is not empty. */
  function ExpandValue(env: Env, v: Json): Json {
    match v
    case Other(_) => v
    case Str(s) =>
      if HasPrefix(s, "${") && HasSuffix(s, "}") then
        var key := s[2..|s| - 1];
        if key in env && env[key] != "" then Str(env[key]) else v
      else v
  }

  function ExpandMap(env: Env, m: Fields): Fields {
    map k | k in m :: ExpandValue(env, m[k])
  }

  method ExpandEnvMap(env: Env, m: Fields) returns (out: Fields)
    ensures out == ExpandMap(env, m)
  {
    hide ExpandValue;
    out := map[];
    var rest := m;
    while rest != map[]
      invariant forall k :: k in rest ==> k in m && rest[k] == m[k]
      invariant forall k :: k in m <==> k in rest || k in out
      invariant forall k :: k in out ==> k !in rest && out[k] == ExpandValue(env, m[k])
      decreases |rest|
    {
      var k :| k in rest;
      out := out[k := ExpandValue(env, rest[k])];
      rest := rest - {k};
    }
  }

  // ---- Credentials. ----

  /** Identifiers by credential name, the records in order, and the identifier supply. */
  datatype Registry = Registry(ids: map<string, Id>, records: seq<Credential>, next: Id)

  /** registerCred for a name that is not blank: the first registration of a name wins. */
  function Register(env: Env, r: Registry, name: string, data: Fields): Registry {
    var n := Trim(name);
    if n in r.ids then r
    else Registry(r.ids[n := r.next], r.records + [Credential(r.next, n, ExpandMap(env, data))], r.next + 1)
  }

  function RegisterAll(env: Env, creds: seq<DeclCredential>, next: Id): Registry {
    if creds == [] then Registry(map[], [], next)
    else
      var r, c := RegisterAll(env, creds[..|creds| - 1], next), creds[|creds| - 1];
      if Trim(c.name) == "" then r else Register(env, r, c.name, c.data)
  }

  // ---- Servers. ----

  datatype Servers = Servers(reg: Registry, ids: map<string, Id>, records: seq<Server>)

  /** The name under which a server's credential is registered or looked up, if it has one. */
  function CredentialName(s: DeclServer): Option<string> {
    if s.credential.data != map[] then Some(Trim(s.name))
    else if Trim(s.credential.name) != "" then Some(Trim(s.credential.name))
    else None
  }

  function Enabled(s: DeclServer): bool {
    if s.enabled.Some? then s.enabled.value else true
  }

  /** One server: the registry with its credential and its identifier taken, and its record. */
  function CompileServer(env: Env, before: Registry, s: DeclServer, now: Timestamp): Option<(Registry, Server)> {
    if Trim(s.name) == "" || Trim(s.protocol) == "" then None
    else
      var reg := if s.credential.data != map[] then Register(env, before, s.name, s.credential.data) else before;
      var cred := CredentialName(s);
      if cred.Some? && cred.value !in reg.ids then None
      else
        var ref := if cred.Some? then Some(reg.ids[cred.value]) else None;
        Some((reg.(next := reg.next + 1),
              Server(reg.next, Trim(s.name), Trim(s.protocol), s.options, ref, Enabled(s), now)))
  }

  function CompileServers(env: Env, start: Registry, ss: seq<DeclServer>, now: Timestamp): Option<Servers> {
    if ss == [] then Some(Servers(start, map[], []))
    else match CompileServers(env, start, ss[..|ss| - 1], now)
         case None => None
         case Some(st) =>
           match CompileServer(env, st.reg, ss[|ss| - 1], now)
           case None => None
           case Some((reg, rec)) => Some(Servers(reg, st.ids[rec.name := rec.id], st.records + [rec]))
  }

  // ---- Tables and their columns. ----

  /** Columns with a blank name are skipped; position 0 means the place in the document. */
  function CompileColumns(cols: seq<DeclColumn>, tableId: Id, next: Id): seq<Column> {
    if cols == [] then []
    else
      var i := |cols| - 1;
      var before, c := CompileColumns(cols[..i], tableId, next), cols[i];
      if Trim(c.name) == "" then before
      else before
            + [Column(next + |before|, tableId, c.name, if Trim(c.dataType) == "" then "text" else Trim(c.dataType),
                            c.remoteName, if c.nullable.Some? then c.nullable.value else true,
                            if c.position == 0 then i else c.position)]
  }

  datatype Tables = Tables(next: Id, tables: seq<Table>, columns: seq<Column>)

  function CompileTable(servers: map<string, Id>, id: Id, t: DeclTable): Option<Table> {
    if Trim(t.server) == "" || Trim(t.name) == "" || Trim(t.server) !in servers then None
    else Some(Table(id, servers[Trim(t.server)], SchemaOf(t.schema), Trim(t.name), t.remoteName, t.keyColumns,
          t.options))
  }

  function CompileTables(servers: map<string, Id>, ts: seq<DeclTable>, next: Id): Option<Tables> {
    if ts == [] then Some(Tables(next, [], []))
    else match CompileTables(servers, ts[..|ts| - 1], next)
         case None => None
         case Some(st) =>
           match CompileTable(servers, st.next, ts[|ts| - 1])
           case None => None
           case Some(t) =>
             var cols := CompileColumns(ts[|ts| - 1].columns, st.next, st.next + 1);
             Some(Tables(st.next + 1 + |cols|, st.tables + [t], st.columns + cols))
  }

  // ---- Functions. ----

  function CompileFunction(servers: map<string, Id>, id: Id, f: DeclFunction): Option<Function> {
    if Trim(f.server) == "" || Trim(f.name) == "" || Trim(f.operation) == "" || Trim(f.server) !in servers then None
    else Some(Function(id, servers[Trim(f.server)], SchemaOf(f.schema), Trim(f.name), f.operation, f.remotePath,
                       f.httpMethod, f.options))
  }

  function CompileFunctions(servers: map<string, Id>, fs: seq<DeclFunction>, next: Id): Option<seq<Function>> {
    if fs == [] then Some([])
    else match CompileFunctions(servers, fs[..|fs| - 1], next)
         case None => None
         case Some(before) =>
           match CompileFunction(servers, next + |before|, fs[|fs| - 1])
           case None => None
           case Some(f) => Some(before + [f])
  }

  /** The compiled snapshot and the first unused identifier, or nothing if the document is in error. */
  function Compile(env: Env, doc: Doc, next: Id, now: Timestamp): Option<(Snapshot, Id)> {
    match CompileServers(env, RegisterAll(env, doc.credentials, next), doc.servers, now)
    case None => None
    case Some(ss) =>
      match CompileTables(ss.ids, doc.tables, ss.reg.next)
      case None => None
      case Some(ts) =>
        match CompileFunctions(ss.ids, doc.functions, ts.next)
        case None => None
        case Some(fs) => Some((Snapshot(ss.reg.records, ss.records, ts.tables, ts.columns, fs), ts.next + |fs|))
  }

  // ---- The loops. ----

  /** The closure registerCred with the state it captures. */
  class Registrar {
    const env: Env
    var ids: map<string, Id>
    var records: seq<Credential>
    var next: Id

    function View(): Registry
      reads this
    {
      Registry(ids, records, next)
    }

    constructor (env: Env, next: Id)
      ensures this.env == env && View() == Registry(map[], [], next)
    {
      this.env := env;
      ids, records, this.next := map[], [], next;
    }

    method NewId() returns (id: Id)
      modifies this
      ensures id == old(next) && View() == old(View()).(next := old(next) + 1)
    {
      id := next;
      next := next + 1;
    }

    method RegisterCredential(name: string, data: Fields) returns (id: Option<Id>)
      modifies this
      ensures id.None? <==> Trim(name) == ""
      ensures id.None? ==> View() == old(View())
      ensures id.Some? ==> View() == Register(env, old(View()), name, data) && ids[Trim(name)] == id.value
      ensures id.Some? ==> Trim(name) in ids
    {
      var n := Trim(name);
      if n == "" {
        return None;
      }
      if n in ids {
        return Some(ids[n]);
      }
      var payload := ExpandEnvMap(env, data);
      var newcomers := NewId();
      ids := ids[n := newcomers];
      records := records + [Credential(newcomers, n, payload)];
      return Some(newcomers);
    }
  }

  /** One round of the server loop; `reg` changes as the closure does. */
  method CompileOneServer(reg: Registrar, s: DeclServer, now: Timestamp) returns (r: Option<Server>)
    modifies reg
    ensures var done := CompileServer(reg.env, old(reg.View()), s, now);
            if r.None? then done.None? else done == Some((reg.View(), r.value))
  {
    hide Trim, ExpandMap;
    var name := Trim(s.name);
    if name == "" || Trim(s.protocol) == "" {
      return None;
    }
    var enabled := true;
    if s.enabled.Some? {
      enabled := s.enabled.value;
    }
    var ref: Option<Id> := None;
    if |s.credential.data| > 0 {
      ref := reg.RegisterCredential(s.name, s.credential.data);
    } else if Trim(s.credential.name) != "" {
      var wanted := Trim(s.credential.name);
      if wanted !in reg.ids {
        return None;
      }
      ref := Some(reg.ids[wanted]);
    }
    var id := reg.NewId();
    return Some(Server(id, name, Trim(s.protocol), s.options, ref, enabled, now));
  }

  method CompileServerList(reg: Registrar, ss: seq<DeclServer>, now: Timestamp)
    returns (r: Option<(map<string, Id>, seq<Server>)>)
    modifies reg
    ensures var done := CompileServers(reg.env, old(reg.View()), ss, now);
            if r.None? then done.None? else done == Some(Servers(reg.View(), r.value.0, r.value.1))
  {
    hide CompileServer;
    var ids: map<string, Id> := map[];
    var records: seq<Server> := [];
    ghost var start := reg.View();
    for i := 0 to |ss|
      invariant CompileServers(reg.env, start, ss[..i], now) == Some(Servers(reg.View(), ids, records))
    {
      assert ss[..i + 1][..i] == ss[..i];
      var rec := CompileOneServer(reg, ss[i], now);
      if rec.None? {
        FailedPrefix(reg.env, start, ss, now, i + 1);
        return None;
      }
      ids := ids[rec.value.name := rec.value.id];
      records := records + [rec.value];
    }
    assert ss[..|ss|] == ss;
    return Some((ids, records));
  }

  lemma {:induction false} FailedPrefix(env: Env, start: Registry, ss: seq<DeclServer>, now: Timestamp, n: nat)
    requires n <= |ss| && CompileServers(env, start, ss[..n], now).None?
    ensures CompileServers(env, start, ss, now).None?
    decreases |ss|
  {
    if n == |ss| {
      assert ss[..n] == ss;
    } else {
      assert ss[..|ss| - 1][..n] == ss[..n];
      FailedPrefix(env, start, ss[..|ss| - 1], now, n);
    }
  }

  method CompileColumnList(cols: seq<DeclColumn>, tableId: Id, next: Id) returns (out: seq<Column>)
    ensures out == CompileColumns(cols, tableId, next)
  {
    out := [];
    var id := next;
    for i := 0 to |cols|
      invariant out == CompileColumns(cols[..i], tableId, next) && id == next + |out|
    {
      assert cols[..i + 1][..i] == cols[..i];
      var c := cols[i];
      if Trim(c.name) == "" {
        continue;
      }
      var dt := Trim(c.dataType);
      if dt == "" {
        dt := "text";
      }
      var nullable := true;
      if c.nullable.Some? {
        nullable := c.nullable.value;
      }
      var pos := c.position;
      if pos == 0 {
        pos := i;
      }
      out := out + [Column(id, tableId, c.name, dt, c.remoteName, nullable, pos)];
      id := id + 1;
    }
    assert cols[..|cols|] == cols;
  }

  method CompileOneTable(servers: map<string, Id>, id: Id, t: DeclTable) returns (r: Option<Table>)
    ensures r == CompileTable(servers, id, t)
  {
    var serverName := Trim(t.server);
    var tableName := Trim(t.name);
    if serverName == "" || tableName == "" || serverName !in servers {
      return None;
    }
    var schema := Trim(t.schema);
    if schema == "" {
      schema := "public";
    }
    return Some(Table(id, servers[serverName], schema, tableName, t.remoteName, t.keyColumns, t.options));
  }

  method CompileTableList(servers: map<string, Id>, ts: seq<DeclTable>, next: Id) returns (r: Option<Tables>)
    ensures r == CompileTables(servers, ts, next)
  {
    hide CompileColumns, CompileTable;
    var st := Tables(next, [], []);
    for i := 0 to |ts|
      invariant CompileTables(servers, ts[..i], next) == Some(st)
    {
      assert ts[..i + 1][..i] == ts[..i];
      var table := CompileOneTable(servers, st.next, ts[i]);
      if table.None? {
        FailedTablePrefix(servers, ts, next, i + 1);
        return None;
      }
      var cols := CompileColumnList(ts[i].columns, st.next, st.next + 1);
      st := Tables(st.next + 1 + |cols|, st.tables + [table.value], st.columns + cols);
    }
    assert ts[..|ts|] == ts;
    return Some(st);
  }

  lemma {:induction false} FailedTablePrefix(servers: map<string, Id>, ts: seq<DeclTable>, next: Id, n: nat)
    requires n <= |ts| && CompileTables(servers, ts[..n], next).None?
    ensures CompileTables(servers, ts, next).None?
    decreases |ts|
  {
    if n == |ts| {
      assert ts[..n] == ts;
    } else {
      assert ts[..|ts| - 1][..n] == ts[..n];
      FailedTablePrefix(servers, ts[..|ts| - 1], next, n);
    }
  }

  method CompileOneFunction(servers: map<string, Id>, id: Id, f: DeclFunction) returns (r: Option<Function>)
    ensures r == CompileFunction(servers, id, f)
  {
    var serverName := Trim(f.server);
    var name := Trim(f.name);
    if serverName == "" || name == "" || Trim(f.operation) == "" || serverName !in servers {
      return None;
    }
    var schema := Trim(f.schema);
    if schema == "" {
      schema := "public";
    }
    return Some(Function(id, servers[serverName], schema, name, f.operation, f.remotePath, f.httpMethod, f.options));
  }

  method CompileFunctionList(servers: map<string, Id>, fs: seq<DeclFunction>,
                             next: Id) returns (r: Option<seq<Function>>)
    ensures r == CompileFunctions(servers, fs, next)
  {
    hide CompileFunction;
    var out: seq<Function> := [];
    for i := 0 to |fs|
      invariant CompileFunctions(servers, fs[..i], next) == Some(out)
    {
      assert fs[..i + 1][..i] == fs[..i];
      var f := CompileOneFunction(servers, next + |out|, fs[i]);
      if f.None? {
        FailedFunctionPrefix(servers, fs, next, i + 1);
        return None;
      }
      out := out + [f.value];
    }
    assert fs[..|fs|] == fs;
    return Some(out);
  }

  lemma {:induction false} FailedFunctionPrefix(servers: map<string, Id>, fs: seq<DeclFunction>, next: Id, n: nat)
    requires n <= |fs| && CompileFunctions(servers, fs[..n], next).None?
    ensures CompileFunctions(servers, fs, next).None?
    decreases |fs|
  {
    if n == |fs| {
      assert fs[..n] == fs;
    } else {
      assert fs[..|fs| - 1][..n] == fs[..n];
      FailedFunctionPrefix(servers, fs[..|fs| - 1], next, n);
    }
  }

  method RegisterCredentials(reg: Registrar, creds: seq<DeclCredential>)
    requires reg.ids == map[] && reg.records == []
    modifies reg
    ensures reg.View() == RegisterAll(reg.env, creds, old(reg.next))
  {
    for i := 0 to |creds|
      invariant reg.View() == RegisterAll(reg.env, creds[..i], old(reg.next))
    {
      assert creds[..i + 1][..i] == creds[..i];
      if Trim(creds[i].name) == "" {
        continue;
      }
      var id := reg.RegisterCredential(creds[i].name, creds[i].data);
    }
    assert creds[..|creds|] == creds;
  }

  /** compileDeclarative */
  method CompileDeclarative(env: Env, doc: Doc, next: Id, now: Timestamp) returns (r: Option<(Snapshot, Id)>)
    ensures r == Compile(env, doc, next, now)
  {
    hide CompileServers, CompileTables, CompileFunctions, RegisterAll;
    var reg := new Registrar(env, next);
    RegisterCredentials(reg, doc.credentials);
    var ss := CompileServerList(reg, doc.servers, now);
    if ss.None? {
      return None;
    }
    var ts := CompileTableList(ss.value.0, doc.tables, reg.next);
    if ts.None? {
      return None;
    }
    var fs := CompileFunctionList(ss.value.0, doc.functions, ts.value.next);
    if fs.None? {
      return None;
    }
    var snap := Snapshot(reg.records, ss.value.1, ts.value.tables, ts.value.columns, fs.value);
    return Some((snap, ts.value.next + |fs.value|));
  }
}
