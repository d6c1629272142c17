/** decompileDeclarative: a snapshot becomes a document again. */
module Decompile {
  import opened Text
  import opened Meta
  import opened Seqs
  import opened Documents
  import opened StoreSpec
  import Range

  /** The last index whose element satisfies p, or -1: what a map filled in a loop ends up holding. */
  function LastWhere<T>(s: seq<T>, p: T -> bool): (i: int)
    ensures -1 <= i < |s|
    ensures i >= 0 ==> p(s[i])
    ensures forall j :: i < j < |s| ==> !p(s[j])
  {
    if s == [] then -1
    else if p(s[|s| - 1]) then |s| - 1
    else LastWhere(s[..|s| - 1], p)
  }

  /** How many servers refer to the credential. */
  function RefCount(servers: seq<Server>, id: Id): nat {
    if servers == [] then 0
    else RefCount(servers[..|servers| - 1], id) + if servers[|servers| - 1].credentialRef == Some(id) then 1 else 0
  }

  function OpenedPayload(creds: seq<Credential>, id: Id): Option<Fields> {
    var i := LastWhere(creds, (c: Credential) => c.id == id);
    if i < 0 then None else Some(creds[i].payload)
  }

  /** The name of the credential with an identifier, or else the identifier's own text. */
  function CredentialNameForID(creds: seq<Credential>, id: Id): string {
    var i := IndexWhere(creds, (c: Credential) => c.id == id);
    if i < 0 then Range.Digits(id) else creds[i].name
  }

  function NameOfServer(servers: seq<Server>, id: Id): string {
    var i := LastWhere(servers, (s: Server) => s.id == id);
    if i < 0 then "" else servers[i].name
  }

  /** A secret that one server owns is given inline, a shared one by name. */
  function CredentialFieldOf(snap: Snapshot, ref: Option<Id>): CredentialField {
    if ref.None? then CredentialField("", map[])
    else
      var data := OpenedPayload(snap.credentials, ref.value);
      if data.None? then CredentialField("", map[])
      else if RefCount(snap.servers, ref.value) == 1 then CredentialField("", data.value)
      else CredentialField(CredentialNameForID(snap.credentials, ref.value), map[])
  }

  function ServerEntry(snap: Snapshot, s: Server): DeclServer {
    DeclServer(s.name, s.protocol, CredentialFieldOf(snap, s.credentialRef), Some(s.enabled), s.options)
  }

  predicate IsShared(snap: Snapshot, id: Id) {
    RefCount(snap.servers, id) > 1 && OpenedPayload(snap.credentials, id).Some?
  }

  /** The shared credentials, in the order in which the reference counts are iterated. */
  function SharedEntries(snap: Snapshot, order: seq<Id>): seq<DeclCredential> {
    if order == [] then []
    else
      var before, id := SharedEntries(snap, order[..|order| - 1]), order[|order| - 1];
      if IsShared(snap, id) then
        before + [DeclCredential(CredentialNameForID(snap.credentials, id), OpenedPayload(snap.credentials, id).value)]
      else before
  }

  function ColumnEntry(c: Column): DeclColumn {
    DeclColumn(c.name, c.dataType, c.remoteName, Some(c.nullable), c.position)
  }

  function ColumnEntries(cols: seq<Column>): seq<DeclColumn> {
    seq(|cols|, i requires 0 <= i < |cols| => ColumnEntry(cols[i]))
  }

  function TableText(snap: Snapshot, t: Table): string {
    t.schema + ['\0'] + t.name + ['\0'] + NameOfServer(snap.servers, t.serverId)
  }

  /** The columns of the last table with the same schema, name and server. */
  function TableColumns(snap: Snapshot, text: string): seq<DeclColumn> {
    var i := LastWhere(snap.tables, (t: Table) => TableText(snap, t) == text);
    if i < 0 then [] else ColumnEntries(ColumnsOf(snap, snap.tables[i].id))
  }

  function BareTableEntry(snap: Snapshot, t: Table): DeclTable {
    DeclTable(NameOfServer(snap.servers, t.serverId), t.schema, t.name, t.remoteName, t.keyColumns, t.options, [])
  }

  function TableEntry(snap: Snapshot, t: Table): DeclTable {
    BareTableEntry(snap, t).(columns := TableColumns(snap, TableText(snap, t)))
  }

  function FunctionEntry(snap: Snapshot, f: Function): DeclFunction {
    DeclFunction(NameOfServer(snap.servers, f.serverId), f.schema, f.name, f.operation, f.remotePath, f.httpMethod,
          f.options)
  }

  function DocumentOf(snap: Snapshot, order: seq<Id>): Doc {
    Doc(SharedEntries(snap, order),
        seq(|snap.servers|, i requires 0 <= i < |snap.servers| => ServerEntry(snap, snap.servers[i])),
        seq(|snap.tables|, i requires 0 <= i < |snap.tables| => TableEntry(snap, snap.tables[i])),
        seq(|snap.functions|, i requires 0 <= i < |snap.functions| => FunctionEntry(snap, snap.functions[i])))
  }

  /** The referenced credentials, each once. */
  ghost predicate Enumerates(servers: seq<Server>, order: seq<Id>) {
    && Unique(order, (id: Id) => id)
    && forall id :: id in order <==> RefCount(servers, id) > 0
  }

  /** What decompilation may return: only the order of the shared credentials is open. */
  ghost predicate IsDocumentOf(snap: Snapshot, doc: Doc) {
    exists order :: Enumerates(snap.servers, order) && doc == DocumentOf(snap, order)
  }

  // ---- The loops. ----

  method OpenAll(creds: seq<Credential>) returns (data: map<Id, Fields>)
    ensures forall id :: id in data <==> OpenedPayload(creds, id).Some?
    ensures forall id :: id in data ==> OpenedPayload(creds, id) == Some(data[id])
  {
    data := map[];
    for i := 0 to |creds|
      invariant forall id :: id in data <==> OpenedPayload(creds[..i], id).Some?
      invariant forall id :: id in data ==> OpenedPayload(creds[..i], id) == Some(data[id])
    {
      assert creds[..i + 1][..i] == creds[..i];
      data := data[creds[i].id := creds[i].payload];
    }
    assert creds[..|creds|] == creds;
  }

  method CountReferences(servers: seq<Server>) returns (count: map<Id, nat>)
    ensures forall id :: id in count <==> RefCount(servers, id) > 0
    ensures forall id :: id in count ==> count[id] == RefCount(servers, id)
  {
    count := map[];
    for i := 0 to |servers|
      invariant forall id :: id in count <==> RefCount(servers[..i], id) > 0
      invariant forall id :: id in count ==> count[id] == RefCount(servers[..i], id)
    {
      assert servers[..i + 1][..i] == servers[..i];
      var ref := servers[i].credentialRef;
      if ref.Some? {
        count := count[ref.value := (if ref.value in count then count[ref.value] else 0) + 1];
      }
    }
    assert servers[..|servers|] == servers;
  }

  method FindCredentialName(creds: seq<Credential>, id: Id) returns (name: string)
    ensures name == CredentialNameForID(creds, id)
  {
    for i := 0 to |creds|
      invariant forall j :: 0 <= j < i ==> creds[j].id != id
    {
      if creds[i].id == id {
        return creds[i].name;
      }
    }
    name := Range.Digits(id);
  }

  /** The loop's maps hold what the functions above look up. */
  ghost predicate Opened(snap: Snapshot, data: map<Id, Fields>) {
    && (forall id :: id in data <==> OpenedPayload(snap.credentials, id).Some?)
    && (forall id :: id in data ==> OpenedPayload(snap.credentials, id) == Some(data[id]))
  }

  ghost predicate Tallied(snap: Snapshot, count: map<Id, nat>) {
    && (forall id :: id in count <==> RefCount(snap.servers, id) > 0)
    && (forall id :: id in count ==> count[id] == RefCount(snap.servers, id))
  }

  function NameIn(names: map<Id, string>, id: Id): string {
    if id in names then names[id] else ""
  }

  ghost predicate Named(names: map<Id, string>, servers: seq<Server>) {
    forall id :: NameIn(names, id) == NameOfServer(servers, id)
  }

  lemma NamedSnoc(names: map<Id, string>, servers: seq<Server>, s: Server)
    requires Named(names, servers)
    ensures Named(names[s.id := s.name], servers + [s])
  {
    assert (servers + [s])[..|servers|] == servers;
    forall id
      ensures NameIn(names[s.id := s.name], id) == NameOfServer(servers + [s], id)
    {
      assert NameIn(names, id) == NameOfServer(servers, id);
    }
  }

  method DecompileOneServer(snap: Snapshot, s: Server, data: map<Id, Fields>, count: map<Id, nat>)
    returns (ds: DeclServer)
    requires Opened(snap, data) && Tallied(snap, count) && s in snap.servers
    ensures ds == ServerEntry(snap, s)
  {
    ds := DeclServer(s.name, s.protocol, CredentialField("", map[]), Some(s.enabled), s.options);
    if s.credentialRef.Some? {
      var id := s.credentialRef.value;
      ghost var i :| 0 <= i < |snap.servers| && snap.servers[i] == s;
      Counted(snap.servers, i, id);
      if id in data {
        if count[id] == 1 {
          ds := ds.(credential := CredentialField("", data[id]));
        } else {
          var name := FindCredentialName(snap.credentials, id);
          ds := ds.(credential := CredentialField(name, map[]));
        }
      }
    }
  }

  method DecompileServers(snap: Snapshot, data: map<Id, Fields>, count: map<Id, nat>)
    returns (out: seq<DeclServer>, names: map<Id, string>)
    requires Opened(snap, data) && Tallied(snap, count)
    ensures out == DocumentOf(snap, []).servers
    ensures Named(names, snap.servers)
  {
    hide Opened, Tallied, Named, ServerEntry;
    out, names := [], map[];
    assert Named(map[], snap.servers[..0]) by { NoNames(snap.servers[..0]); }
    for i := 0 to |snap.servers|
      invariant out == DocumentOf(snap, []).servers[..i]
      invariant Named(names, snap.servers[..i])
    {
      var s := snap.servers[i];
      NamedSnoc(names, snap.servers[..i], s);
      assert snap.servers[..i + 1] == snap.servers[..i] + [s];
      names := names[s.id := s.name];
      var ds := DecompileOneServer(snap, s, data, count);
      out := out + [ds];
    }
    assert snap.servers[..|snap.servers|] == snap.servers;
  }

  lemma NoNames(servers: seq<Server>)
    requires servers == []
    ensures Named(map[], servers)
  {
  }

  lemma {:induction false} Counted(servers: seq<Server>, i: nat, id: Id)
    requires i < |servers| && servers[i].credentialRef == Some(id)
    ensures RefCount(servers, id) > 0
  {
    if i < |servers| - 1 {
      Counted(servers[..|servers| - 1], i, id);
    }
  }

  method DecompileCredentials(snap: Snapshot, data: map<Id, Fields>, count: map<Id, nat>)
    returns (out: seq<DeclCredential>)
    requires Opened(snap, data) && Tallied(snap, count)
    ensures exists order :: Enumerates(snap.servers, order) && out == SharedEntries(snap, order)
  {
    hide OpenedPayload, CredentialNameForID, RefCount;
    out := [];
    ghost var order: seq<Id> := [];
    var rest := count;
    while rest != map[]
      invariant forall id :: id in rest ==> id in count && rest[id] == count[id] && id !in order
      invariant forall id :: id in order <==> id in count && id !in rest
      invariant Unique(order, (id: Id) => id)
      invariant out == SharedEntries(snap, order)
      decreases |rest|
    {
      var id :| id in rest;
      if rest[id] > 1 && id in data {
        var name := FindCredentialName(snap.credentials, id);
        out := out + [DeclCredential(name, data[id])];
      }
      UniqueSnoc(order, id, (id: Id) => id);
      assert (order + [id])[..|order|] == order;
      order := order + [id];
      rest := rest - {id};
    }
  }

  function LastTable(snap: Snapshot, tables: seq<Table>, text: string): (i: int)
    ensures -1 <= i < |tables|
  {
    LastWhere(tables, (t: Table) => TableText(snap, t) == text)
  }

  ghost predicate Indexed(snap: Snapshot, meta: map<string, Id>, tables: seq<Table>) {
    && (forall text :: text in meta <==> LastTable(snap, tables, text) >= 0)
    && (forall text :: text in meta ==> meta[text] == tables[LastTable(snap, tables, text)].id)
  }

  lemma IndexedSnoc(snap: Snapshot, meta: map<string, Id>, tables: seq<Table>, t: Table)
    requires Indexed(snap, meta, tables)
    ensures Indexed(snap, meta[TableText(snap, t) := t.id], tables + [t])
  {
    hide TableText;
    assert (tables + [t])[..|tables|] == tables;
  }

  lemma IndexedOwn(snap: Snapshot, meta: map<string, Id>, i: nat)
    requires Indexed(snap, meta, snap.tables) && i < |snap.tables|
    ensures TableText(snap, snap.tables[i]) in meta
    ensures TableEntry(snap, snap.tables[i]).columns
            == ColumnEntries(ColumnsOf(snap, meta[TableText(snap, snap.tables[i])]))
  {
    hide TableText, ColumnsOf;
    assert LastTable(snap, snap.tables, TableText(snap, snap.tables[i])) >= i;
  }

  /** The tables without their columns, and the identifier of the last table with each key. */
  method DecompileBareTables(snap: Snapshot, names: map<Id, string>)
    returns (bare: seq<DeclTable>, meta: map<string, Id>)
    requires Named(names, snap.servers)
    ensures |bare| == |snap.tables|
    ensures forall j :: 0 <= j < |bare| ==> bare[j] == BareTableEntry(snap, snap.tables[j])
    ensures Indexed(snap, meta, snap.tables)
  {
    hide NameOfServer, Indexed;
    bare, meta := [], map[];
    assert Indexed(snap, map[], snap.tables[..0]) by { NoTables(snap, snap.tables[..0]); }
    for i := 0 to |snap.tables|
      invariant |bare| == i && forall j :: 0 <= j < i ==> bare[j] == BareTableEntry(snap, snap.tables[j])
      invariant Indexed(snap, meta, snap.tables[..i])
    {
      var t := snap.tables[i];
      assert snap.tables[..i + 1] == snap.tables[..i] + [t];
      IndexedSnoc(snap, meta, snap.tables[..i], t);
      var serverName := NameIn(names, t.serverId);
      meta := meta[t.schema + ['\0'] + t.name + ['\0'] + serverName := t.id];
      bare := bare + [DeclTable(serverName, t.schema, t.name, t.remoteName, t.keyColumns, t.options, [])];
    }
    assert snap.tables[..|snap.tables|] == snap.tables;
  }

  lemma NoTables(snap: Snapshot, tables: seq<Table>)
    requires tables == []
    ensures Indexed(snap, map[], tables)
  {
  }

  method DecompileTables(snap: Snapshot, names: map<Id, string>) returns (out: seq<DeclTable>)
    requires Named(names, snap.servers)
    ensures out == DocumentOf(snap, []).tables
  {
    hide NameOfServer, Indexed, Named, ColumnsOf, Grouped, TableColumns;
    var bare, meta := DecompileBareTables(snap, names);
    var cols := GroupColumns(snap);
    out := [];
    for i := 0 to |bare|
      invariant out == DocumentOf(snap, []).tables[..i]
    {
      IndexedOwn(snap, meta, i);
      var entry := bare[i];
      var key := entry.schema + ['\0'] + entry.name + ['\0'] + entry.server;
      assert key == TableText(snap, snap.tables[i]);
      GroupedFor(snap, cols, meta[key]);
      out := out + [entry.(columns := GroupOf(cols, meta[key]))];
    }
  }

  function GroupOf(cols: map<Id, seq<DeclColumn>>, id: Id): seq<DeclColumn> {
    if id in cols then cols[id] else []
  }

  ghost predicate Grouped(cols: map<Id, seq<DeclColumn>>, columns: seq<Column>) {
    forall id :: GroupOf(cols, id) == ColumnEntries(Keep(columns, OfTable(id)))
  }

  lemma GroupedFor(snap: Snapshot, cols: map<Id, seq<DeclColumn>>, id: Id)
    requires Grouped(cols, snap.columns)
    ensures GroupOf(cols, id) == ColumnEntries(ColumnsOf(snap, id))
  {
  }

  lemma GroupedSnoc(cols: map<Id, seq<DeclColumn>>, columns: seq<Column>, c: Column)
    requires Grouped(cols, columns)
    ensures Grouped(cols[c.tableId := GroupOf(cols, c.tableId) + [ColumnEntry(c)]], columns + [c])
  {
    hide Keep;
    var cols' := cols[c.tableId := GroupOf(cols, c.tableId) + [ColumnEntry(c)]];
    forall id
      ensures GroupOf(cols', id) == ColumnEntries(Keep(columns + [c], OfTable(id)))
    {
      KeepSnoc(columns, c, OfTable(id));
      assert GroupOf(cols, id) == ColumnEntries(Keep(columns, OfTable(id)));
      assert ColumnEntries(Keep(columns, OfTable(id)) + [c])
             == ColumnEntries(Keep(columns, OfTable(id))) + [ColumnEntry(c)];
    }
  }

  method GroupColumns(snap: Snapshot) returns (cols: map<Id, seq<DeclColumn>>)
    ensures Grouped(cols, snap.columns)
  {
    hide Keep, Grouped;
    cols := map[];
    assert Grouped(map[], snap.columns[..0]) by { NoGroups(snap.columns[..0]); }
    for i := 0 to |snap.columns|
      invariant Grouped(cols, snap.columns[..i])
    {
      var c := snap.columns[i];
      GroupedSnoc(cols, snap.columns[..i], c);
      assert snap.columns[..i + 1] == snap.columns[..i] + [c];
      cols := cols[c.tableId := GroupOf(cols, c.tableId) + [ColumnEntry(c)]];
    }
    assert snap.columns[..|snap.columns|] == snap.columns;
  }

  lemma NoGroups(columns: seq<Column>)
    requires columns == []
    ensures Grouped(map[], columns)
  {
  }

  method DecompileFunctions(snap: Snapshot, names: map<Id, string>) returns (out: seq<DeclFunction>)
    requires Named(names, snap.servers)
    ensures out == DocumentOf(snap, []).functions
  {
    hide NameOfServer;
    out := [];
    for i := 0 to |snap.functions|
      invariant out == DocumentOf(snap, []).functions[..i]
    {
      var f := snap.functions[i];
      var server := NameIn(names, f.serverId);
      out := out + [DeclFunction(server, f.schema, f.name, f.operation, f.remotePath, f.httpMethod, f.options)];
    }
  }

  /** decompileDeclarative */
  method DecompileDeclarative(snap: Snapshot) returns (doc: Doc)
    ensures IsDocumentOf(snap, doc)
  {
    hide SharedEntries, OpenedPayload, RefCount, NameOfServer, ServerEntry, TableEntry, FunctionEntry, Enumerates,
         Named;
    var data := OpenAll(snap.credentials);
    var count := CountReferences(snap.servers);
    var servers, names := DecompileServers(snap, data, count);
    var credentials := DecompileCredentials(snap, data, count);
    ghost var order :| Enumerates(snap.servers, order) && credentials == SharedEntries(snap, order);
    var tables := DecompileTables(snap, names);
    var functions := DecompileFunctions(snap, names);
    doc := Doc(credentials, servers, tables, functions);
    assert doc == DocumentOf(snap, order);
  }
}
