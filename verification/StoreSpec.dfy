/** The operations of the file store on its snapshot: what each one changes and when it fails. */
module StoreSpec {
  import opened Text
  import opened Meta
  import opened Seqs

  datatype Error = NotFound | AlreadyExists | Invalid | InUse | BothCredentials | Disabled

  /** The store's data and the supply of identifiers: `next` and everything above it is unused. */
  datatype Db = Db(snap: Snapshot, next: Id)

  const EmptyDb := Db(EmptySnapshot, 0)

  datatype CreateServerRequest = CreateServerRequest(
    name: string, protocol: string, options: Option<Fields>, credentialRef: Option<Id>,
    credential: Fields, credentialName: string, enabled: Option<bool>)

  datatype UpdateServerRequest = UpdateServerRequest(
    options: Option<Fields>, credentialRef: Option<Id>, enabled: Option<bool>)

  datatype ColumnInput = ColumnInput(
    name: string, dataType: string, remoteName: string, nullable: Option<bool>, position: int)

  datatype CreateTableRequest = CreateTableRequest(
    serverName: string, schema: string, name: string, remoteName: string, keyColumns: seq<string>,
    options: Option<Fields>, columns: seq<ColumnInput>)

  datatype UpdateTableRequest = UpdateTableRequest(
    remoteName: Option<string>, keyColumns: Option<seq<string>>, options: Option<Fields>)

  datatype UpdateColumnRequest = UpdateColumnRequest(
    dataType: Option<string>, remoteName: Option<string>, nullable: Option<bool>, position: Option<int>)

  datatype CreateFunctionRequest = CreateFunctionRequest(
    serverName: string, schema: string, name: string, operation: string, remotePath: string,
    httpMethod: string, options: Option<Fields>)

  datatype UpdateFunctionRequest = UpdateFunctionRequest(
    operation: Option<string>, remotePath: Option<string>, httpMethod: Option<string>, options: Option<Fields>)

  function Or<T>(o: Option<T>, default: T): T {
    if o.Some? then o.value else default
  }

  function OrText(s: string, default: string): string {
    if s == "" then default else s
  }

  type Outcome = Option<Error>

  // ---- Credentials. ----

  function CreateCredential(db: Db, name: string, data: Fields): (Db, Outcome) {
    if name == "" then (db, Some(Invalid))
    else if IndexWhere(db.snap.credentials, (c: Credential) => c.name == name) >= 0 then (db, Some(AlreadyExists))
    else (Db(db.snap.(credentials := db.snap.credentials + [Credential(db.next, name, data)]), db.next + 1), None)
  }

  function DeleteCredential(db: Db, id: Id): (Db, Outcome) {
    var i := IndexWhere(db.snap.credentials, (c: Credential) => c.id == id);
    if i < 0 then (db, Some(NotFound))
    else if IndexWhere(db.snap.servers, (s: Server) => s.credentialRef == Some(id)) >= 0 then (db, Some(InUse))
    else (db.(snap := db.snap.(credentials := RemoveAt(db.snap.credentials, i))), None)
  }

  // ---- Servers. ----

  /** An inline credential is stored first; the request then carries both a reference and an inline credential. */
  function CreateServer(db: Db, req: CreateServerRequest, now: Timestamp): (Db, Outcome) {
    if req.name == "" || req.protocol == "" then (db, Some(Invalid))
    else if req.credentialRef.None? && req.credential != map[] then
      var name := if Trim(req.credentialName) == "" then req.name + "-credential" else Trim(req.credentialName);
      var (db', failed) := CreateCredential(db, name, req.credential);
      if failed.Some? then (db', failed) else InsertServer(db', req.(credentialRef := Some(db.next)), now)
    else InsertServer(db, req, now)
  }

  function InsertServer(db: Db, req: CreateServerRequest, now: Timestamp): (Db, Outcome) {
    if req.credentialRef.Some? && req.credential != map[] then (db, Some(BothCredentials))
    else if IndexWhere(db.snap.servers, (s: Server) => s.name == req.name) >= 0 then (db, Some(AlreadyExists))
    else
      var s := Server(db.next, req.name, req.protocol, Or(req.options, map[]), req.credentialRef,
                      Or(req.enabled, true), now);
      (Db(db.snap.(servers := db.snap.servers + [s]), db.next + 1), None)
  }

  function UpdatedServer(s: Server, req: UpdateServerRequest, now: Timestamp): Server {
    s.(options := Or(req.options, s.options),
       credentialRef := if req.credentialRef.Some? then req.credentialRef else s.credentialRef,
       enabled := Or(req.enabled, s.enabled),
       updatedAt := now)
  }

  function UpdateServer(db: Db, id: Id, req: UpdateServerRequest, now: Timestamp): (Db, Outcome) {
    var i := IndexWhere(db.snap.servers, (s: Server) => s.id == id);
    if i < 0 then (db, Some(NotFound))
    else (db.(snap := db.snap.(servers := db.snap.servers[i := UpdatedServer(db.snap.servers[i], req, now)])), None)
  }

  function TablesOfServer(snap: Snapshot, id: Id): set<Id> {
    set t | t in snap.tables && t.serverId == id :: t.id
  }

  /** The records the three filters of a deletion keep. */
  function TablesElsewhere(serverId: Id): Table -> bool {
    (t: Table) => t.serverId != serverId
  }

  function FunctionsElsewhere(serverId: Id): Function -> bool {
    (f: Function) => f.serverId != serverId
  }

  function ColumnsOutside(tableIds: set<Id>): Column -> bool {
    (c: Column) => c.tableId !in tableIds
  }

  function DeleteServer(db: Db, id: Id): (Db, Outcome) {
    var i := IndexWhere(db.snap.servers, (s: Server) => s.id == id);
    if i < 0 then (db, Some(NotFound))
    else
      var dropped := TablesOfServer(db.snap, id);
      (db.(snap := db.snap.(
         servers := RemoveAt(db.snap.servers, i),
         tables := Keep(db.snap.tables, TablesElsewhere(id)),
         functions := Keep(db.snap.functions, FunctionsElsewhere(id)),
         columns := Keep(db.snap.columns, ColumnsOutside(dropped)))), None)
  }

  // ---- Tables. ----

  /** The columns a request creates; unnamed ones are skipped, and position 0 means the place in the request. */
  function NewColumns(inputs: seq<ColumnInput>, tableId: Id, next: Id): seq<Column> {
    if inputs == [] then []
    else
      var i := |inputs| - 1;
      var before, c := NewColumns(inputs[..i], tableId, next), inputs[i];
      if c.name == "" then before
      else before + [Column(next + |before|, tableId, c.name, OrText(c.dataType, "text"), c.remoteName,
                            Or(c.nullable, true), if c.position == 0 then i else c.position)]
  }

  function CreateTable(db: Db, req: CreateTableRequest): (Db, Outcome) {
    var schema := OrText(req.schema, "public");
    if req.serverName == "" || req.name == "" then (db, Some(Invalid))
    else
      var i := IndexWhere(db.snap.servers, (s: Server) => s.name == req.serverName);
      if i < 0 then (db, Some(NotFound))
      else if IndexWhere(db.snap.tables, (t: Table) => t.schema == schema && t.name == req.name) >= 0 then
        (db, Some(AlreadyExists))
      else
        var t := Table(db.next, db.snap.servers[i].id, schema, req.name, req.remoteName, req.keyColumns,
                       Or(req.options, map[]));
        var cols := NewColumns(req.columns, db.next, db.next + 1);
        (Db(db.snap.(tables := db.snap.tables + [t], columns := db.snap.columns + cols), db.next + 1 + |cols|), None)
  }

  function UpdatedTable(t: Table, req: UpdateTableRequest): Table {
    t.(remoteName := Or(req.remoteName, t.remoteName),
       keyColumns := Or(req.keyColumns, t.keyColumns),
       options := Or(req.options, t.options))
  }

  function UpdateTable(db: Db, id: Id, req: UpdateTableRequest): (Db, Outcome) {
    var i := IndexWhere(db.snap.tables, (t: Table) => t.id == id);
    if i < 0 then (db, Some(NotFound))
    else (db.(snap := db.snap.(tables := db.snap.tables[i := UpdatedTable(db.snap.tables[i], req)])), None)
  }

  function DeleteTable(db: Db, id: Id): (Db, Outcome) {
    var i := IndexWhere(db.snap.tables, (t: Table) => t.id == id);
    if i < 0 then (db, Some(NotFound))
    else (db.(snap := db.snap.(
            tables := RemoveAt(db.snap.tables, i),
            columns := Keep(db.snap.columns, ColumnsOutside({id})))), None)
  }

  // ---- Columns. ----

  function CreateColumn(db: Db, tableId: Id, req: ColumnInput): (Db, Outcome) {
    if req.name == "" then (db, Some(Invalid))
    else if IndexWhere(db.snap.tables, (t: Table) => t.id == tableId) < 0 then (db, Some(NotFound))
    else if IndexWhere(db.snap.columns, (c: Column) => c.tableId == tableId && c.name == req.name) >= 0 then
      (db, Some(AlreadyExists))
    else
      var c := Column(db.next, tableId, req.name, OrText(req.dataType, "text"), req.remoteName,
                      Or(req.nullable, true), req.position);
      (Db(db.snap.(columns := db.snap.columns + [c]), db.next + 1), None)
  }

  function UpdatedColumn(c: Column, req: UpdateColumnRequest): Column {
    c.(dataType := Or(req.dataType, c.dataType), remoteName := Or(req.remoteName, c.remoteName),
       nullable := Or(req.nullable, c.nullable), position := Or(req.position, c.position))
  }

  function UpdateColumn(db: Db, id: Id, req: UpdateColumnRequest): (Db, Outcome) {
    var i := IndexWhere(db.snap.columns, (c: Column) => c.id == id);
    if i < 0 then (db, Some(NotFound))
    else (db.(snap := db.snap.(columns := db.snap.columns[i := UpdatedColumn(db.snap.columns[i], req)])), None)
  }

  function DeleteColumn(db: Db, id: Id): (Db, Outcome) {
    var i := IndexWhere(db.snap.columns, (c: Column) => c.id == id);
    if i < 0 then (db, Some(NotFound))
    else (db.(snap := db.snap.(columns := RemoveAt(db.snap.columns, i))), None)
  }

  // ---- Functions. ----

  function CreateFunction(db: Db, req: CreateFunctionRequest): (Db, Outcome) {
    var schema := OrText(req.schema, "public");
    if req.serverName == "" || req.name == "" || req.operation == "" then (db, Some(Invalid))
    else
      var i := IndexWhere(db.snap.servers, (s: Server) => s.name == req.serverName);
      if i < 0 then (db, Some(NotFound))
      else if IndexWhere(db.snap.functions, (f: Function) => f.schema == schema && f.name == req.name) >= 0 then
        (db, Some(AlreadyExists))
      else
        var f := Function(db.next, db.snap.servers[i].id, schema, req.name, req.operation, req.remotePath,
                          req.httpMethod, Or(req.options, map[]));
        (Db(db.snap.(functions := db.snap.functions + [f]), db.next + 1), None)
  }

  function UpdatedFunction(f: Function, req: UpdateFunctionRequest): Function {
    f.(operation := Or(req.operation, f.operation), remotePath := Or(req.remotePath, f.remotePath),
       httpMethod := Or(req.httpMethod, f.httpMethod), options := Or(req.options, f.options))
  }

  function UpdateFunction(db: Db, id: Id, req: UpdateFunctionRequest): (Db, Outcome) {
    var i := IndexWhere(db.snap.functions, (f: Function) => f.id == id);
    if i < 0 then (db, Some(NotFound))
    else (db.(snap := db.snap.(functions := db.snap.functions[i := UpdatedFunction(db.snap.functions[i], req)])), None)
  }

  function DeleteFunction(db: Db, id: Id): (Db, Outcome) {
    var i := IndexWhere(db.snap.functions, (f: Function) => f.id == id);
    if i < 0 then (db, Some(NotFound))
    else (db.(snap := db.snap.(functions := RemoveAt(db.snap.functions, i))), None)
  }

  // ---- Resolution. ----

  /** The order of ListColumns. */
  predicate ColumnBefore(a: Column, b: Column) {
    if a.position == b.position then Less(a.name, b.name) else a.position < b.position
  }

  datatype ResolvedTable = ResolvedTable(table: Table, server: Server, columns: seq<Column>)
  datatype ResolvedFunction = ResolvedFunction(target: Function, server: Server)

  datatype Resolution<+T> = Resolved(value: T) | Unresolved(error: Error)

  ghost predicate HasServer(snap: Snapshot, id: Id) {
    exists s :: s in snap.servers && s.id == id
  }

  function OfTable(tableId: Id): Column -> bool {
    (c: Column) => c.tableId == tableId
  }

  function ColumnsOf(snap: Snapshot, tableId: Id): seq<Column> {
    Keep(snap.columns, OfTable(tableId))
  }

  function ResolveTable(snap: Snapshot, schema: string, name: string): Resolution<ResolvedTable> {
    var i := IndexWhere(snap.tables, (t: Table) => t.schema == schema && t.name == name);
    if i < 0 then Unresolved(NotFound)
    else
      var t := snap.tables[i];
      var j := IndexWhere(snap.servers, (s: Server) => s.id == t.serverId);
      if j < 0 then Unresolved(NotFound)
      else if !snap.servers[j].enabled then Unresolved(Disabled)
      else Resolved(ResolvedTable(t, snap.servers[j], Sort(ColumnsOf(snap, t.id), ColumnBefore)))
  }

  function ResolveFunction(snap: Snapshot, schema: string, name: string): Resolution<ResolvedFunction> {
    var i := IndexWhere(snap.functions, (f: Function) => f.schema == schema && f.name == name);
    if i < 0 then Unresolved(NotFound)
    else
      var f := snap.functions[i];
      var j := IndexWhere(snap.servers, (s: Server) => s.id == f.serverId);
      if j < 0 then Unresolved(NotFound)
      else if !snap.servers[j].enabled then Unresolved(Disabled)
      else Resolved(ResolvedFunction(f, snap.servers[j]))
  }

  /** ServerCredential: no secret without a reference; a reference to no credential is an error. */
  function ServerCredential(snap: Snapshot, ref: Option<Id>): Resolution<Option<Fields>> {
    if ref.None? then Resolved(None)
    else
      var i := IndexWhere(snap.credentials, (c: Credential) => c.id == ref.value);
      if i < 0 then Unresolved(NotFound) else Resolved(Some(snap.credentials[i].payload))
  }

  // ---- All operations as one. ----

  datatype Op =
    | OpCreateCredential(name: string, data: Fields)
    | OpDeleteCredential(id: Id)
    | OpCreateServer(server: CreateServerRequest, now: Timestamp)
    | OpUpdateServer(id: Id, serverUpdate: UpdateServerRequest, now: Timestamp)
    | OpDeleteServer(id: Id)
    | OpCreateTable(table: CreateTableRequest)
    | OpUpdateTable(id: Id, tableUpdate: UpdateTableRequest)
    | OpDeleteTable(id: Id)
    | OpCreateColumn(tableId: Id, column: ColumnInput)
    | OpUpdateColumn(id: Id, columnUpdate: UpdateColumnRequest)
    | OpDeleteColumn(id: Id)
    | OpCreateFunction(func: CreateFunctionRequest)
    | OpUpdateFunction(id: Id, functionUpdate: UpdateFunctionRequest)
    | OpDeleteFunction(id: Id)

  function Apply(db: Db, op: Op): (Db, Outcome) {
    match op
    case OpCreateCredential(name, data) => CreateCredential(db, name, data)
    case OpDeleteCredential(id) => DeleteCredential(db, id)
    case OpCreateServer(req, now) => CreateServer(db, req, now)
    case OpUpdateServer(id, req, now) => UpdateServer(db, id, req, now)
    case OpDeleteServer(id) => DeleteServer(db, id)
    case OpCreateTable(req) => CreateTable(db, req)
    case OpUpdateTable(id, req) => UpdateTable(db, id, req)
    case OpDeleteTable(id) => DeleteTable(db, id)
    case OpCreateColumn(tableId, req) => CreateColumn(db, tableId, req)
    case OpUpdateColumn(id, req) => UpdateColumn(db, id, req)
    case OpDeleteColumn(id) => DeleteColumn(db, id)
    case OpCreateFunction(req) => CreateFunction(db, req)
    case OpUpdateFunction(id, req) => UpdateFunction(db, id, req)
    case OpDeleteFunction(id) => DeleteFunction(db, id)
  }

  function After(db: Db, ops: seq<Op>): Db {
    if ops == [] then db else Apply(After(db, ops[..|ops| - 1]), ops[|ops| - 1]).0
  }
}
