/** The file store as an object: each method changes the snapshot the way the operation of its name says. */
module FileStore {
  import opened Text
  import opened Meta
  import opened Seqs
  import opened StoreSpec
  import I = StoreInvariant

  class Store {
    var data: Snapshot
    var next: Id   // the identifier supply

    function View(): Db
      reads this
    {
      Db(data, next)
    }

    constructor ()
      ensures View() == EmptyDb
    {
      data, next := EmptySnapshot, 0;
    }

    method NewId() returns (id: Id)
      modifies this`next
      ensures id == old(next) && next == old(next) + 1
    {
      id := next;
      next := next + 1;
    }

    method CreateCredential(name: string, fields: Fields) returns (failed: Outcome)
      modifies this
      ensures (View(), failed) == StoreSpec.CreateCredential(old(View()), name, fields)
    {
      if name == "" {
        return Some(Invalid);
      }
      var i := FindIndex(data.credentials, (c: Credential) => c.name == name);
      if i >= 0 {
        return Some(AlreadyExists);
      }
      var id := NewId();
      data := data.(credentials := data.credentials + [Credential(id, name, fields)]);
      return None;
    }

    method DeleteCredential(id: Id) returns (failed: Outcome)
      modifies this
      ensures (View(), failed) == StoreSpec.DeleteCredential(old(View()), id)
    {
      var i := FindIndex(data.credentials, (c: Credential) => c.id == id);
      if i < 0 {
        return Some(NotFound);
      }
      var user := FindIndex(data.servers, (s: Server) => s.credentialRef == Some(id));
      if user >= 0 {
        return Some(InUse);
      }
      var rest := RemoveFromSlice(data.credentials, i);
      data := data.(credentials := rest);
      return None;
    }

    method CreateServer(request: CreateServerRequest, now: Timestamp) returns (failed: Outcome)
      modifies this
      ensures (View(), failed) == StoreSpec.CreateServer(old(View()), request, now)
    {
      var req := request;
      if req.name == "" || req.protocol == "" {
        return Some(Invalid);
      }
      if req.credentialRef.None? && |req.credential| > 0 {
        var name := Trim(req.credentialName);
        if name == "" {
          name := req.name + "-credential";
        }
        var id := next;
        failed := CreateCredential(name, req.credential);
        if failed.Some? {
          return;
        }
        req := req.(credentialRef := Some(id));
      }
      if req.credentialRef.Some? && |req.credential| > 0 {
        return Some(BothCredentials);
      }
      var options := if req.options.Some? then req.options.value else map[];
      var enabled := if req.enabled.Some? then req.enabled.value else true;
      var i := FindIndex(data.servers, (s: Server) => s.name == req.name);
      if i >= 0 {
        return Some(AlreadyExists);
      }
      var id := NewId();
      data := data.(servers := data.servers
                               + [Server(id, req.name, req.protocol, options, req.credentialRef, enabled, now)]);
      return None;
    }

    method UpdateServer(id: Id, req: UpdateServerRequest, now: Timestamp) returns (failed: Outcome)
      modifies this
      ensures (View(), failed) == StoreSpec.UpdateServer(old(View()), id, req, now)
    {
      var i := FindIndex(data.servers, (s: Server) => s.id == id);
      if i < 0 {
        return Some(NotFound);
      }
      var rec := data.servers[i];
      if req.options.Some? {
        rec := rec.(options := req.options.value);
      }
      if req.credentialRef.Some? {
        rec := rec.(credentialRef := req.credentialRef);
      }
      if req.enabled.Some? {
        rec := rec.(enabled := req.enabled.value);
      }
      rec := rec.(updatedAt := now);
      data := data.(servers := data.servers[i := rec]);
      return None;
    }

    method DeleteServer(id: Id) returns (failed: Outcome)
      modifies this
      ensures (View(), failed) == StoreSpec.DeleteServer(old(View()), id)
    {
      var i := FindIndex(data.servers, (s: Server) => s.id == id);
      if i < 0 {
        return Some(NotFound);
      }
      var tableIds: set<Id> := {};
      for n := 0 to |data.tables|
        invariant tableIds == set t | t in data.tables[..n] && t.serverId == id :: t.id
        invariant data == old(data) && next == old(next)
      {
        assert data.tables[..n + 1] == data.tables[..n] + [data.tables[n]];
        if data.tables[n].serverId == id {
          tableIds := tableIds + {data.tables[n].id};
        }
      }
      assert data.tables[..|data.tables|] == data.tables;
      var servers := RemoveFromSlice(data.servers, i);
      var tables := KeepSlice(data.tables, TablesElsewhere(id));
      var functions := KeepSlice(data.functions, FunctionsElsewhere(id));
      var columns := KeepSlice(data.columns, ColumnsOutside(tableIds));
      data := data.(servers := servers, tables := tables, functions := functions, columns := columns);
      return None;
    }

    /** The loop of CreateTable over the requested columns. */
    method AddColumns(inputs: seq<ColumnInput>, tableId: Id)
      modifies this
      ensures var added := NewColumns(inputs, tableId, old(next));
              data == old(data).(columns := old(data).columns + added) && next == old(next) + |added|
    {
      for i := 0 to |inputs|
        invariant data == old(data).(columns := old(data).columns + NewColumns(inputs[..i], tableId, old(next)))
        invariant next == old(next) + |NewColumns(inputs[..i], tableId, old(next))|
      {
        assert inputs[..i + 1][..i] == inputs[..i];
        var c := inputs[i];
        if c.name == "" {
          continue;
        }
        var dt := c.dataType;
        if dt == "" {
          dt := "text";
        }
        var nullable := true;
        if c.nullable.Some? {
          nullable := c.nullable.value;
        }
        var pos := c.position;
        if pos == 0 {
          pos := i;
        }
        var id := NewId();
        data := data.(columns := data.columns + [Column(id, tableId, c.name, dt, c.remoteName, nullable, pos)]);
      }
      assert inputs[..|inputs|] == inputs;
    }

    method CreateTable(req: CreateTableRequest) returns (failed: Outcome)
      modifies this
      ensures (View(), failed) == StoreSpec.CreateTable(old(View()), req)
    {
      if req.serverName == "" || req.name == "" {
        return Some(Invalid);
      }
      var schema := if req.schema == "" then "public" else req.schema;
      var options := if req.options.Some? then req.options.value else map[];
      var srv := FindIndex(data.servers, (s: Server) => s.name == req.serverName);
      if srv < 0 {
        return Some(NotFound);
      }
      var existing := FindIndex(data.tables, (t: Table) => t.schema == schema && t.name == req.name);
      if existing >= 0 {
        return Some(AlreadyExists);
      }
      var tableId := NewId();
      var t := Table(tableId, data.servers[srv].id, schema, req.name, req.remoteName, req.keyColumns, options);
      data := data.(tables := data.tables + [t]);
      AddColumns(req.columns, tableId);
      return None;
    }

    method UpdateTable(id: Id, req: UpdateTableRequest) returns (failed: Outcome)
      modifies this
      ensures (View(), failed) == StoreSpec.UpdateTable(old(View()), id, req)
    {
      var i := FindIndex(data.tables, (t: Table) => t.id == id);
      if i < 0 {
        return Some(NotFound);
      }
      var rec := data.tables[i];
      if req.remoteName.Some? {
        rec := rec.(remoteName := req.remoteName.value);
      }
      if req.keyColumns.Some? {
        rec := rec.(keyColumns := req.keyColumns.value);
      }
      if req.options.Some? {
        rec := rec.(options := req.options.value);
      }
      data := data.(tables := data.tables[i := rec]);
      return None;
    }

    method DeleteTable(id: Id) returns (failed: Outcome)
      modifies this
      ensures (View(), failed) == StoreSpec.DeleteTable(old(View()), id)
    {
      var i := FindIndex(data.tables, (t: Table) => t.id == id);
      if i < 0 {
        return Some(NotFound);
      }
      var tables := RemoveFromSlice(data.tables, i);
      var columns := KeepSlice(data.columns, ColumnsOutside({id}));
      data := data.(tables := tables, columns := columns);
      return None;
    }

    method CreateColumn(tableId: Id, req: ColumnInput) returns (failed: Outcome)
      modifies this
      ensures (View(), failed) == StoreSpec.CreateColumn(old(View()), tableId, req)
    {
      if req.name == "" {
        return Some(Invalid);
      }
      var t := FindIndex(data.tables, (t: Table) => t.id == tableId);
      if t < 0 {
        return Some(NotFound);
      }
      var existing := FindIndex(data.columns, (c: Column) => c.tableId == tableId && c.name == req.name);
      if existing >= 0 {
        return Some(AlreadyExists);
      }
      var dt := if req.dataType == "" then "text" else req.dataType;
      var nullable := if req.nullable.Some? then req.nullable.value else true;
      var id := NewId();
      data := data.(columns := data.columns
                               + [Column(id, tableId, req.name, dt, req.remoteName, nullable, req.position)]);
      return None;
    }

    method UpdateColumn(id: Id, req: UpdateColumnRequest) returns (failed: Outcome)
      modifies this
      ensures (View(), failed) == StoreSpec.UpdateColumn(old(View()), id, req)
    {
      var i := FindIndex(data.columns, (c: Column) => c.id == id);
      if i < 0 {
        return Some(NotFound);
      }
      var rec := data.columns[i];
      if req.dataType.Some? {
        rec := rec.(dataType := req.dataType.value);
      }
      if req.remoteName.Some? {
        rec := rec.(remoteName := req.remoteName.value);
      }
      if req.nullable.Some? {
        rec := rec.(nullable := req.nullable.value);
      }
      if req.position.Some? {
        rec := rec.(position := req.position.value);
      }
      data := data.(columns := data.columns[i := rec]);
      return None;
    }

    method DeleteColumn(id: Id) returns (failed: Outcome)
      modifies this
      ensures (View(), failed) == StoreSpec.DeleteColumn(old(View()), id)
    {
      var i := FindIndex(data.columns, (c: Column) => c.id == id);
      if i < 0 {
        return Some(NotFound);
      }
      var columns := RemoveFromSlice(data.columns, i);
      data := data.(columns := columns);
      return None;
    }

    method CreateFunction(req: CreateFunctionRequest) returns (failed: Outcome)
      modifies this
      ensures (View(), failed) == StoreSpec.CreateFunction(old(View()), req)
    {
      hide IndexWhere;
      if req.serverName == "" || req.name == "" || req.operation == "" {
        return Some(Invalid);
      }
      var schema := if req.schema == "" then "public" else req.schema;
      var options := if req.options.Some? then req.options.value else map[];
      var srv := FindIndex(data.servers, (s: Server) => s.name == req.serverName);
      if srv < 0 {
        return Some(NotFound);
      }
      var existing := FindIndex(data.functions, (f: Function) => f.schema == schema && f.name == req.name);
      if existing >= 0 {
        return Some(AlreadyExists);
      }
      var id := NewId();
      data := data.(functions := data.functions
                                 + [Function(id, data.servers[srv].id, schema, req.name, req.operation, req.remotePath,
                                             req.httpMethod, options)]);
      return None;
    }

    method UpdateFunction(id: Id, req: UpdateFunctionRequest) returns (failed: Outcome)
      modifies this
      ensures (View(), failed) == StoreSpec.UpdateFunction(old(View()), id, req)
    {
      var i := FindIndex(data.functions, (f: Function) => f.id == id);
      if i < 0 {
        return Some(NotFound);
      }
      var rec := data.functions[i];
      if req.operation.Some? {
        rec := rec.(operation := req.operation.value);
      }
      if req.remotePath.Some? {
        rec := rec.(remotePath := req.remotePath.value);
      }
      if req.httpMethod.Some? {
        rec := rec.(httpMethod := req.httpMethod.value);
      }
      if req.options.Some? {
        rec := rec.(options := req.options.value);
      }
      data := data.(functions := data.functions[i := rec]);
      return None;
    }

    method DeleteFunction(id: Id) returns (failed: Outcome)
      modifies this
      ensures (View(), failed) == StoreSpec.DeleteFunction(old(View()), id)
    {
      var i := FindIndex(data.functions, (f: Function) => f.id == id);
      if i < 0 {
        return Some(NotFound);
      }
      var functions := RemoveFromSlice(data.functions, i);
      data := data.(functions := functions);
      return None;
    }

    method ResolveTable(schema: string, name: string) returns (r: Resolution<ResolvedTable>)
      ensures r == StoreSpec.ResolveTable(data, schema, name)
    {
      var i := FindIndex(data.tables, (t: Table) => t.schema == schema && t.name == name);
      if i < 0 {
        return Unresolved(NotFound);
      }
      var t := data.tables[i];
      var j := FindIndex(data.servers, (s: Server) => s.id == t.serverId);
      if j < 0 {
        return Unresolved(NotFound);
      }
      var srv := data.servers[j];
      if !srv.enabled {
        return Unresolved(Disabled);
      }
      var cols: seq<Column> := [];
      for n := 0 to |data.columns|
        invariant cols == Keep(data.columns[..n], OfTable(t.id))
      {
        assert data.columns[..n + 1][..n] == data.columns[..n];
        if data.columns[n].tableId == t.id {
          cols := cols + [data.columns[n]];
        }
      }
      assert data.columns[..|data.columns|] == data.columns;
      return Resolved(ResolvedTable(t, srv, Sort(cols, ColumnBefore)));
    }

    method ResolveFunction(schema: string, name: string) returns (r: Resolution<ResolvedFunction>)
      ensures r == StoreSpec.ResolveFunction(data, schema, name)
    {
      var i := FindIndex(data.functions, (f: Function) => f.schema == schema && f.name == name);
      if i < 0 {
        return Unresolved(NotFound);
      }
      var f := data.functions[i];
      var j := FindIndex(data.servers, (s: Server) => s.id == f.serverId);
      if j < 0 {
        return Unresolved(NotFound);
      }
      var srv := data.servers[j];
      if !srv.enabled {
        return Unresolved(Disabled);
      }
      return Resolved(ResolvedFunction(f, srv));
    }

    method ServerCredential(ref: Option<Id>) returns (r: Resolution<Option<Fields>>)
      ensures r == StoreSpec.ServerCredential(data, ref)
    {
      if ref.None? {
        return Resolved(None);
      }
      var i := FindIndex(data.credentials, (c: Credential) => c.id == ref.value);
      if i < 0 {
        return Unresolved(NotFound);
      }
      return Resolved(Some(data.credentials[i].payload));
    }
  }
}
