/** Identifiers in lists: every list of the store is in the order of creation, and compilation takes new ones. */
module CompiledIds {
  import opened Text
  import opened Meta
  import opened Seqs
  import opened Documents
  import opened Declarative
  import opened StoreSpec
  import opened CompileMeaning
  import opened StoreInvariant

  /** In the order of creation. */
  ghost predicate Ascending<T(!new)>(s: seq<T>, id: T -> Id) {
    forall i, j :: 0 <= i < j < |s| ==> id(s[i]) < id(s[j])
  }

  ghost predicate InOrder(snap: Snapshot) {
    && Ascending(snap.servers, (s: Server) => s.id)
    && Ascending(snap.tables, (t: Table) => t.id)
    && Ascending(snap.functions, (f: Function) => f.id)
  }

  lemma AscendingSnoc<T(!new)>(s: seq<T>, x: T, id: T -> Id)
    requires Ascending(s, id) && forall y :: y in s ==> id(y) < id(x)
    ensures Ascending(s + [x], id)
  {
  }

  lemma AscendingReplace<T(!new)>(s: seq<T>, i: nat, x: T, id: T -> Id)
    requires Ascending(s, id) && i < |s| && id(x) == id(s[i])
    ensures Ascending(s[i := x], id)
  {
  }

  lemma AscendingRemove<T(!new)>(s: seq<T>, i: nat, id: T -> Id)
    requires Ascending(s, id) && i < |s|
    ensures Ascending(RemoveAt(s, i), id)
  {
  }

  lemma {:induction false} AscendingKeep<T(!new)>(s: seq<T>, p: T -> bool, id: T -> Id)
    requires Ascending(s, id)
    ensures Ascending(Keep(s, p), id)
  {
    if s != [] {
      var before, last := s[..|s| - 1], s[|s| - 1];
      AscendingKeep(before, p, id);
      if p(last) {
        AscendingSnoc(Keep(before, p), last, id);
      }
    }
  }

  lemma AscendingUnique<T(!new)>(s: seq<T>, id: T -> Id)
    requires Ascending(s, id)
    ensures Unique(s, id)
    ensures forall x, y :: x in s && y in s && id(x) == id(y) ==> x == y
  {
    forall x, y | x in s && y in s && id(x) == id(y)
      ensures x == y
    {
      SameKeySameElement(s, id, x, y);
    }
  }

  lemma LastIsHighest<T(!new)>(s: seq<T>, id: T -> Id, x: T)
    requires Ascending(s, id) && s != [] && x in s
    ensures id(x) <= id(s[|s| - 1])
    ensures x in s[..|s| - 1] <==> id(x) < id(s[|s| - 1])
  {
    var i :| 0 <= i < |s| && s[i] == x;
  }

  lemma AllButTheLast<T(!new)>(s: seq<T>, id: T -> Id)
    requires Ascending(s, id) && s != []
    ensures forall x :: x in s[..|s| - 1] <==> x in s && id(x) < id(s[|s| - 1])
  {
    forall x | x in s
      ensures x in s[..|s| - 1] <==> id(x) < id(s[|s| - 1])
    {
      LastIsHighest(s, id, x);
    }
    assert forall x :: x in s[..|s| - 1] ==> x in s;
  }

  /** In the order of creation, the elements determine the list. */
  lemma {:induction false} AscendingDetermined<T(!new)>(a: seq<T>, b: seq<T>, id: T -> Id)
    requires Ascending(a, id) && Ascending(b, id) && forall x :: x in a <==> x in b
    ensures a == b
  {
    if a == [] {
      assert forall i :: 0 <= i < |b| ==> b[i] in b;
    } else {
      var x := a[|a| - 1];
      assert x in b;
      var y := b[|b| - 1];
      assert y in a;
      LastIsHighest(a, id, y);
      LastIsHighest(b, id, x);
      AscendingUnique(a, id);
      AllButTheLast(a, id);
      AllButTheLast(b, id);
      AscendingDetermined(a[..|a| - 1], b[..|b| - 1], id);
      assert a == a[..|a| - 1] + [x] && b == b[..|b| - 1] + [y];
    }
  }

  // ---- Compilation. ----

  lemma RegisterMoves(env: Env, r: Registry, name: string, data: Fields)
    ensures r.next <= Register(env, r, name, data).next
  {
  }

  lemma ServerIdIsNew(env: Env, reg: Registry, s: DeclServer, now: Timestamp)
    requires CompileServer(env, reg, s, now).Some?
    ensures var (reg', rec) := CompileServer(env, reg, s, now).value;
            reg.next <= rec.id < reg'.next && rec.updatedAt == now
  {
    hide Trim, ExpandMap, Register;
    RegisterMoves(env, reg, s.name, s.credential.data);
  }

  lemma {:induction false} ServerIdsAreNew(env: Env, start: Registry, ss: seq<DeclServer>, now: Timestamp)
    requires CompileServers(env, start, ss, now).Some?
    ensures var st := CompileServers(env, start, ss, now).value;
            && start.next <= st.reg.next && Ascending(st.records, (s: Server) => s.id)
            && forall s :: s in st.records ==> start.next <= s.id < st.reg.next && s.updatedAt == now
  {
    hide CompileServer;
    if ss != [] {
      var before, s := ss[..|ss| - 1], ss[|ss| - 1];
      ServerIdsAreNew(env, start, before, now);
      var st := CompileServers(env, start, before, now).value;
      ServerIdIsNew(env, st.reg, s, now);
      var (reg, rec) := CompileServer(env, st.reg, s, now).value;
      AscendingSnoc(st.records, rec, (s: Server) => s.id);
    }
  }

  /** The columns of one table, with consecutive identifiers. */
  ghost predicate Consecutive(cols: seq<Column>, tableId: Id, next: Id) {
    forall k :: 0 <= k < |cols| ==> cols[k].id == next + k && cols[k].tableId == tableId
  }

  lemma ConsecutiveSnoc(cols: seq<Column>, c: Column, tableId: Id, next: Id)
    requires Consecutive(cols, tableId, next) && c.id == next + |cols| && c.tableId == tableId
    ensures Consecutive(cols + [c], tableId, next)
  {
  }

  lemma {:induction false} ColumnIdsAre(cols: seq<DeclColumn>, tableId: Id, next: Id)
    ensures Consecutive(CompileColumns(cols, tableId, next), tableId, next)
  {
    hide Trim;
    if cols != [] {
      ColumnIdsAre(cols[..|cols| - 1], tableId, next);
      var before, out := CompileColumns(cols[..|cols| - 1], tableId, next), CompileColumns(cols, tableId, next);
      if out != before {
        ConsecutiveSnoc(before, out[|before|], tableId, next);
        assert out == before + [out[|before|]];
      }
    }
  }

  ghost predicate ColumnsLinked(tables: seq<Table>, columns: seq<Column>) {
    forall c :: c in columns ==> exists t :: t in tables && t.id == c.tableId
  }

  /** What one more table and its columns leave true. */
  lemma ColumnsAppended(tables: seq<Table>, columns: seq<Column>, t: Table, cols: seq<Column>, next: Id)
    requires Ascending(columns, (c: Column) => c.id) && forall c :: c in columns ==> c.id < next
    requires ColumnsLinked(tables, columns)
    requires t.id == next && Consecutive(cols, next, next + 1)
    ensures Ascending(columns + cols, (c: Column) => c.id) && ColumnsLinked(tables + [t], columns + cols)
    ensures forall c :: c in columns + cols ==> c.id < next + 1 + |cols|
  {
    var all := columns + cols;
    assert forall k :: 0 <= k < |columns| ==> all[k] == columns[k] && all[k] in columns;
    assert forall k :: |columns| <= k < |all| ==> all[k] == cols[k - |columns|];
    forall c | c in all
      ensures exists u :: u in tables + [t] && u.id == c.tableId
    {
      if c in columns {
        var u :| u in tables && u.id == c.tableId;
        assert u in tables + [t];
      } else {
        assert (tables + [t])[|tables|] == t;
      }
    }
  }

  lemma {:induction false} TableIdsAreNew(servers: map<string, Id>, ts: seq<DeclTable>, next: Id)
    requires CompileTables(servers, ts, next).Some?
    ensures var st := CompileTables(servers, ts, next).value;
            && next <= st.next && Ascending(st.tables, (t: Table) => t.id)
            && (forall t :: t in st.tables ==> next <= t.id < st.next)
            && Ascending(st.columns, (c: Column) => c.id) && (forall c :: c in st.columns ==> c.id < st.next)
            && ColumnsLinked(st.tables, st.columns)
  {
    hide CompileTable, CompileColumns, ColumnsLinked, Consecutive;
    if ts == [] {
      assert ColumnsLinked([], []) by { NothingLinked(); }
    } else {
      var before, t := ts[..|ts| - 1], ts[|ts| - 1];
      TableIdsAreNew(servers, before, next);
      var st := CompileTables(servers, before, next).value;
      var table, cols := CompileTable(servers, st.next, t).value, CompileColumns(t.columns, st.next, st.next + 1);
      TableIdIs(servers, st.next, t);
      ColumnIdsAre(t.columns, st.next, st.next + 1);
      ColumnsAppended(st.tables, st.columns, table, cols, st.next);
      AscendingSnoc(st.tables, table, (t: Table) => t.id);
    }
  }

  lemma NothingLinked()
    ensures ColumnsLinked([], [])
  {
  }

  lemma TableIdIs(servers: map<string, Id>, id: Id, t: DeclTable)
    requires CompileTable(servers, id, t).Some?
    ensures CompileTable(servers, id, t).value.id == id
  {
    hide Trim;
  }

  lemma FunctionIdIs(servers: map<string, Id>, id: Id, f: DeclFunction)
    requires CompileFunction(servers, id, f).Some?
    ensures CompileFunction(servers, id, f).value.id == id
  {
    hide Trim;
  }

  lemma FunctionIdsAreNew(servers: map<string, Id>, fs: seq<DeclFunction>, next: Id)
    requires CompileFunctions(servers, fs, next).Some?
    ensures var out := CompileFunctions(servers, fs, next).value;
            && |out| == |fs| && Ascending(out, (f: Function) => f.id)
            && forall f :: f in out ==> next <= f.id < next + |out|
  {
    hide CompileFunctions, CompileFunction;
    CompiledFunctionsMatch(servers, fs, next);
    var out := CompileFunctions(servers, fs, next).value;
    forall i | 0 <= i < |out|
      ensures out[i].id == next + i
    {
      FunctionIdIs(servers, next + i, fs[i]);
    }
  }

  /** A compiled snapshot has new identifiers throughout, in the order of its lists. */
  lemma CompiledIdsAreNew(env: Env, doc: Doc, next: Id, now: Timestamp)
    requires Compile(env, doc, next, now).Some?
    ensures var (snap, next') := Compile(env, doc, next, now).value;
            && InOrder(snap) && IdsBelow(snap, next') && next <= next'
            && (forall s :: s in snap.servers ==> next <= s.id && s.updatedAt == now)
            && (forall t :: t in snap.tables ==> next <= t.id)
            && (forall f :: f in snap.functions ==> next <= f.id)
            && Ascending(snap.columns, (c: Column) => c.id) && ColumnsLinked(snap.tables, snap.columns)
  {
    hide CompileServers, CompileTables, CompileFunctions, RegisterAll, Holds, ListedSecrets, ServerSecrets,
         ServersMatch, Ascending, ColumnsLinked;
    var start := RegisterAll(env, doc.credentials, next);
    RegisterAllHolds(env, doc.credentials, next);
    CompiledServersMatch(env, start, ListedSecrets(env, doc.credentials), doc.servers, now);
    ServerIdsAreNew(env, start, doc.servers, now);
    var ss := CompileServers(env, start, doc.servers, now).value;
    CredentialsBelow(ss, ServerSecrets(env, ListedSecrets(env, doc.credentials), doc.servers), doc.servers);
    TableIdsAreNew(ss.ids, doc.tables, ss.reg.next);
    var ts := CompileTables(ss.ids, doc.tables, ss.reg.next).value;
    FunctionIdsAreNew(ss.ids, doc.functions, ts.next);
  }

  lemma CredentialsBelow(ss: Servers, secrets: map<string, Fields>, entries: seq<DeclServer>)
    requires ServersMatch(ss, secrets, entries)
    ensures forall c :: c in ss.reg.records ==> c.id < ss.reg.next
  {
    hide ServerMatches, IdsKnown, Unique;
  }
}
