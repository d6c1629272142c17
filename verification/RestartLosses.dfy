/** Five states that store operations reach and a restart, or an import, does not keep. */
module RestartLosses {
  import opened Text
  import opened Meta
  import opened Seqs
  import opened Documents
  import opened Merge
  import opened Declarative
  import opened StoreSpec
  import opened Decompile
  import opened CompileMeaning
  import opened RoundTrip
  import opened ImportMeaning
  import opened ImportResult
  import opened ImportKept
  import opened Answers
  import opened ImportResolves
  import opened Import
  import I = StoreInvariant

  const NOW := Timestamp(2024, 1, 1, 0, 0, 0, 0)

  function NewServer(name: string): Op {
    OpCreateServer(CreateServerRequest(name, "pg", None, None, map[], "", None), NOW)
  }

  lemma AfterSnoc(db: Db, ops: seq<Op>, op: Op)
    ensures After(db, ops + [op]) == Apply(After(db, ops), op).0
  {
    assert (ops + [op])[..|ops|] == ops;
  }

  lemma AfterOne(op: Op)
    ensures After(EmptyDb, [op]) == Apply(EmptyDb, op).0
  {
    assert [] + [op] == [op];
    AfterSnoc(EmptyDb, [], op);
  }

  // ---- A column created without a position. ----

  const THE_SERVER := Server(0, "s", "pg", map[], None, true, NOW)
  const THE_TABLE := Table(1, 0, "public", "t", "", [], map[])
  const COLUMN_Z := Column(2, 1, "z", "text", "", true, 0)
  const COLUMN_A := Column(3, 1, "a", "text", "", true, 0)
  const TWO_COLUMNS := Snapshot([], [THE_SERVER], [THE_TABLE], [COLUMN_Z, COLUMN_A], [])

  const TableOp := OpCreateTable(CreateTableRequest("s", "public", "t", "", [], None,
        [ColumnInput("z", "text", "", None, 0)]))
  const ColumnOp := OpCreateColumn(1, ColumnInput("a", "text", "", None, 0))

  lemma ServerMade()
    ensures After(EmptyDb, [NewServer("s")]) == Db(Snapshot([], [THE_SERVER], [], [], []), 1)
  {
    AfterOne(NewServer("s"));
  }

  lemma TableMade()
    ensures After(EmptyDb, [NewServer("s"), TableOp]) == Db(Snapshot([], [THE_SERVER], [THE_TABLE], [COLUMN_Z], []), 3)
  {
    ServerMade();
    AfterSnoc(EmptyDb, [NewServer("s")], TableOp);
    assert [NewServer("s")] + [TableOp] == [NewServer("s"), TableOp];
    var inputs := [ColumnInput("z", "text", "", None, 0)];
    assert inputs[..0] == [];
    assert NewColumns(inputs, 1, 2) == [COLUMN_Z];
  }

  lemma TwoColumnsReached()
    ensures After(EmptyDb, [NewServer("s"), TableOp, ColumnOp]) == Db(TWO_COLUMNS, 4)
  {
    hide CreateColumn, CreateTable, CreateServer;
    TableMade();
    ColumnMade();
    AfterSnoc(EmptyDb, [NewServer("s"), TableOp], ColumnOp);
    assert [NewServer("s"), TableOp] + [ColumnOp] == [NewServer("s"), TableOp, ColumnOp];
  }

  lemma ColumnMade()
    ensures CreateColumn(Db(Snapshot([], [THE_SERVER], [THE_TABLE], [COLUMN_Z], []), 3), 1, ColumnOp.column).0
            == Db(TWO_COLUMNS, 4)
  {
    hide IndexWhere;
    assert [COLUMN_Z] + [COLUMN_A] == [COLUMN_Z, COLUMN_A];
    var tables := [THE_TABLE];
    assert tables[0].id == 1;
  }

  lemma SortTwo(x: Column, y: Column)
    ensures Sort([x, y], ColumnBefore) == if ColumnBefore(y, x) then [y, x] else [x, y]
  {
    assert [x, y][..1] == [x] && [x][..0] == [];
    assert Sort([x], ColumnBefore) == [x] by {
      assert Insert([], x, ColumnBefore) == [x];
    }
    assert [] + [y] == [y];
  }

  function Names(cols: seq<Column>): seq<string> {
    seq(|cols|, i requires 0 <= i < |cols| => cols[i].name)
  }

  lemma KeepTwo(x: Column, y: Column, id: Id)
    requires x.tableId == id && y.tableId == id
    ensures Keep([x, y], OfTable(id)) == [x, y]
  {
    KeepAll([x, y], OfTable(id));
  }

  lemma BeforeRestart()
    ensures ResolveTable(TWO_COLUMNS, "public", "t").Resolved?
    ensures Names(ResolveTable(TWO_COLUMNS, "public", "t").value.columns) == ["a", "z"]
  {
    hide Keep, Sort;
    KeepTwo(COLUMN_Z, COLUMN_A, 1);
    SortTwo(COLUMN_Z, COLUMN_A);
  }

  const MOVED := [ColumnContent("z", "text", "", true, 0), ColumnContent("a", "text", "", true, 1)]

  lemma EntryMoves()
    ensures DeclaredTable(TableEntry(TWO_COLUMNS, THE_TABLE)) == TableContent("s", "public", "t", "", [], map[], MOVED)
  {
    hide Keep, DeclaredColumns;
    KeepTwo(COLUMN_Z, COLUMN_A, 1);
    var entries := [ColumnEntry(COLUMN_Z), ColumnEntry(COLUMN_A)];
    assert ColumnEntries([COLUMN_Z, COLUMN_A]) == entries;
    DeclaredMoves();
  }

  lemma DeclaredMoves()
    ensures DeclaredColumns([ColumnEntry(COLUMN_Z), ColumnEntry(COLUMN_A)]) == MOVED
  {
    var entries := [ColumnEntry(COLUMN_Z), ColumnEntry(COLUMN_A)];
    assert entries[..1] == [ColumnEntry(COLUMN_Z)] && [ColumnEntry(COLUMN_Z)][..0] == [];
    assert DeclaredColumns([ColumnEntry(COLUMN_Z)]) == [MOVED[0]];
  }

  lemma MovedColumns(cols: seq<Column>)
    requires ColumnContents(cols) == MOVED
    ensures Names(Sort(cols, ColumnBefore)) == ["z", "a"]
  {
    hide Sort;
    assert |cols| == |ColumnContents(cols)| == 2;
    assert ColumnContents(cols)[0] == MOVED[0] && ColumnContents(cols)[1] == MOVED[1];
    assert cols == [cols[0], cols[1]];
    SortTwo(cols[0], cols[1]);
  }

  lemma MovedTableIsThere(env: Env, order: seq<Id>, after: Snapshot)
    requires IsOutcome(env, TWO_COLUMNS, order, NothingIncoming, after)
    ensures exists t :: t in after.tables && t.schema == "public" && t.name == "t"
    ensures forall t :: t in after.tables ==> HasServer(after, t.serverId)
  {
    hide IsOutcome, TableAlone, DeclaredTable, TableEntry, TableKey, Keyed, ColumnsOf, ServerNormal, FunctionNormal,
         ServerName, Clean, ColumnsNormal, IsMergedWith, Says, SharesByName, Compilable, CredentialsNormal, Unique;
    var m := OutcomeSays(env, TWO_COLUMNS, order, NothingIncoming, after);
    EntryMoves();
    OnlyTableStays();
    var c := DeclaredTable(TableEntry(TWO_COLUMNS, THE_TABLE));
    TablesAfterImport(env, TWO_COLUMNS, order, NothingIncoming, after, c);
    var i :| 0 <= i < |after.tables| && TableContentOf(after, after.tables[i]) == c;
    forall t | t in after.tables
      ensures HasServer(after, t.serverId)
    {
      assert TableNormal(after, t);
    }
  }

  lemma OnlyTableStays()
    ensures TableStays(TWO_COLUMNS, NothingIncoming, THE_TABLE)
  {
    hide TableColumns, TableText, Keyed, Wins;
    NothingKeyed();
    CleanKeyOfTable();
    AloneTableStays(TWO_COLUMNS, NothingIncoming, THE_TABLE);
  }

  lemma CleanKeyOfTable()
    ensures TableKey(TableEntry(TWO_COLUMNS, THE_TABLE)) != ""
  {
    hide TableColumns, TableText;
    var servers := [THE_SERVER];
    ServerLookup(servers, THE_SERVER);
    assert Trim("s") == "s" && Trim("t") == "t";
  }

  lemma ServersStayEnabled(env: Env, order: seq<Id>, after: Snapshot, s: Server)
    requires IsOutcome(env, TWO_COLUMNS, order, NothingIncoming, after) && s in after.servers
    ensures s.enabled
  {
    hide IsOutcome, Keyed, Secret, Listed, CredentialFieldOf, EntrySecret, ServerKey, Trim;
    var i :| 0 <= i < |after.servers| && after.servers[i] == s;
    var c := ServerContentOf(after, s);
    ServersAfterImport(env, TWO_COLUMNS, order, NothingIncoming, after, c);
    NothingKeyed();
    assert forall t :: t in TWO_COLUMNS.servers ==> t == THE_SERVER;
  }

  /** The second column's position is its place in the file now: the table's columns change their order. */
  lemma SecondColumnMoves(env: Env, order: seq<Id>, after: Snapshot)
    requires IsOutcome(env, TWO_COLUMNS, order, NothingIncoming, after)
    ensures After(EmptyDb, [NewServer("s"), TableOp, ColumnOp]).snap == TWO_COLUMNS
    ensures var r := ResolveTable(TWO_COLUMNS, "public", "t"); r.Resolved? && Names(r.value.columns) == ["a", "z"]
    ensures var r := ResolveTable(after, "public", "t"); r.Resolved? && Names(r.value.columns) == ["z", "a"]
    ensures !HasTableContent(after, TableContentOf(TWO_COLUMNS, THE_TABLE))
  {
    hide IsOutcome, Keep, Sort, DeclaredTable, TableEntry, DistinctIds, TableAlone, FunctionAlone, ServerAlone,
         CleanTable, KeepsSecret, Listed, After;
    BeforeRestart();
    TwoColumnsReached();
    DistinctAtTwo();
    RestartConserves(env, TWO_COLUMNS, order, after);
    EntryMoves();
    MovedTableIsThere(env, order, after);
    var i := IndexWhere(after.tables, (t: Table) => t.schema == "public" && t.name == "t");
    var t := after.tables[i];
    assert HasTableContent(after, TableContentOf(after, t));
    MovedColumns(ColumnsOf(after, t.id));
    assert t in after.tables;
    var j := IndexWhere(after.servers, (s: Server) => s.id == t.serverId);
    ServersStayEnabled(env, order, after, after.servers[j]);
    NotMoved();
  }

  lemma NotMoved()
    ensures ColumnContents(ColumnsOf(TWO_COLUMNS, 1)) != MOVED
  {
    KeepTwo(COLUMN_Z, COLUMN_A, 1);
    assert ColumnContents([COLUMN_Z, COLUMN_A])[1].position == 0;
  }

  lemma DistinctAtTwo()
    ensures DistinctIds(TWO_COLUMNS)
  {
  }

  // ---- A server with a blank name. ----

  /** CreateServer takes a name of blanks, on any store that has no such server; from then on the store's document
      cannot be read back, and nothing can be merged into the store. */
  lemma BlankNameBlocks(db: Db, name: string, incoming: ImpDoc)
    requires name != "" && Trim(name) == "" && forall s :: s in db.snap.servers ==> s.name != name
    ensures var (db', failed) := Apply(db, NewServer(name));
            failed.None? && !Loads(db'.snap) && !Importable(db'.snap, incoming)
  {
    hide Trim, Keyed, Wins;
    var (db', failed) := Apply(db, NewServer(name));
    var i := IndexWhere(db.snap.servers, (s: Server) => s.name == name);
    assert forall k :: 0 <= k < |db.snap.servers| ==> db.snap.servers[k].name != name;
    var s := db'.snap.servers[|db.snap.servers|];
    assert s in db'.snap.servers && Trim(s.name) == "";
  }

  // ---- A function with a blank operation. ----

  const THE_FUNCTION := Function(1, 0, "public", "f", " ", "", "", map[])
  const BLANK_OPERATION := Snapshot([], [THE_SERVER], [], [], [THE_FUNCTION])

  const FunctionOp := OpCreateFunction(CreateFunctionRequest("s", "public", "f", "read", "", "", None))
  const BlankOp := OpUpdateFunction(1, UpdateFunctionRequest(Some(" "), None, None, None))

  lemma FunctionMade()
    ensures After(EmptyDb, [NewServer("s"), FunctionOp])
            == Db(Snapshot([], [THE_SERVER], [], [], [THE_FUNCTION.(operation := "read")]), 2)
  {
    ServerMade();
    AfterSnoc(EmptyDb, [NewServer("s")], FunctionOp);
    assert [NewServer("s")] + [FunctionOp] == [NewServer("s"), FunctionOp];
  }

  lemma OperationBlanked()
    ensures UpdateFunction(Db(Snapshot([], [THE_SERVER], [], [], [THE_FUNCTION.(operation := "read")]), 2),
                           1, BlankOp.functionUpdate).0 == Db(BLANK_OPERATION, 2)
  {
    var functions := [THE_FUNCTION.(operation := "read")];
    assert functions[0].id == 1 && functions[0 := THE_FUNCTION] == [THE_FUNCTION];
  }

  /** UpdateFunction takes a blank operation, and the document cannot be read back. */
  lemma BlankOperationBlocks()
    ensures After(EmptyDb, [NewServer("s"), FunctionOp, BlankOp]).snap == BLANK_OPERATION
    ensures !Loads(BLANK_OPERATION)
  {
    hide CreateServer, CreateFunction, UpdateFunction, Keyed, FunctionEntry, FunctionKey;
    FunctionMade();
    OperationBlanked();
    AfterSnoc(EmptyDb, [NewServer("s"), FunctionOp], BlankOp);
    assert [NewServer("s"), FunctionOp] + [BlankOp] == [NewServer("s"), FunctionOp, BlankOp];
    NothingKeyed();
    FunctionIsKeyed();
    AloneFunctionStays(BLANK_OPERATION, NothingIncoming, THE_FUNCTION);
    assert Trim(" ") == "";
  }

  lemma FunctionIsKeyed()
    ensures FunctionKey(FunctionEntry(BLANK_OPERATION, THE_FUNCTION)) != ""
  {
    ServerLookup([THE_SERVER], THE_SERVER);
    assert Trim("s") == "s" && Trim("f") == "f";
  }

  // ---- A server with the name of a shared credential. ----

  const SECRET_X: Fields := map["k" := Other("x")]
  const SECRET_Y: Fields := map["k" := Other("y")]

  function Sharer(id: Id, name: string, ref: Id): Server {
    Server(id, name, "pg", map[], Some(ref), true, NOW)
  }

  const THIRD := Sharer(4, "X", 1)
  const SHARING := Snapshot([Credential(0, "X", SECRET_X), Credential(1, "Y", SECRET_Y)],
                            [Sharer(2, "a", 0), Sharer(3, "b", 0), THIRD], [], [], [])

  function NewSharer(name: string, ref: Id): Op {
    OpCreateServer(CreateServerRequest(name, "pg", None, Some(ref), map[], "", None), NOW)
  }

  const SharingOps: seq<Op> := [OpCreateCredential("X", SECRET_X), OpCreateCredential("Y", SECRET_Y),
                                NewSharer("a", 0), NewSharer("b", 0), NewSharer("X", 1)]

  lemma SharerAdded(db: Db, name: string, ref: Id)
    requires name != "" && forall s :: s in db.snap.servers ==> s.name != name
    ensures Apply(db, NewSharer(name, ref)).0
            == Db(db.snap.(servers := db.snap.servers + [Sharer(db.next, name, ref)]), db.next + 1)
  {
    var i := IndexWhere(db.snap.servers, (s: Server) => s.name == name);
    assert forall k :: 0 <= k < |db.snap.servers| ==> db.snap.servers[k].name != name;
  }

  lemma CredentialAdded(db: Db, name: string, data: Fields)
    requires name != "" && forall c :: c in db.snap.credentials ==> c.name != name
    ensures Apply(db, OpCreateCredential(name, data)).0
            == Db(db.snap.(credentials := db.snap.credentials + [Credential(db.next, name, data)]), db.next + 1)
  {
    var i := IndexWhere(db.snap.credentials, (c: Credential) => c.name == name);
    assert forall k :: 0 <= k < |db.snap.credentials| ==> db.snap.credentials[k].name != name;
  }

  lemma SharingReached()
    ensures After(EmptyDb, SharingOps) == Db(SHARING, 5)
  {
    hide Apply, NewSharer;
    var ops := SharingOps;
    AfterOne(ops[0]);
    assert ops[..1] == [ops[0]];
    AfterSnoc(EmptyDb, ops[..1], ops[1]);
    AfterSnoc(EmptyDb, ops[..2], ops[2]);
    AfterSnoc(EmptyDb, ops[..3], ops[3]);
    AfterSnoc(EmptyDb, ops[..4], ops[4]);
    assert ops[..2] == ops[..1] + [ops[1]] && ops[..3] == ops[..2] + [ops[2]];
    assert ops[..4] == ops[..3] + [ops[3]] && ops == ops[..4] + [ops[4]];
    CredentialAdded(EmptyDb, "X", SECRET_X);
    CredentialAdded(After(EmptyDb, ops[..1]), "Y", SECRET_Y);
    SharerAdded(After(EmptyDb, ops[..2]), "a", 0);
    SharerAdded(After(EmptyDb, ops[..3]), "b", 0);
    SharerAdded(After(EmptyDb, ops[..4]), "X", 1);
  }

  lemma SharingCounts()
    ensures RefCount(SHARING.servers, 0) == 2 && RefCount(SHARING.servers, 1) == 1
    ensures forall id :: id > 1 ==> RefCount(SHARING.servers, id) == 0
  {
    var s := SHARING.servers;
    assert s[..2] == [s[0], s[1]] && s[..2][..1] == [s[0]] && [s[0]][..0] == [];
    assert forall id :: RefCount([s[0]], id) == if id == 0 then 1 else 0;
    assert forall id :: RefCount(s[..2], id) == if id == 0 then 2 else 0;
  }

  lemma SharingSecrets()
    ensures OpenedPayload(SHARING.credentials, 0) == Some(SECRET_X)
              && CredentialNameForID(SHARING.credentials, 0) == "X"
    ensures Secret(SHARING.credentials, Some(1)) == Some(SECRET_Y)
  {
    var creds := SHARING.credentials;
    CredentialLookup(creds, creds[0]);
    CredentialLookup(creds, creds[1]);
  }

  lemma SharedDistinct()
    ensures DistinctIds(SHARING)
  {
  }

  lemma OnlySharedUnderX(env: Env)
    ensures SharedUnder(SHARING, "X", 0) && SharedValue(env, SHARING, 0) == SECRET_X
    ensures forall k :: SharedUnder(SHARING, "X", k) ==> k == 0
  {
    hide RefCount, OpenedPayload, CredentialNameForID;
    SharingCounts();
    SharingSecrets();
    assert Trim("X") == "X";
  }

  lemma ThirdStays()
    ensures ServerStays(SHARING, NothingIncoming, THIRD) && Clean("X")
  {
    hide Keyed, Wins, CredentialFieldOf;
    NothingKeyed();
    var servers := SHARING.servers;
    assert servers[2] == THIRD;
    assert Trim("X") == "X" && Trim("a") == "a" && Trim("b") == "b";
    AloneServerStays(SHARING, NothingIncoming, THIRD);
  }

  lemma OutcomeOrder(env: Env, snap: Snapshot, order: seq<Id>, after: Snapshot)
    requires IsOutcome(env, snap, order, NothingIncoming, after)
    ensures Enumerates(snap.servers, order)
  {
    hide Enumerates, IsMerge, Compile;
  }

  lemma CapturedContent(env: Env, order: seq<Id>)
    requires Enumerates(SHARING.servers, order)
    ensures EntryContent(env, Listed(env, SHARING, order, NothingIncoming), CurrentServer(SHARING, THIRD))
            == ServerContentOf(SHARING, THIRD).(credential := Some(SECRET_X))
  {
    hide Enumerates, Listed, RefCount, OpenedPayload, CredentialNameForID, Secret, Keyed, SharedUnder, SharedValue,
         CredentialFieldOf;
    SharingCounts();
    SharingSecrets();
    SharedDistinct();
    OnlySharedUnderX(env);
    NothingKeyed();
    ListedIs(env, SHARING, order, NothingIncoming, "X");
    CurrentCredential(SHARING, THIRD);
    assert Trim("X") == "X" && Trim("pg") == "pg";
    var e, listed := CurrentServer(SHARING, THIRD), Listed(env, SHARING, order, NothingIncoming);
    assert "k" in SECRET_Y && e.credential == SECRET_Y;
    assert "X" in listed && listed["X"] == SECRET_X;
    assert EntrySecret(env, listed, e) == Some(SECRET_X);
  }

  /** The third server owns its secret, and has the other servers' secret after a restart. */
  lemma ThirdServerIsCaptured(env: Env, order: seq<Id>, after: Snapshot)
    requires IsOutcome(env, SHARING, order, NothingIncoming, after)
    ensures After(EmptyDb, SharingOps).snap == SHARING && Owns(SHARING, THIRD)
    ensures ServerContentOf(SHARING, THIRD).credential == Some(SECRET_Y)
    ensures !HasServerContent(after, ServerContentOf(SHARING, THIRD))
    ensures HasServerContent(after, ServerContentOf(SHARING, THIRD).(credential := Some(SECRET_X)))
  {
    hide IsOutcome, After, HasServerContent, OpenedPayload, CredentialNameForID, Secret, Listed, KeepsSecret, Keyed,
         RefCount, ServerStays, SharedValue, SharedUnder, EntryContent;
    SharingReached();
    SharingCounts();
    SharingSecrets();
    ThirdStays();
    OutcomeOrder(env, SHARING, order, after);
    NothingKeyed();
    OnlySharedUnderX(env);
    SharedNameCaptures(env, SHARING, order, NothingIncoming, THIRD, 0);
    assert SECRET_X["k"] != SECRET_Y["k"];
    SharedDistinct();
    StayingServerIsKeptExactlyWhen(env, SHARING, order, NothingIncoming, after, THIRD);
    CapturedContent(env, order);
    ServersAfterImport(env, SHARING, order, NothingIncoming, after,
          ServerContentOf(SHARING, THIRD).(credential := Some(SECRET_X)));
  }

  // ---- An incoming table of the same name on another server. ----

  const SERVER_A := Server(0, "a", "pg", map[], None, true, NOW)
  const SERVER_B := Server(1, "b", "pg", map[], None, true, NOW)
  const TABLE_ON_A := Table(2, 0, "public", "t", "", [], map[])
  const TWO_SERVERS := Snapshot([], [SERVER_A, SERVER_B], [TABLE_ON_A], [], [])

  const RivalOps: seq<Op> :=
    [NewServer("a"), NewServer("b"), OpCreateTable(CreateTableRequest("a", "public", "t", "", [], None, []))]

  const TABLE_ON_B := DeclTable("b", "public", "t", "", [], map[], [])
  const RIVAL := ImpDoc([], [], [TABLE_ON_B], [])

  lemma PlainServerAdded(db: Db, name: string)
    requires name != "" && forall s :: s in db.snap.servers ==> s.name != name
    ensures Apply(db, NewServer(name)).0
            == Db(db.snap.(servers := db.snap.servers + [Server(db.next, name, "pg", map[], None, true, NOW)]),
                  db.next + 1)
  {
    assert forall k :: 0 <= k < |db.snap.servers| ==> db.snap.servers[k].name != name;
  }

  lemma TableOnAMade()
    ensures CreateTable(Db(Snapshot([], [SERVER_A, SERVER_B], [], [], []), 2), RivalOps[2].table).0
              == Db(TWO_SERVERS, 3)
  {
    var servers := [SERVER_A, SERVER_B];
    assert servers[0].name == "a" && NewColumns([], 2, 3) == [];
  }

  lemma TwoServersReached()
    ensures After(EmptyDb, RivalOps) == Db(TWO_SERVERS, 3)
  {
    hide Apply, CreateTable;
    var ops := RivalOps;
    AfterOne(ops[0]);
    assert ops[..1] == [ops[0]] && ops[..2] == ops[..1] + [ops[1]] && ops == ops[..2] + [ops[2]];
    AfterSnoc(EmptyDb, ops[..1], ops[1]);
    AfterSnoc(EmptyDb, ops[..2], ops[2]);
    PlainServerAdded(EmptyDb, "a");
    assert [] + [SERVER_A] == [SERVER_A] && [SERVER_A] + [SERVER_B] == [SERVER_A, SERVER_B];
    assert After(EmptyDb, ops[..1]) == Db(Snapshot([], [SERVER_A], [], [], []), 1);
    PlainServerAdded(After(EmptyDb, ops[..1]), "b");
    TableOnAMade();
    TableApplied(Db(Snapshot([], [SERVER_A, SERVER_B], [], [], []), 2));
  }

  lemma TableApplied(db: Db)
    ensures Apply(db, RivalOps[2]) == CreateTable(db, RivalOps[2].table)
  {
  }

  lemma RivalEntries()
    ensures TableEntry(TWO_SERVERS, TABLE_ON_A) == DeclTable("a", "public", "t", "", [], map[], [])
    ensures TableContentOf(TWO_SERVERS, TABLE_ON_A) == TableContent("a", "public", "t", "", [], map[], [])
    ensures DeclaredTable(DeclTable("a", "public", "t", "", [], map[], []))
              == TableContent("a", "public", "t", "", [], map[], [])
    ensures DeclaredTable(TABLE_ON_B) == TableContent("b", "public", "t", "", [], map[], [])
    ensures Presented(TableContent("a", "public", "t", "", [], map[], [])).columns == []
    ensures Presented(TableContent("b", "public", "t", "", [], map[], [])).columns == []
  {
    ServerLookup(TWO_SERVERS.servers, SERVER_A);
    assert Trim("a") == "a" && Trim("b") == "b" && Trim("t") == "t" && Trim("public") == "public";
    var tables := TWO_SERVERS.tables;
    assert tables[0] == TABLE_ON_A;
    assert ColumnsOf(TWO_SERVERS, 2) == [];
  }

  lemma RivalComes()
    ensures forall e :: TableComes(RIVAL, e) <==> e == TABLE_ON_B
    ensures forall e :: !ServerComes(RIVAL, e)
    ensures forall e :: !FunctionComes(RIVAL, e)
    ensures var key := TableKey(DeclTable("a", "public", "t", "", [], map[], []));
            key != "" && key != TableKey(TABLE_ON_B)
  {
    assert Trim("a") == "a" && Trim("b") == "b" && Trim("t") == "t" && Trim("public") == "public";
    var incoming := [TABLE_ON_B];
    assert incoming[..0] == [];
    var key, other := TableKey(TABLE_ON_B), TableKey(DeclTable("a", "public", "t", "", [], map[], []));
    assert key[|key| - 1] == 'b' && other[|other| - 1] == 'a';
    assert Keyed(incoming, TableKey) == map[key := TABLE_ON_B];
  }

  lemma TableOnAStays()
    ensures TableStays(TWO_SERVERS, RIVAL, TABLE_ON_A) && OwnColumns(TWO_SERVERS, TABLE_ON_A)
  {
    hide TableEntry, TableKey, TableText, ColumnsOf;
    RivalEntries();
    RivalComes();
    var tables := TWO_SERVERS.tables;
    assert tables[0] == TABLE_ON_A;
    assert TableAlone(TWO_SERVERS, TABLE_ON_A);
    KeyedHas(RIVAL.tables, TableKey, TableKey(TableEntry(TWO_SERVERS, TABLE_ON_A)));
    AloneTableStays(TWO_SERVERS, RIVAL, TABLE_ON_A);
    AloneTableColumns(TWO_SERVERS, TABLE_ON_A);
  }

  lemma RivalIsImportable()
    ensures Importable(TWO_SERVERS, RIVAL)
  {
    hide Wins, Keyed, CredentialFieldOf;
    RivalComes();
    assert Trim("a") == "a" && Trim("b") == "b" && Trim("pg") == "pg";
    var servers := TWO_SERVERS.servers;
    assert servers[1] == SERVER_B && SERVER_B in servers;
  }

  lemma BothServersEnabled()
    ensures EnabledAfter(TWO_SERVERS, RIVAL, "a") && EnabledAfter(TWO_SERVERS, RIVAL, "b")
  {
    hide CredentialFieldOf;
    assert Trim("a") == "a" && Trim("b") == "b";
    var servers := TWO_SERVERS.servers;
    assert servers[0] == SERVER_A && servers[1] == SERVER_B;
    EnabledAlone(SERVER_A);
    EnabledAlone(SERVER_B);
  }

  lemma EnabledAlone(s: Server)
    requires ServerAlone(TWO_SERVERS, s) && Trim(s.name) == s.name != "" && s.enabled
    ensures EnabledAfter(TWO_SERVERS, RIVAL, s.name)
  {
    hide CredentialFieldOf, Trim, CurrentServers;
    assert RIVAL.servers == [] && Keyed(RIVAL.servers, ServerKey) == map[];
    hide Keyed;
    AloneServerStays(TWO_SERVERS, RIVAL, s);
  }

  /** A merge brings a table of the same schema and name on another server: the table that was there stays, clean and
      alone under its key, and yet its name may resolve to either. */
  lemma EitherTableCanAnswer(env: Env)
    ensures After(EmptyDb, RivalOps).snap == TWO_SERVERS && Importable(TWO_SERVERS, RIVAL)
    ensures TableStays(TWO_SERVERS, RIVAL, TABLE_ON_A) && CleanTable(TableContentOf(TWO_SERVERS, TABLE_ON_A))
    ensures exists order, after :: IsOutcome(env, TWO_SERVERS, order, RIVAL, after)
              && TableAnswer(after, "public", "t") == Resolved(TableContent("a", "public", "t", "", [], map[], []))
    ensures exists order, after :: IsOutcome(env, TWO_SERVERS, order, RIVAL, after)
              && TableAnswer(after, "public", "t") == Resolved(TableContent("b", "public", "t", "", [], map[], []))
  {
    hide After, Importable, TableStays, TableComes, TableEntry, TableAnswer, IsOutcome, EnabledAfter, TableContentOf,
         DeclaredTable;
    TwoServersReached();
    RivalIsImportable();
    TableOnAStays();
    RivalEntries();
    RivalComes();
    BothServersEnabled();
    assert Trim("a") == "a" && Trim("t") == "t" && Trim("public") == "public";
    var e := TableEntry(TWO_SERVERS, TABLE_ON_A);
    assert TableStands(TWO_SERVERS, RIVAL, e) && TableStands(TWO_SERVERS, RIVAL, TABLE_ON_B);
    var order, after := AnyStandingTableCanAnswer(env, TWO_SERVERS, RIVAL, e);
    var order', after' := AnyStandingTableCanAnswer(env, TWO_SERVERS, RIVAL, TABLE_ON_B);
  }
}
