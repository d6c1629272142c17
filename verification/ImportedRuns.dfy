/** Runs of store operations with imports in between: when names stay unique. */
module ImportedRuns {
  import opened Text
  import opened Meta
  import opened Seqs
  import opened Documents
  import opened Merge
  import opened Declarative
  import opened StoreSpec
  import opened StoreInvariant
  import opened CompileMeaning
  import opened CompiledForm
  import opened CompiledIds
  import opened CacheRuns
  import R = RoundTrip

  function ServerNameOf(s: DeclServer): string {
    Trim(s.name)
  }

  function TableNameOf(t: DeclTable): (string, string) {
    (SchemaOf(t.schema), Trim(t.name))
  }

  function FunctionNameOf(f: DeclFunction): (string, string) {
    (SchemaOf(f.schema), Trim(f.name))
  }

  /** No two servers of one name, and no two tables, or functions, of one schema and name, on whatever servers. */
  ghost predicate DistinctNames(doc: Doc) {
    && Unique(doc.servers, ServerNameOf) && Unique(doc.tables, TableNameOf) && Unique(doc.functions, FunctionNameOf)
  }

  lemma UniqueAlike<S, T, K>(a: seq<S>, b: seq<T>, f: S -> K, g: T -> K)
    requires |a| == |b| && forall i :: 0 <= i < |a| ==> f(a[i]) == g(b[i])
    ensures Unique(a, f) <==> Unique(b, g)
  {
  }

  lemma SaidNames(snap: Snapshot, doc: Doc, secrets: map<string, Fields>)
    requires Says(snap, doc, secrets)
    ensures Unique(snap.servers, (s: Server) => s.name) <==> Unique(doc.servers, ServerNameOf)
    ensures Unique(snap.tables, (t: Table) => (t.schema, t.name)) <==> Unique(doc.tables, TableNameOf)
    ensures Unique(snap.functions, (f: Function) => (f.schema, f.name)) <==> Unique(doc.functions, FunctionNameOf)
  {
    hide Trim, SchemaOf, Unique, ServerName, ColumnsOf, DeclaredColumns, Secret, CredentialName;
    forall i | 0 <= i < |doc.servers|
      ensures snap.servers[i].name == ServerNameOf(doc.servers[i])
    {
      assert ServerContentOf(snap, snap.servers[i]) == DeclaredServer(secrets, doc.servers[i]);
    }
    forall i | 0 <= i < |doc.tables|
      ensures (snap.tables[i].schema, snap.tables[i].name) == TableNameOf(doc.tables[i])
    {
      assert TableContentOf(snap, snap.tables[i]) == DeclaredTable(doc.tables[i]);
    }
    forall i | 0 <= i < |doc.functions|
      ensures (snap.functions[i].schema, snap.functions[i].name) == FunctionNameOf(doc.functions[i])
    {
      assert FunctionContentOf(snap, snap.functions[i]) == DeclaredFunction(doc.functions[i]);
    }
    UniqueAlike(snap.servers, doc.servers, (s: Server) => s.name, ServerNameOf);
    UniqueAlike(snap.tables, doc.tables, (t: Table) => (t.schema, t.name), TableNameOf);
    UniqueAlike(snap.functions, doc.functions, (f: Function) => (f.schema, f.name), FunctionNameOf);
  }

  lemma NormalLinksAndNames(snap: Snapshot)
    requires R.Normal(snap)
    ensures Unique(snap.credentials, (c: Credential) => c.id) && Unique(snap.credentials, (c: Credential) => c.name)
    ensures forall t :: t in snap.tables ==> HasServer(snap, t.serverId)
    ensures forall f :: f in snap.functions ==> HasServer(snap, f.serverId)
  {
    hide R.Clean, R.ColumnsNormal, R.ServerNormal;
    forall t | t in snap.tables
      ensures HasServer(snap, t.serverId)
    {
      assert R.TableNormal(snap, t);
    }
    forall f | f in snap.functions
      ensures HasServer(snap, f.serverId)
    {
      assert R.FunctionNormal(snap, f);
    }
  }

  lemma IdsAreUnique(snap: Snapshot)
    requires InOrder(snap) && Ascending(snap.columns, (c: Column) => c.id)
    requires Unique(snap.credentials, (c: Credential) => c.id)
    ensures UniqueIds(snap)
  {
    hide Ascending, Unique;
    AscendingUnique(snap.servers, (s: Server) => s.id);
    AscendingUnique(snap.tables, (t: Table) => t.id);
    AscendingUnique(snap.columns, (c: Column) => c.id);
    AscendingUnique(snap.functions, (f: Function) => f.id);
  }

  /** A document compiles to a valid store exactly when its names are distinct; identifiers and links are valid
      always. */
  lemma CompiledIsValidExactlyWhen(env: Env, doc: Doc, next: Id, now: Timestamp)
    requires Compile(env, doc, next, now).Some?
    ensures var (snap, next') := Compile(env, doc, next, now).value;
            && UniqueIds(snap) && Linked(snap) && IdsBelow(snap, next')
            && (Valid(Db(snap, next')) <==> DistinctNames(doc))
  {
    hide Compile, R.Normal, Says, SharesByName, Unique, InOrder, Ascending, ColumnsLinked, IdsBelow, UniqueIds, Secrets;
    var (snap, next') := Compile(env, doc, next, now).value;
    CompiledSays(env, doc, next, now);
    CompiledIsNormal(env, doc, next, now);
    CompiledIdsAreNew(env, doc, next, now);
    SaidNames(snap, doc, Secrets(env, doc));
    NormalLinksAndNames(snap);
    IdsAreUnique(snap);
    ColumnsHaveTables(snap);
  }

  lemma ColumnsHaveTables(snap: Snapshot)
    requires ColumnsLinked(snap.tables, snap.columns)
    ensures forall c :: c in snap.columns ==> HasTable(snap, c.tableId)
  {
  }

  /** Every import of the run that compiles has distinct names. */
  ghost predicate ImportsDistinct(run: seq<Action>, ttl: int) {
    forall i :: 0 <= i < |run| ==> ImportIsDistinct(Reached(run[..i], ttl).db, run[i])
  }

  ghost predicate ImportIsDistinct(db: Db, a: Action) {
    a.Import? && Compile(a.env, a.doc, db.next, a.now).Some? ==> DistinctNames(a.doc)
  }

  lemma StepIsValidExactlyWhen(w: World, a: Action, ttl: int)
    requires Valid(w.db)
    ensures Valid(Next(w, a, ttl).db) <==> ImportIsDistinct(w.db, a)
  {
    hide Valid, Compile, DistinctNames, Apply, VersionsIn;
    match a
    case Change(op) => OpKeepsValid(w.db, op);
    case Import(env, doc, now) =>
      if Compile(env, doc, w.db.next, now).Some? {
        CompiledIsValidExactlyWhen(env, doc, w.db.next, now);
      }
    case _ =>
  }

  ghost predicate EveryStateIsValid(run: seq<Action>, ttl: int) {
    forall n :: 0 <= n <= |run| ==> Valid(Reached(run[..n], ttl).db)
  }

  lemma PrefixStates(run: seq<Action>, ttl: int)
    requires run != []
    ensures EveryStateIsValid(run, ttl)
            <==> EveryStateIsValid(run[..|run| - 1], ttl) && Valid(Reached(run, ttl).db)
  {
    hide Valid, Reached;
    var m := |run| - 1;
    assert forall n :: 0 <= n <= m ==> run[..m][..n] == run[..n];
    assert run[..|run|] == run;
  }

  /** Runs of operations, imports, reloads and resolves: every state on the way is valid exactly when every document
      imported on the way has distinct names. */
  lemma {:induction false} RunsAreValidExactlyWhen(run: seq<Action>, ttl: int)
    ensures EveryStateIsValid(run, ttl) <==> ImportsDistinct(run, ttl)
  {
    hide Valid, Next, ImportIsDistinct, EveryStateIsValid, ImportsDistinct;
    if run == [] {
      NothingHappened(ttl);
    } else {
      var before, a := run[..|run| - 1], run[|run| - 1];
      RunsAreValidExactlyWhen(before, ttl);
      PrefixStates(run, ttl);
      PrefixImports(run, ttl);
      LastStateIsValid(before, ttl);
      if Valid(Reached(before, ttl).db) {
        StepIsValidExactlyWhen(Reached(before, ttl), a, ttl);
      }
    }
  }

  lemma LastStateIsValid(run: seq<Action>, ttl: int)
    ensures EveryStateIsValid(run, ttl) ==> Valid(Reached(run, ttl).db)
  {
    hide Valid, Reached;
    assert run[..|run|] == run;
  }

  lemma NothingHappened(ttl: int)
    ensures EveryStateIsValid([], ttl) && ImportsDistinct([], ttl)
  {
    StartIsValid();
    hide Valid;
    var run: seq<Action> := [];
    assert forall n :: 0 <= n <= |run| ==> run[..n] == [];
  }

  lemma PrefixImports(run: seq<Action>, ttl: int)
    requires run != []
    ensures var m := |run| - 1;
            ImportsDistinct(run, ttl)
            <==> ImportsDistinct(run[..m], ttl) && ImportIsDistinct(Reached(run[..m], ttl).db, run[m])
  {
    hide ImportIsDistinct, Reached;
    var m := |run| - 1;
    assert forall i :: 0 <= i < m ==> run[..m][..i] == run[..i] && run[..m][i] == run[i];
  }

  lemma StartIsValid()
    ensures Valid(EmptyDb)
  {
  }
}
