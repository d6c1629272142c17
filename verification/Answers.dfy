/** What resolution tells a caller, with identifiers forgotten. */
module Answers {
  import opened Text
  import opened Meta
  import opened Seqs
  import opened Documents
  import opened StoreSpec
  import opened Decompile
  import opened CompileMeaning
  import opened RoundTrip
  import opened CompiledForm

  /** The order of ListColumns, on contents. */
  predicate ContentBefore(a: ColumnContent, b: ColumnContent) {
    if a.position == b.position then Less(a.name, b.name) else a.position < b.position
  }

  /** A table as resolution gives it: its columns in the order of ListColumns. */
  function Presented(c: TableContent): TableContent {
    c.(columns := Sort(c.columns, ContentBefore))
  }

  function TableAnswer(snap: Snapshot, schema: string, name: string): Resolution<TableContent> {
    match ResolveTable(snap, schema, name)
    case Unresolved(e) => Unresolved(e)
    case Resolved(r) =>
      Resolved(TableContent(r.server.name, r.table.schema, r.table.name, r.table.remoteName, r.table.keyColumns,
                            r.table.options, ColumnContents(r.columns)))
  }

  function FunctionAnswer(snap: Snapshot, schema: string, name: string): Resolution<FunctionContent> {
    match ResolveFunction(snap, schema, name)
    case Unresolved(e) => Unresolved(e)
    case Resolved(r) =>
      Resolved(FunctionContent(r.server.name, r.target.schema, r.target.name, r.target.operation,
                               r.target.remotePath, r.target.httpMethod, r.target.options))
  }

  // ---- Sorting columns is sorting their contents. ----

  lemma ContentsSnoc(cols: seq<Column>, c: Column)
    ensures ColumnContents(cols + [c]) == ColumnContents(cols) + ColumnContents([c])
    ensures |ColumnContents([c])| == 1 && ColumnContents([c])[0].position == c.position
              && ColumnContents([c])[0].name == c.name
  {
  }

  lemma InsertStep<T>(before: seq<T>, last: T, x: T, less: (T, T) -> bool)
    ensures Insert(before + [last], x, less)
            == if less(x, last) then Insert(before, x, less) + [last] else before + [last] + [x]
  {
    assert (before + [last])[..|before|] == before;
  }

  lemma InsertFirst<T>(x: T, less: (T, T) -> bool)
    ensures Insert([], x, less) == [x]
  {
  }

  lemma {:induction false} InsertedContents(cols: seq<Column>, c: Column)
    ensures ColumnContents(Insert(cols, c, ColumnBefore))
              == Insert(ColumnContents(cols), ColumnContents([c])[0], ContentBefore)
  {
    hide ColumnContents, Less, Insert;
    NoContents();
    ContentsSnoc([], c);
    var k := ColumnContents([c])[0];
    if cols == [] {
      InsertFirst(c, ColumnBefore);
      InsertFirst(k, ContentBefore);
      assert ColumnContents([c]) == [k];
    } else {
      var before, last := cols[..|cols| - 1], cols[|cols| - 1];
      assert cols == before + [last];
      ContentsSnoc(before, last);
      var l := ColumnContents([last])[0];
      InsertedContents(before, c);
      ContentsSnoc(Insert(before, c, ColumnBefore), last);
      ContentsSnoc(cols, c);
      assert ColumnContents([last]) == [l] && ColumnContents([c]) == [k];
      InsertStep(before, last, c, ColumnBefore);
      InsertStep(ColumnContents(before), l, k, ContentBefore);
    }
  }

  lemma NoContents()
    ensures ColumnContents([]) == []
  {
  }

  lemma {:induction false} SortedContents(cols: seq<Column>)
    ensures ColumnContents(Sort(cols, ColumnBefore)) == Sort(ColumnContents(cols), ContentBefore)
  {
    hide ColumnContents, Insert;
    if cols == [] {
      NoContents();
    } else {
      var before, last := cols[..|cols| - 1], cols[|cols| - 1];
      assert cols == before + [last];
      SortedContents(before);
      ContentsSnoc(before, last);
      InsertedContents(Sort(before, ColumnBefore), last);
    }
  }

  // ---- The answer is about the first record of the name. ----

  function FirstTable(snap: Snapshot, schema: string, name: string): (i: int)
    ensures -1 <= i < |snap.tables|
    ensures i >= 0 ==> snap.tables[i].schema == schema && snap.tables[i].name == name
    ensures i < 0 ==> forall t :: t in snap.tables ==> !(t.schema == schema && t.name == name)
  {
    IndexWhere(snap.tables, (t: Table) => t.schema == schema && t.name == name)
  }

  function FirstFunction(snap: Snapshot, schema: string, name: string): (i: int)
    ensures -1 <= i < |snap.functions|
    ensures i >= 0 ==> snap.functions[i].schema == schema && snap.functions[i].name == name
    ensures i < 0 ==> forall f :: f in snap.functions ==> !(f.schema == schema && f.name == name)
  {
    IndexWhere(snap.functions, (f: Function) => f.schema == schema && f.name == name)
  }

  function ServerAt(snap: Snapshot, id: Id): (s: Option<Server>)
    ensures s.Some? ==> s.value in snap.servers && s.value.id == id
    ensures s.None? ==> !HasServer(snap, id)
  {
    var i := IndexWhere(snap.servers, (s: Server) => s.id == id);
    if i < 0 then None else Some(snap.servers[i])
  }

  lemma TableAnswerIs(snap: Snapshot, schema: string, name: string)
    ensures var i := FirstTable(snap, schema, name);
            TableAnswer(snap, schema, name)
            == if i < 0 then Unresolved(NotFound)
               else match ServerAt(snap, snap.tables[i].serverId)
                    case None => Unresolved(NotFound)
                    case Some(s) =>
                      if s.enabled
                            then Resolved(Presented(TableContentOf(snap, snap.tables[i]))) else Unresolved(Disabled)
    ensures var i := FirstTable(snap, schema, name);
            i >= 0 && HasServer(snap, snap.tables[i].serverId) ==>
              TableContentOf(snap, snap.tables[i]).server == ServerAt(snap, snap.tables[i].serverId).value.name
  {
    hide Sort, ColumnsOf;
    var i := FirstTable(snap, schema, name);
    if i >= 0 {
      SortedContents(ColumnsOf(snap, snap.tables[i].id));
    }
  }

  lemma FunctionAnswerIs(snap: Snapshot, schema: string, name: string)
    ensures var i := FirstFunction(snap, schema, name);
            FunctionAnswer(snap, schema, name)
            == if i < 0 then Unresolved(NotFound)
               else match ServerAt(snap, snap.functions[i].serverId)
                    case None => Unresolved(NotFound)
                    case Some(s) =>
                      if s.enabled then Resolved(FunctionContentOf(snap, snap.functions[i])) else Unresolved(Disabled)
    ensures var i := FirstFunction(snap, schema, name);
            i >= 0 && HasServer(snap, snap.functions[i].serverId) ==>
              FunctionContentOf(snap, snap.functions[i]).server == ServerAt(snap, snap.functions[i].serverId).value.name
  {
  }

  // ---- Columns that come back in any order. ----

  lemma {:induction false} DeclaredCount(cols: seq<Column>)
    ensures |DeclaredColumns(ColumnEntries(cols))| <= |cols|
    ensures |DeclaredColumns(ColumnEntries(cols))| == |cols| ==> forall c :: c in cols ==> Trim(c.name) != ""
  {
    hide Trim;
    if cols != [] {
      var before, last := cols[..|cols| - 1], cols[|cols| - 1];
      DeclaredCount(before);
      assert ColumnEntries(cols)[..|before|] == ColumnEntries(before);
      assert cols == before + [last];
    }
  }

  /** Named columns are declared one by one, changed only in their type and in position 0. */
  lemma {:induction false} DeclaredOneByOne(cols: seq<Column>)
    requires forall c :: c in cols ==> Trim(c.name) != ""
    ensures |DeclaredColumns(ColumnEntries(cols))| == |cols|
    ensures forall k :: 0 <= k < |cols| ==>
              DeclaredColumns(ColumnEntries(cols))[k].position == if cols[k].position == 0 then k else cols[k].position
    ensures forall k :: 0 <= k < |cols| && Clean(cols[k].dataType) && (cols[k].position == 0 ==> k == 0) ==>
              DeclaredColumns(ColumnEntries(cols))[k] == ColumnContents(cols)[k]
  {
    hide Trim;
    if cols != [] {
      var before, last := cols[..|cols| - 1], cols[|cols| - 1];
      assert cols == before + [last];
      DeclaredOneByOne(before);
      assert ColumnEntries(cols)[..|before|] == ColumnEntries(before);
    }
  }

  /** If, in some order, these are columns of which only the first can be at position 0, so they are as they stand. */
  lemma ZeroOnlyFirst(a: seq<ColumnContent>, b: seq<ColumnContent>)
    requires |a| == |b| > 0 && multiset(a) == multiset(b)
    requires forall i :: 0 < i < |b| ==> b[i].position != 0
    requires b[0].position == 0 ==> b[0] == a[0]
    ensures forall k :: 0 < k < |a| ==> a[k].position != 0
  {
    assert a == [a[0]] + a[1..] && b == [b[0]] + b[1..];
    forall k | 0 < k < |a|
      ensures a[k].position != 0
    {
      var x := a[k];
      assert x == a[1..][k - 1] && x in a[1..];
      assert multiset(a)[x] == multiset{a[0]}[x] + multiset(a[1..])[x];
      assert multiset(b)[x] == multiset{b[0]}[x] + multiset(b[1..])[x];
      assert x in b[1..] || (x == b[0] && x != a[0]);
    }
  }

  /** What a table's entry declares is, in some order, what the table has only if the table's columns are normal. */
  lemma SameColumnsMeanNormal(cols: seq<Column>)
    requires multiset(DeclaredColumns(ColumnEntries(cols))) == multiset(ColumnContents(cols))
    ensures ColumnsNormal(ColumnContents(cols))
  {
    hide Trim, DeclaredColumns;
    var declared, have := DeclaredColumns(ColumnEntries(cols)), ColumnContents(cols);
    assert |declared| == |multiset(declared)| == |multiset(have)| == |have|;
    DeclaredCount(cols);
    DeclaredOneByOne(cols);
    DeclaredColumnsNormal(ColumnEntries(cols));
    forall k | 0 <= k < |have|
      ensures Trim(have[k].name) != "" && Clean(have[k].dataType)
    {
      assert have[k] in multiset(have) && have[k] in multiset(declared) && have[k] in declared;
    }
    if have != [] {
      assert Clean(cols[0].dataType) by { assert Clean(have[0].dataType); }
      ZeroOnlyFirst(have, declared);
    }
  }
}
