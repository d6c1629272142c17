/** The file driver's row pipeline: filter, project, window, rename back. */
module FileDriver {
  import opened Text
  import opened Meta
  import opened Filters
  import opened Columns

  function Filtered(rows: seq<Row>, fs: seq<Filter>, groups: seq<seq<Filter>>): seq<Row> {
    if rows == [] then []
    else
      var last := rows[|rows| - 1];
      Filtered(rows[..|rows| - 1], fs, groups) + if MatchQuery(last, fs, groups) then [last] else []
  }

  method ApplyFilters(rows: seq<Row>, fs: seq<Filter>, groups: seq<seq<Filter>>) returns (out: seq<Row>)
    ensures out == Filtered(rows, fs, groups)
  {
    if |fs| == 0 && |groups| == 0 {
      NothingFiltered(rows);
      return rows;
    }
    out := [];
    for i := 0 to |rows|
      invariant out == Filtered(rows[..i], fs, groups)
    {
      assert rows[..i + 1][..i] == rows[..i];
      if MatchQuery(rows[i], fs, groups) {
        out := out + [rows[i]];
      }
    }
    assert rows[..|rows|] == rows;
  }

  lemma {:induction false} NothingFiltered(rows: seq<Row>)
    ensures Filtered(rows, [], []) == rows
  {
    if rows != [] {
      NothingFiltered(rows[..|rows| - 1]);
    }
  }

  /** The selected columns a row has; no selection means all. */
  function Projected(row: Row, select: seq<string>): Row {
    if select == [] then row else map c | c in select && c in row :: row[c]
  }

  function ProjectedRows(rows: seq<Row>, select: seq<string>): seq<Row> {
    seq(|rows|, i requires 0 <= i < |rows| => Projected(rows[i], select))
  }

  method ApplySelect(rows: seq<Row>, select: seq<string>) returns (out: seq<Row>)
    ensures out == ProjectedRows(rows, select)
  {
    if |select| == 0 {
      return rows;
    }
    out := [];
    for i := 0 to |rows|
      invariant out == ProjectedRows(rows, select)[..i]
    {
      var m: Row := map[];
      for n := 0 to |select|
        invariant m == Projected(rows[i], select[..n]) || n == 0
        invariant n == 0 ==> m == map[]
      {
        if select[n] in rows[i] {
          m := m[select[n] := rows[i][select[n]]];
        }
        assert select[..n + 1] == select[..n] + [select[n]];
      }
      assert select[..|select|] == select;
      out := out + [m];
    }
  }

  /** The window of the result a query asks for. */
  function Page(rows: seq<Row>, offset: int, limit: int): seq<Row> {
    var tail := if 0 < offset < |rows| then rows[offset..] else if offset >= |rows| then [] else rows;
    if limit > 0 && |tail| > limit then tail[..limit] else tail
  }

  /** Select, after the rows have been read. */
  method Select(rows: seq<Row>, cols: seq<Column>, select: seq<string>, fs: seq<Filter>, groups: seq<seq<Filter>>,
                offset: int, limit: int)
    returns (out: seq<Row>)
    ensures var page := Page(ProjectedRows(Filtered(rows, MappedFilters(fs, cols), MappedGroups(groups, cols)), select),
                             offset, limit);
            |out| == |page| && forall i :: 0 <= i < |page| ==> IsRenaming(page[i], ToLocal(cols), out[i])
  {
    var mapped := MapFilters(fs, cols);
    var mappedGroups := MapOrGroups(groups, cols);
    out := ApplyFilters(rows, mapped, mappedGroups);
    out := ApplySelect(out, select);
    if offset > 0 && offset < |out| {
      out := out[offset..];
    } else if offset >= |out| {
      out := [];
    }
    if limit > 0 && |out| > limit {
      out := out[..limit];
    }
    out := MapRowsFromRemote(out, cols);
  }

  // ---- Renaming commutes with the pipeline. ----

  /** A column a filter may name: a local name, or no column's remote name. */
  ghost predicate Addressable(column: string, cols: seq<Column>) {
    column in ToRemote(cols) || column !in ToLocal(cols)
  }

  /** Or a filter that no cell meets, since nothing is less than the empty text. */
  ghost predicate NamesLocally(f: Filter, cols: seq<Column>) {
    Addressable(f.column, cols) || (f.op == "lt" && f.value == "")
  }

  ghost predicate AllAddressable(fs: seq<Filter>, cols: seq<Column>) {
    forall f :: f in fs ==> NamesLocally(f, cols)
  }

  /** Looking a column up by its remote name in a remote row is looking it up by its local name in the renamed row. */
  lemma LookupCommutes(row: Row, cols: seq<Column>, c: string)
    requires CollisionFree(cols) && RemoteRow(row, cols) && NoCollision(row, ToLocal(cols)) && Addressable(c, cols)
    ensures var local, r := Renamed(row, ToLocal(cols)), Rename(ToRemote(cols), c);
            (r in row <==> c in local) && (r in row ==> row[r] == local[c])
  {
    NamesInverse(cols);
    var m, local, r := ToLocal(cols), Renamed(row, ToLocal(cols)), Rename(ToRemote(cols), c);
    assert Rename(m, r) == c;
    if r in row {
      CellIsRenamed(row, m, local, r);
    }
    if c in local {
      var k := CellComesFrom(row, m, local, c);
    }
  }

  function Mapped(f: Filter, cols: seq<Column>): Filter {
    f.(column := Rename(ToRemote(cols), f.column))
  }

  lemma FilterCommutes(row: Row, cols: seq<Column>, f: Filter)
    requires CollisionFree(cols) && RemoteRow(row, cols) && NoCollision(row, ToLocal(cols)) && NamesLocally(f, cols)
    ensures MatchFilter(row, Mapped(f, cols)) <==> MatchFilter(Renamed(row, ToLocal(cols)), f)
  {
    hide NoCollision, RemoteRow, CollisionFree, IsRenaming, Contains, TrimPercent, Split, Rename;
    if Addressable(f.column, cols) {
      LookupCommutes(row, cols, f.column);
    }
  }

  lemma FiltersCommute(row: Row, cols: seq<Column>, fs: seq<Filter>)
    requires CollisionFree(cols) && RemoteRow(row, cols) && NoCollision(row, ToLocal(cols)) && AllAddressable(fs, cols)
    ensures MatchFilters(row, MappedFilters(fs, cols)) <==> MatchFilters(Renamed(row, ToLocal(cols)), fs)
  {
    hide MatchFilter, NoCollision, RemoteRow, CollisionFree, IsRenaming;
    var mapped, local := MappedFilters(fs, cols), Renamed(row, ToLocal(cols));
    forall i | 0 <= i < |fs|
      ensures MatchFilter(row, mapped[i]) <==> MatchFilter(local, fs[i])
    {
      FilterCommutes(row, cols, fs[i]);
      assert mapped[i] == Mapped(fs[i], cols);
    }
    assert forall i :: 0 <= i < |fs| ==> mapped[i] in mapped && fs[i] in fs;
  }

  lemma QueryCommutes(row: Row, cols: seq<Column>, fs: seq<Filter>, groups: seq<seq<Filter>>)
    requires CollisionFree(cols) && RemoteRow(row, cols) && NoCollision(row, ToLocal(cols))
    requires AllAddressable(fs, cols) && forall g :: g in groups ==> AllAddressable(g, cols)
    ensures MatchQuery(row, MappedFilters(fs, cols), MappedGroups(groups, cols))
            <==> MatchQuery(Renamed(row, ToLocal(cols)), fs, groups)
  {
    hide MatchFilters, NoCollision, RemoteRow, CollisionFree, IsRenaming, MappedFilters;
    var mapped, local := MappedGroups(groups, cols), Renamed(row, ToLocal(cols));
    FiltersCommute(row, cols, fs);
    forall i | 0 <= i < |groups|
      ensures MatchFilters(row, mapped[i]) <==> MatchFilters(local, groups[i])
    {
      FiltersCommute(row, cols, groups[i]);
    }
    assert forall i :: 0 <= i < |groups| ==> mapped[i] in mapped && groups[i] in groups;
  }

  ghost predicate RemoteRows(rows: seq<Row>, cols: seq<Column>) {
    forall i :: 0 <= i < |rows| ==> RemoteRow(rows[i], cols)
  }

  /** A remote row under its local names. */
  ghost function Localised(row: Row, cols: seq<Column>): Row
    requires CollisionFree(cols) && RemoteRow(row, cols)
  {
    NoCollisionEitherWay(row, cols);
    Renamed(row, ToLocal(cols))
  }

  ghost function LocalRows(rows: seq<Row>, cols: seq<Column>): seq<Row>
    requires CollisionFree(cols) && RemoteRows(rows, cols)
  {
    seq(|rows|, i requires 0 <= i < |rows| => Localised(rows[i], cols))
  }

  /** A query whose filters name columns the way the API does. */
  ghost predicate LocalQuery(fs: seq<Filter>, groups: seq<seq<Filter>>, cols: seq<Column>) {
    AllAddressable(fs, cols) && forall g :: g in groups ==> AllAddressable(g, cols)
  }

  ghost predicate FilterCommutesOn(row: Row, cols: seq<Column>, f: Filter)
    requires CollisionFree(cols) && RemoteRow(row, cols)
  {
    MatchFilter(row, Mapped(f, cols)) <==> MatchFilter(Localised(row, cols), f)
  }

  /** A filter says the same of every remote row and of its local form exactly when its column is a local name, or no
      column's remote name, or when it is one that no cell meets. */
  lemma FilterCommutesExactlyWhen(cols: seq<Column>, f: Filter)
    requires CollisionFree(cols)
    ensures (forall row :: RemoteRow(row, cols) ==> FilterCommutesOn(row, cols, f)) <==> NamesLocally(f, cols)
  {
    if NamesLocally(f, cols) {
      forall row | RemoteRow(row, cols)
        ensures FilterCommutesOn(row, cols, f)
      {
        NoCollisionEitherWay(row, cols);
        FilterCommutes(row, cols, f);
      }
    } else {
      var cell := TellingCell(f);
      RemoteNameDiffers(cols, f, cell);
    }
  }

  /** A cell of which the filter says something else than of none at all. */
  lemma TellingCell(f: Filter) returns (cell: Value)
    requires !(f.op == "lt" && f.value == "")
    ensures MatchFilter(map[f.column := cell], f) != MatchFilter(map[], f)
  {
    hide Less, Contains, TrimPercent, Split, Trim;
    cell := Text(f.value);
    if f.op == "gt" {
      cell := Text(f.value + "x");
      LessLonger(f.value);
    } else if f.op == "lt" {
      cell := Text("");
      EmptyIsLess(f.value);
    } else if f.op == "like" {
      cell := Text(TrimPercent(f.value));
      ContainsItself(TrimPercent(f.value));
    } else if f.op == "in" {
      var part := Split(f.value, ',')[0];
      assert part in Split(f.value, ',');
      cell := Text(Trim(part));
    } else {
      NotLessThanItself(f.value);
    }
  }

  lemma {:induction false} LessLonger(v: string)
    ensures Less(v, v + "x")
  {
    if v != "" {
      LessLonger(v[1..]);
      assert (v + "x")[1..] == v[1..] + "x";
    }
  }

  lemma EmptyIsLess(v: string)
    requires v != ""
    ensures Less("", v)
  {
  }

  lemma NotLessThanItself(v: string)
    ensures !Less(v, v)
  {
    if Less(v, v) {
      LessAsymmetric(v, v);
    }
  }

  lemma ContainsItself(v: string)
    ensures Contains(v, v)
  {
    assert OccursAt(v, v, 0);
  }

  /** The row of that one cell under a column's remote name: in the local row, the filter finds no cell. */
  lemma RemoteNameDiffers(cols: seq<Column>, f: Filter, cell: Value)
    requires CollisionFree(cols) && !Addressable(f.column, cols)
    requires MatchFilter(map[f.column := cell], f) != MatchFilter(map[], f)
    ensures var row: Row := map[f.column := cell]; RemoteRow(row, cols) && !FilterCommutesOn(row, cols, f)
  {
    hide CollisionFree, MatchFilter;
    NamesInverse(cols);
    var row: Row := map[f.column := cell];
    var local := Localised(row, cols);
    if f.column in local {
      var k := LocalisedCellFrom(row, cols, f.column);
    }
    NoCellNoDifference(local, f);
  }

  lemma NoCellNoDifference(row: Row, f: Filter)
    requires f.column !in row
    ensures MatchFilter(row, f) == MatchFilter(map[], f)
  {
    hide Less, Contains, TrimPercent, Split, Trim;
  }

  // ---- Rows that are not remote rows. ----

  /** A cell under a name that is only a column's local name is repeated under its remote name. */
  ghost predicate Consistent(row: Row, cols: seq<Column>) {
    forall k :: k in row && k in ToRemote(cols) && k !in ToLocal(cols) ==>
      ToRemote(cols)[k] in row && row[ToRemote(cols)[k]] == row[k]
  }

  ghost predicate FilteredAlike(row: Row, cols: seq<Column>, f: Filter, out: Row) {
    MatchFilter(row, Mapped(f, cols)) <==> MatchFilter(out, f)
  }

  /** A row is filtered like its local form, whichever of two colliding cells that form has and by whatever filter names
      columns locally, exactly when it is consistent. */
  lemma RowIsFilteredAlikeExactlyWhen(row: Row, cols: seq<Column>)
    requires CollisionFree(cols)
    ensures (forall f: Filter, out :: Addressable(f.column, cols) && IsRenaming(row, ToLocal(cols), out) ==>
               FilteredAlike(row, cols, f, out))
            <==> Consistent(row, cols)
  {
    hide IsRenaming, FilteredAlike, CollisionFree;
    if Consistent(row, cols) {
      forall f: Filter, out | Addressable(f.column, cols) && IsRenaming(row, ToLocal(cols), out)
        ensures FilteredAlike(row, cols, f, out)
      {
        ConsistentRowIsFilteredAlike(row, cols, f, out);
      }
    } else {
      var f, out := InconsistentRowIsNot(row, cols);
    }
  }

  lemma ConsistentRowIsFilteredAlike(row: Row, cols: seq<Column>, f: Filter, out: Row)
    requires CollisionFree(cols) && Consistent(row, cols)
    requires Addressable(f.column, cols) && IsRenaming(row, ToLocal(cols), out)
    ensures FilteredAlike(row, cols, f, out)
  {
    hide IsRenaming, MatchFilter, CollisionFree;
    NamesInverse(cols);
    var c, r := f.column, Rename(ToRemote(cols), f.column);
    assert Rename(ToLocal(cols), r) == c;
    if c in out {
      var k := CellComesFrom(row, ToLocal(cols), out, c);
      assert k != r ==> k == c && k !in ToLocal(cols) && c in ToRemote(cols);
    }
    if r in row {
      RenamedKeyIsThere(row, ToLocal(cols), out, r);
    }
    SameCellSameAnswer(row, out, Mapped(f, cols), f);
  }

  lemma RenamedKeyIsThere(row: Row, m: Names, out: Row, k: string)
    requires IsRenaming(row, m, out) && k in row
    ensures Rename(m, k) in out
  {
    hide Rename;
  }

  lemma SameCellSameAnswer(a: Row, b: Row, f: Filter, g: Filter)
    requires f.op == g.op && f.value == g.value
    requires f.column in a <==> g.column in b
    requires f.column in a && g.column in b ==> a[f.column] == b[g.column]
    ensures MatchFilter(a, f) == MatchFilter(b, g)
  {
    hide Less, Contains, TrimPercent, Split, Trim;
  }

  /** Renaming that keeps the cell whose name does not change, where two collide. */
  ghost function RenamedKeeping(row: Row, m: Names): (out: Row)
    ensures IsRenaming(row, m, out)
    ensures forall k :: k in row && k !in m ==> k in out && out[k] == row[k]
  {
    map k' | k' in (set k | k in row :: Rename(m, k)) ::
      if k' in row && k' !in m then row[k'] else row[KeyOf(row, m, k')]
  }

  lemma InconsistentRowIsNot(row: Row, cols: seq<Column>) returns (f: Filter, out: Row)
    requires CollisionFree(cols) && !Consistent(row, cols)
    ensures Addressable(f.column, cols) && IsRenaming(row, ToLocal(cols), out) && !FilteredAlike(row, cols, f, out)
  {
    hide IsRenaming, CollisionFree, Contains, TrimPercent, Split, Trim, Less;
    out := RenamedKeeping(row, ToLocal(cols));
    var k :| k in row && k in ToRemote(cols) && k !in ToLocal(cols)
             && !(ToRemote(cols)[k] in row && row[ToRemote(cols)[k]] == row[k]);
    var r := ToRemote(cols)[k];
    f := Filter(k, "neq", Print(row[k]));
    if r in row {
      if row[r] == Nil || row[k] == Nil {
        f := Filter(k, "is", "null");
      } else {
        f := Filter(k, "eq", Print(row[k]));
      }
    }
  }

  // ---- Whole results. ----

  lemma {:induction false} FilteringCommutes(rows: seq<Row>, cols: seq<Column>, fs: seq<Filter>,
                                             groups: seq<seq<Filter>>)
    requires CollisionFree(cols) && RemoteRows(rows, cols) && LocalQuery(fs, groups, cols)
    ensures var kept := Filtered(rows, MappedFilters(fs, cols), MappedGroups(groups, cols));
            RemoteRows(kept, cols) && LocalRows(kept, cols) == Filtered(LocalRows(rows, cols), fs, groups)
  {
    hide CollisionFree, RemoteRow, Localised, MatchQuery, MappedFilters, MappedGroups;
    if rows != [] {
      var before, last := rows[..|rows| - 1], rows[|rows| - 1];
      FilteringCommutes(before, cols, fs, groups);
      RowCommutes(last, cols, fs, groups);
      assert LocalRows(rows, cols)[..|before|] == LocalRows(before, cols);
    }
  }

  lemma RowCommutes(row: Row, cols: seq<Column>, fs: seq<Filter>, groups: seq<seq<Filter>>)
    requires CollisionFree(cols) && RemoteRow(row, cols) && LocalQuery(fs, groups, cols)
    ensures MatchQuery(row, MappedFilters(fs, cols), MappedGroups(groups, cols))
            <==> MatchQuery(Localised(row, cols), fs, groups)
  {
    NoCollisionEitherWay(row, cols);
    QueryCommutes(row, cols, fs, groups);
  }

  /** The selection names a column by its local name exactly when it also names it by its remote name. */
  ghost predicate NamesBothEnds(select: seq<string>, cols: seq<Column>) {
    forall k :: k in ToLocal(cols) ==> (k in select <==> ToLocal(cols)[k] in select)
  }

  ghost predicate ProjectionCommutes(row: Row, cols: seq<Column>, select: seq<string>)
    requires CollisionFree(cols) && RemoteRow(row, cols)
  {
    Localised(Projected(row, select), cols) == Projected(Localised(row, cols), select)
  }

  /** Projecting remote rows by the names of the request and renaming afterwards gives, on every row, what
      projecting the renamed row would, exactly when nothing is selected by name or the selection names both ends
      of each column it names: as it does for columns that are not renamed. */
  lemma ProjectionCommutesExactlyWhen(cols: seq<Column>, select: seq<string>)
    requires CollisionFree(cols)
    ensures (forall row :: RemoteRow(row, cols) ==> ProjectionCommutes(row, cols, select))
            <==> select == [] || NamesBothEnds(select, cols)
  {
    if select == [] || NamesBothEnds(select, cols) {
      forall row | RemoteRow(row, cols)
        ensures ProjectionCommutes(row, cols, select)
      {
        BothEndsCommute(row, cols, select);
      }
    } else {
      var k :| k in ToLocal(cols) && !(k in select <==> ToLocal(cols)[k] in select);
      var row := OneEndDiffers(cols, select, k);
    }
  }

  lemma LocalisedCell(row: Row, cols: seq<Column>, k: string)
    requires CollisionFree(cols) && RemoteRow(row, cols) && k in row
    ensures var c := Rename(ToLocal(cols), k);
            c in Localised(row, cols) && Localised(row, cols)[c] == row[k]
  {
    NoCollisionEitherWay(row, cols);
    CellIsRenamed(row, ToLocal(cols), Localised(row, cols), k);
  }

  lemma LocalisedCellFrom(row: Row, cols: seq<Column>, c: string) returns (k: string)
    requires CollisionFree(cols) && RemoteRow(row, cols) && c in Localised(row, cols)
    ensures k in row && Rename(ToLocal(cols), k) == c
  {
    NoCollisionEitherWay(row, cols);
    k := CellComesFrom(row, ToLocal(cols), Localised(row, cols), c);
  }

  lemma BothEndsCommute(row: Row, cols: seq<Column>, select: seq<string>)
    requires CollisionFree(cols) && RemoteRow(row, cols)
    requires select == [] || NamesBothEnds(select, cols)
    ensures ProjectionCommutes(row, cols, select)
  {
    hide Localised, CollisionFree;
    if select != [] {
      var some := Projected(row, select);
      var left, right := Localised(some, cols), Projected(Localised(row, cols), select);
      forall c | c in left
        ensures c in right && left[c] == right[c]
      {
        var k := LocalisedCellFrom(some, cols, c);
        LocalisedCell(some, cols, k);
        LocalisedCell(row, cols, k);
      }
      forall c | c in right
        ensures c in left
      {
        var k := LocalisedCellFrom(row, cols, c);
        LocalisedCell(some, cols, k);
      }
      assert left.Keys == right.Keys;
    }
  }

  /** A row with one cell, which one order of the two steps keeps and the other drops. */
  lemma OneEndDiffers(cols: seq<Column>, select: seq<string>, k: string) returns (row: Row)
    requires CollisionFree(cols) && select != []
    requires k in ToLocal(cols) && !(k in select <==> ToLocal(cols)[k] in select)
    ensures RemoteRow(row, cols) && !ProjectionCommutes(row, cols, select)
  {
    hide Localised, CollisionFree;
    row := map[k := Nil];
    var c, some := ToLocal(cols)[k], Projected(row, select);
    LocalisedCell(row, cols, k);
    if k in select {
      LocalisedCell(some, cols, k);
    } else if c in Localised(some, cols) {
      var k' := LocalisedCellFrom(some, cols, c);
    }
  }

  // ---- The whole pipeline. ----

  lemma ProjectingRowsCommutes(rows: seq<Row>, cols: seq<Column>, select: seq<string>)
    requires CollisionFree(cols) && RemoteRows(rows, cols)
    requires select == [] || NamesBothEnds(select, cols)
    ensures RemoteRows(ProjectedRows(rows, select), cols)
    ensures LocalRows(ProjectedRows(rows, select), cols) == ProjectedRows(LocalRows(rows, cols), select)
  {
    hide CollisionFree, Localised, NamesBothEnds;
    forall i | 0 <= i < |rows|
      ensures ProjectionCommutes(rows[i], cols, select)
    {
      BothEndsCommute(rows[i], cols, select);
    }
  }

  /** What Select returns is what filtering, projecting and windowing the rows under their local names returns:
      for every table without name collisions, every query in local names, and every selection that names both ends
      of its columns, among them the empty one. */
  lemma SelectIsLocal(rows: seq<Row>, cols: seq<Column>, select: seq<string>, fs: seq<Filter>,
                      groups: seq<seq<Filter>>, offset: int, limit: int, out: seq<Row>)
    requires CollisionFree(cols) && RemoteRows(rows, cols) && LocalQuery(fs, groups, cols)
    requires select == [] || NamesBothEnds(select, cols)
    requires var page := Page(ProjectedRows(Filtered(rows, MappedFilters(fs, cols), MappedGroups(groups, cols)),
              select),
                              offset, limit);
             |out| == |page| && forall i :: 0 <= i < |page| ==> IsRenaming(page[i], ToLocal(cols), out[i])
    ensures out == Page(ProjectedRows(Filtered(LocalRows(rows, cols), fs, groups), select), offset, limit)
  {
    hide CollisionFree, NamesBothEnds, Filtered, MappedFilters, MappedGroups, IsRenaming, RemoteRow;
    var kept := Filtered(rows, MappedFilters(fs, cols), MappedGroups(groups, cols));
    FilteringCommutes(rows, cols, fs, groups);
    ProjectingRowsCommutes(kept, cols, select);
    var chosen := ProjectedRows(kept, select);
    var page := Page(chosen, offset, limit);
    assert RemoteRows(page, cols) && LocalRows(page, cols) == Page(LocalRows(chosen, cols), offset, limit);
    forall i | 0 <= i < |page|
      ensures out[i] == LocalRows(page, cols)[i]
    {
      NoCollisionEitherWay(page[i], cols);
      RenamingDetermined(page[i], ToLocal(cols), out[i]);
    }
  }
}
