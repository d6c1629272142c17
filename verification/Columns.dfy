/** Local and remote column names: renaming filters on the way out and rows in both directions. */
module Columns {
  import opened Text
  import opened Meta
  import opened Filters

  type Names = map<string, string>

  function ToRemote(cols: seq<Column>): Names {
    if cols == [] then map[]
    else ToRemote(cols[..|cols| - 1])[cols[|cols| - 1].name := RemoteColumnName(cols[|cols| - 1])]
  }

  function ToLocal(cols: seq<Column>): Names {
    if cols == [] then map[]
    else ToLocal(cols[..|cols| - 1])[RemoteColumnName(cols[|cols| - 1]) := cols[|cols| - 1].name]
  }

  function Rename(m: Names, k: string): string {
    if k in m then m[k] else k
  }

  method BuildToRemote(cols: seq<Column>) returns (m: Names)
    ensures m == ToRemote(cols)
  {
    m := map[];
    for i := 0 to |cols|
      invariant m == ToRemote(cols[..i])
    {
      assert cols[..i + 1][..i] == cols[..i];
      m := m[cols[i].name := RemoteColumnName(cols[i])];
    }
    assert cols[..|cols|] == cols;
  }

  method BuildToLocal(cols: seq<Column>) returns (m: Names)
    ensures m == ToLocal(cols)
  {
    m := map[];
    for i := 0 to |cols|
      invariant m == ToLocal(cols[..i])
    {
      assert cols[..i + 1][..i] == cols[..i];
      m := m[RemoteColumnName(cols[i]) := cols[i].name];
    }
    assert cols[..|cols|] == cols;
  }

  function MappedFilters(fs: seq<Filter>, cols: seq<Column>): seq<Filter> {
    seq(|fs|, i requires 0 <= i < |fs| => fs[i].(column := Rename(ToRemote(cols), fs[i].column)))
  }

  method MapFilters(fs: seq<Filter>, cols: seq<Column>) returns (out: seq<Filter>)
    ensures out == MappedFilters(fs, cols)
  {
    if |fs| == 0 {
      return fs;
    }
    var m := BuildToRemote(cols);
    out := [];
    for i := 0 to |fs|
      invariant out == MappedFilters(fs, cols)[..i]
    {
      var col := fs[i].column;
      if col in m {
        col := m[col];
      }
      out := out + [Filter(col, fs[i].op, fs[i].value)];
    }
  }

  function MappedGroups(groups: seq<seq<Filter>>, cols: seq<Column>): seq<seq<Filter>> {
    seq(|groups|, i requires 0 <= i < |groups| => MappedFilters(groups[i], cols))
  }

  method MapOrGroups(groups: seq<seq<Filter>>, cols: seq<Column>) returns (out: seq<seq<Filter>>)
    ensures out == MappedGroups(groups, cols)
  {
    out := [];
    for i := 0 to |groups|
      invariant out == MappedGroups(groups, cols)[..i]
    {
      var g := MapFilters(groups[i], cols);
      out := out + [g];
    }
  }

  // ---- Renaming the keys of a row. ----

  /** What renaming keys may give: two keys can collide, and then either value survives. */
  ghost predicate IsRenaming(row: Row, m: Names, out: Row) {
    && (forall k :: k in row ==> Rename(m, k) in out)
    && (forall k' :: k' in out ==> exists k :: k in row && Rename(m, k) == k' && out[k'] == row[k])
  }

  ghost predicate NoCollision(row: Row, m: Names) {
    forall k1, k2 :: k1 in row && k2 in row && Rename(m, k1) == Rename(m, k2) ==> k1 == k2
  }

  /** The loop of MapRowToRemote and of MapRowsFromRemote, over the keys in any order. */
  method RenameKeys(row: Row, m: Names) returns (out: Row)
    ensures IsRenaming(row, m, out)
  {
    out := map[];
    var rest := row;
    while rest != map[]
      invariant forall k :: k in rest ==> k in row && rest[k] == row[k]
      invariant forall k :: k in row && k !in rest ==> Rename(m, k) in out
      invariant forall k' :: k' in out ==> exists k :: k in row && Rename(m, k) == k' && out[k'] == row[k]
      decreases |rest|
    {
      var k :| k in rest;
      if k in m {
        out := out[m[k] := rest[k]];
      } else {
        out := out[k := rest[k]];
      }
      rest := rest - {k};
    }
  }

  /** Without a collision the result of renaming is determined. */
  ghost function Renamed(row: Row, m: Names): (out: Row)
    requires NoCollision(row, m)
    ensures IsRenaming(row, m, out)
  {
    map k' | k' in (set k | k in row :: Rename(m, k)) :: row[KeyOf(row, m, k')]
  }

  ghost function KeyOf(row: Row, m: Names, k': string): (k: string)
    requires exists k :: k in row && Rename(m, k) == k'
    ensures k in row && Rename(m, k) == k'
  {
    var k :| k in row && Rename(m, k) == k';
    k
  }

  lemma CellIsRenamed(row: Row, m: Names, out: Row, k: string)
    requires NoCollision(row, m) && IsRenaming(row, m, out) && k in row
    ensures Rename(m, k) in out && out[Rename(m, k)] == row[k]
  {
    hide Rename;
  }

  lemma CellComesFrom(row: Row, m: Names, out: Row, k': string) returns (k: string)
    requires IsRenaming(row, m, out) && k' in out
    ensures k in row && Rename(m, k) == k' && out[k'] == row[k]
  {
    k :| k in row && Rename(m, k) == k' && out[k'] == row[k];
  }

  lemma SameRenaming(row: Row, m: Names, a: Row, b: Row)
    requires NoCollision(row, m) && IsRenaming(row, m, a) && IsRenaming(row, m, b)
    ensures forall k' :: k' in a ==> k' in b && b[k'] == a[k']
  {
    hide IsRenaming, NoCollision, Rename;
    forall k' | k' in a
      ensures k' in b && b[k'] == a[k']
    {
      var k := CellComesFrom(row, m, a, k');
      CellIsRenamed(row, m, b, k);
    }
  }

  lemma RenamingDetermined(row: Row, m: Names, out: Row)
    requires NoCollision(row, m) && IsRenaming(row, m, out)
    ensures out == Renamed(row, m)
    ensures forall k :: k in row ==> Rename(m, k) in out && out[Rename(m, k)] == row[k]
  {
    hide IsRenaming, NoCollision, Rename;
    var r := Renamed(row, m);
    SameRenaming(row, m, out, r);
    SameRenaming(row, m, r, out);
    assert out == r;
    forall k | k in row
      ensures Rename(m, k) in out && out[Rename(m, k)] == row[k]
    {
      CellIsRenamed(row, m, out, k);
    }
  }

  // ---- Mappings that can be undone. ----

  /** Local names are distinct and remote names are distinct. */
  ghost predicate CollisionFree(cols: seq<Column>) {
    && (forall i, j :: 0 <= i < j < |cols| ==> cols[i].name != cols[j].name)
    && (forall i, j :: 0 <= i < j < |cols| ==> RemoteColumnName(cols[i]) != RemoteColumnName(cols[j]))
  }

  /** A remote row all of whose keys are remote names, or no column's name at all. */
  ghost predicate RemoteRow(row: Row, cols: seq<Column>) {
    forall k :: k in row && k !in ToLocal(cols) ==> k !in ToRemote(cols)
  }

  /** A local row all of whose keys are local names, or no column's name at all. */
  ghost predicate LocalRow(row: Row, cols: seq<Column>) {
    forall k :: k in row && k !in ToRemote(cols) ==> k !in ToLocal(cols)
  }

  ghost predicate Undoes(a: Names, b: Names) {
    forall k :: k in a ==> a[k] in b && b[a[k]] == k
  }

  lemma {:induction false} NamesAreColumns(cols: seq<Column>)
    ensures forall k :: k in ToRemote(cols) ==> exists i :: 0 <= i < |cols| && cols[i].name == k
    ensures forall k :: k in ToLocal(cols) ==> exists i :: 0 <= i < |cols| && RemoteColumnName(cols[i]) == k
  {
    if cols != [] {
      var before, last := cols[..|cols| - 1], cols[|cols| - 1];
      NamesAreColumns(before);
      assert cols == before + [last];
    }
  }

  lemma {:induction false} NamesInverse(cols: seq<Column>)
    requires CollisionFree(cols)
    ensures Undoes(ToRemote(cols), ToLocal(cols)) && Undoes(ToLocal(cols), ToRemote(cols))
  {
    if cols != [] {
      var before, last := cols[..|cols| - 1], cols[|cols| - 1];
      NamesInverse(before);
      NamesAreColumns(before);
      assert last.name !in ToRemote(before) && RemoteColumnName(last) !in ToLocal(before);
    }
  }

  lemma NoCollisionEitherWay(row: Row, cols: seq<Column>)
    requires CollisionFree(cols)
    ensures RemoteRow(row, cols) ==> NoCollision(row, ToLocal(cols))
    ensures LocalRow(row, cols) ==> NoCollision(row, ToRemote(cols))
  {
    NamesInverse(cols);
  }

  /** Bringing a row back from the remote end undoes sending it there exactly when it is a local row: a key that is only
      the other end's name of a column comes back as the local name. */
  lemma FromRemoteUndoesToRemote(row: Row, cols: seq<Column>, sent: Row, back: Row)
    requires CollisionFree(cols)
    requires IsRenaming(row, ToRemote(cols), sent) && IsRenaming(sent, ToLocal(cols), back)
    ensures back == row <==> LocalRow(row, cols)
  {
    if LocalRow(row, cols) {
      NoCollisionEitherWay(row, cols);
      RenamingDetermined(row, ToRemote(cols), sent);
      SentIsRemoteRow(row, cols, sent);
      NoCollisionEitherWay(sent, cols);
      RenamingDetermined(sent, ToLocal(cols), back);
      RoundTripOfKeys(row, cols);
      RenamedTwice(row, ToRemote(cols), ToLocal(cols), sent, back);
    } else {
      ReturnedIsLocalRow(cols, sent, back);
    }
  }

  lemma ReturnedIsLocalRow(cols: seq<Column>, sent: Row, back: Row)
    requires CollisionFree(cols) && IsRenaming(sent, ToLocal(cols), back)
    ensures LocalRow(back, cols)
  {
    hide IsRenaming;
    NamesInverse(cols);
    forall k | k in back && k !in ToRemote(cols)
      ensures k !in ToLocal(cols)
    {
      var s := CellComesFrom(sent, ToLocal(cols), back, k);
    }
  }

  lemma RenamedTwice(row: Row, there: Names, here: Names, sent: Row, back: Row)
    requires NoCollision(row, there) && IsRenaming(row, there, sent)
    requires NoCollision(sent, here) && IsRenaming(sent, here, back)
    requires forall k :: k in row ==> Rename(here, Rename(there, k)) == k
    ensures back == row
  {
    hide IsRenaming, NoCollision, Rename;
    forall k | k in row
      ensures k in back && back[k] == row[k]
    {
      CellIsRenamed(row, there, sent, k);
      CellIsRenamed(sent, here, back, Rename(there, k));
    }
    forall k | k in back
      ensures k in row
    {
      var s := CellComesFrom(sent, here, back, k);
      var r := CellComesFrom(row, there, sent, s);
    }
  }

  lemma SentIsRemoteRow(row: Row, cols: seq<Column>, sent: Row)
    requires CollisionFree(cols) && LocalRow(row, cols)
    requires IsRenaming(row, ToRemote(cols), sent)
    ensures RemoteRow(sent, cols)
  {
    NamesInverse(cols);
  }

  lemma RoundTripOfKeys(row: Row, cols: seq<Column>)
    requires CollisionFree(cols) && LocalRow(row, cols)
    ensures forall k :: k in row ==> Rename(ToLocal(cols), Rename(ToRemote(cols), k)) == k
  {
    NamesInverse(cols);
  }

  method MapRowToRemote(row: Row, cols: seq<Column>) returns (out: Row)
    ensures IsRenaming(row, ToRemote(cols), out)
  {
    var m := BuildToRemote(cols);
    out := RenameKeys(row, m);
  }

  method MapRowsFromRemote(rows: seq<Row>, cols: seq<Column>) returns (out: seq<Row>)
    ensures |out| == |rows|
    ensures forall i :: 0 <= i < |rows| ==> IsRenaming(rows[i], ToLocal(cols), out[i])
  {
    var m := BuildToLocal(cols);
    out := [];
    for n := 0 to |rows|
      invariant |out| == n
      invariant forall i :: 0 <= i < n ==> IsRenaming(rows[i], ToLocal(cols), out[i])
    {
      var mapped := RenameKeys(rows[n], m);
      out := out + [mapped];
    }
  }

  // ---- Where the names come from. ----

  /** Without collisions a column goes by its remote name at the other end, if it has one, and by its own otherwise; a
      name that is no column's is left as it is. */
  lemma {:induction false} NamesAtTheOtherEnd(cols: seq<Column>, i: nat)
    requires CollisionFree(cols) && i < |cols|
    ensures var c := cols[i]; var r := if c.remoteName == "" then c.name else c.remoteName;
            Rename(ToRemote(cols), c.name) == r && Rename(ToLocal(cols), r) == c.name
  {
    var before := cols[..|cols| - 1];
    if i < |before| {
      NamesAtTheOtherEnd(before, i);
      assert cols[i].name != cols[|cols| - 1].name;
    }
  }

  lemma OtherNamesStay(cols: seq<Column>, k: string)
    requires forall c :: c in cols ==> c.name != k
    ensures Rename(ToRemote(cols), k) == k
  {
    NamesAreColumns(cols);
  }
}
