/** Update of a SQL driver: the row and the filters take their remote names, and the key columns are compared with
    those. */
module RemoteUpdate {
  import opened Text
  import opened Meta
  import opened SqlTokens
  import opened Filters
  import opened Columns
  import opened Where
  import opened WhereTokens
  import opened WhereParams
  import opened UpdateText

  method ToSet(keys: seq<string>) returns (s: set<string>)
    ensures forall k :: k in s <==> k in keys
  {
    s := {};
    for i := 0 to |keys|
      invariant forall k :: k in s <==> k in keys[..i]
    {
      assert keys[..i + 1] == keys[..i] + [keys[i]];
      s := s + {keys[i]};
    }
    assert keys[..|keys|] == keys;
  }

  /** Exactly the non-key cells of the row under its remote names are set, and the clause is that of the filters under
      theirs. */
  ghost predicate IsUpdateOf(u: Update, row: Row, cols: seq<Column>, keys: seq<string>, sent: Row) {
    IsRenaming(row, ToRemote(cols), sent) && SetsNonKeys(u, sent, set k | k in keys)
  }

  method UpdateStatement(schema: string, table: string, row: Row, cols: seq<Column>, keys: seq<string>,
                         fs: seq<Filter>, groups: seq<seq<Filter>>)
    returns (r: Option<Update>, text: string)
    ensures r.None? <==> forall k :: k in row ==> Rename(ToRemote(cols), k) in keys
    ensures r.Some? ==> exists sent :: IsUpdateOf(r.value, row, cols, keys, sent)
    ensures r.Some? ==>
              && r.value.clause == WhereText(MappedFilters(fs, cols), MappedGroups(groups, cols), |r.value.columns| + 1)
              && text == StatementText(schema, table, r.value.columns, r.value.clause)
    ensures r.Some? && QueryWellFormed(MappedFilters(fs, cols), MappedGroups(groups, cols)) ==>
              forall holds ::
                ClauseMeans(r.value.clause, r.value.args, MappedFilters(fs, cols), MappedGroups(groups, cols), holds)
    ensures r.Some? && QueryWellFormed(MappedFilters(fs, cols), MappedGroups(groups, cols))
            && PlainName(schema) && PlainName(table) && AllPlain(r.value.columns) ==>
              IsReadAs(Lex(text), schema, table, r.value)
  {
    hide SetsNonKeys, ClauseMeans, QueryWellFormed, WhereText, MappedFilters, MappedGroups, ToRemote, Rename, Lex,
         StatementText, PlainName, AllPlain, IsReadAs, Params, Numbers;
    var sent := MapRowToRemote(row, cols);
    var keySet := ToSet(keys);
    assert keySet == set k | k in keys;
    var mapped := MapFilters(fs, cols);
    var mappedGroups := MapOrGroups(groups, cols);
    r := BuildUpdate(sent, keySet, mapped, mappedGroups);
    if r.None? {
      return None, "";
    }
    assert IsUpdateOf(r.value, row, cols, keys, sent);
    text := WriteUpdate(schema, table, r.value.columns, r.value.clause);
    if PlainName(schema) && PlainName(table) && AllPlain(r.value.columns) && QueryWellFormed(mapped, mappedGroups) {
      SomethingIsSet(r.value, sent, keySet);
      UpdateIsRead(schema, table, r.value);
    }
  }

  lemma SomethingIsSet(u: Update, row: Row, keys: set<string>)
    requires SetsNonKeys(u, row, keys) && !(forall k :: k in row ==> k in keys)
    ensures u.columns != []
  {
  }

  /** The tokens are an update of the table that sets each column to the placeholder of its place and goes on with the
      clause, and their placeholders are the numbers of all the arguments. */
  ghost predicate IsReadAs(ts: seq<Token>, schema: string, table: string, u: Update) {
    && |ts| > 5 && ts[..5] == Opening(schema, table)
    && ParseSet(ts[5..]) == Some((Assignments(u.columns, 1), TailTokens(u.clause)))
    && Params(ts) == Numbers(1, |u.args|)
  }

  lemma UpdateIsRead(schema: string, table: string, u: Update)
    requires PlainName(schema) && PlainName(table) && u.columns != [] && AllPlain(u.columns)
    requires Numbers(1, |u.columns|) + Params(Lex(u.clause)) == Numbers(1, |u.args|)
    ensures IsReadAs(Lex(StatementText(schema, table, u.columns, u.clause)), schema, table, u)
  {
    hide Lex, StatementText, PlainName, AllPlain, ParseSet, Params, Numbers;
    StatementIsRead(schema, table, u.columns, u.clause);
    if u.clause == "" {
      NothingToNumber();
    }
  }

  lemma NothingToNumber()
    ensures Params(Lex("")) == []
  {
  }

  /** No cell of a key column is set exactly when every key column of the row has a remote name that is a key too, as it
      has when no key is renamed; and every other cell is set exactly when none takes the name of a key. */
  lemma KeysAreLeftAloneExactlyWhen(u: Update, row: Row, cols: seq<Column>, keys: seq<string>, sent: Row)
    requires IsUpdateOf(u, row, cols, keys, sent)
    ensures (forall k :: k in row && k in keys ==> Rename(ToRemote(cols), k) !in u.columns)
            <==> forall k :: k in row && k in keys ==> Rename(ToRemote(cols), k) in keys
    ensures (forall k :: k in row && k !in keys ==> Rename(ToRemote(cols), k) in u.columns)
            <==> forall k :: k in row && k !in keys ==> Rename(ToRemote(cols), k) !in keys
  {
    hide Rename, ToRemote;
    forall k | k in row
      ensures Rename(ToRemote(cols), k) in u.columns <==> Rename(ToRemote(cols), k) !in keys
    {
      CellIsSetExactlyWhen(u, row, cols, keys, sent, k);
    }
  }

  lemma CellIsSetExactlyWhen(u: Update, row: Row, cols: seq<Column>, keys: seq<string>, sent: Row, k: string)
    requires IsUpdateOf(u, row, cols, keys, sent) && k in row
    ensures Rename(ToRemote(cols), k) in u.columns <==> Rename(ToRemote(cols), k) !in keys
  {
    hide Rename, ToRemote;
    var r := Rename(ToRemote(cols), k);
    assert r in sent;
    if r in u.columns {
      var i :| 0 <= i < |u.columns| && u.columns[i] == r;
    }
  }
}
