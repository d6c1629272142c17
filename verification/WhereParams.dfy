/** Placeholder numbering of the compiled clause, and the UPDATE statement built around it. */
module WhereParams {
  import opened Text
  import opened Filters
  import opened SqlTokens
  import opened Where
  import opened WhereTokens
  import M = WhereMeaning

  /** The placeholder numbers of a token list, in order. */
  function Params(ts: seq<Token>): seq<nat> {
    if ts == [] then []
    else (if ts[0].Param? then [ts[0].index] else []) + Params(ts[1..])
  }

  function Numbers(start: nat, n: nat): seq<nat> {
    seq(n, i requires 0 <= i < n => start + i)
  }

  lemma {:induction false} ParamsConcat(a: seq<Token>, b: seq<Token>)
    ensures Params(a + b) == Params(a) + Params(b)
  {
    if a == [] {
      assert a + b == b;
    } else {
      ParamsConcat(a[1..], b);
      assert (a + b)[1..] == a[1..] + b;
    }
  }

  lemma NumbersConcat(start: nat, m: nat, n: nat)
    ensures Numbers(start, m) + Numbers(start + m, n) == Numbers(start, m + n)
  {
  }

  function PartParams(parts: seq<seq<Token>>): seq<nat> {
    if parts == [] then [] else PartParams(parts[..|parts| - 1]) + Params(parts[|parts| - 1])
  }

  lemma {:induction false} JoinParams(parts: seq<seq<Token>>, sep: Token)
    requires !sep.Param?
    ensures Params(Join(parts, [sep])) == PartParams(parts)
  {
    if parts != [] {
      var before, last := parts[..|parts| - 1], parts[|parts| - 1];
      assert parts == before + [last];
      JoinParams(before, sep);
      JoinSnoc(before, last, [sep]);
      if before != [] {
        ParamsConcat(Join(before, [sep]) + [sep], last);
        ParamsConcat(Join(before, [sep]), [sep]);
      }
    }
  }

  lemma {:induction false} PlaceholderParams(idx: nat, n: nat)
    ensures PartParams(Placeholders(idx, n)) == Numbers(idx, n)
  {
    if n > 0 {
      PlaceholderParams(idx, n - 1);
      assert Placeholders(idx, n)[..n - 1] == Placeholders(idx, n - 1);
      assert Params([Param(idx + n - 1)]) == [idx + n - 1];
    }
  }

  lemma ThreeParams(a: Token, b: Token, c: Token)
    requires !a.Param? && !b.Param?
    ensures Params([a, b, c]) == if c.Param? then [c.index] else []
  {
    assert [a, b, c][1..] == [b, c] && [b, c][1..] == [c];
    assert Params([c]) == if c.Param? then [c.index] else [];
    assert Params([b, c]) == Params([c]);
  }

  lemma {:induction false} WordsHaveNoParams(ts: seq<Token>)
    requires AllWords(ts)
    ensures Params(ts) == []
  {
    if ts != [] {
      assert ts[0].Word?;
      WordsHaveNoParams(ts[1..]);
    }
  }

  lemma FilterParams(f: Filter, idx: nat)
    requires WellFormed(f)
    ensures Params(FilterTokens(f, idx)) == Numbers(idx, |FilterArgs(f)|)
  {
    hide Lex, TestWord;
    match Meaning(f)
    case Compare(c, op, _) => ThreeParams(Name(c), OpToken(op), Param(idx));
    case Is(c, word) =>
      var words := Lex(TestText(f.value));
      WordsHaveNoParams(words);
      ParamsConcat([Name(c), Word("IS")], words);
      TwoParams(Name(c), Word("IS"));
    case OneOf(c, args) =>
      var list := Join(Placeholders(idx, |args|), [Comma]);
      JoinParams(Placeholders(idx, |args|), Comma);
      PlaceholderParams(idx, |args|);
      ParamsConcat([Name(c), Word("IN"), Open] + list, [Close]);
      ParamsConcat([Name(c), Word("IN"), Open], list);
      ThreeParams(Name(c), Word("IN"), Open);
  }

  lemma TwoParams(a: Token, b: Token)
    requires !a.Param? && !b.Param?
    ensures Params([a, b]) == []
  {
    assert [a, b][1..] == [b] && [b][1..] == [];
    assert Params([b]) == Params([]);
  }

  lemma {:induction false} PartsParams(fs: seq<Filter>, idx: nat)
    requires AllWellFormed(fs)
    ensures PartParams(Parts(fs, idx)) == Numbers(idx, |Args(fs)|)
  {
    hide FilterTokens, Meaning, WellFormed, AllWellFormed;
    if fs != [] {
      var before, f := fs[..|fs| - 1], fs[|fs| - 1];
      PrefixWellFormed(fs);
      PartsParams(before, idx);
      FilterParams(f, idx + |Args(before)|);
      NumbersConcat(idx, |Args(before)|, |FilterArgs(f)|);
    }
  }

  lemma ParensParams(ts: seq<Token>)
    ensures Params(Parens(ts)) == Params(ts)
  {
    ParamsConcat([Open] + ts, [Close]);
    ParamsConcat([Open], ts);
  }

  lemma PartParamsSnoc(parts: seq<seq<Token>>, part: seq<Token>)
    ensures PartParams(parts + [part]) == PartParams(parts) + Params(part)
  {
    assert (parts + [part])[..|parts|] == parts;
  }

  /** A group in its parentheses: its placeholders. */
  lemma GroupPartParams(g: seq<Filter>, idx: nat)
    requires AllWellFormed(g)
    ensures Params(Parens(Join(Parts(g, idx), [And]))) == Numbers(idx, |Args(g)|)
  {
    PartsParams(g, idx);
    JoinParams(Parts(g, idx), And);
    ParensParams(Join(Parts(g, idx), [And]));
  }

  lemma EmptyGroupAddsNothing(groups: seq<seq<Filter>>, idx: nat)
    ensures GroupParts(groups + [[]], idx) == GroupParts(groups, idx)
    ensures GroupArgs(groups + [[]]) == GroupArgs(groups)
  {
    assert (groups + [[]])[..|groups|] == groups;
  }

  lemma {:induction false} GroupParams(groups: seq<seq<Filter>>, idx: nat)
    requires GroupsWellFormed(groups)
    ensures PartParams(GroupParts(groups, idx)) == Numbers(idx, |GroupArgs(groups)|)
  {
    hide Parts, Params, Parens, Join, Args, AllWellFormed, GroupsWellFormed;
    if groups != [] {
      var before, g := groups[..|groups| - 1], groups[|groups| - 1];
      PrefixGroupsWellFormed(groups);
      GroupParams(before, idx);
      assert groups == before + [g];
      hide PartParams, Numbers, GroupParts, GroupArgs;
      if g == [] {
        EmptyGroupAddsNothing(before, idx);
      } else {
        GroupAddsItsNumbers(before, g, idx);
      }
    }
  }

  lemma GroupAddsItsNumbers(groups: seq<seq<Filter>>, g: seq<Filter>, idx: nat)
    requires g != [] && AllWellFormed(g) && PartParams(GroupParts(groups, idx)) == Numbers(idx, |GroupArgs(groups)|)
    ensures PartParams(GroupParts(groups + [g], idx)) == Numbers(idx, |GroupArgs(groups + [g])|)
  {
    hide Parts, Params, Parens, Join, PartParams, Numbers, Args;
    var at := idx + |GroupArgs(groups)|;
    assert (groups + [g])[..|groups|] == groups;
    GroupPartParams(g, at);
    PartParamsSnoc(GroupParts(groups, idx), Parens(Join(Parts(g, at), [And])));
    NumbersConcat(idx, |GroupArgs(groups)|, |Args(g)|);
  }

  lemma {:induction false} PartParamsConcat(a: seq<seq<Token>>, b: seq<seq<Token>>)
    ensures PartParams(a + b) == PartParams(a) + PartParams(b)
  {
    hide Params;
    if b == [] {
      assert a + b == a;
    } else {
      var b', last := b[..|b| - 1], b[|b| - 1];
      PartParamsConcat(a, b');
      assert b == b' + [last] && a + b == a + b' + [last];
      hide PartParams;
      PartParamsSnoc(a + b', last);
      PartParamsSnoc(b', last);
      assert PartParams(a) + PartParams(b') + Params(last) == PartParams(a) + (PartParams(b') + Params(last));
    }
  }

  lemma OrPartParams(groups: seq<seq<Filter>>, idx: nat)
    requires GroupsWellFormed(groups)
    ensures PartParams(OrPart(groups, idx)) == Numbers(idx, |GroupArgs(groups)|)
  {
    hide GroupParts, GroupArgs, Parens, Join, Params;
    var ors := GroupParts(groups, idx);
    GroupParams(groups, idx);
    JoinParams(ors, Or);
    ParensParams(Join(ors, [Or]));
    PartParamsSnoc([], Parens(Join(ors, [Or])));
    assert [] + [Parens(Join(ors, [Or]))] == [Parens(Join(ors, [Or]))];
  }

  /** The placeholders of the emitted text are start, start + 1, and so on, in that order, one for each argument. */
  lemma ClausePlaceholdersInOrder(fs: seq<Filter>, groups: seq<seq<Filter>>, start: nat)
    requires QueryWellFormed(fs, groups)
    ensures Params(Lex(WhereText(fs, groups, start))) == Numbers(start, |WhereArgs(fs, groups)|)
  {
    hide Parts, OrPart, Args, GroupArgs, Lex, WhereText, AllWellFormed, GroupsWellFormed, Join, Params, PartParams,
         Numbers, ClauseTokens;
    var at := start + |Args(fs)|;
    ClauseIsLexed(fs, groups, start);
    M.ClauseIsJoined(fs, groups, start);
    JoinParams(M.Factors(fs, groups, start), And);
    PartsParams(fs, start);
    OrPartParams(groups, at);
    PartParamsConcat(Parts(fs, start), OrPart(groups, at));
    NumbersConcat(start, |Args(fs)|, |GroupArgs(groups)|);
  }

  // ---- UPDATE: the SET arguments come first. ----

  /** UPDATE t SET c1=$1, ... WHERE ...: the columns in placeholder order, the clause, and all the arguments. */
  datatype Update = Update(columns: seq<string>, clause: string, args: seq<Value>)

  /** rowToColsNonKeys: the row's cells outside the key columns, in whatever order the map is iterated. */
  method RowToColumnsNonKeys(row: Row, keys: set<string>) returns (cols: seq<string>, args: seq<Value>)
    ensures |cols| == |args|
    ensures forall i :: 0 <= i < |cols| ==> cols[i] in row && cols[i] !in keys && args[i] == row[cols[i]]
    ensures forall k :: k in row && k !in keys ==> k in cols
    ensures forall i, j :: 0 <= i < j < |cols| ==> cols[i] != cols[j]
  {
    cols, args := [], [];
    var rest := row;
    while rest != map[]
      invariant |cols| == |args|
      invariant forall k :: k in rest ==> k in row && rest[k] == row[k] && k !in cols
      invariant forall i :: 0 <= i < |cols| ==> cols[i] in row && cols[i] !in keys && args[i] == row[cols[i]]
      invariant forall k :: k in row && k !in keys && k !in rest ==> k in cols
      invariant forall i, j :: 0 <= i < j < |cols| ==> cols[i] != cols[j]
      decreases |rest|
    {
      var k :| k in rest;
      if k !in keys {
        cols := cols + [k];
        args := args + [rest[k]];
      }
      rest := rest - {k};
    }
  }

  /** Every non-key cell is set once, through a placeholder bound to that cell's value. */
  ghost predicate SetsNonKeys(u: Update, row: Row, keys: set<string>) {
    && (forall i :: 0 <= i < |u.columns| ==>
          u.columns[i] in row && u.columns[i] !in keys && M.Argument(u.args, i + 1) == row[u.columns[i]])
    && (forall k :: k in row && k !in keys ==> k in u.columns)
    && (forall i, j :: 0 <= i < j < |u.columns| ==> u.columns[i] != u.columns[j])
  }

  /** With the statement's whole argument list, the clause holds exactly when the filters and groups do. */
  ghost predicate ClauseMeans(clause: string, args: seq<Value>, fs: seq<Filter>, groups: seq<seq<Filter>>,
                              holds: Atom -> bool)
  {
    var ts := Lex(clause);
    if ts == [] then M.Selects(fs, groups, holds)
    else && M.ParseOr(ts).Some? && M.ParseOr(ts).value.1 == []
         && (M.Eval(M.ParseOr(ts).value.0, args, holds) <==> M.Selects(fs, groups, holds))
  }

  /** Update, up to the execution of the statement. The row and the filters carry remote names already. */
  method BuildUpdate(row: Row, keys: set<string>, fs: seq<Filter>, groups: seq<seq<Filter>>)
    returns (r: Option<Update>)
    ensures r.None? <==> forall k :: k in row ==> k in keys
    ensures r.Some? ==>
              SetsNonKeys(r.value, row, keys) && r.value.clause == WhereText(fs, groups, |r.value.columns| + 1)
    ensures r.Some? && QueryWellFormed(fs, groups) ==>
            var u := r.value;
            && (forall holds :: ClauseMeans(u.clause, u.args, fs, groups, holds))
            && Numbers(1, |u.columns|) + Params(Lex(u.clause)) == Numbers(1, |u.args|)
  {
    hide WhereText, WhereArgs, Lex, QueryWellFormed, ClauseMeans, Params, Numbers, SetsNonKeys;
    var cols, first := RowToColumnsNonKeys(row, keys);
    if |cols| == 0 {
      return None;
    }
    assert cols[0] in row && cols[0] !in keys;
    var clause, more := WhereClause(fs, groups, |first| + 1);
    var args := first;
    if clause != "" {
      args := args + more;
    }
    NoTextNoArgs(fs, groups, |first| + 1);
    assert args == first + more;
    r := Some(Update(cols, clause, args));
    FirstArgumentsSet(r.value, row, keys, first);
    if QueryWellFormed(fs, groups) {
      UpdateClause(fs, groups, first);
    }
  }

  lemma FirstArgumentsSet(u: Update, row: Row, keys: set<string>, first: seq<Value>)
    requires |first| == |u.columns| <= |u.args| && u.args[..|first|] == first
    requires forall i :: 0 <= i < |u.columns| ==>
              u.columns[i] in row && u.columns[i] !in keys && first[i] == row[u.columns[i]]
    requires forall k :: k in row && k !in keys ==> k in u.columns
    requires forall i, j :: 0 <= i < j < |u.columns| ==> u.columns[i] != u.columns[j]
    ensures SetsNonKeys(u, row, keys)
  {
    assert forall i :: 0 <= i < |first| ==> M.Argument(u.args, i + 1) == first[i];
  }

  /** Without a clause there are no arguments to leave out. */
  lemma NoTextNoArgs(fs: seq<Filter>, groups: seq<seq<Filter>>, idx: nat)
    ensures WhereText(fs, groups, idx) == "" ==> WhereArgs(fs, groups) == []
  {
    hide Texts, GroupTexts, GroupArgs, Args;
    var at := idx + |Args(fs)|;
    TextEmpty(fs, idx);
    GroupsEmpty(groups, at);
    var parts := OnlyIfAny(Join(Texts(fs, idx), " AND ")) + OrText(groups, at);
    if parts != [] {
      assert parts[0] != "";
      assert Join(parts, " AND ") != "";
    }
  }

  lemma {:induction false} GroupsEmpty(groups: seq<seq<Filter>>, idx: nat)
    ensures GroupTexts(groups, idx) == [] ==> GroupArgs(groups) == []
  {
    if groups != [] {
      GroupsEmpty(groups[..|groups| - 1], idx);
    }
  }

  /** Numbering the clause after the SET arguments keeps its meaning, and the numbers run through. */
  lemma UpdateClause(fs: seq<Filter>, groups: seq<seq<Filter>>, first: seq<Value>)
    requires QueryWellFormed(fs, groups)
    ensures var text, more := WhereText(fs, groups, |first| + 1), WhereArgs(fs, groups);
            && (forall holds :: ClauseMeans(text, first + more, fs, groups, holds))
            && Numbers(1, |first|) + Params(Lex(text)) == Numbers(1, |first + more|)
  {
    hide Lex, WhereText, QueryWellFormed, WhereArgs;
    var text, all := WhereText(fs, groups, |first| + 1), first + WhereArgs(fs, groups);
    forall holds: Atom -> bool
      ensures ClauseMeans(text, all, fs, groups, holds)
    {
      M.ClauseMeansFilters(fs, groups, first, holds);
    }
    ClausePlaceholdersInOrder(fs, groups, |first| + 1);
    NumbersConcat(1, |first|, |WhereArgs(fs, groups)|);
  }
}
