/** What each operator of a filter selects, row by row: in SQL, in memory, and where the two differ. */
module FilterMeanings {
  import opened Text
  import opened SqlTokens
  import opened Filters
  import opened SqlAtoms
  import opened Where
  import opened WhereTokens
  import opened WhereMeaning
  import opened FileDriver
  import R = Range
  import Q = Query

  predicate HasText(row: Row, c: string) {
    c in row && row[c].Text?
  }

  // ---- SQL. ----

  /** The comparisons: true only of a column that is there and not NULL. */
  lemma SqlComparisonSelects(row: Row, c: string, v: string)
    ensures SqlHolds(row, Meaning(Filter(c, "eq", v))) <==> HasText(row, c) && row[c].text == v
    ensures SqlHolds(row, Meaning(Filter(c, "neq", v))) <==> HasText(row, c) && row[c].text != v
    ensures SqlHolds(row, Meaning(Filter(c, "gt", v))) <==> HasText(row, c) && Less(v, row[c].text)
    ensures SqlHolds(row, Meaning(Filter(c, "gte", v)))
            <==> HasText(row, c) && (Less(v, row[c].text) || row[c].text == v)
    ensures SqlHolds(row, Meaning(Filter(c, "lt", v))) <==> HasText(row, c) && Less(row[c].text, v)
    ensures SqlHolds(row, Meaning(Filter(c, "lte", v)))
            <==> HasText(row, c) && (Less(row[c].text, v) || row[c].text == v)
    ensures SqlHolds(row, Meaning(Filter(c, "like", v))) <==> HasText(row, c) && LikeMatch(row[c].text, v)
  {
    hide LikeMatch, Split, Trim, TestWord;
    if HasText(row, c) {
      Trichotomy(v, row[c].text);
    }
  }

  /** Of two texts one is less, or they are the same. */
  lemma Trichotomy(a: string, b: string)
    ensures Less(a, b) ==> !Less(b, a) && a != b
    ensures Less(b, a) ==> !Less(a, b) && a != b
    ensures a != b ==> Less(a, b) || Less(b, a)
  {
    if Less(a, b) {
      LessAsymmetric(a, b);
    }
    if Less(b, a) {
      LessAsymmetric(b, a);
    }
    if !Less(a, b) && !Less(b, a) {
      NotLessBothWays(a, b);
    }
  }

  /** An operator that is not known compares for equality. */
  lemma UnknownOperatorIsEquality(row: Row, f: Filter)
    requires f.op !in OPERATORS
    ensures SqlHolds(row, Meaning(f)) <==> SqlHolds(row, Meaning(Filter(f.column, "eq", f.value)))
    ensures MatchFilter(row, f) <==> MatchFilter(row, Filter(f.column, "eq", f.value))
  {
    hide LikeMatch, Split, Trim, TestWord, Less, Contains, TrimPercent;
    NotAnOperator(f.op);
  }

  lemma NotAnOperator(op: string)
    requires op !in OPERATORS
    ensures op !in {"eq", "neq", "gt", "gte", "lt", "lte", "like", "in", "is"}
  {
    Q.OperatorsInOrder();
  }

  lemma SqlMembershipSelects(row: Row, c: string, v: string)
    ensures SqlHolds(row, Meaning(Filter(c, "in", v)))
            <==> HasText(row, c) && exists part :: part in Split(v, ',') && row[c].text == Trim(part)
  {
    hide Split, Trim, InValues;
    if HasText(row, c) {
      InMatchesOneOf(v, row[c].text);
    }
  }

  lemma SqlTestSelects(row: Row, c: string)
    ensures SqlHolds(row, Meaning(Filter(c, "is", "null"))) <==> !HasText(row, c)
    ensures SqlHolds(row, Meaning(Filter(c, "is", "not null"))) <==> HasText(row, c)
    ensures SqlHolds(row, Meaning(Filter(c, "is", "true"))) <==> HasText(row, c) && row[c].text == "true"
    ensures SqlHolds(row, Meaning(Filter(c, "is", "false"))) <==> HasText(row, c) && row[c].text == "false"
  {
    hide TestWord;
    KnownTests("null");
    KnownTests("true");
    KnownTests("false");
    NotNullTest();
  }

  lemma NotNullTokens()
    ensures Lex("not null") == [Word("not"), Word("null")]
  {
    hide Lex;
    LexWord("not", " null");
    LexSpace("null");
    LexWord("null", "");
    LexEmpty();
    assert "not" + " null" == "not null" && "null" + "" == "null" && " " + "null" == " null";
    assert [Word("not")] + ([Word("null")] + []) == [Word("not"), Word("null")];
  }

  lemma NotNullTest()
    ensures TestWord("not null") == "NOT null"
  {
    hide Lex;
    NotNullTokens();
    assert TestText("not null") == "not null";
  }

  // ---- What a parsed clause selects. ----

  /** The row is one the filter asks for, in SQL. */
  predicate Selected(row: Row, f: Filter) {
    var c, v := f.column, f.value;
    match f.op
    case "neq" => HasText(row, c) && row[c].text != v
    case "gt" => HasText(row, c) && Less(v, row[c].text)
    case "gte" => HasText(row, c) && (Less(v, row[c].text) || row[c].text == v)
    case "lt" => HasText(row, c) && Less(row[c].text, v)
    case "lte" => HasText(row, c) && (Less(row[c].text, v) || row[c].text == v)
    case "like" => HasText(row, c) && LikeMatch(row[c].text, v)
    case "in" => HasText(row, c) && exists part :: part in Split(v, ',') && row[c].text == Trim(part)
    case "is" => TestHolds(if c in row then row[c] else Nil, TestWord(v))
    case _ => HasText(row, c) && row[c].text == v
  }

  lemma SelectedIsSql(row: Row, f: Filter)
    ensures SqlHolds(row, Meaning(f)) <==> Selected(row, f)
  {
    hide LikeMatch, Split, Trim, TestWord, InValues, TestHolds, Less;
    if f.op == "in" {
      SqlMembershipSelects(row, f.column, f.value);
    } else if f.op in OPERATORS {
      SqlComparisonSelects(row, f.column, f.value);
    } else {
      NotAnOperator(f.op);
      UnknownOperatorIsEquality(row, f);
      SqlComparisonSelects(row, f.column, f.value);
    }
  }

  /** The clause that is emitted for a query of plain columns and single tests, read by the parser and evaluated on a
      row with its own arguments: it is true exactly of the rows that every filter asks for, and all filters of some
      group. */
  lemma ClauseSelects(row: Row, fs: seq<Filter>, groups: seq<seq<Filter>>, first: seq<Value>)
    requires QueryWellFormed(fs, groups)
    requires !(fs == [] && forall g :: g in groups ==> g == [])
    ensures var parsed := ParseOr(Lex(WhereText(fs, groups, |first| + 1)));
            && parsed.Some? && parsed.value.1 == []
            && (Eval(parsed.value.0, first + WhereArgs(fs, groups), a => SqlHolds(row, a))
                <==> && (forall f :: f in fs ==> Selected(row, f))
                     && ((forall g :: g in groups ==> g == [])
                         || exists g :: g in groups && g != [] && forall f :: f in g ==> Selected(row, f)))
  {
    hide Lex, WhereText, WhereArgs, ParseOr, QueryWellFormed, SqlHolds, Selected, Meaning;
    var holds := a => SqlHolds(row, a);
    ClauseMeansFilters(fs, groups, first, holds);
    forall f: Filter
      ensures holds(Meaning(f)) <==> Selected(row, f)
    {
      SelectedIsSql(row, f);
    }
  }

  /** The text of a single comparison, operator by operator. */
  lemma ComparisonTexts(v: string)
    ensures WhereText([Filter("c", "eq", v)], [], 1) == "\"c\"=$1"
    ensures WhereText([Filter("c", "neq", v)], [], 1) == "\"c\" <> $1"
    ensures WhereText([Filter("c", "gt", v)], [], 1) == "\"c\" > $1"
    ensures WhereText([Filter("c", "gte", v)], [], 1) == "\"c\" >= $1"
    ensures WhereText([Filter("c", "lt", v)], [], 1) == "\"c\" < $1"
    ensures WhereText([Filter("c", "lte", v)], [], 1) == "\"c\" <= $1"
    ensures WhereText([Filter("c", "like", v)], [], 1) == "\"c\" LIKE $1"
  {
    hide WhereText;
    assert R.Decimal(1) == "1" by { OneDigit(); }
    assert Quoted("c") == "\"c\"" by { PlainIsUnchanged("c"); }
    OneFilterText(Filter("c", "eq", v));
    OneFilterText(Filter("c", "neq", v));
    OneFilterText(Filter("c", "gt", v));
    OneFilterText(Filter("c", "gte", v));
    OneFilterText(Filter("c", "lt", v));
    OneFilterText(Filter("c", "lte", v));
    OneFilterText(Filter("c", "like", v));
  }

  lemma OneDigit()
    ensures R.Decimal(1) == "1"
  {
    assert R.Digits(0) == "";
  }

  lemma OneFilterText(f: Filter)
    ensures WhereText([f], [], 1) == FilterText(f, 1)
  {
    hide FilterText, Join;
    FilterTextNotEmpty(f, 1);
    assert [f][..0] == [] && Args([]) == [] && Texts([], 1) == [];
    assert Texts([f], 1) == [FilterText(f, 1)];
    JoinOne(FilterText(f, 1), " AND ");
    assert OnlyIfAny(FilterText(f, 1)) + [] == [FilterText(f, 1)];
  }

  // ---- The matcher in memory. ----

  /** What the matcher answers when the column has a text. */
  lemma MatcherOnText(row: Row, c: string, v: string)
    requires HasText(row, c)
    ensures MatchFilter(row, Filter(c, "eq", v)) <==> row[c].text == v
    ensures MatchFilter(row, Filter(c, "neq", v)) <==> row[c].text != v
    ensures MatchFilter(row, Filter(c, "gt", v)) <==> Less(v, row[c].text)
    ensures MatchFilter(row, Filter(c, "gte", v)) <==> Less(v, row[c].text) || row[c].text == v
    ensures MatchFilter(row, Filter(c, "lt", v)) <==> Less(row[c].text, v)
    ensures MatchFilter(row, Filter(c, "lte", v)) <==> Less(row[c].text, v) || row[c].text == v
    ensures MatchFilter(row, Filter(c, "like", v)) <==> Contains(row[c].text, TrimPercent(v))
    ensures MatchFilter(row, Filter(c, "in", v)) <==> exists part :: part in Split(v, ',') && row[c].text == Trim(part)
    ensures MatchFilter(row, Filter(c, "is", v)) <==> v != "null" && row[c].text == v
  {
    hide Contains, TrimPercent, Split, Trim, Less;
    Trichotomy(v, row[c].text);
  }

  /** A NULL cell is taken for its printed form, except by a test for null; and a column that is not there meets nothing
      but `neq` and that test. */
  lemma MatcherOnNothing(row: Row, c: string, op: string, v: string)
    requires !HasText(row, c)
    ensures op == "is" && v == "null" ==> MatchFilter(row, Filter(c, op, v))
    ensures c in row && !(op == "is" && v == "null") ==>
              (MatchFilter(row, Filter(c, op, v)) <==> MatchFilter(map[c := Text(NIL)], Filter(c, op, v)))
    ensures c !in row && !(op == "is" && v == "null") ==> (MatchFilter(row, Filter(c, op, v)) <==> op == "neq")
  {
    hide Contains, TrimPercent, Split, Trim, Less;
  }

  /** On every row: `neq` is the opposite of `eq`; and where the column is there, exactly one of `lt`, `eq` and `gt`
      answers, and `lte` and `gte` are the opposites of `gt` and `lt`. */
  lemma MatcherLaws(row: Row, c: string, v: string)
    ensures MatchFilter(row, Filter(c, "neq", v)) <==> !MatchFilter(row, Filter(c, "eq", v))
    ensures c in row ==>
              var lt, eq, gt := MatchFilter(row, Filter(c, "lt", v)), MatchFilter(row, Filter(c, "eq", v)),
                                MatchFilter(row, Filter(c, "gt", v));
              && (lt || eq || gt) && !(lt && eq) && !(lt && gt) && !(eq && gt)
              && (MatchFilter(row, Filter(c, "lte", v)) <==> !gt) && (MatchFilter(row, Filter(c, "gte", v)) <==> !lt)
  {
    hide Contains, TrimPercent, Split, Trim, Less;
    if c in row {
      Trichotomy(v, Print(row[c]));
    }
  }

  // ---- The rows on which the two agree. ----

  /** Whether `<nil>` would be met. */
  predicate MeetsNil(f: Filter) {
    MatchFilter(map[f.column := Text(NIL)], f)
  }

  /** A comparison or an `in` filter: they agree except on a NULL cell that the filter takes for its printed form, and
      `neq` also where the column is not there. */
  lemma AgreeOnComparison(row: Row, f: Filter)
    requires f.op != "like" && f.op != "is"
    ensures AgreeOn(row, f)
            <==> HasText(row, f.column) || (if f.column in row then !MeetsNil(f) else f.op != "neq")
  {
    hide Contains, TrimPercent, Split, Trim, InValues, LikeMatch, TestWord;
    var c, v := f.column, f.value;
    SelectedIsSql(row, f);
    if f.op !in OPERATORS {
      NotAnOperator(f.op);
    }
    if HasText(row, c) {
      Trichotomy(v, row[c].text);
    }
  }

  lemma AgreeOnNeq(row: Row, c: string, v: string)
    ensures AgreeOn(row, Filter(c, "neq", v)) <==> c in row && (row[c].Text? || v == NIL)
  {
    AgreeOnComparison(row, Filter(c, "neq", v));
  }

  /** A pattern: they agree on a text that contains the trimmed value and matches the pattern, or neither; on a NULL
      cell whose printed form does not contain it; and where the column is not there. */
  lemma AgreeOnLike(row: Row, c: string, v: string)
    ensures AgreeOn(row, Filter(c, "like", v))
            <==> || c !in row
                 || (if row[c].Text? then Contains(row[c].text, TrimPercent(v)) <==> LikeMatch(row[c].text, v)
                     else !Contains(NIL, TrimPercent(v)))
  {
    hide Contains, TrimPercent, Split, Trim, InValues, LikeMatch, TestWord, Less;
    SelectedIsSql(row, Filter(c, "like", v));
  }

  /** A test other than `null`: they agree where the word holds of the cell exactly if the column is there and prints as
      the value. */
  lemma AgreeOnTest(row: Row, c: string, v: string)
    requires v != "null"
    ensures AgreeOn(row, Filter(c, "is", v))
            <==> (TestHolds(if c in row then row[c] else Nil, TestWord(v)) <==> c in row && Print(row[c]) == v)
  {
    hide Contains, TrimPercent, Split, Trim, InValues, LikeMatch, TestWord, Less, TestHolds;
    SelectedIsSql(row, Filter(c, "is", v));
  }

  // ---- Filtered rows. ----

  /** The rows that are kept are those the query matches, in the order in which they come. */
  lemma {:induction false} FilteredRows(a: seq<Row>, row: Row, b: seq<Row>, fs: seq<Filter>, groups: seq<seq<Filter>>)
    ensures Filtered(a + [row] + b, fs, groups)
            == Filtered(a, fs, groups) + (if MatchQuery(row, fs, groups) then [row] else []) + Filtered(b, fs, groups)
    decreases |b|
  {
    hide MatchQuery;
    if b == [] {
      assert a + [row] + b == a + [row];
      assert (a + [row])[..|a|] == a;
    } else {
      var before, last := b[..|b| - 1], b[|b| - 1];
      FilteredRows(a, row, before, fs, groups);
      assert (a + [row] + b)[..|a| + 1 + |before|] == a + [row] + before;
      assert (a + [row] + b)[|a| + 1 + |before|] == last;
    }
  }

  /** With OR groups the row has to match all filters of one of them, without them all the plain filters. */
  lemma QueryMatches(row: Row, fs: seq<Filter>, groups: seq<seq<Filter>>)
    ensures groups == [] ==> (MatchQuery(row, fs, groups) <==> forall f :: f in fs ==> MatchFilter(row, f))
    ensures groups != [] ==>
              (MatchQuery(row, fs, groups) <==> exists g :: g in groups && forall f :: f in g ==> MatchFilter(row, f))
  {
    hide MatchFilter;
  }
}
