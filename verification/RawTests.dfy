/** The value of an `is` filter stands in the SQL as it is: when it stays one test, and what it does when not. */
module RawTests {
  import opened Text
  import opened SqlTokens
  import opened Filters
  import opened Where
  import opened WhereTokens
  import opened WhereMeaning
  import opened WhereParams
  import R = Range

  /** The filter's text is read as its own test, and what follows it is left alone. */
  ghost predicate OwnTestBefore(f: Filter, idx: nat, r: string) {
    Ends(r) ==> ParseFactor(Lex(FilterText(f, idx) + r)) == Some((Test(f.column, TestWord(f.value)), Lex(r)))
  }

  /** The tokens of an `is` filter, whatever its value. */
  lemma TestTokens(f: Filter, idx: nat)
    requires f.op == "is" && PlainName(f.column)
    ensures Lex(FilterText(f, idx)) == [Name(f.column), Word("IS")] + Lex(TestText(f.value))
  {
    hide Lex, Quoted;
    var text := TestText(f.value);
    KeywordIsLexed("IS", " " + text);
    SpacedIsLexed("IS", Word("IS"), text);
    NameIsLexed(f.column, " " + "IS" + " " + text);
    assert FilterText(f, idx) == Quoted(f.column) + (" " + "IS" + " " + text);
  }

  // ---- The parser on `c IS` and a list of words. ----

  function TestOn(c: string, words: seq<Token>): seq<Token> {
    [Name(c), Word("IS")] + words
  }

  lemma NoWordNoTest(c: string, words: seq<Token>)
    requires words == [] || !words[0].Word?
    ensures ParseFactor(TestOn(c, words)).None?
  {
    hide ParseOr, ParseList;
    assert words != [] ==> TestOn(c, words)[2] == words[0];
  }

  lemma PlainTestParses(c: string, words: seq<Token>)
    requires words != [] && words[0].Word? && !IsNot(words[0].word)
    ensures ParseFactor(TestOn(c, words)) == Some((Test(c, words[0].word), words[1..]))
  {
    hide ParseOr, ParseList, IsNot;
    assert TestOn(c, words)[2] == words[0] && TestOn(c, words)[3..] == words[1..];
  }

  lemma NotTestParses(c: string, words: seq<Token>)
    requires words != [] && words[0].Word? && IsNot(words[0].word)
    ensures ParseFactor(TestOn(c, words))
            == if |words| > 1 && words[1].Word? then Some((Test(c, "NOT " + words[1].word), words[2..])) else None
  {
    hide ParseOr, ParseList, IsNot;
    var ts := TestOn(c, words);
    assert ts[2] == words[0];
    if |words| > 1 {
      assert ts[3] == words[1] && ts[4..] == words[2..];
    }
  }

  lemma OneTestOnly(c: string, words: seq<Token>, w: string)
    requires ParseFactor(TestOn(c, words)) == Some((Test(c, w), []))
    ensures AllWords(words) && ((|words| == 1 && !IsNot(words[0].word)) || (|words| == 2 && IsNot(words[0].word)))
  {
    hide ParseFactor, IsNot;
    if words == [] || !words[0].Word? {
      NoWordNoTest(c, words);
    } else if IsNot(words[0].word) {
      NotTestParses(c, words);
    } else {
      PlainTestParses(c, words);
    }
  }

  lemma OwnTest(f: Filter, idx: nat, r: string)
    requires f.op == "is" && WellFormed(f)
    ensures OwnTestBefore(f, idx, r)
  {
    hide Lex, IsNot;
    if Ends(r) {
      TestIsLexed(f, idx, r);
      var words := Lex(TestText(f.value));
      var ts := [Name(f.column), Word("IS")] + words;
      assert ts[2..] == words;
      assert (ts + Lex(r))[2 + |words|..] == Lex(r);
    }
  }

  /** An `is` filter is read as its own test before everything that can follow it exactly when its value is one word,
      or NOT and one word. */
  lemma OwnTestExactlyWhenSingle(f: Filter, idx: nat)
    requires f.op == "is" && PlainName(f.column)
    ensures (forall r :: OwnTestBefore(f, idx, r)) <==> SingleTest(f.value)
  {
    if SingleTest(f.value) {
      forall r
        ensures OwnTestBefore(f, idx, r)
      {
        OwnTest(f, idx, r);
      }
    } else {
      if OwnTestBefore(f, idx, "") {
        hide Lex, ParseFactor, IsNot;
        LexEmpty();
        assert FilterText(f, idx) + "" == FilterText(f, idx);
        TestTokens(f, idx);
        assert TestOn(f.column, Lex(TestText(f.value))) == Lex(FilterText(f, idx));
        OneTestOnly(f.column, Lex(TestText(f.value)), TestWord(f.value));
      }
    }
  }

  // ---- A value with an OR of its own. ----

  const OPEN_VALUE := "null OR \"d\" IS null"

  lemma LastTestTokens()
    ensures Lex("\"d\" IS null") == [Name("d"), Word("IS"), Word("null")]
  {
    hide Lex;
    var last := "null";
    LexEmpty();
    LexWord(last, "");
    assert last + "" == last;
    KeywordIsLexed("IS", " " + last);
    SpacedIsLexed("IS", Word("IS"), last);
    var test := " " + "IS" + " " + last;
    LexQuotedName("d", test);
    assert "\"d\" IS null" == "\"" + "d" + "\"" + test;
    assert [Name("d")] + ([Word("IS")] + ([Word("null")] + [])) == [Name("d"), Word("IS"), Word("null")];
  }

  lemma OpenValueTokens()
    ensures Lex(OPEN_VALUE) == [Word("null"), Or, Name("d"), Word("IS"), Word("null")]
  {
    hide Lex;
    var last := "\"d\" IS null";
    LastTestTokens();
    OrIsLexed(last);
    LexWord("null", " OR " + last);
    assert OPEN_VALUE == "null" + (" OR " + last);
    assert [Word("null")] + ([Or] + [Name("d"), Word("IS"), Word("null")])
           == [Word("null"), Or, Name("d"), Word("IS"), Word("null")];
  }

  const ASKED := [Filter("a", "eq", "1"), Filter("c", "is", OPEN_VALUE)]

  lemma TwoFiltersText(f: Filter, g: Filter)
    requires FilterArgs(f) == [Text("1")]
    ensures WhereText([f, g], [], 1) == FilterText(f, 1) + " AND " + FilterText(g, 2)
  {
    hide FilterText, FilterArgs;
    assert [f, g][..1] == [f] && [f][..0] == [];
    assert Args([f]) == [Text("1")] && Texts([f], 1) == [FilterText(f, 1)];
    assert Texts([f, g], 1) == [FilterText(f, 1)] + [FilterText(g, 2)];
    JoinCons(FilterText(f, 1), [FilterText(g, 2)], " AND ");
    JoinOne(FilterText(g, 2), " AND ");
    var text := FilterText(f, 1) + " AND " + FilterText(g, 2);
    JoinOne(text, " AND ");
    assert [text] + [] == [text] && text != "";
  }

  lemma OpenClauseTokens()
    ensures Lex(WhereText(ASKED, [], 1))
            == [Name("a"), Symbol("="), Param(1), And, Name("c"), Word("IS"), Word("null"), Or, Name("d"), Word("IS"),
                  Word("null")]
  {
    hide Lex, FilterText, TestWord, WhereText;
    var f, g := Filter("a", "eq", "1"), Filter("c", "is", OPEN_VALUE);
    TwoFiltersText(f, g);
    assert PlainName("a") && PlainName("c");
    FilterIsLexed(f, 1);
    AndIsLexed(FilterText(g, 2));
    ReadsNow(FilterText(f, 1), FilterTokens(f, 1), " AND " + FilterText(g, 2));
    assert FilterText(f, 1) + " AND " + FilterText(g, 2) == FilterText(f, 1) + (" AND " + FilterText(g, 2));
    TestTokens(g, 2);
    OpenValueTokens();
  }

  lemma AloneInAnd(ts: seq<Token>, e: Expr, rest: seq<Token>)
    requires ParseFactor(ts) == Some((e, rest)) && (rest == [] || rest[0] != And)
    ensures ParseAnd(ts) == Some((e, rest))
  {
    hide ParseFactor;
  }

  lemma FirstInAnd(ts: seq<Token>, e: Expr, more: seq<Token>, e': Expr, rest: seq<Token>)
    requires ParseFactor(ts) == Some((e, [And] + more)) && ParseAnd(more) == Some((e', rest))
    ensures ParseAnd(ts) == Some((Both(e, e'), rest))
  {
    hide ParseFactor;
    assert ([And] + more)[1..] == more;
  }

  lemma FirstInOr(ts: seq<Token>, e: Expr, more: seq<Token>, e': Expr, rest: seq<Token>)
    requires ParseAnd(ts) == Some((e, [Or] + more)) && ParseOr(more) == Some((e', rest))
    ensures ParseOr(ts) == Some((Either(e, e'), rest))
  {
    hide ParseAnd;
    assert ([Or] + more)[1..] == more;
  }

  lemma ConditionParses(c: string, op: string, k: nat, rest: seq<Token>)
    ensures ParseFactor([Name(c), Symbol(op), Param(k)] + rest) == Some((Condition(c, op, k), rest))
  {
    hide ParseOr, ParseList;
    var ts := [Name(c), Symbol(op), Param(k)] + rest;
    assert ts[3..] == rest;
  }

  lemma OpenClauseParses()
    ensures ParseOr([Name("a"), Symbol("="), Param(1), And, Name("c"), Word("IS"), Word("null"), Or, Name("d"),
              Word("IS"), Word("null")])
            == Some((Either(Both(Condition("a", "=", 1), Test("c", "null")), Test("d", "null")), []))
  {
    hide ParseFactor, ParseAnd, ParseOr, IsNot;
    var words := [Word("null")];
    var last := TestOn("d", words);
    var second := TestOn("c", words + ([Or] + last));
    var ts := [Name("a"), Symbol("="), Param(1)] + ([And] + second);
    NullIsNotNot();
    PlainTestParses("d", words);
    PlainTestParses("c", words + ([Or] + last));
    assert (words + ([Or] + last))[1..] == [Or] + last && words[1..] == [];
    ConditionParses("a", "=", 1, [And] + second);
    AloneInAnd(last, Test("d", "null"), []);
    AloneInAnd(second, Test("c", "null"), [Or] + last);
    FirstInAnd(ts, Condition("a", "=", 1), second, Test("c", "null"), [Or] + last);
    AloneInOr(last, Test("d", "null"));
    FirstInOr(ts, Both(Condition("a", "=", 1), Test("c", "null")), last, Test("d", "null"), []);
    assert ts == [Name("a"), Symbol("="), Param(1), And, Name("c"), Word("IS"), Word("null"), Or, Name("d"),
           Word("IS"), Word("null")];
  }

  lemma AloneInOr(ts: seq<Token>, e: Expr)
    requires ParseAnd(ts) == Some((e, []))
    ensures ParseOr(ts) == Some((e, []))
  {
    hide ParseAnd;
  }

  lemma NullIsNotNot()
    ensures !IsNot("null")
  {
  }

  /** Beside a = 1, such a value is read as (a = 1 AND c IS null) OR d IS null: a row with no d is selected that the
      filters do not admit. */
  lemma OpenValueSelectsMore(holds: Atom -> bool)
    requires holds(Is("d", "null")) && !holds(Compare("a", "=", Text("1")))
    ensures var ts := Lex(WhereText(ASKED, [], 1));
            && ParseOr(ts).Some? && ParseOr(ts).value.1 == []
            && Eval(ParseOr(ts).value.0, WhereArgs(ASKED, []), holds) && !Selects(ASKED, [], holds)
  {
    hide Lex, TestWord, ParseOr, WhereText, WhereArgs;
    OpenClauseTokens();
    OpenClauseParses();
    assert ASKED[0] in ASKED && Meaning(ASKED[0]) == Compare("a", "=", Text("1"));
  }

  /** A value can also bring a placeholder of its own, for which there is no argument. */
  lemma StrayPlaceholder()
    ensures var f := Filter("c", "is", "$7");
            Params(Lex(FilterText(f, 1))) == [7] && FilterArgs(f) == []
  {
    hide Lex, TestWord;
    var f := Filter("c", "is", "$7");
    assert PlainName("c");
    TestTokens(f, 1);
    LexEmpty();
    assert "7"[..0] == "" && R.AllDigits("7") && R.DigitsValue("7") == 7;
    LexParam("7", "");
    assert "$" + "7" + "" == "$7" && [Param(7)] + [] == [Param(7)];
    assert [Name("c"), Word("IS")] + [Param(7)] == [Name("c"), Word("IS"), Param(7)];
    var ts := [Name("c"), Word("IS"), Param(7)];
    assert ts[1..] == [Word("IS"), Param(7)] && ts[1..][1..] == [Param(7)];
    ThreeParams(Name("c"), Word("IS"), Param(7));
  }
}
