/** The tokens of the emitted WHERE text. */
module WhereTokens {
  import opened Text
  import opened SqlTokens
  import opened Filters
  import opened Where
  import R = Range

  // ---- The tokens a clause is meant to have. ----

  function Placeholders(idx: nat, n: nat): seq<seq<Token>> {
    seq(n, i requires 0 <= i < n => [Param(idx + i)])
  }

  function OpToken(op: string): Token {
    if op == "LIKE" then Word(op) else Symbol(op)
  }

  function FilterTokens(f: Filter, idx: nat): seq<Token> {
    match Meaning(f)
    case Compare(c, op, _) => [Name(c), OpToken(op), Param(idx)]
    case OneOf(c, args) => [Name(c), Word("IN"), Open] + Join(Placeholders(idx, |args|), [Comma]) + [Close]
    case Is(c, _) => [Name(c), Word("IS")] + Lex(TestText(f.value))
  }

  function Parts(fs: seq<Filter>, idx: nat): seq<seq<Token>> {
    if fs == [] then []
    else
      var before := fs[..|fs| - 1];
      Parts(before, idx) + [FilterTokens(fs[|fs| - 1], idx + |Args(before)|)]
  }

  function Parens(ts: seq<Token>): seq<Token> {
    [Open] + ts + [Close]
  }

  function GroupParts(groups: seq<seq<Filter>>, idx: nat): seq<seq<Token>> {
    if groups == [] then []
    else
      var before, g := groups[..|groups| - 1], groups[|groups| - 1];
      GroupParts(before, idx)
      + if g == [] then [] else [Parens(Join(Parts(g, idx + |GroupArgs(before)|), [And]))]
  }

  function OrPart(groups: seq<seq<Filter>>, idx: nat): seq<seq<Token>> {
    var ors := GroupParts(groups, idx);
    if ors == [] then [] else [Parens(Join(ors, [Or]))]
  }

  function WhereParts(fs: seq<Filter>, groups: seq<seq<Filter>>, idx: nat): seq<seq<Token>> {
    OnlyIfAny(Join(Parts(fs, idx), [And])) + OrPart(groups, idx + |Args(fs)|)
  }

  function ClauseTokens(fs: seq<Filter>, groups: seq<seq<Filter>>, idx: nat): seq<Token> {
    Join(WhereParts(fs, groups, idx), [And])
  }

  lemma PartsNonEmpty(fs: seq<Filter>, idx: nat)
    requires fs != []
    ensures Join(Parts(fs, idx), [And]) != []
  {
    hide FilterTokens;
    var before, f := fs[..|fs| - 1], fs[|fs| - 1];
    JoinSnoc(Parts(before, idx), FilterTokens(f, idx + |Args(before)|), [And]);
    assert FilterTokens(f, idx + |Args(before)|) != [] by { FilterTokensNotEmpty(f, idx + |Args(before)|); }
  }

  lemma FilterTokensNotEmpty(f: Filter, idx: nat)
    ensures FilterTokens(f, idx) != []
  {
    hide Lex, TestWord;
  }

  lemma WhereEmpty(fs: seq<Filter>, idx: nat)
    ensures Join(Parts(fs, idx), [And]) == [] <==> fs == []
    ensures fs == [] ==> Args(fs) == []
  {
    if fs != [] {
      PartsNonEmpty(fs, idx);
    }
  }

  // ---- The emitted text has those tokens. ----

  /** What a caller can check of a filter: its column needs no escape, and an `is` value is a single test. */
  predicate WellFormed(f: Filter) {
    PlainName(f.column) && (f.op == "is" ==> SingleTest(f.value))
  }

  predicate AllWellFormed(fs: seq<Filter>) {
    forall f :: f in fs ==> WellFormed(f)
  }

  lemma PrefixWellFormed(fs: seq<Filter>)
    requires AllWellFormed(fs) && fs != []
    ensures AllWellFormed(fs[..|fs| - 1]) && WellFormed(fs[|fs| - 1])
  {
    hide WellFormed;
    assert fs == fs[..|fs| - 1] + [fs[|fs| - 1]];
  }

  predicate GroupsWellFormed(groups: seq<seq<Filter>>) {
    forall g :: g in groups ==> AllWellFormed(g)
  }

  lemma PrefixGroupsWellFormed(groups: seq<seq<Filter>>)
    requires GroupsWellFormed(groups) && groups != []
    ensures GroupsWellFormed(groups[..|groups| - 1]) && AllWellFormed(groups[|groups| - 1])
  {
    hide AllWellFormed;
    assert groups == groups[..|groups| - 1] + [groups[|groups| - 1]];
  }

  predicate QueryWellFormed(fs: seq<Filter>, groups: seq<seq<Filter>>) {
    AllWellFormed(fs) && GroupsWellFormed(groups)
  }

  /** Before anything the compiler puts after it, the text falls into these tokens. */
  ghost predicate Reads(text: string, ts: seq<Token>) {
    forall r :: ReadBefore(text, ts, r)
  }

  ghost predicate ReadBefore(text: string, ts: seq<Token>, r: string) {
    Ends(r) ==> Lex(text + r) == ts + Lex(r)
  }

  lemma NameIsLexed(c: string, r: string)
    requires PlainName(c) && (r == "" || r[0] != '"')
    ensures Lex(Quoted(c) + r) == [Name(c)] + Lex(r)
  {
    hide Lex, Quoted;
    PlainNameIsRead(c, r);
  }

  lemma ParamIsLexed(k: nat, r: string)
    requires Ends(r)
    ensures Lex("$" + R.Decimal(k) + r) == [Param(k)] + Lex(r)
  {
    hide Lex, R.Decimal, R.DigitsValue, R.AllDigits;
    R.DecimalShape(k);
    LexParam(R.Decimal(k), r);
  }

  lemma KeywordIsLexed(w: string, r: string)
    requires w == "IN" || w == "IS" || w == "LIKE" || w == "NULL"
    requires r == "" || !WordPart(r[0])
    ensures Lex(w + r) == [Word(w)] + Lex(r)
  {
    hide Lex;
    LexWord(w, r);
    assert w[0] != 'A' && w[0] != 'O';
  }

  lemma SpacedIsLexed(w: string, token: Token, r: string)
    requires Lex(w + (" " + r)) == [token] + Lex(" " + r)
    ensures Lex(" " + w + " " + r) == [token] + Lex(r)
  {
    hide Lex;
    LexSpace(w + " " + r);
    LexSpace(r);
    assert " " + w + " " + r == " " + (w + " " + r) && w + " " + r == w + (" " + r);
  }

  lemma OperatorIsLexed(op: string, r: string)
    requires op == "=" || op == "<>" || op == ">" || op == ">=" || op == "<" || op == "<=" || op == "LIKE"
    ensures Lex(" " + op + " " + r) == [OpToken(op)] + Lex(r)
  {
    hide Lex;
    if op == "LIKE" {
      KeywordIsLexed(op, " " + r);
    } else {
      assert forall k :: 0 <= k < |op| ==> OpChar(op[k]);
      LexSymbol(op, " " + r);
    }
    SpacedIsLexed(op, OpToken(op), r);
  }

  lemma ComparisonIsLexed(f: Filter, idx: nat, r: string)
    requires PlainName(f.column) && f.op != "in" && f.op != "is" && Ends(r)
    ensures Lex(FilterText(f, idx) + r) == FilterTokens(f, idx) + Lex(r)
  {
    hide Lex, Quoted, R.Decimal, TestWord;
    var param := "$" + R.Decimal(idx) + r;
    ParamIsLexed(idx, r);
    if f.op == "eq" {
      LexSymbol("=", param);
      NameIsLexed(f.column, "=" + param);
      assert FilterText(f, idx) + r == Quoted(f.column) + ("=" + param);
    } else {
      var op := SqlOperator(f.op);
      OperatorIsLexed(op, param);
      NameIsLexed(f.column, " " + op + " " + param);
      assert FilterText(f, idx) + r == Quoted(f.column) + (" " + op + " " + param);
    }
  }

  lemma LastPlaceholderIsLexed(k: nat, r: string)
    ensures Lex("$" + R.Decimal(k) + ")" + r) == [Param(k)] + [Close] + Lex(r)
  {
    hide Lex, R.Decimal;
    LexBracket(')', r);
    ParamIsLexed(k, ")" + r);
    assert "$" + R.Decimal(k) + ")" + r == "$" + R.Decimal(k) + (")" + r);
    assert [Param(k)] + ([Close] + Lex(r)) == [Param(k)] + [Close] + Lex(r);
  }

  lemma NextPlaceholderIsLexed(k: nat, rest: string)
    ensures Lex("$" + R.Decimal(k) + (", " + rest)) == [Param(k), Comma] + Lex(rest)
  {
    hide Lex, R.Decimal;
    LexSpace(rest);
    LexBracket(',', " " + rest);
    assert [','] + (" " + rest) == ", " + rest;
    ParamIsLexed(k, ", " + rest);
    assert [Param(k)] + ([Comma] + Lex(rest)) == [Param(k), Comma] + Lex(rest);
  }

  lemma {:induction false} ListIsLexed(idx: nat, n: nat, r: string)
    requires n >= 1
    ensures Lex(Join(PlaceholderTexts(idx, n), ", ") + ")" + r)
              == Join(Placeholders(idx, n), [Comma]) + [Close] + Lex(r)
    decreases n
  {
    hide Lex, R.Decimal, Join;
    var texts, tokens := PlaceholderTexts(idx, n), Placeholders(idx, n);
    var first := "$" + R.Decimal(idx);
    if n == 1 {
      assert texts == [first] && tokens == [[Param(idx)]];
      JoinOne(first, ", ");
      JoinOne([Param(idx)], [Comma]);
      LastPlaceholderIsLexed(idx, r);
    } else {
      var more, moreTokens := PlaceholderTexts(idx + 1, n - 1), Placeholders(idx + 1, n - 1);
      assert texts == [first] + more && tokens == [[Param(idx)]] + moreTokens;
      ListIsLexed(idx + 1, n - 1, r);
      assert Join(more, ", ") + ")" + r == Join(more, ", ") + (")" + r);
      assert Join(moreTokens, [Comma]) + [Close] + Lex(r) == Join(moreTokens, [Comma]) + ([Close] + Lex(r));
      MoreOfTheList(first, more, ")" + r, idx, moreTokens, [Close] + Lex(r));
      assert Join(texts, ", ") + ")" + r == Join(texts, ", ") + (")" + r);
      assert Join(tokens, [Comma]) + [Close] + Lex(r) == Join(tokens, [Comma]) + ([Close] + Lex(r));
    }
  }

  lemma MoreOfTheList(first: string, more: seq<string>, end: string, k: nat, tokens: seq<seq<Token>>,
                      endTokens: seq<Token>)
    requires first == "$" + R.Decimal(k) && more != [] && tokens != []
    requires Lex(Join(more, ", ") + end) == Join(tokens, [Comma]) + endTokens
    ensures Lex(Join([first] + more, ", ") + end) == Join([[Param(k)]] + tokens, [Comma]) + endTokens
  {
    hide Lex, R.Decimal, Join;
    JoinCons(first, more, ", ");
    JoinCons([Param(k)], tokens, [Comma]);
    var rest := Join(more, ", ") + end;
    NextPlaceholderIsLexed(k, rest);
    assert Join([first] + more, ", ") + end == first + (", " + rest);
    assert [Param(k), Comma] + (Join(tokens, [Comma]) + endTokens)
           == [Param(k)] + [Comma] + Join(tokens, [Comma]) + endTokens;
  }

  lemma JoinOne<T>(x: seq<T>, sep: seq<T>)
    ensures Join([x], sep) == x
  {
  }

  lemma MembershipIsLexed(f: Filter, idx: nat, r: string)
    requires PlainName(f.column) && f.op == "in" && Ends(r)
    ensures Lex(FilterText(f, idx) + r) == FilterTokens(f, idx) + Lex(r)
  {
    hide Lex, Quoted, R.Decimal, Join, TestWord, Split;
    var n := |InValues(f.value)|;
    var list := Join(PlaceholderTexts(idx, n), ", ") + ")" + r;
    ListIsLexed(idx, n, r);
    LexBracket('(', list);
    KeywordIsLexed("IN", " " + ("(" + list));
    SpacedIsLexed("IN", Word("IN"), "(" + list);
    NameIsLexed(f.column, " " + "IN" + " " + ("(" + list));
    assert FilterText(f, idx) + r == Quoted(f.column) + (" " + "IN" + " " + ("(" + list));
    var tokens := Join(Placeholders(idx, n), [Comma]);
    assert [Name(f.column)] + ([Word("IN")] + ([Open] + (tokens + [Close] + Lex(r))))
           == [Name(f.column), Word("IN"), Open] + tokens + [Close] + Lex(r);
  }

  /** An `is` value that is a single test leaves what follows alone. */
  lemma TestIsLexed(f: Filter, idx: nat, r: string)
    requires WellFormed(f) && f.op == "is" && Ends(r)
    ensures Lex(FilterText(f, idx) + r) == FilterTokens(f, idx) + Lex(r)
  {
    hide Lex, Quoted, TestWord;
    var text := TestText(f.value);
    WordsHaveNoQuote(text);
    LexAppend(text, r);
    KeywordIsLexed("IS", " " + (text + r));
    SpacedIsLexed("IS", Word("IS"), text + r);
    NameIsLexed(f.column, " " + "IS" + " " + (text + r));
    assert FilterText(f, idx) + r == Quoted(f.column) + (" " + "IS" + " " + (text + r));
    assert [Name(f.column)] + ([Word("IS")] + (Lex(text) + Lex(r)))
           == [Name(f.column), Word("IS")] + Lex(text) + Lex(r);
  }

  lemma FilterIsLexed(f: Filter, idx: nat)
    requires WellFormed(f)
    ensures Reads(FilterText(f, idx), FilterTokens(f, idx))
  {
    hide Lex, FilterText, FilterTokens, SingleTest, PlainName;
    forall r
      ensures ReadBefore(FilterText(f, idx), FilterTokens(f, idx), r)
    {
      if Ends(r) {
        if f.op == "in" {
          MembershipIsLexed(f, idx, r);
        } else if f.op == "is" {
          TestIsLexed(f, idx, r);
        } else {
          ComparisonIsLexed(f, idx, r);
        }
      }
    }
  }

  // ---- Joining. ----

  lemma AndIsLexed(r: string)
    ensures Lex(" AND " + r) == [And] + Lex(r)
  {
    hide Lex;
    LexWord("AND", " " + r);
    SpacedIsLexed("AND", And, r);
    assert " " + "AND" + " " + r == " AND " + r;
  }

  lemma OrIsLexed(r: string)
    ensures Lex(" OR " + r) == [Or] + Lex(r)
  {
    hide Lex;
    LexWord("OR", " " + r);
    SpacedIsLexed("OR", Or, r);
    assert " " + "OR" + " " + r == " OR " + r;
  }

  /** The two separators and their tokens. */
  predicate Separator(sep: string, token: Token) {
    (sep == " AND " && token == And) || (sep == " OR " && token == Or)
  }

  ghost predicate AllReads(texts: seq<string>, parts: seq<seq<Token>>) {
    |texts| == |parts| && forall i :: 0 <= i < |texts| ==> Reads(texts[i], parts[i])
  }

  lemma ReadsNow(text: string, ts: seq<Token>, r: string)
    requires Reads(text, ts) && Ends(r)
    ensures Lex(text + r) == ts + Lex(r)
  {
    hide Lex, Ends;
    assert ReadBefore(text, ts, r);
  }

  lemma {:induction false} JoinReads(texts: seq<string>, parts: seq<seq<Token>>, sep: string, token: Token)
    requires AllReads(texts, parts) && Separator(sep, token)
    ensures Reads(Join(texts, sep), Join(parts, [token]))
  {
    hide Lex, Reads, Join;
    if texts == [] {
      NothingReads();
      JoinNone<char>(sep);
      JoinNone<Token>([token]);
    } else if |texts| == 1 {
      assert texts == [texts[0]] && parts == [parts[0]];
      JoinOne(texts[0], sep);
      JoinOne(parts[0], [token]);
    } else {
      var more, moreParts := texts[1..], parts[1..];
      assert texts == [texts[0]] + more && parts == [parts[0]] + moreParts;
      JoinReads(more, moreParts, sep, token);
      JoinCons(texts[0], more, sep);
      JoinCons(parts[0], moreParts, [token]);
      TwoRead(texts[0], parts[0], sep, token, Join(more, sep), Join(moreParts, [token]));
    }
  }

  lemma JoinNone<T>(sep: seq<T>)
    ensures Join([], sep) == []
  {
  }

  lemma NothingReads()
    ensures Reads("", [])
  {
    hide Lex;
    forall r
      ensures ReadBefore("", [], r)
    {
      assert "" + r == r && [] + Lex(r) == Lex(r);
    }
  }

  lemma TwoRead(a: string, ta: seq<Token>, sep: string, token: Token, b: string, tb: seq<Token>)
    requires Reads(a, ta) && Reads(b, tb) && Separator(sep, token)
    ensures Reads(a + sep + b, ta + [token] + tb)
  {
    hide Lex, Reads;
    forall r
      ensures ReadBefore(a + sep + b, ta + [token] + tb, r)
    {
      if Ends(r) {
        var rest := b + r;
        ReadsNow(b, tb, r);
        if token == And {
          AndIsLexed(rest);
        } else {
          OrIsLexed(rest);
        }
        ReadsNow(a, ta, sep + rest);
        assert a + sep + b + r == a + (sep + rest);
        assert ta + ([token] + (tb + Lex(r))) == ta + [token] + tb + Lex(r);
      }
    }
    assert Reads(a + sep + b, ta + [token] + tb) by { ReadsFromAll(a + sep + b, ta + [token] + tb); }
  }

  lemma ReadsFromAll(text: string, ts: seq<Token>)
    requires forall r :: ReadBefore(text, ts, r)
    ensures Reads(text, ts)
  {
  }

  lemma ParensRead(text: string, ts: seq<Token>)
    requires Reads(text, ts)
    ensures Reads("(" + text + ")", Parens(ts))
  {
    hide Lex, Reads;
    forall r
      ensures ReadBefore("(" + text + ")", Parens(ts), r)
    {
      if Ends(r) {
        LexBracket(')', r);
        ReadsNow(text, ts, ")" + r);
        LexBracket('(', text + (")" + r));
        assert "(" + text + ")" + r == "(" + (text + (")" + r));
        assert [Open] + (ts + ([Close] + Lex(r))) == Parens(ts) + Lex(r);
      }
    }
    ReadsFromAll("(" + text + ")", Parens(ts));
  }

  lemma AllReadsSnoc(texts: seq<string>, parts: seq<seq<Token>>, text: string, part: seq<Token>)
    requires AllReads(texts, parts) && Reads(text, part)
    ensures AllReads(texts + [text], parts + [part])
  {
    hide Reads;
  }

  lemma {:induction false} PartsRead(fs: seq<Filter>, idx: nat)
    requires AllWellFormed(fs)
    ensures AllReads(Texts(fs, idx), Parts(fs, idx))
  {
    hide Reads, FilterText, FilterTokens, FilterArgs, WellFormed, AllWellFormed;
    if fs != [] {
      var before, f := fs[..|fs| - 1], fs[|fs| - 1];
      PrefixWellFormed(fs);
      PartsRead(before, idx);
      FilterIsLexed(f, idx + |Args(before)|);
      AllReadsSnoc(Texts(before, idx), Parts(before, idx), FilterText(f, idx + |Args(before)|),
                   FilterTokens(f, idx + |Args(before)|));
    }
  }

  lemma {:induction false} GroupsRead(groups: seq<seq<Filter>>, idx: nat)
    requires GroupsWellFormed(groups)
    ensures AllReads(GroupTexts(groups, idx), GroupParts(groups, idx))
  {
    hide Reads, Texts, Parts, Args, AllWellFormed, GroupsWellFormed, Join, Parens;
    if groups != [] {
      var before, g := groups[..|groups| - 1], groups[|groups| - 1];
      PrefixGroupsWellFormed(groups);
      GroupsRead(before, idx);
      if g != [] {
        var at := idx + |GroupArgs(before)|;
        PartsRead(g, at);
        JoinReads(Texts(g, at), Parts(g, at), " AND ", And);
        ParensRead(Join(Texts(g, at), " AND "), Join(Parts(g, at), [And]));
        AllReadsSnoc(GroupTexts(before, idx), GroupParts(before, idx), "(" + Join(Texts(g, at), " AND ") + ")",
                     Parens(Join(Parts(g, at), [And])));
      }
    }
  }

  lemma OrReads(groups: seq<seq<Filter>>, idx: nat)
    requires GroupsWellFormed(groups)
    ensures AllReads(OrText(groups, idx), OrPart(groups, idx))
  {
    hide Reads, GroupTexts, GroupParts, Join, Parens, GroupsWellFormed;
    GroupsRead(groups, idx);
    JoinReads(GroupTexts(groups, idx), GroupParts(groups, idx), " OR ", Or);
    ParensRead(Join(GroupTexts(groups, idx), " OR "), Join(GroupParts(groups, idx), [Or]));
  }

  lemma AllReadsConcat(a: seq<string>, ta: seq<seq<Token>>, b: seq<string>, tb: seq<seq<Token>>)
    requires AllReads(a, ta) && AllReads(b, tb)
    ensures AllReads(a + b, ta + tb)
  {
    hide Reads;
  }

  /** The emitted text falls into the clause's tokens. */
  lemma ClauseIsLexed(fs: seq<Filter>, groups: seq<seq<Filter>>, idx: nat)
    requires QueryWellFormed(fs, groups)
    ensures Lex(WhereText(fs, groups, idx)) == ClauseTokens(fs, groups, idx)
  {
    hide Reads, Texts, Parts, OrText, OrPart, Join, Args, AllWellFormed, GroupsWellFormed, Lex;
    var text, ts := Join(Texts(fs, idx), " AND "), Join(Parts(fs, idx), [And]);
    PartsRead(fs, idx);
    JoinReads(Texts(fs, idx), Parts(fs, idx), " AND ", And);
    TextEmpty(fs, idx);
    WhereEmpty(fs, idx);
    assert AllReads(OnlyIfAny(text), OnlyIfAny(ts));
    OrReads(groups, idx + |Args(fs)|);
    AllReadsConcat(OnlyIfAny(text), OnlyIfAny(ts), OrText(groups, idx + |Args(fs)|), OrPart(groups, idx + |Args(fs)|));
    JoinReads(OnlyIfAny(text) + OrText(groups, idx + |Args(fs)|), WhereParts(fs, groups, idx), " AND ", And);
    var whole := WhereText(fs, groups, idx);
    ReadsNow(whole, ClauseTokens(fs, groups, idx), "");
    LexEmpty();
    assert whole + "" == whole && ClauseTokens(fs, groups, idx) + [] == ClauseTokens(fs, groups, idx);
  }
}
