/** The text of an UPDATE statement, and what a reader of SQL makes of it. */
module UpdateText {
  import opened Text
  import opened SqlTokens
  import opened Filters
  import opened WhereTokens
  import opened WhereParams
  import R = Range

  function SetText(column: string, k: nat): string {
    Quoted(column) + ("=" + ("$" + R.Decimal(k)))
  }

  /** The assignments, numbered from k. */
  function SetTexts(columns: seq<string>, k: nat): seq<string> {
    seq(|columns|, i requires 0 <= i < |columns| => SetText(columns[i], k + i))
  }

  function Tail(clause: string): string {
    if clause == "" then "" else " WHERE " + clause
  }

  function StatementText(schema: string, table: string, columns: seq<string>, clause: string): string {
    "UPDATE "
          + (Quoted(schema) + ("." + (Quoted(table) + (" SET " + (Join(SetTexts(columns, 1), ", ") + Tail(clause))))))
  }

  method JoinTexts(texts: seq<string>, sep: string) returns (text: string)
    ensures text == Join(texts, sep)
  {
    text := "";
    for i := 0 to |texts|
      invariant text == Join(texts[..i], sep)
    {
      JoinSnoc(texts[..i], texts[i], sep);
      assert texts[..i + 1] == texts[..i] + [texts[i]];
      text := if i == 0 then texts[i] else text + sep + texts[i];
    }
    assert texts[..|texts|] == texts;
  }

  /** The statement of Update. */
  method WriteUpdate(schema: string, table: string, columns: seq<string>, clause: string) returns (text: string)
    ensures text == StatementText(schema, table, columns, clause)
  {
    var setParts: seq<string> := [];
    for i := 0 to |columns|
      invariant setParts == SetTexts(columns, 1)[..i]
    {
      setParts := setParts + [Quoted(columns[i]) + ("=" + ("$" + R.Decimal(i + 1)))];
    }
    assert setParts == SetTexts(columns, 1);
    var assignments := JoinTexts(setParts, ", ");
    text := "UPDATE " + (Quoted(schema) + ("." + (Quoted(table) + (" SET " + (assignments + Tail(clause))))));
  }

  // ---- The tokens. ----

  function SetTokens(column: string, k: nat): seq<Token> {
    [Name(column), Symbol("="), Param(k)]
  }

  function SetParts(columns: seq<string>, k: nat): seq<seq<Token>> {
    seq(|columns|, i requires 0 <= i < |columns| => SetTokens(columns[i], k + i))
  }

  predicate AllPlain(names: seq<string>) {
    forall n :: n in names ==> PlainName(n)
  }

  lemma OneSetIsLexed(column: string, k: nat, r: string)
    requires PlainName(column) && Ends(r)
    ensures Lex(SetText(column, k) + r) == SetTokens(column, k) + Lex(r)
  {
    hide Lex, Quoted, R.Decimal;
    var param := "$" + R.Decimal(k) + r;
    ParamIsLexed(k, r);
    LexSymbol("=", param);
    NameIsLexed(column, "=" + param);
    assert SetText(column, k) + r == Quoted(column) + ("=" + param);
  }

  lemma CommaIsLexed(r: string)
    ensures Lex(", " + r) == [Comma] + Lex(r)
  {
    hide Lex;
    LexSpace(r);
    LexBracket(',', " " + r);
    assert [','] + (" " + r) == ", " + r;
  }

  lemma {:induction false} SetIsLexed(columns: seq<string>, k: nat, r: string)
    requires columns != [] && AllPlain(columns) && Ends(r)
    ensures Lex(Join(SetTexts(columns, k), ", ") + r) == Join(SetParts(columns, k), [Comma]) + Lex(r)
  {
    hide Lex, Join, SetText, SetTokens, PlainName;
    var first, firstTokens := SetText(columns[0], k), SetTokens(columns[0], k);
    assert PlainName(columns[0]);
    if |columns| == 1 {
      assert SetTexts(columns, k) == [first] && SetParts(columns, k) == [firstTokens];
      JoinOne(first, ", ");
      JoinOne(firstTokens, [Comma]);
      OneSetIsLexed(columns[0], k, r);
    } else {
      var more := columns[1..];
      var texts, parts := SetTexts(more, k + 1), SetParts(more, k + 1);
      assert SetTexts(columns, k) == [first] + texts && SetParts(columns, k) == [firstTokens] + parts;
      SetIsLexed(more, k + 1, r);
      JoinCons(first, texts, ", ");
      JoinCons(firstTokens, parts, [Comma]);
      var rest := Join(texts, ", ") + r;
      CommaIsLexed(rest);
      OneSetIsLexed(columns[0], k, ", " + rest);
      assert Join([first] + texts, ", ") + r == first + (", " + rest);
      assert firstTokens + ([Comma] + (Join(parts, [Comma]) + Lex(r))) == Join([firstTokens] + parts, [Comma]) + Lex(r);
    }
  }

  function TailTokens(clause: string): seq<Token> {
    if clause == "" then [] else [Word("WHERE")] + Lex(clause)
  }

  lemma PlainWord(w: string, r: string)
    requires w == "UPDATE" || w == "SET" || w == "WHERE"
    requires r == "" || !WordPart(r[0])
    ensures Lex(w + r) == [Word(w)] + Lex(r)
  {
    hide Lex;
    LexWord(w, r);
    assert w[0] != 'A' && w[0] != 'O';
  }

  lemma TailIsLexed(clause: string)
    ensures Lex(Tail(clause)) == TailTokens(clause) && Ends(Tail(clause))
  {
    hide Lex;
    if clause == "" {
      LexEmpty();
    } else {
      PlainWord("WHERE", " " + clause);
      SpacedIsLexed("WHERE", Word("WHERE"), clause);
      assert " " + "WHERE" + " " + clause == " WHERE " + clause;
    }
  }

  lemma DotIsLexed(r: string)
    ensures Lex("." + r) == [Other('.')] + Lex(r)
  {
    OtherStep("." + r);
    assert ("." + r)[1..] == r;
  }

  function Opening(schema: string, table: string): seq<Token> {
    [Word("UPDATE"), Name(schema), Other('.'), Name(table), Word("SET")]
  }

  function StatementTokens(schema: string, table: string, columns: seq<string>, clause: string): seq<Token> {
    Opening(schema, table)
    + (Join(SetParts(columns, 1), [Comma]) + TailTokens(clause))
  }

  lemma StatementIsLexed(schema: string, table: string, columns: seq<string>, clause: string)
    requires PlainName(schema) && PlainName(table) && columns != [] && AllPlain(columns)
    ensures Lex(StatementText(schema, table, columns, clause)) == StatementTokens(schema, table, columns, clause)
  {
    hide Lex, Join, Quoted, PlainName, AllPlain, SetTexts, SetParts, Tail, TailTokens;
    var tail := Tail(clause);
    TailIsLexed(clause);
    SetIsLexed(columns, 1, tail);
    var assignments := Join(SetTexts(columns, 1), ", ") + tail;
    PlainWord("SET", " " + assignments);
    SpacedIsLexed("SET", Word("SET"), assignments);
    assert " " + "SET" + " " + assignments == " SET " + assignments;
    NameIsLexed(table, " SET " + assignments);
    var named := Quoted(table) + (" SET " + assignments);
    DotIsLexed(named);
    NameIsLexed(schema, "." + named);
    var target := Quoted(schema) + ("." + named);
    LexSpace(target);
    PlainWord("UPDATE", " " + target);
    assert "UPDATE" + (" " + target) == "UPDATE " + target;
    var tokens := Join(SetParts(columns, 1), [Comma]) + TailTokens(clause);
    assert [Word("UPDATE")] + ([Name(schema)] + ([Other('.')] + ([Name(table)] + ([Word("SET")] + tokens))))
           == Opening(schema, table) + tokens;
  }

  // ---- Reading the assignments back. ----

  /** Assignments `name = $k` separated by commas, and the tokens after them. */
  function ParseSet(ts: seq<Token>): (r: Option<(seq<(string, nat)>, seq<Token>)>) {
    if |ts| < 3 || !ts[0].Name? || ts[1] != Symbol("=") || !ts[2].Param? then None
    else if |ts| > 3 && ts[3] == Comma then
      match ParseSet(ts[4..])
      case None => None
      case Some((more, rest)) => Some(([(ts[0].name, ts[2].index)] + more, rest))
    else Some(([(ts[0].name, ts[2].index)], ts[3..]))
  }

  function Assignments(columns: seq<string>, k: nat): seq<(string, nat)> {
    seq(|columns|, i requires 0 <= i < |columns| => (columns[i], k + i))
  }

  lemma {:induction false} SetIsParsed(columns: seq<string>, k: nat, rest: seq<Token>)
    requires columns != [] && (rest == [] || rest[0] != Comma)
    ensures ParseSet(Join(SetParts(columns, k), [Comma]) + rest) == Some((Assignments(columns, k), rest))
  {
    hide Join;
    var first := SetTokens(columns[0], k);
    var ts := Join(SetParts(columns, k), [Comma]) + rest;
    if |columns| == 1 {
      assert SetParts(columns, k) == [first] && Assignments(columns, k) == [(columns[0], k)];
      JoinOne(first, [Comma]);
      assert ts == first + rest && ts[3..] == rest;
    } else {
      var more := columns[1..];
      var parts := SetParts(more, k + 1);
      assert SetParts(columns, k) == [first] + parts;
      assert Assignments(columns, k) == [(columns[0], k)] + Assignments(more, k + 1);
      SetIsParsed(more, k + 1, rest);
      JoinCons(first, parts, [Comma]);
      var later := Join(parts, [Comma]) + rest;
      assert ts == first + ([Comma] + later) && ts[4..] == later;
    }
  }

  lemma {:induction false} SetParams(columns: seq<string>, k: nat)
    ensures PartParams(SetParts(columns, k)) == Numbers(k, |columns|)
    decreases |columns|
  {
    if columns != [] {
      var before, n := columns[..|columns| - 1], |columns| - 1;
      SetParams(before, k);
      assert SetParts(columns, k)[..n] == SetParts(before, k);
      ThreeParams(Name(columns[n]), Symbol("="), Param(k + n));
    }
  }

  lemma OpeningParams(schema: string, table: string)
    ensures Params(Opening(schema, table)) == []
  {
    ThreeParams(Word("UPDATE"), Name(schema), Other('.'));
    TwoParams(Name(table), Word("SET"));
    ParamsConcat([Word("UPDATE"), Name(schema), Other('.')], [Name(table), Word("SET")]);
    assert [Word("UPDATE"), Name(schema), Other('.')] + [Name(table), Word("SET")]
           == Opening(schema, table);
  }

  /** A statement of plain names is read as an update of that table which sets each column to its own placeholder, and
      then as the clause; and its placeholders are those of the assignments and those of the clause, in that order. */
  lemma StatementIsRead(schema: string, table: string, columns: seq<string>, clause: string)
    requires PlainName(schema) && PlainName(table) && columns != [] && AllPlain(columns)
    ensures var ts := Lex(StatementText(schema, table, columns, clause));
            && |ts| > 5 && ts[..5] == Opening(schema, table)
            && ParseSet(ts[5..]) == Some((Assignments(columns, 1), TailTokens(clause)))
            && Params(ts) == Numbers(1, |columns|) + (if clause == "" then [] else Params(Lex(clause)))
  {
    hide Lex, StatementText, Join, SetParts, Assignments, ParseSet, Params, PlainName;
    StatementIsLexed(schema, table, columns, clause);
    SetIsParsed(columns, 1, TailTokens(clause));
    SetParams(columns, 1);
    JoinParams(SetParts(columns, 1), Comma);
    OpeningParams(schema, table);
    var opening := Opening(schema, table);
    var assignments, tail := Join(SetParts(columns, 1), [Comma]), TailTokens(clause);
    ParamsConcat(opening, assignments + tail);
    ParamsConcat(assignments, tail);
    TailParams(clause);
    assert (opening + (assignments + tail))[5..] == assignments + tail;
    assert assignments + tail != [] by { NotParsedFromNothing(assignments + tail); }
  }

  lemma NotParsedFromNothing(ts: seq<Token>)
    requires ParseSet(ts).Some?
    ensures ts != []
  {
  }

  lemma TailParams(clause: string)
    ensures Params(TailTokens(clause)) == if clause == "" then [] else Params(Lex(clause))
  {
    hide Lex;
    if clause != "" {
      ParamsConcat([Word("WHERE")], Lex(clause));
      assert Params([Word("WHERE")]) == [] by { assert [Word("WHERE")][1..] == []; }
    }
  }
}
