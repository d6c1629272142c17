/** What the importer makes of whole statements: which are found, which are dropped, which fail, and how their keys
    are read. */
module SqlStatements {
  import opened Text
  import opened SqlScan
  import opened SqlImport
  import opened SqlPrint
  import opened SqlColumns
  import RT = SqlRoundTrip

  // ---- Finding a statement. ----

  /** A word and a space after it, at a position. */
  predicate WordAt(s: string, at: nat, word: string) {
    && at + |word| < |s| && EqualFold(s[at..at + |word|], word) && s[at + |word|] == ' '
    && (at + |word| + 1 < |s| ==> !PatternSpace(s[at + |word| + 1]))
  }

  lemma WordIsPassed(s: string, at: nat, word: string)
    requires WordAt(s, at, word)
    ensures AfterWord(s, at, word) == Some(at + |word| + 1)
  {
    hide EqualFold;
    assert SkipSpaces(s, at + |word| + 1) == at + |word| + 1;
  }

  lemma WordsArePassed(s: string, at: nat, word: string, words: seq<string>)
    requires at <= |s| && AfterWord(s, at, word).Some?
    ensures AfterWords(s, at, [word] + words) == AfterWords(s, AfterWord(s, at, word).value, words)
  {
    assert ([word] + words)[1..] == words;
  }

  /** In any case of letters, IF NOT EXISTS belongs to the opening, and the statement begins after it. */
  lemma GuardIsPassed(s: string)
    requires WordAt(s, 0, "create") && WordAt(s, 7, "table")
    requires WordAt(s, 13, "if") && WordAt(s, 16, "not") && WordAt(s, 20, "exists")
    ensures FindPattern(s, 0) == Some(27)
  {
    hide EqualFold, AfterWord, AfterWords;
    WordIsPassed(s, 0, "create");
    WordIsPassed(s, 7, "table");
    WordIsPassed(s, 13, "if");
    WordIsPassed(s, 16, "not");
    WordIsPassed(s, 20, "exists");
    WordsArePassed(s, 0, "create", ["table"]);
    WordsArePassed(s, 7, "table", []);
    WordsArePassed(s, 13, "if", ["not", "exists"]);
    WordsArePassed(s, 16, "not", ["exists"]);
    WordsArePassed(s, 20, "exists", []);
    NoWordsLeft(s, 13);
    NoWordsLeft(s, 27);
    assert ["create"] + ["table"] == ["create", "table"] && ["table"] + [] == ["table"];
    assert ["if"] + ["not", "exists"] == ["if", "not", "exists"] && ["not"] + ["exists"] == ["not", "exists"];
    assert ["exists"] + [] == ["exists"];
  }

  lemma NoWordsLeft(s: string, at: nat)
    requires at <= |s|
    ensures AfterWords(s, at, []) == Some(at)
  {
  }

  /** Without an end, plain text is a statement to its last character, and text with an open parenthesis is none. */
  lemma LastStatement(a: string, b: string)
    requires Plain(a) && Plain(b)
    ensures Extracted(a) == Some((Trim(a), ""))
    ensures Extracted(a + "(" + b) == None
  {
    hide Trim;
    AfterPlain(a, "");
    NothingScanned("");
    assert a + "" == a;
    AfterPlain(a, "(" + b);
    assert a + ("(" + b) == a + "(" + b;
    var open := ScanAll("(");
    assert open == Scan(1, NoQuote) by { assert "("[..0] == ""; }
    ScanConcat(Start, "(", b);
    PlainScan(open, b);
    NoEnd(a);
    forall k: nat | k < |a + "(" + b|
      ensures !EndsStatement(a + "(" + b, k)
    {
      var s := a + "(" + b;
      assert s[k] == if k < |a| then a[k] else if k == |a| then '(' else b[k - |a| - 1];
    }
  }

  lemma NoEnd(a: string)
    requires Plain(a)
    ensures forall k :: 0 <= k ==> !EndsStatement(a, k)
  {
  }

  // ---- One statement. ----

  /** Without a column list a statement is dropped. */
  lemma NoListIsDropped(text: string, d: Dialect, schema: string)
    requires '(' !in Trim(text)
    ensures ParsedStatement(text, d, schema) == Ok(NoTable)
  {
    hide Trim, Words, DefinitionsOf, Chunks, SplitQualifiedName;
    NoChar(Trim(text), '(');
  }

  /** So is one of fewer than three words, such as `t (id)`, list or not. */
  lemma ShortIsDropped(text: string, d: Dialect, schema: string)
    requires |Words(Trim(text))| < 3
    ensures ParsedStatement(text, d, schema) == Ok(NoTable)
  {
    hide Trim, Words, DefinitionsOf, Chunks, SplitQualifiedName;
  }

  lemma WordsOfTwo()
    ensures Words("t (id)") == ["t", "(id)"]
  {
    hide Words;
    assert "t (id)" == "t" + " (id)" && " (id)" == " " + "(id)" && "(id)" + "" == "(id)";
    WordsCons("t", " (id)");
    WordsCons("(id)", "");
    NoSuffix();
    AfterSpace("(id)");
  }

  lemma AfterSpace(s: string)
    ensures Words(" " + s) == Words(s)
  {
    assert (" " + s)[1..] == s;
  }

  lemma TwoWords(d: Dialect, schema: string)
    ensures ParsedStatement("t (id)", d, schema) == Ok(NoTable)
  {
    hide Trim, Words, ParsedStatement;
    TrimIs("t (id)");
    WordsOfTwo();
    ShortIsDropped("t (id)", d, schema);
  }

  /** A list that is not closed makes the whole import fail. */
  lemma UnclosedListFails(text: string, d: Dialect, schema: string)
    requires |Words(Trim(text))| >= 3 && '(' in Trim(text) && ')' !in Trim(text)
    ensures ParsedStatement(text, d, schema).Err?
  {
    hide Trim, Words, DefinitionsOf, Chunks, SplitQualifiedName;
    var s := Trim(text);
    var k :| 0 <= k < |s| && s[k] == '(';
    assert OccursAt(s, "(", k);
    var open := Index(s, "(");
    assert forall c :: c in s[open.value + 1..] ==> c in s;
    NoBracket(s[open.value + 1..]);
  }

  lemma {:induction false} NoBracket(s: string)
    requires ')' !in s
    ensures LastIndexOf(s, ')') == None
  {
    if s != "" {
      assert s[|s| - 1] in s && forall c :: c in s[..|s| - 1] ==> c in s;
      NoBracket(s[..|s| - 1]);
    }
  }

  // ---- All of them. ----

  /** The statements come in their order; one that names no table is passed over, and one that fails makes all fail. */
  lemma StatementsInOrder(text: string, d: Dialect, schema: string)
    ensures NextStatement(text).None? ==> ParsedTables(text, d, schema) == Ok([])
    ensures NextStatement(text).Some? ==>
              var (stmt, rest) := NextStatement(text).value;
              var first, more := ParsedStatement(stmt, d, schema), ParsedTables(rest, d, schema);
              && (first.Err? ==> ParsedTables(text, d, schema).Err?)
              && (first.Ok? && first.value.name == "" ==> ParsedTables(text, d, schema) == more)
              && (first.Ok? && first.value.name != "" && more.Ok? ==>
                    ParsedTables(text, d, schema) == Ok([first.value] + more.value))
              && (more.Err? ==> ParsedTables(text, d, schema).Err?)
  {
    hide ParsedStatement, NextStatement;
    if NextStatement(text).Some? {
      PrependedTwice([], [], ParsedTables(NextStatement(text).value.1, d, schema));
    }
  }

  // ---- Definitions. ----

  /** Constraints of these kinds, in any case of letters, are passed over. */
  lemma ConstraintsArePassedOver(defs: Definitions, chunk: string)
    requires Trim(chunk) != "" && !HasPrefix(Upper(Trim(chunk)), "PRIMARY KEY")
    requires exists w :: w in {"UNIQUE", "CONSTRAINT", "FOREIGN KEY", "CHECK", "INDEX", "KEY "}
                            && HasPrefix(Upper(Trim(chunk)), w)
    ensures AddDefinition(defs, chunk) == defs
  {
    hide Trim, Upper, HasPrefix, ParseColumnLine, KeyColumnsOf;
  }

  /** A PRIMARY KEY clause sets the keys and adds no column; the last one counts. */
  lemma KeyClauseSetsKeys(defs: Definitions, chunk: string)
    requires HasPrefix(Upper(Trim(chunk)), "PRIMARY KEY")
    ensures AddDefinition(defs, chunk) == Definitions(defs.columns, KeyColumnsOf(Trim(chunk)))
  {
    hide Trim, ParseColumnLine, KeyColumnsOf;
    assert Upper("") == "" && !HasPrefix("", "PRIMARY KEY");
  }

  /** The last piece of the list is trimmed, and dropped if it is blank, as after a comma too many. */
  lemma BlankTailIsDropped(body: string, blank: string)
    requires Closed(body) && Spaces(blank)
    ensures Chunks(body + "," + blank) == Pieces(body)
  {
    hide Pieces, ScanAll, Trim;
    PiecesOfTwo(body, blank);
    BlankTrims(blank);
    BlankIsWhole(blank);
    assert (Pieces(body) + [blank])[..|Pieces(body)|] == Pieces(body);
  }

  lemma {:induction false} BlankTrims(s: string)
    requires Spaces(s)
    ensures Trim(s) == ""
  {
    if s != "" {
      BlankTrims(s[1..]);
    }
  }

  lemma BlankIsWhole(s: string)
    requires Spaces(s)
    ensures Pieces(s) == [s]
  {
    WholeByPlaces(s);
  }

  // ---- Keys. ----

  /** A key as it may be written in the list: between blanks, quoted or not. */
  ghost predicate IsKeyPart(part: string, name: string) {
    && PlainPart(name) && ',' !in part
    && exists a, b :: Spaces(a) && Spaces(b)
                      && (part == a + name + b || exists q :: IsQuote(q) && part == a + ([q] + name + [q]) + b)
  }

  lemma {:induction false} TrimInside(a: string, s: string, b: string)
    requires Spaces(a) && Spaces(b) && s != "" && !IsSpace(s[0]) && !IsSpace(s[|s| - 1])
    ensures Trim(a + s + b) == s
    decreases |a| + |b|
  {
    var t := a + s + b;
    if a != "" {
      assert t[0] == a[0] && t[1..] == a[1..] + s + b;
      TrimInside(a[1..], s, b);
    } else if b != "" {
      assert t[0] == s[0] && t[|t| - 1] == b[|b| - 1] && t[..|t| - 1] == a + s + b[..|b| - 1];
      TrimInside(a, s, b[..|b| - 1]);
    } else {
      assert t == s;
      TrimIs(s);
    }
  }

  lemma KeyPartIsName(part: string, name: string)
    requires IsKeyPart(part, name)
    ensures TrimChars(Trim(part), QUOTES) == name != ""
  {
    var a, b :| Spaces(a) && Spaces(b)
                && (part == a + name + b || exists q :: IsQuote(q) && part == a + ([q] + name + [q]) + b);
    PlainTrims(name);
    if part == a + name + b {
      TrimInside(a, name, b);
    } else {
      var q :| IsQuote(q) && part == a + ([q] + name + [q]) + b;
      TrimInside(a, [q] + name + [q], b);
      QuotesTrimmed(q, name);
    }
  }

  ghost predicate AreKeyParts(parts: seq<string>, names: seq<string>) {
    |parts| == |names| && forall i :: 0 <= i < |parts| ==> IsKeyPart(parts[i], names[i])
  }

  lemma {:induction false} KeyPartsAreNames(parts: seq<string>, names: seq<string>)
    requires AreKeyParts(parts, names)
    ensures KeyParts(parts) == names
  {
    hide Trim, TrimChars, IsKeyPart;
    if parts != [] {
      var n := |parts| - 1;
      KeyPartsAreNames(parts[..n], names[..n]);
      KeyPartIsName(parts[n], names[n]);
      assert names == names[..n] + [names[n]];
    }
  }

  lemma {:induction false} PartsSplit(parts: seq<string>)
    requires parts != [] && forall p :: p in parts ==> ',' !in p
    ensures Split(Join(parts, ","), ',') == parts
  {
    hide Split;
    var before, last := parts[..|parts| - 1], parts[|parts| - 1];
    assert parts == before + [last] && last in parts;
    JoinSnoc(before, last, ",");
    if before == [] {
      RT.SplitOfNone(last, ',');
    } else {
      assert forall p :: p in before ==> p in parts;
      PartsSplit(before);
      RT.SplitOfTwo(Join(before, ","), last, ',');
    }
  }

  /** The keys are the names between the first and the last parenthesis, without blanks and quotes, in order; and
      without both parentheses there are none. */
  lemma KeysAreTheNames(before: string, parts: seq<string>, names: seq<string>)
    requires '(' !in before && parts != [] && AreKeyParts(parts, names)
    ensures KeyColumnsOf(before + "(" + Join(parts, ",") + ")") == names
    ensures KeyColumnsOf(before) == []
  {
    hide Split, KeyParts, Join, IsKeyPart;
    var inner := Join(parts, ",");
    var line := before + "(" + inner + ")";
    NoChar(before, '(');
    assert line[|before|] == '(' && line[..|before|] == before;
    IndexOfChar(line, '(', |before|);
    RT.LastIndexIs(before + "(" + inner, ')');
    assert line == before + "(" + inner + [')'];
    assert line[|before| + 1..|line| - 1] == inner;
    forall p | p in parts
      ensures ',' !in p
    {
      var i :| 0 <= i < |parts| && parts[i] == p;
      PartHasNoComma(p, names[i]);
    }
    PartsSplit(parts);
    KeyPartsAreNames(parts, names);
  }

  lemma PartHasNoComma(part: string, name: string)
    requires IsKeyPart(part, name)
    ensures ',' !in part
  {
  }

  // ---- Types of two words. ----

  /** CHARACTER VARYING, in any case, is text. */
  lemma VaryingIsText(a: string, b: string, rest: string)
    requires Simple(a) && Simple(b) && EqualFold(a, "character") && EqualFold(b, "varying")
    requires rest == "" || rest[0] == ' '
    requires Trim(a + " " + b + rest) == a + " " + b + rest
    ensures NormalizeDataType(ExtractDataType(a + " " + b + rest)) == "text"
  {
    hide EqualFold, Trim, Simple, NormalizeDataType, Words;
    SimpleIsWord(a);
    SimpleIsWord(b);
    SimpleHasNoBracket(a);
    SimpleHasNoBracket(b);
    var s := a + " " + b + rest;
    assert s == a + (" " + (b + rest));
    AfterSpace(b + rest);
    WordsCons(a, " " + (b + rest));
    WordsCons(b, rest);
    assert Words(s)[0] == a && Words(s)[1] == b;
    VarcharIsText();
  }

  lemma VarcharIsText()
    ensures NormalizeDataType("varchar") == "text"
  {
    TypeIsItsKind("varchar");
    assert Trim("varchar") == "varchar" by { TrimIs("varchar"); }
    assert Lower("varchar") == "varchar";
  }
}
