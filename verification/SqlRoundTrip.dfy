/** Importing printed tables gives the tables back, except for columns whose names look like other definitions. */
module SqlRoundTrip {
  import opened Text
  import opened Meta
  import opened Documents
  import opened SqlScan
  import opened SqlImport
  import opened SqlPrint

  // ---- One definition. ----

  lemma TypeStart(c: SqlColumn)
    requires PrintableColumn(c)
    ensures Upper(Rest(c)) != "" && Upper(Rest(c))[0] != 'K'
  {
    hide Suffix;
    TypeIsSimple(c.dataType);
  }

  lemma UpperColumn(c: SqlColumn)
    requires PrintableColumn(c)
    ensures Upper(ColumnText(c)) == Upper(c.name) + " " + Upper(Rest(c))
    ensures ' ' !in Upper(c.name)
  {
    hide Suffix;
    UpperOfSimple(c.name);
    assert ColumnText(c) == c.name + " " + Rest(c);
  }

  lemma NotTwoWords(n: string, r: string, w1: string)
    requires ' ' !in w1 && ' ' !in n && r != "" && r[0] != 'K'
    ensures !HasPrefix(n + " " + r, w1 + " " + "KEY")
  {
    if HasPrefix(n + " " + r, w1 + " " + "KEY") {
      PrefixOfTwoWords(n, r, w1, "KEY");
      PrefixChar(r, "KEY", 0);
    }
  }

  lemma KeyWord(n: string, r: string)
    requires ' ' !in n
    ensures HasPrefix(n + " " + r, "KEY ") <==> n == "KEY"
  {
    var s := n + " " + r;
    assert "KEY " == "KEY" + " " + "";
    if HasPrefix(s, "KEY ") {
      PrefixOfTwoWords(n, r, "KEY", "");
    }
    if n == "KEY" {
      assert s[0..4] == "KEY ";
    }
  }

  lemma ColumnIsSkippedExactlyWhen(c: SqlColumn)
    requires PrintableColumn(c)
    ensures !IsTableKey(Upper(ColumnText(c)))
    ensures IsSkipped(Upper(ColumnText(c))) <==> Mistaken(c.name)
  {
    hide Suffix, Upper, HasPrefix, ColumnText, Rest;
    var n, r := Upper(c.name), Upper(Rest(c));
    UpperColumn(c);
    TypeStart(c);
    NotTwoWords(n, r, "PRIMARY");
    NotTwoWords(n, r, "FOREIGN");
    assert "PRIMARY" + " " + "KEY" == "PRIMARY KEY" && "FOREIGN" + " " + "KEY" == "FOREIGN KEY";
    PrefixOfFirstWord(n, r, "UNIQUE");
    PrefixOfFirstWord(n, r, "CONSTRAINT");
    PrefixOfFirstWord(n, r, "CHECK");
    PrefixOfFirstWord(n, r, "INDEX");
    KeyWord(n, r);
  }

  lemma AddColumn(d: Definitions, c: SqlColumn)
    requires PrintableColumn(c)
    ensures AddDefinition(d, ColumnText(c)) == if Mistaken(c.name)
              then d else d.(columns := d.columns + [ReadColumn(c)])
  {
    hide IsTableKey, IsSkipped, Upper, ColumnText, ParseColumnLine, Mistaken, Trim, KeyColumnsOf;
    NameIsRead(c);
    ColumnIsSkippedExactlyWhen(c);
    ColumnIsRead(c);
  }

  // ---- The key clause. ----

  predicate Keys(keys: seq<string>) {
    keys != [] && forall k :: k in keys ==> Simple(k)
  }

  lemma SplitSnoc(s: string, ch: char, sep: char)
    ensures var before := Split(s, sep);
            Split(s + [ch], sep) == if ch == sep
                  then before + [""] else before[..|before| - 1] + [before[|before| - 1] + [ch]]
  {
    assert (s + [ch])[..|s|] == s;
  }

  lemma {:induction false} SplitOfTwo(a: string, b: string, sep: char)
    requires sep !in b
    ensures Split(a + [sep] + b, sep) == Split(a, sep) + [b]
  {
    hide Split;
    if b == "" {
      SplitSnoc(a, sep, sep);
      assert a + [sep] + b == a + [sep];
    } else {
      var b', ch := b[..|b| - 1], b[|b| - 1];
      assert b == b' + [ch];
      SplitOfTwo(a, b', sep);
      SplitSnoc(a + [sep] + b', ch, sep);
      assert a + [sep] + b == a + [sep] + b' + [ch];
      assert (Split(a, sep) + [b'])[..|Split(a, sep)|] == Split(a, sep);
    }
  }

  lemma {:induction false} SplitOfNone(s: string, sep: char)
    requires sep !in s
    ensures Split(s, sep) == [s]
  {
    if s != "" {
      assert s == s[..|s| - 1] + [s[|s| - 1]];
      SplitOfNone(s[..|s| - 1], sep);
    }
  }

  lemma {:induction false} KeysSplit(keys: seq<string>)
    requires Keys(keys)
    ensures Split(Join(keys, ","), ',') == keys
  {
    hide Split;
    var before, last := keys[..|keys| - 1], keys[|keys| - 1];
    assert keys == before + [last] && last in keys;
    NoComma(last);
    JoinSnoc(before, last, ",");
    if before == [] {
      SplitOfNone(last, ',');
    } else {
      assert forall k :: k in before ==> k in keys;
      KeysSplit(before);
      SplitOfTwo(Join(before, ","), last, ',');
    }
  }

  lemma NoComma(id: string)
    requires Simple(id)
    ensures ',' !in id && '(' !in id && ')' !in id && '.' !in id && ';' !in id
  {
  }

  lemma {:induction false} KeyPartsAre(keys: seq<string>)
    requires forall k :: k in keys ==> Simple(k)
    ensures KeyParts(keys) == keys
  {
    hide Trim, TrimChars, Simple;
    if keys != [] {
      var before, last := keys[..|keys| - 1], keys[|keys| - 1];
      assert keys == before + [last] && last in keys;
      KeyPartsAre(before);
      SimpleIsWord(last);
      NotBlank(last);
    }
  }

  lemma NotBlank(id: string)
    requires Simple(id)
    ensures id != "" && IdentChar(id[0])
  {
  }

  lemma LastIndexIs(s: string, c: char)
    ensures LastIndexOf(s + [c], c) == Some(|s|)
  {
  }

  const KEY_START := "PRIMARY KEY ("

  lemma KeysAreRead(keys: seq<string>)
    requires Keys(keys)
    ensures KeyColumnsOf(KeyText(keys)) == keys
  {
    hide Split, KeyParts, Join;
    var inner := Join(keys, ",");
    var line := KeyText(keys);
    assert line == KEY_START + inner + [')'];
    assert line[12] == '(' && line[..12] == "PRIMARY KEY ";
    IndexOfChar(line, '(', 12);
    LastIndexIs(KEY_START + inner, ')');
    assert line[13..|line| - 1] == inner;
    KeysSplit(keys);
    KeyPartsAre(keys);
  }

  lemma KeyTextIsTrim(keys: seq<string>)
    ensures Trim(KeyText(keys)) == KeyText(keys) != ""
  {
    hide Trim;
    var line := KeyText(keys);
    assert line[0] == 'P' && line[|line| - 1] == ')';
    TrimIs(line);
  }

  lemma AddKeys(d: Definitions, keys: seq<string>)
    requires Keys(keys)
    ensures AddDefinition(d, KeyText(keys)) == d.(keys := keys)
  {
    hide Trim, KeyColumnsOf, IsSkipped, ParseColumnLine, Join;
    KeyTextIsTrim(keys);
    KeysAreRead(keys);
    var line := KeyText(keys);
    assert Upper(line)[0..11] == "PRIMARY KEY" by {
      assert line[0..11] == "PRIMARY KEY";
      assert Upper("PRIMARY KEY") == "PRIMARY KEY";
      assert forall i :: 0 <= i < 11 ==> Upper(line)[i] == UpperChar(line[i]) && line[i] == "PRIMARY KEY"[i];
    }
  }

  // ---- All definitions of a table. ----

  function ColumnTexts(cols: seq<SqlColumn>): seq<string> {
    seq(|cols|, i requires 0 <= i < |cols| => ColumnText(cols[i]))
  }

  lemma {:induction false} ColumnsAreRead(cols: seq<SqlColumn>)
    requires forall c :: c in cols ==> PrintableColumn(c)
    ensures DefinitionsOf(ColumnTexts(cols)) == Definitions(ReadColumns(cols), [])
  {
    hide ColumnText, AddDefinition, PrintableColumn, Mistaken, ReadColumn;
    if cols != [] {
      var before, c := cols[..|cols| - 1], cols[|cols| - 1];
      assert cols == before + [c] && c in cols;
      assert ColumnTexts(cols) == ColumnTexts(before) + [ColumnText(c)];
      assert ColumnTexts(cols)[..|cols| - 1] == ColumnTexts(before);
      ColumnsAreRead(before);
      AddColumn(Definitions(ReadColumns(before), []), c);
    }
  }

  lemma EntriesAreRead(t: SqlTable)
    requires Printable(t)
    ensures DefinitionsOf(Entries(t)) == Definitions(ReadColumns(t.columns), t.keys)
  {
    hide ColumnText, KeyText, AddDefinition, PrintableColumn, Simple, ReadColumns;
    ColumnsAreRead(t.columns);
    var texts := ColumnTexts(t.columns);
    if t.keys == [] {
      assert Entries(t) == texts;
    } else {
      assert Entries(t) == texts + [KeyText(t.keys)];
      assert Entries(t)[..|texts|] == texts;
      AddKeys(Definitions(ReadColumns(t.columns), []), t.keys);
    }
  }

  // ---- Scanning printed text. ----

  /** Text without quotes, semicolons and parentheses. */
  predicate Tame(s: string) {
    forall i :: 0 <= i < |s| ==> QuoteOf(s[i]) == NoQuote && s[i] != '(' && s[i] != ')' && s[i] != ';'
  }

  lemma {:induction false} TameScan(st: Scan, s: string)
    requires Tame(s)
    ensures ScanFrom(st, s) == st
  {
    if s != "" {
      TameScan(st, s[..|s| - 1]);
    }
  }

  lemma TameColumn(c: SqlColumn)
    requires PrintableColumn(c)
    ensures Tame(ColumnText(c)) && ',' !in ColumnText(c)
  {
    hide Suffix, EqualFold, Upper;
    TypeIsSimple(c.dataType);
    TameSimple(c.name);
    TameSimple(c.dataType);
    TameSuffix(c);
  }

  lemma TameSimple(id: string)
    requires Simple(id)
    ensures Tame(id) && ',' !in id
  {
    forall i | 0 <= i < |id|
      ensures IdentChar(id[i])
    {
      assert id[i] in id;
    }
  }

  lemma TameSuffix(c: SqlColumn)
    ensures Tame(Suffix(c)) && ',' !in Suffix(c)
  {
    var n, p := if c.nullable then "" else " NOT NULL", if c.primary then " PRIMARY KEY" else "";
    assert Tame(n) && ',' !in n;
    assert Tame(p) && ',' !in p;
    assert Suffix(c) == n + p;
  }

  lemma {:induction false} WholeWithoutCommas(s: string)
    requires ',' !in s
    ensures Whole(s)
  {
    if s != "" {
      assert s == s[..|s| - 1] + [s[|s| - 1]];
      WholeWithoutCommas(s[..|s| - 1]);
    }
  }

  lemma ColumnTextFits(c: SqlColumn)
    requires PrintableColumn(c)
    ensures Closed(ColumnText(c)) && Whole(ColumnText(c))
  {
    hide ColumnText, Whole;
    TameColumn(c);
    TameScan(Start, ColumnText(c));
    WholeWithoutCommas(ColumnText(c));
  }

  lemma {:induction false} WholeInside(p: string, j: string)
    requires Whole(p) && ScanAll(p) == Scan(1, NoQuote) && Tame(j)
    ensures Whole(p + j) && ScanAll(p + j) == Scan(1, NoQuote)
  {
    if j == "" {
      assert p + j == p;
    } else {
      var j', ch := j[..|j| - 1], j[|j| - 1];
      WholeInside(p, j');
      WholeGrows(p + j', ch);
      assert p + j == p + j' + [ch];
    }
  }

  lemma {:induction false} TameJoin(keys: seq<string>)
    requires forall k :: k in keys ==> Simple(k)
    ensures Tame(Join(keys, ","))
  {
    hide Simple;
    if keys != [] {
      var before, last := keys[..|keys| - 1], keys[|keys| - 1];
      assert keys == before + [last] && last in keys;
      TameJoin(before);
      TameSimple(last);
      JoinSnoc(before, last, ",");
    }
  }

  lemma KeyStartScan()
    ensures Whole(KEY_START) && ScanAll(KEY_START) == Scan(1, NoQuote)
  {
    var p := "PRIMARY KEY ";
    TameScan(Start, p);
    assert KEY_START[..12] == p;
    WholeWithoutCommas(KEY_START);
  }

  lemma KeyTextFits(keys: seq<string>)
    requires Keys(keys)
    ensures Closed(KeyText(keys)) && Whole(KeyText(keys))
  {
    hide Pieces, ScanAll, Whole, Join;
    var inner := Join(keys, ",");
    TameJoin(keys);
    KeyStartScan();
    WholeInside(KEY_START, inner);
    WholeGrows(KEY_START + inner, ')');
    assert KeyText(keys) == KEY_START + inner + [')'];
  }

  lemma EntriesFit(t: SqlTable)
    requires Printable(t)
    ensures Entries(t) != []
    ensures forall e :: e in Entries(t) ==> Closed(e) && Whole(e) && Trim(e) == e != ""
  {
    hide ColumnText, KeyText, PrintableColumn, Simple, Closed, Whole, Trim;
    forall e | e in Entries(t)
      ensures Closed(e) && Whole(e) && Trim(e) == e != ""
    {
      var i :| 0 <= i < |Entries(t)| && Entries(t)[i] == e;
      if i < |t.columns| {
        assert t.columns[i] in t.columns && e == ColumnText(t.columns[i]);
        ColumnTextFits(t.columns[i]);
        NameIsRead(t.columns[i]);
      } else {
        KeyTextFits(t.keys);
        KeyTextIsTrim(t.keys);
      }
    }
  }

  lemma EntriesAreChunks(t: SqlTable)
    requires Printable(t)
    ensures Chunks(Join(Entries(t), ",")) == Entries(t)
  {
    hide Entries, Printable, Closed, Whole, Trim, Join;
    var entries := Entries(t);
    EntriesFit(t);
    PiecesComeBack(entries);
    var last := entries[|entries| - 1];
    assert last in entries && entries == entries[..|entries| - 1] + [last];
  }

  lemma {:induction false} JoinClosed(pieces: seq<string>)
    requires forall p :: p in pieces ==> Closed(p)
    ensures Closed(Join(pieces, ","))
  {
    hide ScanAll;
    if pieces != [] {
      var before, last := pieces[..|pieces| - 1], pieces[|pieces| - 1];
      assert pieces == before + [last] && last in pieces;
      JoinClosed(before);
      JoinSnoc(before, last, ",");
      if before != [] {
        AfterComma(Join(before, ","), last);
      }
    } else {
      NothingScanned("");
    }
  }

  lemma {:induction false} ScanDeeper(st: Scan, s: string, more: int)
    ensures ScanFrom(st.(depth := st.depth + more), s) == ScanFrom(st, s).(depth := ScanFrom(st, s).depth + more)
  {
    if s != "" {
      ScanDeeper(st, s[..|s| - 1], more);
    }
  }

  lemma InParentheses(q: string, body: string)
    requires Tame(q) && Closed(body)
    ensures Closed(q + "(" + body + ")")
  {
    TameScan(Start, q);
    assert (q + "(")[..|q|] == q;
    assert ScanAll(q + "(") == Scan(1, NoQuote);
    ScanConcat(Start, q + "(", body);
    ScanDeeper(Start, body, 1);
    assert ScanAll(q + "(" + body) == Scan(1, NoQuote);
    assert (q + "(" + body + ")")[..|q| + 1 + |body|] == q + "(" + body;
  }

  // ---- No statement ends early. ----

  predicate NoSemicolon(s: string) {
    ';' !in s
  }

  lemma {:induction false} JoinWithoutSemicolon(pieces: seq<string>)
    requires forall p :: p in pieces ==> NoSemicolon(p)
    ensures NoSemicolon(Join(pieces, ","))
  {
    if pieces != [] {
      var before, last := pieces[..|pieces| - 1], pieces[|pieces| - 1];
      assert pieces == before + [last] && last in pieces;
      JoinWithoutSemicolon(before);
      JoinSnoc(before, last, ",");
    }
  }

  lemma TameNoSemicolon(s: string)
    requires Tame(s)
    ensures NoSemicolon(s)
  {
  }

  lemma EntriesWithoutSemicolon(t: SqlTable)
    requires Printable(t)
    ensures forall e :: e in Entries(t) ==> NoSemicolon(e)
  {
    hide ColumnText, PrintableColumn, Simple, Join, NoSemicolon, Tame;
    forall e | e in Entries(t)
      ensures NoSemicolon(e)
    {
      var i :| 0 <= i < |Entries(t)| && Entries(t)[i] == e;
      if i < |t.columns| {
        assert t.columns[i] in t.columns && e == ColumnText(t.columns[i]);
        TameColumn(t.columns[i]);
        TameNoSemicolon(e);
      } else {
        TameJoin(t.keys);
        TameNoSemicolon(Join(t.keys, ","));
        KeyTextNoSemicolon(t.keys);
      }
    }
  }

  lemma KeyTextNoSemicolon(keys: seq<string>)
    requires NoSemicolon(Join(keys, ","))
    ensures NoSemicolon(KeyText(keys))
  {
  }

  /** The name and the space before the list. */
  function Head(t: SqlTable): string {
    Qualified(t) + " "
  }

  lemma HeadIsTame(t: SqlTable)
    requires Printable(t)
    ensures Tame(Head(t)) && NoSpaces(Qualified(t)) && '(' !in Qualified(t)
    ensures !IsSpace(Qualified(t)[0])
  {
    hide PrintableColumn;
    TameSimple(t.schema);
    TameSimple(t.name);
    SimpleIsWord(t.schema);
    SimpleIsWord(t.name);
    NoComma(t.schema);
    NoComma(t.name);
  }

  lemma StatementParts(t: SqlTable)
    ensures StatementText(t) == Head(t) + "(" + Join(Entries(t), ",") + ")"
  {
  }

  lemma StatementFits(t: SqlTable)
    requires Printable(t)
    ensures Closed(StatementText(t)) && forall k :: 0 <= k ==> !EndsStatement(StatementText(t), k)
  {
    hide Printable, Entries, Join, Closed, Whole, Head, Trim, Tame, ScanAll;
    var body := Join(Entries(t), ",");
    EntriesFit(t);
    JoinClosed(Entries(t));
    HeadIsTame(t);
    StatementParts(t);
    InParentheses(Head(t), body);
    EntriesWithoutSemicolon(t);
    JoinWithoutSemicolon(Entries(t));
    TameNoSemicolon(Head(t));
    assert NoSemicolon(StatementText(t));
  }

  lemma StatementIsTrim(t: SqlTable)
    requires Printable(t)
    ensures Trim(StatementText(t)) == StatementText(t)
  {
    hide Printable, Join, Entries, Trim;
    HeadIsTame(t);
    var s := StatementText(t);
    assert s[0] == Qualified(t)[0] && s[|s| - 1] == ')';
    TrimIs(s);
  }

  // ---- One statement. ----

  lemma FirstEntry(t: SqlTable) returns (more: string)
    requires t.columns != []
    ensures Join(Entries(t), ",") == ColumnText(t.columns[0]) + more
  {
    hide ColumnText, Join;
    var first, rest := ColumnText(t.columns[0]), Entries(t)[1..];
    JoinCons(first, rest, ",");
    assert Entries(t) == [first] + rest;
    more := if rest == [] then "" else "," + Join(rest, ",");
    if rest == [] {
      assert first + "" == first;
    } else {
      assert first + "," + Join(rest, ",") == first + ("," + Join(rest, ","));
    }
  }

  lemma TwoWords(w: string, rest: string)
    requires w != "" && NoSpaces(w) && rest != "" && !IsSpace(rest[0])
    ensures |Words(w + (" " + rest))| >= 2
  {
    hide Words;
    WordsCons(w, " " + rest);
    MoreWords(rest, " " + rest);
    SomeWords(rest);
  }

  lemma FirstEntryWords(t: SqlTable)
    requires Printable(t)
    ensures |Words("(" + Join(Entries(t), ",") + ")")| >= 2
  {
    hide Words, Join, Entries, Simple, NoSpaces, Rest;
    var c := t.columns[0];
    assert c in t.columns;
    var more := FirstEntry(t);
    var rest := Rest(c) + more + ")";
    ColumnTextParts(c);
    assert "(" + Join(Entries(t), ",") + ")" == "(" + c.name + (" " + rest);
    RestIsTrim(c);
    OpenedWord(c.name);
    TwoWords("(" + c.name, rest);
  }

  lemma ColumnTextParts(c: SqlColumn)
    ensures ColumnText(c) == c.name + " " + Rest(c)
  {
  }

  lemma OpenedWord(id: string)
    requires Simple(id)
    ensures NoSpaces("(" + id)
  {
    SimpleIsWord(id);
  }

  lemma MoreWords(s: string, spaced: string)
    requires spaced == " " + s
    ensures Words(spaced) == Words(s)
  {
    assert spaced[1..] == s;
  }

  lemma SomeWords(s: string)
    requires s != "" && !IsSpace(s[0])
    ensures Words(s) != []
  {
  }

  lemma QualifiedIsSplit(t: SqlTable, dialect: Dialect, defaultSchema: string)
    requires Printable(t)
    ensures SplitQualifiedName(Qualified(t), dialect, defaultSchema) == (t.schema, t.name)
  {
    hide Trim, PrintableColumn, TrimChars, Index, LastIndexOf;
    SimpleIsWord(t.schema);
    SimpleIsWord(t.name);
    NoComma(t.schema);
    NoComma(t.name);
    var q, at := Qualified(t), |t.schema|;
    QualifiedIsTrim(t);
    assert q[at] == '.' && q[..at] == t.schema && q[at + 1..] == t.name;
    IndexOfChar(q, '.', at);
    LastIndexInside(t.schema, '.', t.name);
  }

  lemma QualifiedIsTrim(t: SqlTable)
    requires Printable(t)
    ensures Trim(Qualified(t)) == Qualified(t) && TrimChars(Qualified(t), QUOTES) == Qualified(t)
  {
    hide Trim, PrintableColumn;
    NotBlank(t.schema);
    assert t.name[|t.name| - 1] in t.name;
    TrimIs(Qualified(t));
  }

  lemma {:induction false} LastIndexInside(a: string, c: char, b: string)
    requires c !in b
    ensures LastIndexOf(a + [c] + b, c) == Some(|a|)
  {
    var s := a + [c] + b;
    if b == "" {
      assert s == a + [c];
    } else {
      assert s[|s| - 1] == b[|b| - 1] && b[|b| - 1] in b;
      assert s[..|s| - 1] == a + [c] + b[..|b| - 1];
      LastIndexInside(a, c, b[..|b| - 1]);
    }
  }

  lemma OpensAt(t: SqlTable)
    requires Printable(t)
    ensures Index(StatementText(t), "(") == Some(|Head(t)|)
    ensures StatementText(t)[|Head(t)| + 1..] == Join(Entries(t), ",") + [')']
  {
    hide Printable, Entries, Join, Tame;
    var s := StatementText(t);
    HeadIsTame(t);
    StatementParts(t);
    assert s[..|Head(t)|] == Head(t) && s[|Head(t)|] == '(';
    IndexOfChar(s, '(', |Head(t)|);
  }

  lemma StatementWords(t: SqlTable)
    requires Printable(t)
    ensures var words := Words(StatementText(t)); |words| >= 3 && words[0] == Qualified(t)
  {
    hide Printable, Entries, Join, Tame, Words, Qualified;
    var tail := "(" + Join(Entries(t), ",") + ")";
    HeadIsTame(t);
    assert StatementText(t) == Qualified(t) + (" " + tail);
    FirstEntryWords(t);
    MoreWords(tail, " " + tail);
    QualifiedSome(t);
    WordsCons(Qualified(t), " " + tail);
  }

  lemma QualifiedSome(t: SqlTable)
    ensures Qualified(t) != ""
  {
  }

  lemma StatementIsRead(t: SqlTable, dialect: Dialect, defaultSchema: string)
    requires Printable(t)
    ensures ParsedStatement(StatementText(t), dialect, defaultSchema) == Ok(ReadTable(t))
  {
    hide Printable, StatementText, Entries, Join, Words, Trim, Qualified, SplitQualifiedName, Chunks, DefinitionsOf,
         ReadColumns, Index, LastIndexOf, Head;
    StatementIsTrim(t);
    StatementWords(t);
    OpensAt(t);
    QualifiedIsSplit(t, dialect, defaultSchema);
    var body := Join(Entries(t), ",");
    LastIndexIs(body, ')');
    assert (body + [')'])[..|body|] == body;
    EntriesAreChunks(t);
    EntriesAreRead(t);
  }

  // ---- The statement's opening words. ----

  const OPENING := "CREATE TABLE "

  lemma CreateMatches(s: string)
    requires HasPrefix(s, OPENING) && |s| > 13
    ensures EqualFold(s[0..6], "create") && PatternSpace(s[6])
    ensures EqualFold(s[7..12], "table") && PatternSpace(s[12]) && s[7] == 'T'
  {
    assert s[0..13] == OPENING;
    assert s[0..6] == OPENING[0..6] && s[7..12] == OPENING[7..12];
    assert OPENING[0..6] == "CREATE" && OPENING[7..12] == "TABLE";
    assert s[6] == OPENING[6] && s[12] == OPENING[12] && s[7] == OPENING[7];
  }

  lemma OpeningMatches(s: string)
    requires HasPrefix(s, OPENING) && |s| > 13 && !IsSpace(s[13])
    ensures AfterWords(s, 0, ["create", "table"]) == Some(13)
  {
    hide EqualFold;
    CreateMatches(s);
    assert SkipSpaces(s, 7) == 7 && SkipSpaces(s, 13) == 13;
    assert AfterWord(s, 0, "create") == Some(7);
    assert AfterWord(s, 7, "table") == Some(13);
    assert ["create", "table"][1..] == ["table"] && ["table"][1..] == [];
  }

  /** A name of at least three characters, or one with a dot after its first, is no IF. */
  lemma NoGuard(s: string)
    requires |s| > 15 && !IsSpace(s[15])
    ensures AfterWords(s, 13, ["if", "not", "exists"]).None?
  {
    assert AfterWord(s, 13, "if").None?;
  }

  lemma StatementIsFound(t: SqlTable, tail: string)
    requires Printable(t)
    ensures var s := TableStatement(t) + tail;
            FindPattern(s, 0) == Some(13) && s[13..] == StatementText(t) + ";" + tail
  {
    hide Printable, Entries, Join, Tame, AfterWords, HasPrefix, Qualified;
    var s := TableStatement(t) + tail;
    HeadIsTame(t);
    QualifiedIsLong(t);
    var rest := " (" + Join(Entries(t), ",") + ")" + ";" + tail;
    assert s == OPENING + Qualified(t) + rest;
    assert s[13] == Qualified(t)[0] && s[15] == Qualified(t)[2];
    OpeningIsPrefix(s, Qualified(t) + rest);
    OpeningMatches(s);
    NoGuard(s);
    assert s[13..] == StatementText(t) + ";" + tail;
  }

  lemma OpeningIsPrefix(s: string, rest: string)
    requires s == OPENING + rest
    ensures HasPrefix(s, OPENING)
  {
    assert s[0..13] == OPENING;
  }

  lemma QualifiedIsLong(t: SqlTable)
    requires Printable(t)
    ensures |Qualified(t)| >= 3
  {
    hide PrintableColumn;
  }

  lemma StatementIsNext(t: SqlTable, tail: string)
    requires Printable(t)
    ensures NextStatement(TableStatement(t) + tail) == Some((StatementText(t), Trim(tail)))
  {
    hide Printable, StatementText, TableStatement, FindPattern, Trim, Extracted, EndsStatement, Closed;
    StatementIsFound(t, tail);
    StatementFits(t);
    StatementIsCutOff(StatementText(t), tail);
    StatementIsTrim(t);
  }

  // ---- All statements. ----

  lemma {:induction false} PrintedIsTrim(ts: seq<SqlTable>)
    requires ts != []
    ensures var s := Printed(ts); s != "" && s[0] == 'C' && s[|s| - 1] == ';' && Trim("\n" + s) == s
  {
    hide StatementText, Trim;
    if |ts| > 1 {
      PrintedIsTrim(ts[1..]);
    }
    var s := Printed(ts);
    assert TableStatement(ts[0])[0] == 'C';
    assert s[|s| - 1] == ';';
    TrimIs(s);
    LeadingNewline(s);
  }

  lemma LeadingNewline(s: string)
    ensures Trim("\n" + s) == Trim(s)
  {
    assert ("\n" + s)[1..] == s;
  }

  /** Every list of printable tables, in every dialect: the statements come back, in order, as the tables read. */
  lemma {:induction false} PrintedIsRead(ts: seq<SqlTable>, dialect: Dialect, defaultSchema: string)
    requires forall t :: t in ts ==> Printable(t)
    ensures ParsedTables(Printed(ts), dialect, defaultSchema) == Ok(ReadTables(ts))
  {
    hide Printable, StatementText, TableStatement, NextStatement, ParsedStatement, ReadTable, Trim;
    if ts == [] {
      NothingPrinted();
    } else {
      var t, rest := ts[0], ts[1..];
      assert t in ts;
      var tail := if rest == [] then "" else "\n" + Printed(rest);
      assert Printed(ts) == TableStatement(t) + tail by {
        if rest == [] {
          assert TableStatement(t) + "" == TableStatement(t);
        } else {
          assert TableStatement(t) + "\n" + Printed(rest) == TableStatement(t) + ("\n" + Printed(rest));
        }
      }
      StatementIsNext(t, tail);
      StatementIsRead(t, dialect, defaultSchema);
      PrintedIsRead(rest, dialect, defaultSchema);
      assert Trim(tail) == Printed(rest) by {
        if rest == [] {
          TrimBlank();
        } else {
          PrintedIsTrim(rest);
        }
      }
      ReadTableName(t);
      assert [ReadTable(t)] + ReadTables(rest) == ReadTables(ts);
    }
  }

  lemma ReadTableName(t: SqlTable)
    requires Printable(t)
    ensures ReadTable(t).name != ""
  {
    hide PrintableColumn, ReadColumns;
  }

  lemma NothingPrinted()
    ensures NextStatement("").None?
  {
  }

  // ---- The document. ----

  /** The table as it was printed: every column, its keys, or else its primary columns, or else its first. */
  function Declared(server: string, t: SqlTable): DeclTable {
    var names := if t.keys != [] then t.keys else NamesOfPrimary(t.columns);
    DeclTable(server, t.schema, t.name, t.name, if names == [] && t.columns != []
          then [t.columns[0].name] else names, map[],
              seq(|t.columns|, i requires 0 <= i < |t.columns| =>
                DeclColumn(t.columns[i].name, t.columns[i].dataType, "",
                           Some(t.columns[i].nullable && !t.columns[i].primary), i)))
  }

  function NamesOfPrimary(cols: seq<SqlColumn>): seq<string> {
    if cols == [] then []
    else NamesOfPrimary(cols[..|cols| - 1]) + if cols[|cols| - 1].primary then [cols[|cols| - 1].name] else []
  }

  predicate HasMistaken(t: SqlTable) {
    exists c :: c in t.columns && Mistaken(c.name)
  }

  lemma {:induction false} NothingMistaken(cols: seq<SqlColumn>)
    requires forall c :: c in cols ==> !Mistaken(c.name)
    ensures |ReadColumns(cols)| == |cols| && forall i :: 0 <= i < |cols| ==> ReadColumns(cols)[i] == ReadColumn(cols[i])
    ensures PrimaryNames(ReadColumns(cols)) == NamesOfPrimary(cols)
  {
    hide Mistaken;
    if cols != [] {
      assert cols == cols[..|cols| - 1] + [cols[|cols| - 1]];
      NothingMistaken(cols[..|cols| - 1]);
    }
  }

  lemma {:induction false} MistakenShortens(cols: seq<SqlColumn>)
    ensures |ReadColumns(cols)| <= |cols|
    ensures (exists c :: c in cols && Mistaken(c.name)) ==> |ReadColumns(cols)| < |cols|
  {
    hide Mistaken;
    if cols != [] {
      assert cols == cols[..|cols| - 1] + [cols[|cols| - 1]];
      MistakenShortens(cols[..|cols| - 1]);
    }
  }

  lemma TableComesBackExactlyWhen(server: string, t: SqlTable)
    ensures ImportedTable(server, ReadTable(t)) == Declared(server, t) <==> !HasMistaken(t)
  {
    hide Mistaken, PrimaryNames, NamesOfPrimary, ReadColumns;
    if HasMistaken(t) {
      MistakenShortens(t.columns);
      assert |ImportedTable(server, ReadTable(t)).columns| != |Declared(server, t).columns|;
    } else {
      NothingMistaken(t.columns);
      assert ImportedTable(server, ReadTable(t)).columns == Declared(server, t).columns;
    }
  }

  function DeclaredTables(server: string, ts: seq<SqlTable>): seq<DeclTable> {
    seq(|ts|, i requires 0 <= i < |ts| => Declared(server, ts[i]))
  }

  lemma TablesComeBackExactlyWhen(server: string, ts: seq<SqlTable>)
    ensures ImportedTables(server, ReadTables(ts)) == DeclaredTables(server, ts)
            <==> forall t :: t in ts ==> !HasMistaken(t)
  {
    hide ReadTable, ImportedTable, HasMistaken, Declared;
    var back, declared := ImportedTables(server, ReadTables(ts)), DeclaredTables(server, ts);
    forall i | 0 <= i < |ts|
      ensures back[i] == declared[i] <==> !HasMistaken(ts[i])
    {
      TableComesBackExactlyWhen(server, ts[i]);
    }
    if back == declared {
      forall t | t in ts
        ensures !HasMistaken(t)
      {
        var i :| 0 <= i < |ts| && ts[i] == t;
        assert back[i] == declared[i];
      }
    }
    assert forall i :: 0 <= i < |ts| ==> ts[i] in ts;
  }

  /** DDL round trip. Importing printed tables always succeeds; and it returns exactly the printed tables, in order,
      with every column's place, type and nullability and the key columns, exactly when no column's name is mistaken
      for the start of another definition. */
  lemma RoundTripExactlyWhen(ts: seq<SqlTable>, opts: SQLOptions)
    requires ts != [] && opts.dialect != Unset && forall t :: t in ts ==> Printable(t)
    ensures var r, server := Imported(Printed(ts), opts), OrDefault(opts.serverName, "imported_db");
            && r.Ok? && |r.value.servers| == 1 && r.value.servers[0].name == server
            && r.value.tables == ImportedTables(server, ReadTables(ts))
            && (r.value.tables == DeclaredTables(server, ts) <==> forall t :: t in ts ==> !HasMistaken(t))
  {
    hide Printable, ParsedTables, ReadTable, ImportedTables, HasMistaken, OrDefault, DeclaredTables, Printed;
    var server, schema := OrDefault(opts.serverName, "imported_db"), OrDefault(opts.schema, "public");
    PrintedIsRead(ts, opts.dialect, schema);
    TablesComeBackExactlyWhen(server, ts);
  }
}
