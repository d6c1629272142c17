/** A printer for CREATE TABLE statements, and what the importer reads back from it. */
module SqlPrint {
  import opened Text
  import opened Meta
  import opened Documents
  import opened SqlScan
  import opened SqlImport

  predicate IdentChar(c: char) {
    'a' <= c <= 'z' || 'A' <= c <= 'Z' || '0' <= c <= '9' || c == '_'
  }

  /** A name that needs no quotes. */
  predicate Simple(id: string) {
    id != "" && forall c :: c in id ==> IdentChar(c)
  }

  const TYPES: set<string> := {"integer", "boolean", "numeric", "timestamp", "uuid", "json", "binary", "text"}

  datatype SqlColumn = SqlColumn(name: string, dataType: string, nullable: bool, primary: bool)

  datatype SqlTable = SqlTable(schema: string, name: string, columns: seq<SqlColumn>, keys: seq<string>)

  predicate PrintableColumn(c: SqlColumn) {
    Simple(c.name) && c.dataType in TYPES
  }

  /** Simple names, canonical types and at least one column. */
  predicate Printable(t: SqlTable) {
    && Simple(t.schema) && Simple(t.name) && t.columns != []
    && (forall c :: c in t.columns ==> PrintableColumn(c))
    && (forall k :: k in t.keys ==> Simple(k))
  }

  // ---- The printer. ----

  function Suffix(c: SqlColumn): string {
    (if c.nullable then "" else " NOT NULL") + (if c.primary then " PRIMARY KEY" else "")
  }

  function ColumnText(c: SqlColumn): string {
    c.name + " " + c.dataType + Suffix(c)
  }

  function KeyText(keys: seq<string>): string {
    "PRIMARY KEY (" + Join(keys, ",") + ")"
  }

  function Entries(t: SqlTable): seq<string> {
    seq(|t.columns|, i requires 0 <= i < |t.columns| => ColumnText(t.columns[i]))
    + if t.keys == [] then [] else [KeyText(t.keys)]
  }

  function Qualified(t: SqlTable): string {
    t.schema + "." + t.name
  }

  function StatementText(t: SqlTable): string {
    Qualified(t) + " (" + Join(Entries(t), ",") + ")"
  }

  function TableStatement(t: SqlTable): string {
    "CREATE TABLE " + StatementText(t) + ";"
  }

  function Printed(ts: seq<SqlTable>): string {
    if ts == [] then ""
    else if |ts| == 1 then TableStatement(ts[0])
    else TableStatement(ts[0]) + "\n" + Printed(ts[1..])
  }

  // ---- What is read back. ----

  /** A column of this name is mistaken for another kind of definition. */
  predicate Mistaken(name: string) {
    || HasPrefix(Upper(name), "UNIQUE") || HasPrefix(Upper(name), "CONSTRAINT") || HasPrefix(Upper(name), "CHECK")
    || HasPrefix(Upper(name), "INDEX") || Upper(name) == "KEY"
  }

  function ReadColumn(c: SqlColumn): ParsedColumn {
    ParsedColumn(c.name, c.dataType, c.nullable && !c.primary, c.primary)
  }

  function ReadColumns(cols: seq<SqlColumn>): seq<ParsedColumn> {
    if cols == [] then []
    else
      var before, c := ReadColumns(cols[..|cols| - 1]), cols[|cols| - 1];
      if Mistaken(c.name) then before else before + [ReadColumn(c)]
  }

  function ReadTable(t: SqlTable): ParsedTable {
    ParsedTable(t.schema, t.name, if t.keys == []
          then PrimaryNames(ReadColumns(t.columns)) else t.keys, ReadColumns(t.columns))
  }

  function ReadTables(ts: seq<SqlTable>): seq<ParsedTable> {
    seq(|ts|, i requires 0 <= i < |ts| => ReadTable(ts[i]))
  }

  // ---- Words and trimming. ----

  lemma TrimIs(s: string)
    requires s != "" && !IsSpace(s[0]) && !IsSpace(s[|s| - 1])
    ensures Trim(s) == s
  {
  }

  predicate NoSpaces(s: string) {
    forall i :: 0 <= i < |s| ==> !IsSpace(s[i])
  }

  lemma {:induction false} WordLengthIs(w: string, rest: string)
    requires NoSpaces(w) && (rest == "" || IsSpace(rest[0]))
    ensures WordLength(w + rest) == |w|
  {
    if w == "" {
      assert w + rest == rest;
    } else {
      assert (w + rest)[1..] == w[1..] + rest;
      WordLengthIs(w[1..], rest);
    }
  }

  lemma WordsCons(w: string, rest: string)
    requires w != "" && NoSpaces(w) && (rest == "" || IsSpace(rest[0]))
    ensures Words(w + rest) == [w] + Words(rest)
  {
    WordLengthIs(w, rest);
    assert (w + rest)[..|w|] == w && (w + rest)[|w|..] == rest;
  }

  lemma SimpleIsWord(id: string)
    requires Simple(id)
    ensures NoSpaces(id) && Trim(id) == id && TrimChars(id, QUOTES) == id && TrimChars(id, {'"'}) == id
  {
    assert forall i :: 0 <= i < |id| ==> IdentChar(id[i]);
    TrimIs(id);
  }

  lemma TypeIsSimple(t: string)
    requires t in TYPES
    ensures Simple(t) && NoSpaces(t) && '(' !in t && Upper(t)[0] != 'K'
    ensures forall i :: 0 <= i < |t| ==> 'a' <= t[i] <= 'z'
    ensures !EqualFold(t, "character") && !EqualFold(t, "serial") && !EqualFold(t, "bigserial")
  {
    assert forall i :: 0 <= i < |t| ==> 'a' <= t[i] <= 'z';
    if |t| == 9 {
      assert !Folds(t[0], "character"[0]) && !Folds(t[0], "bigserial"[0]);
    }
  }

  lemma LowerOfLower(t: string)
    requires forall i :: 0 <= i < |t| ==> 'a' <= t[i] <= 'z'
    ensures Lower(t) == t
  {
  }

  lemma TypeIsCanonical(t: string)
    requires t in TYPES
    ensures NormalizeDataType(t) == t
  {
    hide Simple, Upper, EqualFold;
    TypeIsSimple(t);
    SimpleTrim(t);
    LowerOfLower(t);
    TypeNames(t);
  }

  lemma SimpleTrim(t: string)
    requires Simple(t)
    ensures Trim(t) == t
  {
    SimpleIsWord(t);
  }

  lemma TypeNames(t: string)
    requires t in TYPES && Lower(Trim(t)) == t
    ensures NormalizeDataType(t) == t
  {
    hide Lower, Trim;
    if t == "text" {
      assert t[0] == 't' && t[1] == 'e' && |t| == 4;
    }
  }

  // ---- One column. ----

  lemma OccurrenceContains(s: string, part: string, at: nat)
    requires OccursAt(s, part, at)
    ensures Contains(s, part)
  {
  }

  lemma OccurrenceChar(s: string, part: string, at: nat, j: nat)
    requires OccursAt(s, part, at) && j < |part|
    ensures s[at + j] == part[j]
  {
    assert s[at..at + |part|][j] == s[at + j];
  }

  /** Two neighbouring characters that never meet in a text occur in no part of it. */
  lemma NeighboursNeverMeet(s: string, part: string, j: nat)
    requires j + 1 < |part|
    requires forall k :: 0 <= k < |s| - 1 && s[k] == part[j] ==> s[k + 1] != part[j + 1]
    ensures !Contains(s, part)
  {
    forall at | 0 <= at <= |s|
      ensures !OccursAt(s, part, at)
    {
      if OccursAt(s, part, at) {
        OccurrenceChar(s, part, at, j);
        OccurrenceChar(s, part, at, j + 1);
      }
    }
  }

  lemma UpperConcat(a: string, b: string)
    ensures Upper(a + b) == Upper(a) + Upper(b)
  {
  }

  lemma UpperOfSimple(s: string)
    requires Simple(s)
    ensures |Upper(s)| == |s| && ' ' !in Upper(s)
  {
    assert forall i :: 0 <= i < |s| ==> IdentChar(s[i]);
  }

  lemma SuffixIsUpper(c: SqlColumn)
    ensures Upper(Suffix(c)) == Suffix(c)
  {
    assert Upper(" NOT NULL") == " NOT NULL";
    assert Upper(" PRIMARY KEY") == " PRIMARY KEY";
    UpperConcat(if c.nullable then "" else " NOT NULL", if c.primary then " PRIMARY KEY" else "");
  }

  lemma NotNullMark(u: string, c: SqlColumn)
    requires ' ' !in u
    ensures Contains(u + Suffix(c), "NOT NULL") <==> !c.nullable
  {
    var s := u + Suffix(c);
    if c.nullable {
      forall k | 0 <= k < |s| - 1 && s[k] == ' '
        ensures s[k + 1] != 'N'
      {
        assert k >= |u| && s[k] == Suffix(c)[k - |u|];
      }
      NeighboursNeverMeet(s, "NOT NULL", 3);
    } else {
      assert s[|u| + 1..|u| + 9] == "NOT NULL";
      OccurrenceContains(s, "NOT NULL", |u| + 1);
    }
  }

  lemma PrimaryMark(u: string, c: SqlColumn)
    requires ' ' !in u
    ensures Contains(u + Suffix(c), "PRIMARY KEY") <==> c.primary
  {
    var s := u + Suffix(c);
    if c.primary {
      var at := |u| + if c.nullable then 1 else 10;
      assert s[at..at + 11] == "PRIMARY KEY";
      OccurrenceContains(s, "PRIMARY KEY", at);
    } else {
      forall k | 0 <= k < |s| - 1 && s[k] == ' '
        ensures s[k + 1] != 'K'
      {
        assert k >= |u| && s[k] == Suffix(c)[k - |u|];
      }
      NeighboursNeverMeet(s, "PRIMARY KEY", 7);
    }
  }

  lemma SuffixEnds(c: SqlColumn)
    ensures Suffix(c) != "" ==> Suffix(c)[0] == ' ' && !IsSpace(Suffix(c)[|Suffix(c)| - 1])
  {
  }

  /** Type and clauses, as they stand after the name. */
  function Rest(c: SqlColumn): string {
    c.dataType + Suffix(c)
  }

  lemma RestIsTrim(c: SqlColumn)
    requires PrintableColumn(c)
    ensures Trim(Rest(c)) == Rest(c) && Rest(c) != "" && !IsSpace(Rest(c)[0]) && !IsSpace(Rest(c)[|Rest(c)| - 1])
  {
    hide Suffix, Trim, Upper, EqualFold;
    TypeIsSimple(c.dataType);
    SuffixEnds(c);
    TrimIs(Rest(c));
  }

  lemma TypeIsRead(c: SqlColumn)
    requires PrintableColumn(c)
    ensures ExtractDataType(Rest(c)) == c.dataType
  {
    hide Suffix, Trim, Upper, EqualFold, Words;
    RestIsTrim(c);
    TypeIsSimple(c.dataType);
    SuffixEnds(c);
    WordsCons(c.dataType, Suffix(c));
    assert !Contains(c.dataType, "(") by { NoChar(c.dataType, '('); }
  }

  lemma NoChar(s: string, ch: char)
    requires ch !in s
    ensures !Contains(s, [ch])
  {
    forall at | 0 <= at <= |s|
      ensures !OccursAt(s, [ch], at)
    {
      if OccursAt(s, [ch], at) {
        OccurrenceChar(s, [ch], at, 0);
      }
    }
  }

  lemma NameIsRead(c: SqlColumn)
    requires PrintableColumn(c)
    ensures Trim(ColumnText(c)) == ColumnText(c) != ""
    ensures ExtractFirstIdentifier(ColumnText(c)) == c.name
    ensures ColumnText(c)[|c.name|..] == " " + Rest(c)
  {
    hide Suffix, Upper, Words, Trim;
    var s := ColumnText(c);
    SimpleIsWord(c.name);
    RestIsTrim(c);
    assert s == c.name + (" " + Rest(c)) && IdentChar(s[0]);
    assert s[|s| - 1] == Rest(c)[|Rest(c)| - 1];
    TrimIs(s);
    WordsCons(c.name, " " + Rest(c));
  }

  /** A printed column is read as the column it was. */
  lemma ColumnIsRead(c: SqlColumn)
    requires PrintableColumn(c)
    ensures ParseColumnLine(ColumnText(c)) == ReadColumn(c)
  {
    hide Suffix, Upper, Trim, ExtractFirstIdentifier, ExtractDataType, EqualFold, NormalizeDataType, Words, Contains,
         Rest;
    var s := ColumnText(c);
    NameIsRead(c);
    LeadingSpace(Rest(c));
    RestIsTrim(c);
    TypeIsRead(c);
    TypeIsSimple(c.dataType);
    TypeIsCanonical(c.dataType);
    MarksAreRead(c);
    NotQuoted(c.name);
  }

  lemma LeadingSpace(s: string)
    ensures Trim(" " + s) == Trim(s)
  {
    assert (" " + s)[1..] == s;
  }

  lemma NotQuoted(id: string)
    requires Simple(id)
    ensures !HasPrefix(id, "`") && !HasPrefix(id, "\"")
  {
    assert IdentChar(id[0]);
  }

  lemma MarksAreRead(c: SqlColumn)
    requires PrintableColumn(c)
    ensures Contains(Upper(Rest(c)), "PRIMARY KEY") <==> c.primary
    ensures Contains(Upper(Rest(c)), "NOT NULL") <==> !c.nullable
  {
    hide Suffix, Upper, Contains, EqualFold;
    TypeIsSimple(c.dataType);
    UpperConcat(c.dataType, Suffix(c));
    SuffixIsUpper(c);
    UpperOfSimple(c.dataType);
    PrimaryMark(Upper(c.dataType), c);
    NotNullMark(Upper(c.dataType), c);
  }

  // ---- One definition. ----

  lemma PrefixChar(s: string, w: string, i: nat)
    requires HasPrefix(s, w) && i < |w|
    ensures i < |s| && s[i] == w[i]
  {
    OccurrenceChar(s, w, 0, i);
  }

  /** A word that begins a text ends before the text's first space. */
  lemma SpaceEndsWord(s: string, w: string, at: nat)
    requires HasPrefix(s, w) && ' ' !in w && at < |s| && s[at] == ' '
    ensures |w| <= at
  {
    assert s[0..|w|] == w;
    assert forall k :: 0 <= k < |w| ==> s[k] == w[k] && w[k] in w;
  }

  lemma PrefixOfFirstWord(n: string, r: string, w: string)
    requires ' ' !in w && ' ' !in n
    ensures HasPrefix(n + " " + r, w) <==> HasPrefix(n, w)
  {
    var s := n + " " + r;
    if HasPrefix(s, w) {
      SpaceEndsWord(s, w, |n|);
      assert s[..|w|] == n[..|w|];
    }
    if HasPrefix(n, w) {
      assert s[..|w|] == n[..|w|];
    }
  }

  lemma FirstWordsAsLong(n: string, r: string, w1: string, w2: string)
    requires ' ' !in w1 && ' ' !in n && HasPrefix(n + " " + r, w1 + " " + w2)
    ensures |n| == |w1|
  {
    var s, w := n + " " + r, w1 + " " + w2;
    assert s[0..|w|] == w;
    assert s[0..|n|] == n && s[0..|w1|] == w1 && s[|n|] == ' ' && s[|w1|] == w[|w1|] == ' ';
    SpaceEndsWord(s, w1, |n|);
    SpaceEndsWord(s, n, |w1|);
  }

  lemma PrefixOfTwoWords(n: string, r: string, w1: string, w2: string)
    requires ' ' !in w1 && ' ' !in n && HasPrefix(n + " " + r, w1 + " " + w2)
    ensures n == w1 && HasPrefix(r, w2)
  {
    var s, w := n + " " + r, w1 + " " + w2;
    FirstWordsAsLong(n, r, w1, w2);
    assert s[0..|w|] == w;
    assert s[..|w|][..|n|] == n && w[..|w1|] == w1;
    assert |n| + 1 + |w2| <= |s|;
    assert s[..|w|][|n| + 1..] == r[..|w2|] && w[|w1| + 1..] == w2;
  }
}
