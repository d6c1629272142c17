/** The DDL importer: CREATE TABLE statements become a declarative document. */
module SqlImport {
  import opened Text
  import opened Meta
  import opened Documents
  import opened SqlScan

  // ---- Words. ----

  /** strings.ToUpper, as far as it can yield ASCII letters. */
  function UpperChar(c: char): char {
    if 'a' <= c <= 'z' then (c as int - 32) as char
    else if c == '\U{131}' then 'I'
    else if c == '\U{17F}' then 'S'
    else c
  }

  function Upper(s: string): string {
    seq(|s|, i requires 0 <= i < |s| => UpperChar(s[i]))
  }

  /** strings.ToLower, as far as it can yield ASCII letters. */
  function LowerChar(c: char): char {
    if 'A' <= c <= 'Z' then (c as int + 32) as char
    else if c == '\U{212A}' then 'k'
    else if c == '\U{130}' then 'i'
    else c
  }

  function Lower(s: string): string {
    seq(|s|, i requires 0 <= i < |s| => LowerChar(s[i]))
  }

  /** strings.EqualFold and (?i) against a lower-case ASCII letter. */
  predicate Folds(c: char, letter: char) {
    c == letter || c == UpperChar(letter) || (letter == 's' && c == '\U{17F}') || (letter == 'k' && c == '\U{212A}')
  }

  predicate EqualFold(s: string, word: string) {
    |s| == |word| && forall i :: 0 <= i < |s| ==> Folds(s[i], word[i])
  }

  function WordLength(s: string): (n: nat)
    ensures n <= |s|
    ensures s != "" && !IsSpace(s[0]) ==> n > 0
  {
    if s == "" || IsSpace(s[0]) then 0 else 1 + WordLength(s[1..])
  }

  /** strings.Fields */
  function Words(s: string): seq<string>
    decreases |s|
  {
    if s == "" then []
    else if IsSpace(s[0]) then Words(s[1..])
    else [s[..WordLength(s)]] + Words(s[WordLength(s)..])
  }

  /** strings.LastIndexByte */
  function LastIndexOf(s: string, c: char): (i: Option<nat>)
    ensures i.Some? ==> i.value < |s| && s[i.value] == c
  {
    if s == "" then None
    else if s[|s| - 1] == c then Some(|s| - 1)
    else LastIndexOf(s[..|s| - 1], c)
  }

  /** strings.Trim with a set of characters. */
  function TrimChars(s: string, cut: set<char>): string {
    if s == "" then ""
    else if s[0] in cut then TrimChars(s[1..], cut)
    else if s[|s| - 1] in cut then TrimChars(s[..|s| - 1], cut)
    else s
  }

  const QUOTES: set<char> := {'`', '"'}

  // ---- The pattern that starts a table. ----

  predicate PatternSpace(c: char) {
    c == '\t' || c == '\n' || c == '\U{0C}' || c == '\r' || c == ' '
  }

  function SkipSpaces(s: string, at: nat): (end: nat)
    requires at <= |s|
    ensures at <= end <= |s|
    decreases |s| - at
  {
    if at < |s| && PatternSpace(s[at]) then SkipSpaces(s, at + 1) else at
  }

  /** A word of the pattern and the white space that must follow it. */
  function AfterWord(s: string, at: nat, word: string): (end: Option<nat>)
    requires at <= |s|
    ensures end.Some? ==> at + |word| < end.value <= |s|
  {
    if at + |word| < |s| && EqualFold(s[at..at + |word|], word) && PatternSpace(s[at + |word|]) then
      Some(SkipSpaces(s, at + |word| + 1))
    else None
  }

  function AfterWords(s: string, at: nat, words: seq<string>): (end: Option<nat>)
    requires at <= |s|
    ensures end.Some? ==> at <= end.value <= |s| && (words != [] ==> at < end.value)
    decreases |words|
  {
    if words == [] then Some(at)
    else
      var next := AfterWord(s, at, words[0]);
      if next.None? then None else AfterWords(s, next.value, words[1..])
  }

  /** CREATE TABLE with an optional IF NOT EXISTS, in any case, matched at a position. */
  function PatternEnd(s: string, at: nat): (end: Option<nat>)
    requires at <= |s|
    ensures end.Some? ==> at < end.value <= |s|
  {
    var start := AfterWords(s, at, ["create", "table"]);
    if start.None? then None
    else
      var guarded := AfterWords(s, start.value, ["if", "not", "exists"]);
      if guarded.Some? then guarded else start
  }

  /** The end of the leftmost match at or after a position. */
  function FindPattern(s: string, from: nat): (end: Option<nat>)
    requires from <= |s|
    ensures end.Some? ==> from < end.value <= |s|
    decreases |s| - from
  {
    if PatternEnd(s, from).Some? then PatternEnd(s, from)
    else if from == |s| then None
    else FindPattern(s, from + 1)
  }

  // ---- One column. ----

  datatype Dialect = Unset | Postgres | MySQL | SQLite | Unknown(text: string)

  datatype ParsedColumn = ParsedColumn(name: string, dataType: string, nullable: bool, primary: bool)

  datatype ParsedTable = ParsedTable(schema: string, name: string, keyColumns: seq<string>, columns: seq<ParsedColumn>)

  const NoColumn := ParsedColumn("", "", false, false)
  const NoTable := ParsedTable("", "", [], [])

  function NormalizeDataType(t: string): string {
    var name := Lower(Trim(t));
    if name in {"int", "integer", "int4", "serial", "bigserial", "smallint", "mediumint", "tinyint", "bigint", "int8",
          "int2"}
    then "integer"
    else if name in {"bool", "boolean"} then "boolean"
    else if name in {"float", "float4", "float8", "double", "real", "decimal", "numeric"} then "numeric"
    else if name in {"timestamp", "timestamptz", "datetime", "date", "time"} then "timestamp"
    else if name == "uuid" then "uuid"
    else if name in {"json", "jsonb"} then "json"
    else if name in {"bytea", "blob", "binary"} then "binary"
    else "text"
  }

  function ExtractDataType(text: string): string {
    var words := Words(Trim(text));
    if words == [] then "text"
    else if |words| > 1 && EqualFold(words[0], "character") && EqualFold(words[1], "varying") then "varchar"
    else if Contains(words[0], "(") then words[0][..Index(words[0], "(").value]
    else words[0]
  }

  function ExtractFirstIdentifier(text: string): (id: string)
    ensures |id| <= |Trim(text)|
  {
    var s := Trim(text);
    if s == "" then ""
    else if s[0] == '`' || s[0] == '"' then
      var end := Index(s[1..], [s[0]]);
      if end.Some? then s[..end.value + 2] else s
    else
      assert Words(s)[0] == s[..WordLength(s)];
      Words(s)[0]
  }

  function ParseColumnLine(text: string): ParsedColumn {
    var s := Trim(text);
    if s == "" then NoColumn
    else
      TrimTwice(text);
      var id := ExtractFirstIdentifier(s);
      if id == "" then NoColumn
      else
        var rest := Trim(s[|id|..]);
        var name := if HasPrefix(id, "`") || HasPrefix(id, "\"") then TrimChars(id, QUOTES) else id;
        var dataType := ExtractDataType(rest);
        var primary := Contains(Upper(rest), "PRIMARY KEY") || EqualFold(dataType, "serial")
              || EqualFold(dataType, "bigserial");
        ParsedColumn(name, NormalizeDataType(dataType), !Contains(Upper(rest), "NOT NULL") && !primary, primary)
  }

  // ---- The definitions of a table. ----

  predicate IsTableKey(upper: string) {
    HasPrefix(upper, "PRIMARY KEY")
  }

  /** Definitions passed over by their first word. */
  predicate IsSkipped(upper: string) {
    || HasPrefix(upper, "UNIQUE") || HasPrefix(upper, "CONSTRAINT") || HasPrefix(upper, "FOREIGN KEY")
    || HasPrefix(upper, "CHECK") || HasPrefix(upper, "INDEX") || HasPrefix(upper, "KEY ")
  }

  function KeyParts(parts: seq<string>): seq<string> {
    if parts == [] then []
    else
      var before, part := KeyParts(parts[..|parts| - 1]), TrimChars(Trim(parts[|parts| - 1]), QUOTES);
      if part == "" then before else before + [part]
  }

  function KeyColumnsOf(line: string): seq<string> {
    var start, end := Index(line, "("), LastIndexOf(line, ')');
    if start.None? || end.None? || end.value <= start.value then []
    else KeyParts(Split(line[start.value + 1..end.value], ','))
  }

  method CollectKeyParts(parts: seq<string>) returns (keys: seq<string>)
    ensures keys == KeyParts(parts)
  {
    hide Trim, TrimChars;
    keys := [];
    for i := 0 to |parts|
      invariant keys == KeyParts(parts[..i])
    {
      assert parts[..i + 1][..i] == parts[..i];
      var part := TrimChars(Trim(parts[i]), QUOTES);
      if part != "" {
        keys := keys + [part];
      }
    }
    assert parts[..|parts|] == parts;
  }

  method ExtractKeyColumns(line: string) returns (keys: seq<string>)
    ensures keys == KeyColumnsOf(line)
  {
    hide KeyParts, Split, IndexFrom, LastIndexOf;
    var start, end := Index(line, "("), LastIndexOf(line, ')');
    if start.None? || end.None? || end.value <= start.value {
      return [];
    }
    keys := CollectKeyParts(Split(line[start.value + 1..end.value], ','));
  }

  /** The columns, and the keys of the last PRIMARY KEY definition. */
  datatype Definitions = Definitions(columns: seq<ParsedColumn>, keys: seq<string>)

  function AddDefinition(d: Definitions, chunk: string): Definitions {
    var text := Trim(chunk);
    if text == "" then d
    else if IsTableKey(Upper(text)) then d.(keys := KeyColumnsOf(text))
    else if IsSkipped(Upper(text)) || ParseColumnLine(text).name == "" then d
    else d.(columns := d.columns + [ParseColumnLine(text)])
  }

  function DefinitionsOf(chunks: seq<string>): Definitions {
    if chunks == [] then Definitions([], [])
    else AddDefinition(DefinitionsOf(chunks[..|chunks| - 1]), chunks[|chunks| - 1])
  }

  method ParseColumnDefinitions(body: string) returns (cols: seq<ParsedColumn>, tableKeys: seq<string>)
    ensures Definitions(cols, tableKeys) == DefinitionsOf(Chunks(body))
  {
    hide Trim, Upper, ParseColumnLine, KeyColumnsOf, Chunks;
    cols, tableKeys := [], [];
    var chunks := SplitColumnChunks(body);
    for i := 0 to |chunks|
      invariant Definitions(cols, tableKeys) == DefinitionsOf(chunks[..i])
    {
      assert chunks[..i + 1][..i] == chunks[..i];
      var chunk := Trim(chunks[i]);
      if chunk == "" {
        continue;
      }
      var upper := Upper(chunk);
      if HasPrefix(upper, "PRIMARY KEY") {
        tableKeys := ExtractKeyColumns(chunk);
        continue;
      }
      if HasPrefix(upper, "UNIQUE") || HasPrefix(upper, "CONSTRAINT") || HasPrefix(upper, "FOREIGN KEY")
         || HasPrefix(upper, "CHECK") || HasPrefix(upper, "INDEX") || HasPrefix(upper, "KEY ") {
        continue;
      }
      var col := ParseColumnLine(chunk);
      if col.name != "" {
        cols := cols + [col];
      }
    }
    assert chunks[..|chunks|] == chunks;
  }

  // ---- One statement. ----

  function SplitQualifiedName(text: string, dialect: Dialect, defaultSchema: string): (string, string) {
    var raw := TrimChars(Trim(text), QUOTES);
    if dialect == MySQL then
      var i := LastIndexOf(raw, '.');
      if i.Some?
            then (TrimChars(raw[..i.value], QUOTES), TrimChars(raw[i.value + 1..], QUOTES)) else (defaultSchema, raw)
    else
      var i := Index(raw, ".");
      if i.Some? then (TrimChars(raw[..i.value], {'"'}), TrimChars(raw[i.value + 1..], {'"'}))
      else (defaultSchema, TrimChars(raw, {'"'}))
  }

  function PrimaryNames(cols: seq<ParsedColumn>): seq<string> {
    if cols == [] then []
    else PrimaryNames(cols[..|cols| - 1]) + if cols[|cols| - 1].primary then [cols[|cols| - 1].name] else []
  }

  /** Too short a statement, or one without a column list, is dropped; an unclosed list is an error. */
  function ParsedStatement(text: string, dialect: Dialect, defaultSchema: string): Result<ParsedTable> {
    var stmt := Trim(text);
    var words := Words(stmt);
    if |words| < 3 then Ok(NoTable)
    else
      var open := Index(stmt, "(");
      if open.None? then Ok(NoTable)
      else
        var (schema, name) := SplitQualifiedName(words[0], dialect, defaultSchema);
        var body := stmt[open.value + 1..];
        var close := LastIndexOf(body, ')');
        if close.None? then Err("unclosed column list")
        else
          var d := DefinitionsOf(Chunks(body[..close.value]));
          Ok(ParsedTable(schema, name, if d.keys == [] then PrimaryNames(d.columns) else d.keys, d.columns))
  }

  method ParseOneCreateTable(text: string, dialect: Dialect, defaultSchema: string) returns (r: Result<ParsedTable>)
    ensures r == ParsedStatement(text, dialect, defaultSchema)
  {
    hide DefinitionsOf, Chunks, SplitQualifiedName, Words, Trim;
    var stmt := Trim(text);
    var parts := Words(stmt);
    if |parts| < 3 {
      return Ok(NoTable);
    }
    var bodyStart := Index(stmt, "(");
    if bodyStart.None? {
      return Ok(NoTable);
    }
    var (schema, name) := SplitQualifiedName(parts[0], dialect, defaultSchema);
    var body := stmt[bodyStart.value + 1..];
    var bodyEnd := LastIndexOf(body, ')');
    if bodyEnd.None? {
      return Err("unclosed column list");
    }
    var cols, keyCols := ParseColumnDefinitions(body[..bodyEnd.value]);
    if |keyCols| == 0 {
      for i := 0 to |cols|
        invariant keyCols == PrimaryNames(cols[..i])
      {
        assert cols[..i + 1][..i] == cols[..i];
        if cols[i].primary {
          keyCols := keyCols + [cols[i].name];
        }
      }
      assert cols[..|cols|] == cols;
    }
    return Ok(ParsedTable(schema, name, keyCols, cols));
  }

  // ---- All statements. ----

  /** What the text begins with: a first statement and the text after it, if there is one. */
  function NextStatement(text: string): (r: Option<(string, string)>)
    ensures r.Some? ==> |r.value.1| < |text|
  {
    var start := FindPattern(text, 0);
    if start.None? then None
    else
      RemainderShrinks(text[start.value..]);
      Extracted(text[start.value..])
  }

  function ParsedTables(text: string, dialect: Dialect, defaultSchema: string): Result<seq<ParsedTable>>
    decreases |text|
  {
    match NextStatement(text)
    case None => Ok([])
    case Some((stmt, rest)) =>
      match ParsedStatement(stmt, dialect, defaultSchema)
      case Err(e) => Err(e)
      case Ok(t) => Prepended(if t.name == "" then [] else [t], ParsedTables(rest, dialect, defaultSchema))
  }

  function Prepended(tables: seq<ParsedTable>, r: Result<seq<ParsedTable>>): Result<seq<ParsedTable>> {
    match r
    case Err(e) => Err(e)
    case Ok(more) => Ok(tables + more)
  }

  lemma PrependedTwice(a: seq<ParsedTable>, b: seq<ParsedTable>, r: Result<seq<ParsedTable>>)
    ensures Prepended(a, Prepended(b, r)) == Prepended(a + b, r)
    ensures Prepended([], r) == r
  {
    if r.Ok? {
      assert a + (b + r.value) == (a + b) + r.value && [] + r.value == r.value;
    }
  }

  /** The statement loop; it ends because the remaining text gets shorter. */
  method ParseCreateTables(content: string, dialect: Dialect,
                           defaultSchema: string) returns (r: Result<seq<ParsedTable>>)
    ensures r == ParsedTables(content, dialect, defaultSchema)
  {
    hide ParsedStatement, FindPattern, Extracted;
    var rest := content;
    var out: seq<ParsedTable> := [];
    PrependedTwice([], [], ParsedTables(content, dialect, defaultSchema));
    while true
      invariant ParsedTables(content, dialect, defaultSchema)
            == Prepended(out, ParsedTables(rest, dialect, defaultSchema))
      decreases |rest|
    {
      var start := FindPattern(rest, 0);
      if start.None? {
        break;
      }
      var extracted := ExtractStatement(rest[start.value..]);
      if extracted.None? {
        break;
      }
      ghost var before := rest;
      var (stmt, remainder) := extracted.value;
      assert NextStatement(rest) == Some((stmt, remainder));
      rest := remainder;
      var table := ParseOneCreateTable(stmt, dialect, defaultSchema);
      if table.Err? {
        return Err(table.message);
      }
      ghost var more := if table.value.name == "" then [] else [table.value];
      PrependedTwice(out, more, ParsedTables(rest, dialect, defaultSchema));
      if table.value.name != "" {
        out := out + [table.value];
      } else {
        assert out + [] == out;
      }
    }
    assert out + [] == out;
    return Ok(out);
  }

  // ---- The document. ----

  datatype SQLOptions = SQLOptions(serverName: string, schema: string, dialect: Dialect)

  function ServerTemplate(d: Dialect, schema: string): (string, Fields, Fields) {
    var options: Fields := map["schema" := Str(schema)];
    var networked: Fields := map["host" := Str("${DB_HOST}"), "port" := Str("${DB_PORT}"),
          "username" := Str("${DB_USER}"),
                                 "password" := Str("${DB_PASSWORD}"), "database" := Str("${DB_NAME}")];
    match d
    case Postgres => ("postgres", networked, options)
    case MySQL => ("mysql", networked, options)
    case SQLite => ("sqlite", map["dsn" := Str("${SQLITE_DSN}")], options)
    case Unset => ("postgres", map[], options)
    case Unknown(_) => ("postgres", map[], options)
  }

  function OrDefault(s: string, default: string): string {
    if Trim(s) == "" then default else Trim(s)
  }

  function ImportedColumns(cols: seq<ParsedColumn>): seq<DeclColumn> {
    seq(|cols|, i requires 0 <= i < |cols| => DeclColumn(cols[i].name, cols[i].dataType, "", Some(cols[i].nullable), i))
  }

  /** Without keys, the first column is the key. */
  function ImportedTable(server: string, t: ParsedTable): DeclTable {
    DeclTable(server, t.schema, t.name, t.name,
              if t.keyColumns == [] && t.columns != [] then [t.columns[0].name] else t.keyColumns,
              map[], ImportedColumns(t.columns))
  }

  function ImportedTables(server: string, tables: seq<ParsedTable>): seq<DeclTable> {
    seq(|tables|, i requires 0 <= i < |tables| => ImportedTable(server, tables[i]))
  }

  function Imported(content: string, opts: SQLOptions): Result<ImpDoc> {
    if opts.dialect == Unset then Err("sql dialect is required")
    else
      var server, schema := OrDefault(opts.serverName, "imported_db"), OrDefault(opts.schema, "public");
      var (protocol, credential, options) := ServerTemplate(opts.dialect, schema);
      match ParsedTables(content, opts.dialect, schema)
      case Err(e) => Err(e)
      case Ok(tables) =>
        if tables == [] then Err("no CREATE TABLE statements found")
        else Ok(ImpDoc([], [ImpServer(server, protocol, credential, Some(true), options)],
              ImportedTables(server, tables), []))
  }

  method ImportOneTable(server: string, t: ParsedTable) returns (table: DeclTable)
    ensures table == ImportedTable(server, t)
  {
    var cols: seq<DeclColumn> := [];
    for i := 0 to |t.columns|
      invariant cols == ImportedColumns(t.columns)[..i]
    {
      var c := t.columns[i];
      cols := cols + [DeclColumn(c.name, c.dataType, "", Some(c.nullable), i)];
    }
    var keyCols := t.keyColumns;
    if |keyCols| == 0 && |cols| > 0 {
      keyCols := [cols[0].name];
    }
    table := DeclTable(server, t.schema, t.name, t.name, keyCols, map[], cols);
  }

  method SQLToDeclarative(content: string, opts: SQLOptions) returns (r: Result<ImpDoc>)
    ensures r == Imported(content, opts)
  {
    hide ParsedTables, Trim, ImportedTable;
    if opts.dialect == Unset {
      return Err("sql dialect is required");
    }
    var serverName := Trim(opts.serverName);
    if serverName == "" {
      serverName := "imported_db";
    }
    var defaultSchema := Trim(opts.schema);
    if defaultSchema == "" {
      defaultSchema := "public";
    }
    var (protocol, cred, serverOpts) := ServerTemplate(opts.dialect, defaultSchema);
    var parsed := ParseCreateTables(content, opts.dialect, defaultSchema);
    if parsed.Err? {
      return Err(parsed.message);
    }
    if |parsed.value| == 0 {
      return Err("no CREATE TABLE statements found");
    }
    var tables: seq<DeclTable> := [];
    for n := 0 to |parsed.value|
      invariant tables == ImportedTables(serverName, parsed.value)[..n]
    {
      var table := ImportOneTable(serverName, parsed.value[n]);
      tables := tables + [table];
    }
    assert tables == ImportedTables(serverName, parsed.value);
    return Ok(ImpDoc([], [ImpServer(serverName, protocol, cred, Some(true), serverOpts)], tables, []));
  }
}
