/** What the importer makes of column types, quoted names, qualified names and dialects. */
module SqlColumns {
  import opened Text
  import opened Meta
  import opened Documents
  import opened SqlScan
  import opened SqlImport
  import opened SqlPrint

  // ---- Types. ----

  /** The canonical type of every type name that is known. */
  const KINDS: map<string, string> :=
    map["int" := "integer", "integer" := "integer", "int4" := "integer", "serial" := "integer",
          "bigserial" := "integer",
        "smallint" := "integer", "mediumint" := "integer", "tinyint" := "integer", "bigint" := "integer",
        "int8" := "integer", "int2" := "integer", "bool" := "boolean", "boolean" := "boolean", "float" := "numeric",
        "float4" := "numeric", "float8" := "numeric", "double" := "numeric", "real" := "numeric",
        "decimal" := "numeric", "numeric" := "numeric", "timestamp" := "timestamp", "timestamptz" := "timestamp",
        "datetime" := "timestamp", "date" := "timestamp", "time" := "timestamp", "uuid" := "uuid", "json" := "json",
        "jsonb" := "json", "bytea" := "binary", "blob" := "binary", "binary" := "binary"]

  /** Known names give their kind, all others text. */
  lemma TypeIsItsKind(t: string)
    ensures NormalizeDataType(t) == if Lower(Trim(t)) in KINDS then KINDS[Lower(Trim(t))] else "text"
  {
    hide Lower, Trim;
  }

  lemma LowerOfUpper(t: string)
    requires Simple(t)
    ensures Simple(Upper(t)) && Lower(Upper(t)) == Lower(t)
  {
    assert forall i :: 0 <= i < |t| ==> IdentChar(t[i]) && IdentChar(Upper(t)[i]);
  }

  /** In whatever case it is written. */
  lemma TypeInAnyCase(t: string)
    requires Simple(t)
    ensures NormalizeDataType(Upper(t)) == NormalizeDataType(t)
  {
    LowerOfUpper(t);
    hide Lower, Upper;
    SimpleTrim(t);
    SimpleTrim(Upper(t));
  }

  // ---- A column with any type. ----

  /** A type name and its parameters, if any, up to the first space. */
  predicate IsType(word: string, params: string) {
    Simple(word) && NoSpaces(params) && (params != "" ==> params[0] == '(')
  }

  /** What is written after the name. */
  function TypeText(word: string, params: string, c: SqlColumn): string {
    word + params + Suffix(c)
  }

  predicate IsSerial(word: string) {
    EqualFold(word, "serial") || EqualFold(word, "bigserial")
  }

  lemma UpperHasNoSpace(s: string)
    requires NoSpaces(s)
    ensures ' ' !in Upper(s)
  {
    assert forall i :: 0 <= i < |s| ==> s[i] != ' ';
  }

  lemma SimpleHasNoBracket(word: string)
    requires Simple(word)
    ensures '(' !in word && NoSpaces(word) && word != "" && !IsSpace(word[0])
  {
    SimpleIsWord(word);
    assert forall i :: 0 <= i < |word| ==> IdentChar(word[i]);
  }

  lemma TypeWord(word: string, params: string)
    requires IsType(word, params)
    ensures word + params != "" && NoSpaces(word + params) && !IsSpace((word + params)[0])
    ensures !IsSpace((word + params)[|word + params| - 1])
    ensures (if Contains(word + params, "(") then (word + params)[..Index(word + params, "(").value] else word + params)
            == word
  {
    SimpleHasNoBracket(word);
    var s := word + params;
    assert forall i :: 0 <= i < |s| ==> s[i] == if i < |word| then word[i] else params[i - |word|];
    if params != "" {
      assert s[|word|] == '(' && s[..|word|] == word;
      IndexOfChar(s, '(', |word|);
    } else {
      NoChar(s, '(');
      assert s == word;
    }
  }

  lemma TypeTextIsTrim(word: string, params: string, c: SqlColumn)
    requires IsType(word, params)
    ensures var t := TypeText(word, params, c);
            Trim(t) == t && t != "" && !IsSpace(t[0]) && !IsSpace(t[|t| - 1])
  {
    hide Suffix, Trim, Simple;
    TypeWord(word, params);
    SuffixEnds(c);
    TrimIs(TypeText(word, params, c));
  }

  lemma NoSuffix()
    ensures Words("") == []
  {
  }

  /** The first word of the suffix is not `varying`. */
  lemma SuffixIsNotVarying(c: SqlColumn)
    ensures Words(Suffix(c)) != [] ==> !EqualFold(Words(Suffix(c))[0], "varying")
  {
    hide Words, EqualFold;
    NoSuffix();
    var key := if c.primary then " PRIMARY KEY" else "";
    if !c.nullable {
      FirstOfSuffix("NOT", " NULL" + key);
      assert Suffix(c) == " " + "NOT" + (" NULL" + key);
    } else if c.primary {
      FirstOfSuffix("PRIMARY", " KEY");
      assert Suffix(c) == " " + "PRIMARY" + " KEY";
    }
  }

  lemma NotVarying(word: string, params: string, c: SqlColumn)
    requires IsType(word, params)
    ensures Words(TypeText(word, params, c)) == [word + params] + Words(Suffix(c))
    ensures Words(Suffix(c)) != [] ==> !EqualFold(Words(Suffix(c))[0], "varying")
  {
    TypeWord(word, params);
    SuffixEnds(c);
    hide Simple, Trim, Words, EqualFold, Suffix;
    SuffixIsNotVarying(c);
    WordsCons(word + params, Suffix(c));
  }

  lemma FirstOfSuffix(w: string, rest: string)
    requires w == "NOT" || w == "PRIMARY"
    requires rest != "" && rest[0] == ' '
    ensures Words(" " + w + rest) != [] && Words(" " + w + rest)[0] == w && !EqualFold(w, "varying")
  {
    assert (" " + w + rest)[1..] == w + rest;
    WordsCons(w, rest);
    if |w| == 7 {
      assert !Folds(w[0], "varying"[0]);
    }
  }

  lemma TypeIsExtracted(word: string, params: string, c: SqlColumn)
    requires IsType(word, params)
    ensures ExtractDataType(TypeText(word, params, c)) == word
  {
    hide Suffix, Trim, EqualFold, Words, Simple;
    TypeTextIsTrim(word, params, c);
    NotVarying(word, params, c);
    TypeWord(word, params);
  }

  lemma TypeMarks(word: string, params: string, c: SqlColumn)
    requires IsType(word, params)
    ensures Contains(Upper(TypeText(word, params, c)), "PRIMARY KEY") <==> c.primary
    ensures Contains(Upper(TypeText(word, params, c)), "NOT NULL") <==> !c.nullable
  {
    hide Suffix, Upper, Contains, Simple;
    TypeWord(word, params);
    UpperHasNoSpace(word + params);
    UpperConcat(word + params, Suffix(c));
    SuffixIsUpper(c);
    PrimaryMark(Upper(word + params), c);
    NotNullMark(Upper(word + params), c);
  }

  // ---- Names, quoted or not. ----

  predicate IsQuote(q: char) {
    q == '`' || q == '"'
  }

  /** A name as it is written: simple, or between quotes that do not occur in it, with any other characters at all. */
  predicate IsWritten(id: string, name: string) {
    || (id == name && Simple(name))
    || (exists q :: IsQuote(q) && id == [q] + name + [q] && name != "" && q !in name
                    && !IsQuote(name[0]) && !IsQuote(name[|name| - 1]))
  }

  lemma WrittenName(id: string, name: string, rest: string)
    requires IsWritten(id, name)
    ensures id != "" && !IsSpace(id[0])
    ensures ExtractFirstIdentifier(id + " " + rest) == id || Trim(id + " " + rest) != id + " " + rest
    ensures (if HasPrefix(id, "`") || HasPrefix(id, "\"") then TrimChars(id, QUOTES) else id) == name
  {
    hide Trim;
    var s := id + " " + rest;
    if id == name && Simple(name) {
      SimpleIsWord(name);
      NotQuoted(id);
      assert IdentChar(id[0]);
      assert s == id + (" " + rest);
      WordsCons(id, " " + rest);
    } else {
      var q :| IsQuote(q) && id == [q] + name + [q] && name != "" && q !in name
               && !IsQuote(name[0]) && !IsQuote(name[|name| - 1]);
      assert s[0] == q && s[1..] == name + ([q] + (" " + rest));
      assert s[1..][|name|] == q && s[1..][..|name|] == name;
      IndexOfChar(s[1..], q, |name|);
      assert s[..|name| + 2] == id;
      QuotesTrimmed(q, name);
      assert id[0..1] == [q];
    }
  }

  lemma QuotesTrimmed(q: char, name: string)
    requires IsQuote(q) && name != "" && !IsQuote(name[0]) && !IsQuote(name[|name| - 1])
    ensures TrimChars([q] + name + [q], QUOTES) == name
  {
    var s := [q] + name + [q];
    assert TrimChars(name, QUOTES) == name;
    var t := name + [q];
    assert t[0] == name[0] && t[..|name|] == name;
    assert TrimChars(t, QUOTES) == name;
    assert s[1..] == t;
  }

  /** A column of any name, quoted or not, and any type, with parameters or not: its name without quotes, its type's
      kind, a key if it says so or is serial, and nullable if it says nothing else and is no key. */
  lemma WrittenColumnIsRead(id: string, name: string, word: string, params: string, c: SqlColumn)
    requires IsWritten(id, name) && IsType(word, params)
    ensures ParseColumnLine(id + " " + TypeText(word, params, c))
            == ParsedColumn(name, if Lower(word) in KINDS then KINDS[Lower(word)] else "text",
                            c.nullable && !c.primary && !IsSerial(word), c.primary || IsSerial(word))
  {
    hide Suffix, Upper, Trim, ExtractFirstIdentifier, ExtractDataType, EqualFold, NormalizeDataType, Words, Contains,
         Simple, IsWritten, Lower, TrimChars;
    var rest := TypeText(word, params, c);
    var s := id + " " + rest;
    WrittenName(id, name, rest);
    TypeTextIsTrim(word, params, c);
    assert s[|s| - 1] == rest[|rest| - 1] && s[0] == id[0];
    TrimIs(s);
    assert s[|id|..] == " " + rest;
    LeadingSpace(rest);
    TypeIsExtracted(word, params, c);
    TypeMarks(word, params, c);
    TypeIsItsKind(word);
    SimpleTrim(word);
  }

  // ---- Qualified names. ----

  predicate PlainPart(s: string) {
    s != "" && forall i :: 0 <= i < |s| ==> s[i] != '.' && !IsQuote(s[i]) && !IsSpace(s[i])
  }

  lemma PlainTrims(s: string)
    requires s != "" && !IsSpace(s[0]) && !IsSpace(s[|s| - 1]) && !IsQuote(s[0]) && !IsQuote(s[|s| - 1])
    ensures Trim(s) == s && TrimChars(s, QUOTES) == s && TrimChars(s, {'"'}) == s
  {
  }

  lemma {:induction false} LastDot(s: string, after: string)
    requires '.' !in after
    ensures LastIndexOf(s + "." + after, '.') == Some(|s|)
  {
    var t := s + "." + after;
    if after != "" {
      var n := |after| - 1;
      LastDot(s, after[..n]);
      assert t[..|t| - 1] == s + "." + after[..n] && t[|t| - 1] == after[n] && after[n] in after;
    } else {
      assert t[|t| - 1] == '.';
    }
  }

  lemma {:induction false} NoDot(s: string)
    requires '.' !in s
    ensures LastIndexOf(s, '.') == None
  {
    if s != "" {
      assert s[|s| - 1] in s && forall c :: c in s[..|s| - 1] ==> c in s;
      NoDot(s[..|s| - 1]);
    }
  }

  /** A name alone is in the default schema; before a dot stands the schema; and of several dots MySQL takes the last
      and the others the first. */
  lemma QualifiedNames(a: string, b: string, d: string, dialect: Dialect, schema: string)
    requires PlainPart(a) && PlainPart(b) && PlainPart(d)
    ensures SplitQualifiedName(a, dialect, schema) == (schema, a)
    ensures SplitQualifiedName(a + "." + b, dialect, schema) == (a, b)
    ensures SplitQualifiedName(a + "." + b + "." + d, dialect, schema)
            == if dialect == MySQL then (a + "." + b, d) else (a, b + "." + d)
  {
    hide Trim, TrimChars, LastIndexOf;
    PlainTrims(a);
    PlainTrims(b);
    PlainTrims(d);
    PlainTrims(a + "." + b);
    PlainTrims(b + "." + d);
    PlainTrims(a + "." + b + "." + d);
    OnePart(a);
    NoDot(a);
    LastDot(a, b);
    LastDot(a + "." + b, d);
    FirstDot(a, b);
    FirstDot(a, b + "." + d);
    assert a + "." + (b + "." + d) == a + "." + b + "." + d;
    TwoParts(a, b);
    TwoParts(a, b + "." + d);
    TwoParts(a + "." + b, d);
  }

  lemma TwoParts(a: string, b: string)
    ensures (a + "." + b)[..|a|] == a && (a + "." + b)[|a| + 1..] == b
  {
  }

  lemma OnePart(a: string)
    requires PlainPart(a)
    ensures Index(a, ".").None? && '.' !in a
  {
    NoChar(a, '.');
  }

  lemma FirstDot(a: string, b: string)
    requires PlainPart(a)
    ensures Index(a + "." + b, ".") == Some(|a|)
  {
    var s := a + "." + b;
    assert s[|a|] == '.' && s[..|a|] == a;
    IndexOfChar(s, '.', |a|);
  }

  /** Quoted parts lose their quotes. */
  lemma QuotedQualifiedName(a: string, b: string, q: char, dialect: Dialect, schema: string)
    requires PlainPart(a) && PlainPart(b) && IsQuote(q) && (q == '`' ==> dialect == MySQL)
    ensures SplitQualifiedName([q] + a + [q] + "." + [q] + b + [q], dialect, schema) == (a, b)
  {
    var inner := a + [q] + "." + [q] + b;
    var text := [q] + a + [q] + "." + [q] + b + [q];
    assert text == [q] + inner + [q];
    TrimIs(text);
    QuotesTrimmed(q, inner);
    var left, right := a + [q], [q] + b;
    assert inner == left + "." + right;
    TwoParts(left, right);
    assert '.' !in right && '.' !in left;
    LastDot(left, right);
    assert inner[..|left|] == left;
    IndexOfChar(inner, '.', |left|);
    EndTrimmed(a, q);
    StartTrimmed(b, q);
  }

  lemma EndTrimmed(a: string, q: char)
    requires PlainPart(a) && IsQuote(q)
    ensures TrimChars(a + [q], QUOTES) == a && (q == '"' ==> TrimChars(a + [q], {'"'}) == a)
  {
    assert (a + [q])[..|a|] == a && (a + [q])[0] == a[0];
    PlainTrims(a);
  }

  lemma StartTrimmed(b: string, q: char)
    requires PlainPart(b) && IsQuote(q)
    ensures TrimChars([q] + b, QUOTES) == b && (q == '"' ==> TrimChars([q] + b, {'"'}) == b)
  {
    assert ([q] + b)[1..] == b;
    PlainTrims(b);
  }

  // ---- The server. ----

  /** The connection fields of a networked database, as placeholders for variables of the environment. */
  ghost predicate IsNetworked(credential: Fields) {
    && credential.Keys == {"host", "port", "username", "password", "database"}
    && credential["host"] == Str("${DB_HOST}") && credential["port"] == Str("${DB_PORT}")
    && credential["username"] == Str("${DB_USER}") && credential["password"] == Str("${DB_PASSWORD}")
    && credential["database"] == Str("${DB_NAME}")
  }

  /** The one server of an imported document: enabled, under the name asked for, with the dialect's protocol and
      credential and the schema among its options; and nothing else but tables. */
  lemma ImportedServerIs(content: string, opts: SQLOptions)
    requires Imported(content, opts).Ok?
    ensures var doc := Imported(content, opts).value;
            && doc.credentials == [] && doc.functions == [] && |doc.servers| == 1 && doc.tables != []
            && var s := doc.servers[0];
               && s.name == (if Trim(opts.serverName) == "" then "imported_db" else Trim(opts.serverName))
               && s.enabled == Some(true)
               && s.options == map["schema" := Str(if Trim(opts.schema) == "" then "public" else Trim(opts.schema))]
               && (opts.dialect == Postgres ==> s.protocol == "postgres" && IsNetworked(s.credential))
               && (opts.dialect == MySQL ==> s.protocol == "mysql" && IsNetworked(s.credential))
               && (opts.dialect == SQLite ==>
                    s.protocol == "sqlite" && s.credential == map["dsn" := Str("${SQLITE_DSN}")])
               && (opts.dialect.Unknown? ==> s.protocol == "postgres" && s.credential == map[])
               && forall t :: t in doc.tables ==> t.server == s.name
  {
    hide ParsedTables, Trim;
  }

  /** What makes an import fail: no dialect, a column list that is not closed, or no table. */
  lemma ImportFailsExactlyWhen(content: string, opts: SQLOptions)
    ensures var schema := if Trim(opts.schema) == "" then "public" else Trim(opts.schema);
            var tables := ParsedTables(content, opts.dialect, schema);
            Imported(content, opts).Err? <==> opts.dialect == Unset || tables.Err? || tables.value == []
  {
    hide ParsedTables, Trim;
  }
}
