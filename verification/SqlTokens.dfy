/** SQL text: how a name is quoted into it, and how it falls into tokens. */
module SqlTokens {
  import opened Text
  import R = Range

  /** `Param(k)` is the placeholder $k; `Name` is a quoted identifier, `Word` a bare word or keyword. */
  datatype Token =
    | Name(name: string) | Word(word: string) | Symbol(text: string) | Param(index: nat)
    | Open | Close | Comma | And | Or | Other(symbol: char)

  // ---- Quoting. ----

  function HexDigit(d: nat): char
    requires d < 16
  {
    if d < 10 then ('0' as int + d) as char else ('a' as int + d - 10) as char
  }

  /** What %q writes for a character inside its quotes. */
  function EscapeChar(c: char): string {
    if c == '"' then "\\\"" else if c == '\\' then "\\\\"
    else if c == '\U{07}' then "\\a" else if c == '\U{08}' then "\\b" else if c == '\U{0C}' then "\\f"
    else if c == '\n' then "\\n" else if c == '\r' then "\\r" else if c == '\t' then "\\t"
    else if c == '\U{0B}' then "\\v"
    else if c < ' ' || c == '\U{7F}' then ['\\', 'x', HexDigit(c as int / 16), HexDigit(c as int % 16)]
    else [c]
  }

  function Escape(s: string): string {
    if s == "" then "" else EscapeChar(s[0]) + Escape(s[1..])
  }

  /** fmt.Sprintf("%q", name) */
  function Quoted(name: string): string {
    "\"" + Escape(name) + "\""
  }

  /** A name with no quote, backslash or control character: quoting adds the quotes only. */
  predicate PlainName(name: string) {
    forall i :: 0 <= i < |name| ==> EscapeChar(name[i]) == [name[i]]
  }

  // ---- Undoing the escapes. ----

  /** The value of a hexadecimal digit, if it is one. */
  function HexValue(c: char): Option<nat> {
    if '0' <= c <= '9' then Some(c as nat - '0' as nat)
    else if 'a' <= c <= 'f' then Some(c as nat - 'a' as nat + 10)
    else None
  }

  /** The character that a single letter after a backslash stands for in Go. */
  function Escaped(c: char): Option<char> {
    match c
    case 'a' => Some('\U{07}')
    case 'b' => Some('\U{08}')
    case 'f' => Some('\U{0C}')
    case 'n' => Some('\n')
    case 'r' => Some('\r')
    case 't' => Some('\t')
    case 'v' => Some('\U{0B}')
    case '\\' => Some('\\')
    case '"' => Some('"')
    case _ => None
  }

  /** Text as Go reads it between double quotes. */
  function Unescape(s: string): Option<string> {
    if s == "" then Some("")
    else if s[0] == '"' then None
    else if s[0] != '\\' then Fronted(s[0], Unescape(s[1..]))
    else if |s| >= 4 && s[1] == 'x' && HexValue(s[2]).Some? && HexValue(s[3]).Some? then
      var code := 16 * HexValue(s[2]).value + HexValue(s[3]).value;
      if code < 0x80 then Fronted(code as char, Unescape(s[4..])) else None
    else if |s| >= 2 && Escaped(s[1]).Some? then Fronted(Escaped(s[1]).value, Unescape(s[2..]))
    else None
  }

  function Fronted(c: char, r: Option<string>): Option<string> {
    match r
    case None => None
    case Some(t) => Some([c] + t)
  }

  lemma CharIsUndone(c: char, rest: string)
    ensures Unescape(EscapeChar(c) + rest) == Fronted(c, Unescape(rest))
  {
    var e := EscapeChar(c);
    var s := e + rest;
    assert s[|e|..] == rest;
    if |e| == 4 {
      HexIsUndone(c as nat / 16);
      HexIsUndone(c as nat % 16);
      assert s[0] == '\\' && s[1] == 'x' && s[2] == HexDigit(c as nat / 16) && s[3] == HexDigit(c as nat % 16);
    } else if |e| == 2 {
      assert s[0] == e[0] && s[1] == e[1];
    } else {
      assert s[0] == c;
    }
  }

  lemma HexIsUndone(d: nat)
    requires d < 16
    ensures HexValue(HexDigit(d)) == Some(d)
  {
  }

  /** Quoting says exactly the name: unescaping what stands between the quotes gives it back. */
  lemma {:induction false} EscapeIsUndone(name: string)
    ensures Unescape(Escape(name)) == Some(name)
  {
    hide EscapeChar, Unescape;
    if name == "" {
      assert Unescape("") == Some("") by { NothingToUndo(); }
    } else {
      EscapeIsUndone(name[1..]);
      CharIsUndone(name[0], Escape(name[1..]));
      assert name == [name[0]] + name[1..];
    }
  }

  lemma NothingToUndo()
    ensures Unescape("") == Some("")
  {
  }

  // ---- The lexer. ----

  predicate SqlSpace(c: char) {
    c == ' ' || '\t' <= c <= '\r'
  }

  predicate WordStart(c: char) {
    'a' <= c <= 'z' || 'A' <= c <= 'Z' || R.IsDigit(c) || c == '_' || c >= '\U{80}'
  }

  predicate WordPart(c: char) {
    WordStart(c) || c == '$'
  }

  predicate OpChar(c: char) {
    c == '=' || c == '<' || c == '>'
  }

  /** Length of the longest prefix whose characters satisfy p. */
  function Run(s: string, p: char -> bool): (n: nat)
    ensures n <= |s| && forall k :: 0 <= k < n ==> p(s[k])
    ensures n < |s| ==> !p(s[n])
  {
    if s == "" || !p(s[0]) then 0 else 1 + Run(s[1..], p)
  }

  /** A quoted identifier after its opening quote, and the text after its closing one; a doubled quote is a quote. */
  function NameAfter(s: string): (r: Option<(string, string)>)
    ensures r.Some? ==> |r.value.1| < |s|
    decreases |s|
  {
    if s == "" then None
    else if s[0] == '"' then
      if |s| > 1 && s[1] == '"' then Prefixed("\"", NameAfter(s[2..])) else Some(("", s[1..]))
    else Prefixed([s[0]], NameAfter(s[1..]))
  }

  function Prefixed(p: string, r: Option<(string, string)>): Option<(string, string)> {
    match r
    case None => None
    case Some((name, rest)) => Some((p + name, rest))
  }

  /** The word is the keyword, in any case. */
  predicate SameWord(word: string, keyword: string) {
    |word| == |keyword| &&
    forall i :: 0 <= i < |word| ==>
      word[i] == keyword[i] || ('a' <= word[i] <= 'z' && word[i] as int - 32 == keyword[i] as int)
  }

  function WordToken(word: string): Token {
    if SameWord(word, "AND") then And else if SameWord(word, "OR") then Or else Word(word)
  }

  function Lex(s: string): seq<Token>
    decreases |s|
  {
    if s == "" then []
    else
      var c := s[0];
      if SqlSpace(c) then Lex(s[1..])
      else if c == '(' then [Open] + Lex(s[1..])
      else if c == ')' then [Close] + Lex(s[1..])
      else if c == ',' then [Comma] + Lex(s[1..])
      else if c == '"' && NameAfter(s[1..]).Some? then
        [Name(NameAfter(s[1..]).value.0)] + Lex(NameAfter(s[1..]).value.1)
      else if c == '$' && |s| > 1 && R.IsDigit(s[1]) then
        var n := Run(s[1..], R.IsDigit);
        [Param(R.DigitsValue(s[1..][..n]))] + Lex(s[1..][n..])
      else if WordStart(c) then
        var n := Run(s, WordPart);
        [WordToken(s[..n])] + Lex(s[n..])
      else if OpChar(c) then
        var n := Run(s, OpChar);
        [Symbol(s[..n])] + Lex(s[n..])
      else [Other(c)] + Lex(s[1..])
  }

  // ---- One token at the front. ----

  lemma RunIs(w: string, r: string, p: char -> bool)
    requires forall k :: 0 <= k < |w| ==> p(w[k])
    requires r == "" || !p(r[0])
    ensures Run(w + r, p) == |w|
  {
    var n, s := Run(w + r, p), w + r;
    assert forall k :: 0 <= k < |w| ==> s[k] == w[k];
    assert r != "" ==> s[|w|] == r[0];
  }

  lemma LexEmpty()
    ensures Lex("") == []
  {
  }

  lemma SpaceStep(s: string)
    requires s != "" && SqlSpace(s[0])
    ensures Lex(s) == Lex(s[1..])
  {
  }

  predicate Bracket(c: char) {
    c == '(' || c == ')' || c == ','
  }

  function BracketToken(c: char): Token {
    if c == '(' then Open else if c == ')' then Close else Comma
  }

  lemma BracketStep(s: string)
    requires s != "" && Bracket(s[0])
    ensures Lex(s) == [BracketToken(s[0])] + Lex(s[1..])
  {
  }

  predicate StartsParam(s: string) {
    |s| > 1 && s[0] == '$' && R.IsDigit(s[1])
  }

  lemma ParamStep(s: string)
    requires StartsParam(s)
    ensures var n := Run(s[1..], R.IsDigit); Lex(s) == [Param(R.DigitsValue(s[1..][..n]))] + Lex(s[1..][n..])
  {
    hide NameAfter, R.DigitsValue;
  }

  lemma WordStep(s: string)
    requires s != "" && WordStart(s[0])
    ensures var n := Run(s, WordPart); Lex(s) == [WordToken(s[..n])] + Lex(s[n..])
  {
    hide NameAfter, WordToken, R.DigitsValue;
  }

  lemma OpStep(s: string)
    requires s != "" && OpChar(s[0])
    ensures var n := Run(s, OpChar); Lex(s) == [Symbol(s[..n])] + Lex(s[n..])
  {
    hide NameAfter, WordToken, R.DigitsValue;
  }

  predicate StartsOther(s: string) {
    s != "" && !SqlSpace(s[0]) && !Bracket(s[0]) && s[0] != '"' && !StartsParam(s) && !WordStart(s[0]) && !OpChar(s[0])
  }

  lemma OtherStep(s: string)
    requires StartsOther(s)
    ensures Lex(s) == [Other(s[0])] + Lex(s[1..])
  {
    hide NameAfter, WordToken, R.DigitsValue;
  }

  lemma LexSpace(r: string)
    ensures Lex(" " + r) == Lex(r)
  {
    assert (" " + r)[1..] == r;
  }

  lemma LexBracket(c: char, r: string)
    requires Bracket(c)
    ensures Lex([c] + r) == [BracketToken(c)] + Lex(r)
  {
    BracketStep([c] + r);
    assert ([c] + r)[1..] == r;
  }

  lemma LexWord(w: string, r: string)
    requires w != "" && WordStart(w[0]) && forall k :: 0 <= k < |w| ==> WordPart(w[k])
    requires r == "" || !WordPart(r[0])
    ensures Lex(w + r) == [WordToken(w)] + Lex(r)
  {
    hide Lex, WordToken, Run;
    var s := w + r;
    assert s[0] == w[0] && s[..|w|] == w && s[|w|..] == r;
    RunIs(w, r, WordPart);
    WordStep(s);
  }

  lemma LexSymbol(w: string, r: string)
    requires w != "" && forall k :: 0 <= k < |w| ==> OpChar(w[k])
    requires r == "" || !OpChar(r[0])
    ensures Lex(w + r) == [Symbol(w)] + Lex(r)
  {
    hide Lex, Run;
    var s := w + r;
    assert s[0] == w[0] && s[..|w|] == w && s[|w|..] == r;
    RunIs(w, r, OpChar);
    OpStep(s);
  }

  lemma LexParam(digits: string, r: string)
    requires digits != "" && R.AllDigits(digits) && (r == "" || !R.IsDigit(r[0]))
    ensures Lex("$" + digits + r) == [Param(R.DigitsValue(digits))] + Lex(r)
  {
    hide Lex, Run, R.DigitsValue;
    var t := digits + r;
    var s := "$" + t;
    assert s[1..] == t && s[1] == digits[0] && t[..|digits|] == digits && t[|digits|..] == r;
    assert "$" + digits + r == s;
    RunIs(digits, r, R.IsDigit);
    ParamStep(s);
  }

  lemma {:induction false} NameAfterPrefix(e: string, rest: string)
    requires '"' !in e
    ensures NameAfter(e + rest) == Prefixed(e, NameAfter(rest))
  {
    if e == "" {
      assert e + rest == rest;
      PrefixedTwice("", "", NameAfter(rest));
    } else {
      assert (e + rest)[1..] == e[1..] + rest && e[0] in e;
      NameAfterPrefix(e[1..], rest);
      PrefixedTwice([e[0]], e[1..], NameAfter(rest));
      assert [e[0]] + e[1..] == e;
    }
  }

  lemma PrefixedTwice(a: string, b: string, r: Option<(string, string)>)
    ensures Prefixed(a, Prefixed(b, r)) == Prefixed(a + b, r)
    ensures Prefixed("", r) == r
  {
    if r.Some? {
      assert a + (b + r.value.0) == (a + b) + r.value.0 && "" + r.value.0 == r.value.0;
    }
  }

  lemma NameCloses(r: string)
    requires r == "" || r[0] != '"'
    ensures NameAfter("\"" + r) == Some(("", r))
  {
    assert ("\"" + r)[1..] == r;
  }

  lemma LexQuotedName(name: string, r: string)
    requires '"' !in name && (r == "" || r[0] != '"')
    ensures Lex("\"" + name + "\"" + r) == [Name(name)] + Lex(r)
  {
    hide NameAfter;
    var s := "\"" + name + "\"" + r;
    NameAfterPrefix(name, "\"" + r);
    NameCloses(r);
    assert s[1..] == name + ("\"" + r) && name + "" == name;
  }

  // ---- Which names are read back. ----

  lemma {:induction false} PlainIsUnchanged(name: string)
    ensures |Escape(name)| >= |name|
    ensures PlainName(name) <==> Escape(name) == name
    ensures PlainName(name) <==> |Escape(name)| == |name|
  {
    if name != "" {
      PlainIsUnchanged(name[1..]);
      assert name == [name[0]] + name[1..];
      assert PlainName(name) ==> forall i :: 0 <= i < |name[1..]| ==> EscapeChar(name[i + 1]) == [name[1..][i]];
      if EscapeChar(name[0]) == [name[0]] {
        assert PlainName(name[1..]) ==> forall i :: 1 <= i < |name| ==> name[i] == name[1..][i - 1];
      }
    }
  }

  lemma {:induction false} EscapeConcat(a: string, b: string)
    ensures Escape(a + b) == Escape(a) + Escape(b)
  {
    hide EscapeChar;
    if a == "" {
      assert a + b == b;
    } else {
      assert (a + b)[1..] == a[1..] + b;
      EscapeConcat(a[1..], b);
    }
  }

  lemma {:induction false} EscapeAddsNoQuote(name: string)
    requires '"' !in name
    ensures '"' !in Escape(name)
  {
    if name != "" {
      assert name[0] in name;
      EscapeAddsNoQuote(name[1..]);
    }
  }

  lemma PlainHasNoQuote(name: string)
    requires PlainName(name)
    ensures '"' !in name
  {
  }

  /** A quoted name is read as that name, whatever follows it, exactly when it is plain: one with a quote is cut short
      or has a backslash in its place, and any other escape makes it longer. */
  lemma NameIsReadExactlyWhenPlain(name: string)
    ensures (forall r :: NameReadBefore(name, r)) <==> PlainName(name)
  {
    hide Lex, Quoted;
    if PlainName(name) {
      forall r
        ensures NameReadBefore(name, r)
      {
        PlainNameIsRead(name, r);
      }
    } else {
      OtherNameIsNot(name);
      LexEmpty();
      assert Quoted(name) + "" == Quoted(name);
      assert !NameReadBefore(name, "");
    }
  }

  ghost predicate NameReadBefore(name: string, r: string) {
    (r == "" || r[0] != '"') ==> Lex(Quoted(name) + r) == [Name(name)] + Lex(r)
  }

  lemma PlainNameIsRead(name: string, r: string)
    requires PlainName(name)
    ensures NameReadBefore(name, r)
  {
    hide Lex, NameAfter;
    PlainIsUnchanged(name);
    PlainHasNoQuote(name);
    if r == "" || r[0] != '"' {
      LexQuotedName(name, r);
    }
  }

  lemma OtherNameIsNot(name: string)
    requires !PlainName(name)
    ensures Lex(Quoted(name)) == [] || Lex(Quoted(name))[0] != Name(name)
  {
    hide EscapeChar, PlainName;
    var text := Escape(name) + "\"";
    assert Quoted(name)[1..] == text;
    if '"' in name {
      QuoteIsEscaped(name);
    } else {
      EscapeAddsNoQuote(name);
      PlainIsUnchanged(name);
      NameAfterPrefix(Escape(name), "\"");
      NameCloses("");
      assert "\"" + "" == "\"" && Escape(name) + "" == Escape(name);
    }
  }

  lemma EscapeQuote(after: string)
    ensures Escape(['"'] + after) == "\\\"" + Escape(after)
  {
    assert (['"'] + after)[1..] == after;
  }

  /** The escaped name up to and including the backslash of its first quote, and what follows. */
  lemma EscapedUpToQuote(name: string) returns (q: nat, e: string, rest: string)
    requires '"' in name
    ensures q < |name| && name[q] == '"' && q < |e| && '"' !in e && Escape(name) + "\"" == e + rest
  {
    hide Escape, EscapeChar;
    q := FirstQuote(name);
    var before, after := name[..q], name[q + 1..];
    assert name == before + (['"'] + after);
    EscapeConcat(before, ['"'] + after);
    EscapeQuote(after);
    EscapeAddsNoQuote(before);
    PlainIsUnchanged(before);
    e, rest := Escape(before) + "\\", "\"" + Escape(after) + "\"";
    assert "\\\"" == "\\" + "\"";
    assert Escape(before) + ("\\\"" + Escape(after)) + "\"" == e + rest;
  }

  /** Where the name has its first quote, what is read has a backslash, or still an earlier character. */
  lemma QuoteIsEscaped(name: string)
    requires '"' in name
    ensures NameAfter(Escape(name) + "\"").Some? ==> NameAfter(Escape(name) + "\"").value.0 != name
  {
    hide NameAfter, Escape;
    var q, e, rest := EscapedUpToQuote(name);
    NameAfterPrefix(e, rest);
    if NameAfter(rest).Some? {
      var read := e + NameAfter(rest).value.0;
      assert read[q] == e[q] && e[q] in e && name[q] == '"';
    }
  }

  lemma {:induction false} FirstQuote(s: string) returns (q: nat)
    requires '"' in s
    ensures q < |s| && s[q] == '"' && '"' !in s[..q]
  {
    if s[0] == '"' {
      q := 0;
    } else {
      q := FirstQuote(s[1..]);
      q := q + 1;
      assert s[..q] == [s[0]] + s[1..][..q - 1];
    }
  }

  // ---- Text that ends at a token's end. ----

  /** What the compiler puts after a condition: nothing, a blank, a closing parenthesis or a comma. */
  predicate Ends(r: string) {
    r == "" || r[0] == ' ' || r[0] == ')' || r[0] == ','
  }

  lemma RunConcat(a: string, r: string, p: char -> bool)
    requires r == "" || !p(r[0])
    ensures Run(a + r, p) == Run(a, p)
  {
    var n, s := Run(a, p), a + r;
    assert forall k :: 0 <= k < |a| ==> s[k] == a[k];
    assert r != "" ==> s[|a|] == r[0];
    var m := Run(s, p);
  }

  lemma EndsStopRuns(r: string)
    requires Ends(r)
    ensures r == "" || (!WordPart(r[0]) && !OpChar(r[0]) && !R.IsDigit(r[0]))
  {
  }

  /** The first token is the same, and the rest of the text is the rest of the first part and what follows. */
  lemma {:induction false} LexAppendRun(a: string, r: string)
    requires a != "" && '"' !in a && Ends(r) && (StartsParam(a) || WordStart(a[0]) || OpChar(a[0]))
    ensures Lex(a + r) == Lex(a) + Lex(r)
    decreases |a|, 0
  {
    hide Lex, Run, R.DigitsValue, WordToken, WordPart, R.IsDigit, Ends;
    var s := a + r;
    EndsStopRuns(r);
    AppendTail(a, r, 1);
    assert s[0] == a[0];
    if StartsParam(a) {
      var n := Run(a[1..], R.IsDigit);
      assert s[1] == a[1];
      ParamStep(s);
      ParamStep(a);
      RunConcat(a[1..], r, R.IsDigit);
      AppendTail(a[1..], r, n);
      LexAppend(a[1..][n..], r);
    } else if WordStart(a[0]) {
      WordStep(s);
      WordStep(a);
      RunConcat(a, r, WordPart);
      AppendTail(a, r, Run(a, WordPart));
      RunStarts(a, WordPart) by { WordStartIsPart(a[0]); }
      LexAppend(a[Run(a, WordPart)..], r);
    } else {
      OpStep(s);
      OpStep(a);
      RunConcat(a, r, OpChar);
      AppendTail(a, r, Run(a, OpChar));
      RunStarts(a, OpChar);
      LexAppend(a[Run(a, OpChar)..], r);
    }
  }

  lemma RunStarts(a: string, p: char -> bool)
    requires a != "" && p(a[0])
    ensures Run(a, p) > 0
  {
  }

  lemma WordStartIsPart(c: char)
    requires WordStart(c)
    ensures WordPart(c)
  {
  }

  /** Text without a quote falls into tokens the same way before any such end. */
  lemma {:induction false} LexAppend(a: string, r: string)
    requires '"' !in a && Ends(r)
    ensures Lex(a + r) == Lex(a) + Lex(r)
    decreases |a|, 1
  {
    hide Lex, Run, R.DigitsValue, WordToken, BracketToken, WordStart, OpChar;
    var s := a + r;
    if a == "" {
      LexEmpty();
      assert s == r && [] + Lex(r) == Lex(r);
    } else {
      var c := a[0];
      AppendTail(a, r, 1);
      assert s[0] == c && c in a;
      if StartsParam(a) || WordStart(c) || OpChar(c) {
        LexAppendRun(a, r);
      } else if SqlSpace(c) {
        SpaceStep(s);
        SpaceStep(a);
        LexAppend(a[1..], r);
      } else if Bracket(c) {
        BracketStep(s);
        BracketStep(a);
        LexAppend(a[1..], r);
      } else {
        assert |a| > 1 ==> s[1] == a[1];
        OtherStep(s);
        OtherStep(a);
        LexAppend(a[1..], r);
      }
    }
  }

  lemma AppendTail(a: string, r: string, n: nat)
    requires n <= |a|
    ensures (a + r)[..n] == a[..n] && (a + r)[n..] == a[n..] + r
  {
  }

  predicate AllWords(ts: seq<Token>) {
    forall i :: 0 <= i < |ts| ==> ts[i].Word?
  }

  /** A quote in a text shows in its tokens. */
  lemma {:induction false} WordsHaveNoQuote(a: string)
    requires AllWords(Lex(a))
    ensures '"' !in a
    decreases |a|
  {
    if a != "" {
      var c, ts := a[0], Lex(a);
      assert a == [c] + a[1..];
      if SqlSpace(c) {
        WordsHaveNoQuote(a[1..]);
      } else {
        assert ts[0].Word?;
        var n := Run(a, WordPart);
        assert WordStart(c);
        assert ts[1..] == Lex(a[n..]);
        assert forall i :: 0 <= i < |ts| - 1 ==> ts[1..][i] == ts[i + 1];
        WordsHaveNoQuote(a[n..]);
        assert a == a[..n] + a[n..];
      }
    }
  }
}
