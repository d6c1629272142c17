/** The scanner of the DDL importer: which semicolons end a statement and which commas separate definitions. */
module SqlScan {
  import opened Text

  datatype Quote = NoQuote | SingleQuote | DoubleQuote | BacktickQuote

  /** Parenthesis depth, which may go below zero, and the open quote. */
  datatype Scan = Scan(depth: int, quote: Quote)

  const Start := Scan(0, NoQuote)

  function QuoteOf(ch: char): Quote {
    if ch == '\'' then SingleQuote else if ch == '"' then DoubleQuote else if ch == '`' then BacktickQuote else NoQuote
  }

  /** A quote character opens or closes its own kind; parentheses count outside quotes. */
  function Step(st: Scan, ch: char): Scan {
    if QuoteOf(ch) != NoQuote && st.quote == NoQuote then st.(quote := QuoteOf(ch))
    else if QuoteOf(ch) != NoQuote && st.quote == QuoteOf(ch) then st.(quote := NoQuote)
    else if st.quote != NoQuote then st
    else if ch == '(' then st.(depth := st.depth + 1)
    else if ch == ')' then st.(depth := st.depth - 1)
    else st
  }

  function ScanFrom(st: Scan, s: string): Scan {
    if s == "" then st else Step(ScanFrom(st, s[..|s| - 1]), s[|s| - 1])
  }

  function ScanAll(s: string): Scan {
    ScanFrom(Start, s)
  }

  lemma {:induction false} ScanConcat(st: Scan, a: string, b: string)
    ensures ScanFrom(st, a + b) == ScanFrom(ScanFrom(st, a), b)
  {
    if b == "" {
      assert a + b == a;
    } else {
      assert (a + b)[..|a| + |b| - 1] == a + b[..|b| - 1];
      ScanConcat(st, a, b[..|b| - 1]);
    }
  }

  // ---- Statements. ----

  /** A semicolon outside quotes and at depth zero. */
  predicate EndsStatement(s: string, i: nat) {
    i < |s| && s[i] == ';' && ScanAll(s[..i]) == Start
  }

  function FirstEnd(s: string, from: nat): (i: Option<nat>)
    requires from <= |s|
    ensures i.Some? ==> from <= i.value && EndsStatement(s, i.value) && forall k :: from <= k < i.value ==>
              !EndsStatement(s, k)
    ensures i.None? ==> forall k :: from <= k ==> !EndsStatement(s, k)
    decreases |s| - from
  {
    if from == |s| then None
    else if EndsStatement(s, from) then Some(from)
    else FirstEnd(s, from + 1)
  }

  /** The statement and what follows it. Without an end, the rest is a statement if its parentheses balance. */
  function Extracted(s: string): Option<(string, string)> {
    var end := FirstEnd(s, 0);
    if end.Some? then Some((Trim(s[..end.value]), Trim(s[end.value + 1..])))
    else if ScanAll(s).depth == 0 then Some((Trim(s), ""))
    else None
  }

  /** The scanner's three flags, of which at most one is up. */
  function Flags(st: Scan): (bool, bool, bool) {
    (st.quote == SingleQuote, st.quote == DoubleQuote, st.quote == BacktickQuote)
  }

  lemma ScanSnoc(s: string, i: nat)
    requires i < |s|
    ensures ScanAll(s[..i + 1]) == Step(ScanAll(s[..i]), s[i])
  {
    assert s[..i + 1][..i] == s[..i];
  }

  lemma NothingScanned(s: string)
    requires s == ""
    ensures ScanAll(s) == Start
  {
  }

  method ExtractStatement(s: string) returns (r: Option<(string, string)>)
    ensures r == Extracted(s)
  {
    hide Trim, ScanAll;
    var depth := 0;
    assert ScanAll(s[..0]) == Start by { NothingScanned(s[..0]); }
    var inSingle, inDouble, inBacktick := false, false, false;
    for i := 0 to |s|
      invariant depth == ScanAll(s[..i]).depth
      invariant (inSingle, inDouble, inBacktick) == Flags(ScanAll(s[..i]))
      invariant forall k :: 0 <= k < i ==> !EndsStatement(s, k)
    {
      var ch := s[i];
      ScanSnoc(s, i);
      if ch == '\'' && !inDouble && !inBacktick {
        inSingle := !inSingle;
      } else if ch == '"' && !inSingle && !inBacktick {
        inDouble := !inDouble;
      } else if ch == '`' && !inSingle && !inDouble {
        inBacktick := !inBacktick;
      } else if !inSingle && !inDouble && !inBacktick {
        if ch == '(' {
          depth := depth + 1;
        } else if ch == ')' {
          depth := depth - 1;
        } else if ch == ';' && depth == 0 {
          assert EndsStatement(s, i);
          return Some((Trim(s[..i]), Trim(s[i + 1..])));
        }
      }
    }
    assert s[..|s|] == s;
    if depth == 0 {
      return Some((Trim(s), ""));
    }
    return None;
  }

  /** What is left after a statement is no longer than before, so with the opening words gone it is shorter. */
  lemma RemainderShrinks(s: string)
    ensures Extracted(s).Some? ==> |Extracted(s).value.1| <= |s|
  {
    hide Trim, ScanAll;
  }

  // ---- Definitions. ----

  /** The text between the commas that stand outside quotes and at depth zero. */
  function Pieces(body: string): (pieces: seq<string>)
    ensures pieces != []
  {
    if body == "" then [""]
    else
      var n := |body| - 1;
      var before := Pieces(body[..n]);
      if body[n] == ',' && ScanAll(body[..n]) == Start then before + [""]
      else before[..|before| - 1] + [before[|before| - 1] + [body[n]]]
  }

  /** The last piece is trimmed, and dropped if blank. */
  function Chunks(body: string): seq<string> {
    var pieces := Pieces(body);
    var tail := Trim(pieces[|pieces| - 1]);
    pieces[..|pieces| - 1] + if tail == "" then [] else [tail]
  }

  method SplitColumnChunks(body: string) returns (chunks: seq<string>)
    ensures chunks == Chunks(body)
  {
    chunks := [];
    var b := "";
    var depth := 0;
    var inSingle, inDouble, inBacktick := false, false, false;
    for i := 0 to |body|
      invariant depth == ScanAll(body[..i]).depth
      invariant (inSingle, inDouble, inBacktick) == Flags(ScanAll(body[..i]))
      invariant chunks + [b] == Pieces(body[..i])
    {
      var ch := body[i];
      assert body[..i + 1][..i] == body[..i];
      if ch == '\'' && !inDouble && !inBacktick {
        inSingle := !inSingle;
        b := b + [ch];
      } else if ch == '"' && !inSingle && !inBacktick {
        inDouble := !inDouble;
        b := b + [ch];
      } else if ch == '`' && !inSingle && !inDouble {
        inBacktick := !inBacktick;
        b := b + [ch];
      } else if !inSingle && !inDouble && !inBacktick {
        if ch == '(' {
          depth := depth + 1;
          b := b + [ch];
        } else if ch == ')' {
          depth := depth - 1;
          b := b + [ch];
        } else if ch == ',' && depth == 0 {
          chunks := chunks + [b];
          b := "";
        } else {
          b := b + [ch];
        }
      } else {
        b := b + [ch];
      }
    }
    assert body[..|body|] == body;
    var tail := Trim(b);
    if tail != "" {
      chunks := chunks + [tail];
    }
  }

  /** Lossless: joining the pieces with commas restores the text. */
  lemma {:induction false} PiecesRestoreBody(body: string)
    ensures Join(Pieces(body), ",") == body
  {
    if body != "" {
      var n := |body| - 1;
      var before := Pieces(body[..n]);
      PiecesRestoreBody(body[..n]);
      var front, last := before[..|before| - 1], before[|before| - 1];
      assert before == front + [last] && body == body[..n] + [body[n]];
      JoinSnoc(front, last, ",");
      JoinSnoc(front, last + [body[n]], ",");
      JoinSnoc(before, "", ",");
    }
  }

  /** Closed text leaves the scanner as it found it. */
  predicate Closed(s: string) {
    ScanAll(s) == Start
  }

  /** No comma of the text separates. */
  predicate Whole(s: string) {
    Pieces(s) == [s]
  }

  lemma PiecesSnoc(s: string, ch: char)
    ensures var before := Pieces(s);
            Pieces(s + [ch]) == if ch == ',' && ScanAll(s) == Start then before + [""]
                                else before[..|before| - 1] + [before[|before| - 1] + [ch]]
  {
    assert (s + [ch])[..|s|] == s;
  }

  lemma {:induction false} PiecesOfTwo(a: string, b: string)
    requires Closed(a)
    ensures Pieces(a + "," + b) == Pieces(a) + Pieces(b)
  {
    hide Pieces, ScanAll, Closed;
    if b == "" {
      assert a + "," + b == a + [','];
      PiecesSnoc(a, ',');
      NoPieces(a);
    } else {
      var b', ch := b[..|b| - 1], b[|b| - 1];
      PiecesOfTwo(a, b');
      AfterComma(a, b');
      PiecesSnoc(b', ch);
      PiecesSnoc(a + "," + b', ch);
      assert b == b' + [ch] && a + "," + b == a + "," + b' + [ch];
      LastOfTwo(Pieces(a), Pieces(b'), ch);
    }
  }

  lemma NoPieces(a: string)
    requires Closed(a)
    ensures Pieces("") == [""] && ScanAll(a) == Start
  {
  }

  lemma LastOfTwo(pa: seq<string>, pb: seq<string>, ch: char)
    requires pb != []
    ensures (pa + pb)[..|pa + pb| - 1] == pa + pb[..|pb| - 1] && (pa + pb)[|pa + pb| - 1] == pb[|pb| - 1]
  {
  }

  lemma AfterComma(a: string, b: string)
    requires Closed(a)
    ensures ScanAll(a + "," + b) == ScanAll(b)
  {
    ScanConcat(Start, a + ",", b);
    assert (a + ",")[..|a|] == a;
  }

  ghost predicate WellSplit(pieces: seq<string>, end: Scan) {
    && pieces != []
    && (forall i :: 0 <= i < |pieces| ==> Whole(pieces[i]))
    && (forall i :: 0 <= i < |pieces| - 1 ==> Closed(pieces[i]))
    && ScanAll(pieces[|pieces| - 1]) == end
  }

  lemma WholeGrows(p: string, ch: char)
    requires Whole(p) && !(ch == ',' && Closed(p))
    ensures Whole(p + [ch]) && ScanAll(p + [ch]) == Step(ScanAll(p), ch)
  {
    PiecesSnoc(p, ch);
    assert (p + [ch])[..|p|] == p;
  }

  lemma SplitGrows(pieces: seq<string>, end: Scan, ch: char)
    requires WellSplit(pieces, end)
    ensures var n := |pieces| - 1;
            WellSplit(if ch == ',' && end == Start
                  then pieces + [""] else pieces[..n] + [pieces[n] + [ch]], Step(end, ch))
  {
    hide Pieces, ScanAll;
    var n := |pieces| - 1;
    if ch == ',' && end == Start {
      NoPieces(pieces[n]);
      NothingScanned("");
    } else {
      WholeGrows(pieces[n], ch);
    }
  }

  /** What comes between separators is closed and whole. */
  lemma {:induction false} PiecesAreClosed(body: string)
    ensures WellSplit(Pieces(body), ScanAll(body))
  {
    if body != "" {
      var n := |body| - 1;
      PiecesAreClosed(body[..n]);
      SplitGrows(Pieces(body[..n]), ScanAll(body[..n]), body[n]);
    }
  }

  /** Exact: joined pieces come back from splitting exactly when each is whole and all but the last are closed. */
  lemma PiecesComeBackExactlyWhen(pieces: seq<string>)
    requires pieces != []
    ensures Pieces(Join(pieces, ",")) == pieces
            <==> (forall i :: 0 <= i < |pieces| ==> Whole(pieces[i]))
                 && (forall i :: 0 <= i < |pieces| - 1 ==> Closed(pieces[i]))
  {
    if Pieces(Join(pieces, ",")) == pieces {
      PiecesAreClosed(Join(pieces, ","));
    }
    if (forall i :: 0 <= i < |pieces| ==> Whole(pieces[i]))
          && (forall i :: 0 <= i < |pieces| - 1 ==> Closed(pieces[i])) {
      PiecesComeBack(pieces);
    }
  }

  lemma {:induction false} PiecesComeBack(pieces: seq<string>)
    requires pieces != []
    requires forall i :: 0 <= i < |pieces| ==> Whole(pieces[i])
    requires forall i :: 0 <= i < |pieces| - 1 ==> Closed(pieces[i])
    ensures Pieces(Join(pieces, ",")) == pieces
  {
    if |pieces| > 1 {
      PiecesComeBack(pieces[1..]);
      PiecesOfTwo(pieces[0], Join(pieces[1..], ","));
      assert [pieces[0]] + pieces[1..] == pieces;
    }
  }

  lemma FirstEndIs(s: string, at: nat)
    requires EndsStatement(s, at) && forall k :: 0 <= k < at ==> !EndsStatement(s, k)
    ensures FirstEnd(s, 0) == Some(at)
  {
    hide EndsStatement;
    var end := FirstEnd(s, 0);
  }

  lemma EndsInFront(stmt: string, tail: string, k: nat)
    requires k < |stmt|
    ensures EndsStatement(stmt + tail, k) <==> EndsStatement(stmt, k)
  {
    assert (stmt + tail)[..k] == stmt[..k];
  }

  /** A statement without an end of its own is cut off exactly where it was joined to the next. */
  lemma StatementIsCutOff(stmt: string, rest: string)
    requires Closed(stmt) && forall k :: 0 <= k ==> !EndsStatement(stmt, k)
    ensures Extracted(stmt + ";" + rest) == Some((Trim(stmt), Trim(rest)))
  {
    hide Trim, ScanAll;
    var s, tail := stmt + ";" + rest, ";" + rest;
    assert s == stmt + tail;
    assert s[..|stmt|] == stmt && s[|stmt| + 1..] == rest;
    assert EndsStatement(s, |stmt|);
    forall k | 0 <= k < |stmt|
      ensures !EndsStatement(s, k)
    {
      EndsInFront(stmt, tail, k);
    }
    FirstEndIs(s, |stmt|);
  }

  // ---- What the scanner passes over. ----

  /** No quote, no parenthesis, no separator. */
  predicate Plain(s: string) {
    forall i :: 0 <= i < |s| ==> s[i] !in {'\'', '"', '`', '(', ')', ',', ';'}
  }

  lemma {:induction false} PlainScan(st: Scan, s: string)
    requires forall i :: 0 <= i < |s| ==> s[i] !in {'\'', '"', '`', '(', ')'}
    ensures ScanFrom(st, s) == st
  {
    if s != "" {
      PlainScan(st, s[..|s| - 1]);
    }
  }

  lemma {:induction false} QuotedScan(st: Scan, q: char, s: string)
    requires q in {'\'', '"', '`'} && st.quote == QuoteOf(q) && q !in s
    ensures ScanFrom(st, s) == st
  {
    if s != "" {
      assert s[|s| - 1] in s && forall c :: c in s[..|s| - 1] ==> c in s;
      QuotedScan(st, q, s[..|s| - 1]);
    }
  }

  /** Text between quotes of one kind, whatever the other characters, or between parentheses. */
  predicate Encloses(open: char, inner: string, close: char) {
    || (open == close && open in {'\'', '"', '`'} && open !in inner)
    || (open == '(' && close == ')' && forall i :: 0 <= i < |inner| ==> inner[i] !in {'\'', '"', '`', '(', ')'})
  }

  lemma EnclosedScan(open: char, inner: string, close: char, k: nat)
    requires Encloses(open, inner, close) && k <= |inner|
    ensures ScanAll([open] + inner[..k]) != Start
    ensures ScanAll([open] + inner + [close]) == Start
  {
    NothingScanned("");
    var st := Step(Start, open);
    assert ScanAll([open]) == st by { assert [open][..0] == ""; }
    ScanConcat(Start, [open], inner[..k]);
    ScanConcat(Start, [open], inner);
    if open == close {
      assert forall c :: c in inner[..k] ==> c in inner;
      QuotedScan(st, open, inner[..k]);
      QuotedScan(st, open, inner);
    } else {
      PlainScan(st, inner[..k]);
      PlainScan(st, inner);
    }
    assert ([open] + inner + [close])[..|inner| + 1] == [open] + inner;
  }

  lemma {:induction false} WholeByPlaces(s: string)
    requires forall k :: 0 <= k < |s| && s[k] == ',' ==> ScanAll(s[..k]) != Start
    ensures Whole(s)
  {
    if s != "" {
      var before := s[..|s| - 1];
      assert forall k :: 0 <= k < |before| ==> before[..k] == s[..k] && before[k] == s[k];
      WholeByPlaces(before);
      assert s == before + [s[|s| - 1]];
    }
  }

  /** Commas and semicolons between quotes, or between parentheses, separate nothing. */
  lemma EnclosedStays(a: string, open: char, inner: string, close: char, b: string)
    requires Plain(a) && Plain(b) && Encloses(open, inner, close)
    ensures var s := a + ([open] + inner + [close]) + b;
            Closed(s) && Whole(s) && forall k :: 0 <= k ==> !EndsStatement(s, k)
  {
    hide ScanAll;
    var mid := [open] + inner + [close];
    var s := a + mid + b;
    assert forall j :: 0 <= j < |a| ==> s[j] == a[j];
    assert forall j :: |a| + |mid| <= j < |s| ==> s[j] == b[j - |a| - |mid|];
    assert s[|a|] == open && s[|a| + |mid| - 1] == close;
    forall k | 0 <= k < |s| && (s[k] == ',' || s[k] == ';')
      ensures ScanAll(s[..k]) != Start
    {
      assert |a| < k < |a| + |mid| - 1;
      var n := k - |a| - 1;
      EnclosedScan(open, inner, close, n);
      assert s[..k] == a + ([open] + inner[..n]);
      AfterPlain(a, [open] + inner[..n]);
    }
    EnclosedScan(open, inner, close, 0);
    AfterPlain(a, mid);
    AroundPlain(a + mid, b);
    WholeByPlaces(s);
  }

  lemma AfterPlain(a: string, s: string)
    requires Plain(a)
    ensures ScanAll(a + s) == ScanAll(s)
  {
    ScanConcat(Start, a, s);
    PlainScan(Start, a);
  }

  lemma AroundPlain(s: string, b: string)
    requires Plain(b) && ScanAll(s) == Start
    ensures ScanAll(s + b) == Start
  {
    ScanConcat(Start, s, b);
    PlainScan(Start, b);
  }
}
