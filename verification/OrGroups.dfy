/** The `or=(a.eq.1,b.in.(2,3))` parameter: splitting at top-level commas and parsing each expression. */
module OrGroups {
  import opened Text
  import opened Filters
  import opened Query

  /** The splitter after a prefix of the text: finished pieces, the current piece, the parenthesis depth. */
  datatype Scan = Scan(done: seq<string>, cur: string, depth: nat)

  function Step(st: Scan, c: char, sep: char): Scan {
    if c == '(' then st.(cur := st.cur + [c], depth := st.depth + 1)
    else if c == ')' then st.(cur := st.cur + [c], depth := if st.depth > 0 then st.depth - 1 else 0)
    else if c == sep && st.depth == 0 then Scan(st.done + [st.cur], "", 0)
    else st.(cur := st.cur + [c])
  }

  function Run(st: Scan, s: string, sep: char): Scan {
    if s == "" then st else Step(Run(st, s[..|s| - 1], sep), s[|s| - 1], sep)
  }

  const Begin := Scan([], "", 0)

  function Pieces(s: string, sep: char): seq<string> {
    var end := Run(Begin, s, sep);
    end.done + [end.cur]
  }

  /** splitTopLevel */
  method SplitTopLevel(s: string, sep: char) returns (parts: seq<string>)
    requires sep != '(' && sep != ')'
    ensures parts == Pieces(s, sep)
  {
    parts := [];
    var depth, start := 0, 0;
    for i := 0 to |s|
      invariant 0 <= start <= i && 0 <= depth
      invariant Run(Begin, s[..i], sep) == Scan(parts, s[start..i], depth)
    {
      assert s[..i + 1][..i] == s[..i];
      assert s[start..i + 1] == s[start..i] + [s[i]];
      if s[i] == '(' {
        depth := depth + 1;
      } else if s[i] == ')' {
        if depth > 0 {
          depth := depth - 1;
        }
      } else if s[i] == sep && depth == 0 {
        parts := parts + [s[start..i]];
        start := i + 1;
      }
    }
    assert s[..|s|] == s;
    parts := parts + [s[start..]];
  }

  function Joined(st: Scan, sep: char): string {
    Join(st.done + [st.cur], [sep])
  }

  lemma StepAppends(st: Scan, c: char, sep: char)
    ensures Joined(Step(st, c, sep), sep) == Joined(st, sep) + [c]
  {
    hide Join;
    JoinSnoc(st.done, st.cur, [sep]);
    JoinSnoc(st.done, st.cur + [c], [sep]);
    JoinSnoc(st.done + [st.cur], "", [sep]);
    if st.done != [] {
      assert Join(st.done, [sep]) + [sep] + (st.cur + [c]) == Join(st.done, [sep]) + [sep] + st.cur + [c];
    }
    if c == sep {
      assert Joined(st, sep) + [sep] + "" == Joined(st, sep) + [c];
    }
  }

  /** Joining the pieces restores the text, whatever the text. */
  lemma {:induction false} PiecesRestoreText(s: string, sep: char)
    ensures Join(Pieces(s, sep), [sep]) == s
  {
    hide Join, Step;
    if s == "" {
      NothingJoined(sep);
    } else {
      var before, c := s[..|s| - 1], s[|s| - 1];
      PiecesRestoreText(before, sep);
      StepAppends(Run(Begin, before, sep), c, sep);
      assert s == before + [c];
    }
  }

  lemma NothingJoined(sep: char)
    ensures Joined(Begin, sep) == ""
  {
  }

  // ---- Pieces that the splitter leaves alone. ----

  /** Parenthesis depth after a text, unmatched closing ones ignored. */
  function Depth(s: string): nat {
    if s == "" then 0
    else
      var d, c := Depth(s[..|s| - 1]), s[|s| - 1];
      if c == '(' then d + 1 else if c == ')' && d > 0 then d - 1 else d
  }

  /** Every parenthesis closed, and no separator outside parentheses. */
  ghost predicate Closed(s: string, sep: char) {
    Depth(s) == 0 && forall k :: 0 <= k < |s| && s[k] == sep ==> Depth(s[..k]) > 0
  }

  lemma InsideSnoc(s: string, sep: char)
    requires s != "" && forall k :: 0 <= k < |s| && s[k] == sep ==> Depth(s[..k]) > 0
    ensures var before := s[..|s| - 1];
            && (forall k :: 0 <= k < |before| && before[k] == sep ==> Depth(before[..k]) > 0)
            && (s[|s| - 1] == sep ==> Depth(before) > 0)
  {
    hide Depth;
    var before := s[..|s| - 1];
    assert forall k :: 0 <= k < |before| ==> before[..k] == s[..k];
  }

  lemma {:induction false} RunInsidePiece(done: seq<string>, s: string, sep: char)
    requires sep != '(' && sep != ')'
    requires forall k :: 0 <= k < |s| && s[k] == sep ==> Depth(s[..k]) > 0
    ensures Run(Scan(done, "", 0), s, sep) == Scan(done, s, Depth(s))
  {
    if s != "" {
      InsideSnoc(s, sep);
      RunInsidePiece(done, s[..|s| - 1], sep);
      assert s == s[..|s| - 1] + [s[|s| - 1]];
    }
  }

  lemma {:induction false} RunConcat(st: Scan, a: string, b: string, sep: char)
    ensures Run(st, a + b, sep) == Run(Run(st, a, sep), b, sep)
  {
    if b == "" {
      assert a + b == a;
    } else {
      var n := |b| - 1;
      RunConcat(st, a, b[..n], sep);
      assert (a + b)[..|a| + n] == a + b[..n];
    }
  }

  /** Splitting a joined list of closed pieces returns those pieces. */
  lemma {:induction false} JoinedPiecesComeBack(pieces: seq<string>, sep: char)
    requires sep != '(' && sep != ')' && pieces != []
    requires forall p :: p in pieces ==> Closed(p, sep)
    ensures Run(Begin, Join(pieces, [sep]), sep) == Scan(pieces[..|pieces| - 1], pieces[|pieces| - 1], 0)
    ensures Pieces(Join(pieces, [sep]), sep) == pieces
  {
    var n := |pieces| - 1;
    var before, last := pieces[..n], pieces[n];
    assert pieces == before + [last] && last in pieces;
    if n == 0 {
      RunInsidePiece([], last, sep);
    } else {
      JoinedPiecesComeBack(before, sep);
      var text := Join(before, [sep]);
      JoinSnoc(before, last, [sep]);
      RunConcat(Begin, text + [sep], last, sep);
      RunConcat(Begin, text, [sep], sep);
      assert Run(Run(Begin, text, sep), [sep], sep) == Scan(before, "", 0) by {
        assert before == before[..n - 1] + [before[n - 1]];
        assert [sep][..0] == "";
      }
      RunInsidePiece(before, last, sep);
    }
  }

  // ---- One expression: column.op.value ----

  function Marker(op: string): string {
    "." + op + "."
  }

  /** The loop of parseFilterExpr from the n-th operator on. */
  function ParseFrom(expr: string, n: nat): Option<Filter>
    requires n <= |OPERATORS|
    decreases |OPERATORS| - n
  {
    if n == |OPERATORS| then None
    else
      var at := Index(expr, Marker(OPERATORS[n]));
      if at.Some? && at.value > 0 then
        Some(Filter(expr[..at.value], OPERATORS[n], expr[at.value + |Marker(OPERATORS[n])|..]))
      else ParseFrom(expr, n + 1)
  }

  method ParseFilterExpr(text: string) returns (r: Option<Filter>)
    ensures r == ParseFrom(Trim(text), 0)
  {
    hide Trim, IndexFrom;
    var expr := Trim(text);
    for n := 0 to |OPERATORS|
      invariant ParseFrom(expr, 0) == ParseFrom(expr, n)
    {
      var op := OPERATORS[n];
      var marker := "." + op + ".";
      var idx := Index(expr, marker);
      if idx.Some? && idx.value > 0 {
        return Some(Filter(expr[..idx.value], op, expr[idx.value + |marker|..]));
      }
    }
    return None;
  }

  function PrintedExpr(f: Filter): string {
    f.column + Marker(f.op) + f.value
  }

  /** What stands before the dot that starts the value. */
  function Head(f: Filter): string {
    f.column + "." + f.op
  }

  /** An operator tried before the filter's own is passed over: between dots it starts the expression, or it is neither
      in the head nor in the value. */
  ghost predicate PassedOver(f: Filter, op: string) {
    || HasPrefix(Head(f), Marker(op))
    || (!Contains(Head(f), Marker(op)) && !Contains("." + f.value, Marker(op)))
  }

  /** A known operator that is not already found inside the head, a column, and no operator tried before that strays
      into the expression. */
  ghost predicate Recoverable(f: Filter) {
    && f.op in OPERATORS && f.column != "" && !Contains(Head(f), Marker(f.op))
    && forall m, n :: 0 <= m < n < |OPERATORS| && OPERATORS[n] == f.op ==> PassedOver(f, OPERATORS[m])
  }

  lemma OccursInTail(head: string, tail: string, part: string, k: nat)
    requires |head| <= k
    ensures OccursAt(head + tail, part, k) <==> OccursAt(tail, part, k - |head|)
  {
    if k + |part| <= |head| + |tail| {
      assert (head + tail)[k..k + |part|] == tail[k - |head|..k - |head| + |part|];
    }
  }

  lemma OccursInHead(head: string, tail: string, part: string, k: nat)
    requires k + |part| <= |head|
    ensures OccursAt(head + tail, part, k) <==> OccursAt(head, part, k)
  {
    assert (head + tail)[k..k + |part|] == head[k..k + |part|];
  }

  lemma ExprSplits(f: Filter)
    ensures PrintedExpr(f) == Head(f) + ("." + f.value)
  {
  }

  lemma CharOfMarker(s: string, op: string, k: nat, i: nat)
    requires OccursAt(s, Marker(op), k) && i < |Marker(op)|
    ensures s[k + i] == Marker(op)[i]
  {
    assert s[k..k + |Marker(op)|][i] == s[k + i];
  }

  /** Between the head and the value no marker fits but the filter's own. */
  lemma NoMarkerAcross(f: Filter, op: string, k: nat)
    requires f.op in OPERATORS && op in OPERATORS
    requires OccursAt(PrintedExpr(f), Marker(op), k) && k < |Head(f)| < k + |Marker(op)|
    ensures op == f.op && k == |f.column|
  {
    var expr, dot := PrintedExpr(f), |Head(f)|;
    KnownOperatorHasNoDot(op);
    KnownOperatorHasNoDot(f.op);
    ExprSplits(f);
    assert expr[dot] == '.';
    CharOfMarker(expr, op, k, dot - k);
    assert forall i :: 0 < i <= |op| ==> Marker(op)[i] == op[i - 1];
    assert dot - k == |op| + 1;
    assert expr[|f.column|] == '.';
    assert forall i :: 0 <= i < |f.op| ==> expr[|f.column| + 1 + i] == f.op[i];
    CharOfMarker(expr, op, k, 0);
    forall j | k < j <= k + |op|
      ensures expr[j] != '.'
    {
      CharOfMarker(expr, op, k, j - k);
    }
    assert k == |f.column|;
    forall i | 0 <= i < |op|
      ensures op[i] == f.op[i]
    {
      CharOfMarker(expr, op, k, i + 1);
    }
  }

  /** Another operator is found in the expression where it is found in the head or in the value. */
  lemma OtherMarker(f: Filter, op: string)
    requires f.op in OPERATORS && op in OPERATORS && op != f.op
    ensures var at := Index(PrintedExpr(f), Marker(op)); (at.Some? && at.value > 0) <==> !PassedOver(f, op)
  {
    var expr, m, tail := PrintedExpr(f), Marker(op), "." + f.value;
    ExprSplits(f);
    var inHead, inTail, here := Index(Head(f), m), Index(tail, m), Index(expr, m);
    if inHead.Some? {
      OccursInHead(Head(f), tail, m, inHead.value);
    }
    if inTail.Some? {
      OccursInTail(Head(f), tail, m, |Head(f)| + inTail.value);
    }
    if here.Some? {
      var k := here.value;
      if k >= |Head(f)| {
        OccursInTail(Head(f), tail, m, k);
      } else if k + |m| <= |Head(f)| {
        OccursInHead(Head(f), tail, m, k);
      } else {
        NoMarkerAcross(f, op, k);
      }
    }
    if |m| <= |Head(f)| {
      OccursInHead(Head(f), tail, m, 0);
    }
  }

  lemma ColumnAndValue(f: Filter)
    ensures PrintedExpr(f)[..|f.column|] == f.column
    ensures PrintedExpr(f)[|f.column| + |Marker(f.op)|..] == f.value
    ensures OccursAt(PrintedExpr(f), Marker(f.op), |f.column|)
  {
  }

  /** The filter's own marker is first found at the column's end exactly when it is not in the head. */
  lemma OwnMarker(f: Filter)
    ensures Index(PrintedExpr(f), Marker(f.op)) == Some(|f.column|) <==> !Contains(Head(f), Marker(f.op))
  {
    var expr, m, tail := PrintedExpr(f), Marker(f.op), "." + f.value;
    ExprSplits(f);
    ColumnAndValue(f);
    var inHead := Index(Head(f), m);
    if inHead.Some? {
      OccursInHead(Head(f), tail, m, inHead.value);
      assert inHead.value < |f.column|;
    } else {
      forall k | 0 <= k < |f.column|
        ensures !OccursAt(expr, m, k)
      {
        OccursInHead(Head(f), tail, m, k);
      }
      IndexIs(expr, m, |f.column|);
    }
  }

  lemma {:induction false} ParsedOperator(expr: string, n: nat)
    requires n <= |OPERATORS| && ParseFrom(expr, n).Some?
    ensures ParseFrom(expr, n).value.column != ""
    ensures exists i :: n <= i < |OPERATORS| && ParseFrom(expr, n).value.op == OPERATORS[i]
    decreases |OPERATORS| - n
  {
    hide IndexFrom;
    var at := Index(expr, Marker(OPERATORS[n]));
    if !(at.Some? && at.value > 0) {
      ParsedOperator(expr, n + 1);
    }
  }

  lemma ParseFromOther(f: Filter, m: nat)
    requires f.op in OPERATORS && m < |OPERATORS| && OPERATORS[m] != f.op
    ensures if PassedOver(f, OPERATORS[m])
            then ParseFrom(PrintedExpr(f), m) == ParseFrom(PrintedExpr(f), m + 1)
            else ParseFrom(PrintedExpr(f), m).Some? && ParseFrom(PrintedExpr(f), m).value.op == OPERATORS[m]
  {
    OtherMarker(f, OPERATORS[m]);
  }

  lemma OperatorsDistinct()
    ensures forall i, j :: 0 <= i < j < |OPERATORS| ==> OPERATORS[i] != OPERATORS[j]
  {
  }

  lemma ParseFromOwn(f: Filter, n: nat)
    requires f.column != "" && n < |OPERATORS| && OPERATORS[n] == f.op
    ensures ParseFrom(PrintedExpr(f), n) == Some(f) <==> !Contains(Head(f), Marker(f.op))
  {
    hide IndexFrom, PrintedExpr, Head, Marker, Contains;
    var expr := PrintedExpr(f);
    OwnMarker(f);
    ColumnAndValue(f);
    var at := Index(expr, Marker(f.op));
    if !(at.Some? && at.value > 0) && ParseFrom(expr, n + 1).Some? {
      ParsedOperator(expr, n + 1);
      OperatorsDistinct();
    }
  }

  /** From an operator tried no later than the filter's own, parsing returns the filter exactly when all in between are
      passed over and its own is found at the column's end. */
  lemma {:induction false} ParseFromBefore(f: Filter, m: nat, n: nat)
    requires f.column != "" && m <= n < |OPERATORS| && OPERATORS[n] == f.op
    ensures ParseFrom(PrintedExpr(f), m) == Some(f)
            <==> !Contains(Head(f), Marker(f.op)) && forall i :: m <= i < n ==> PassedOver(f, OPERATORS[i])
    decreases n - m
  {
    hide ParseFrom, Contains, Marker, PrintedExpr, PassedOver, Head;
    if m == n {
      ParseFromOwn(f, n);
    } else {
      OperatorsDistinct();
      ParseFromOther(f, m);
      ParseFromBefore(f, m + 1, n);
    }
  }

  /** A printed expression parses back to its filter exactly when the filter is recoverable. */
  lemma ExpressionSurvivesExactlyWhen(f: Filter)
    ensures ParseFrom(PrintedExpr(f), 0) == Some(f) <==> Recoverable(f)
  {
    hide ParseFrom, Contains, Marker, PrintedExpr, PassedOver, Head;
    if f.op in OPERATORS && f.column != "" {
      var n :| 0 <= n < |OPERATORS| && OPERATORS[n] == f.op;
      ParseFromBefore(f, 0, n);
      OperatorsDistinct();
    } else if ParseFrom(PrintedExpr(f), 0).Some? {
      ParsedOperator(PrintedExpr(f), 0);
    }
  }

  // ---- The whole parameter. ----

  /** parseOrGroups after trimming and stripping the outer parentheses. */
  function Stripped(text: string): string {
    var raw := Trim(text);
    if HasPrefix(raw, "(") && HasSuffix(raw, ")") then Trim(raw[1..|raw| - 1]) else raw
  }

  /** The groups of the pieces from left to right; blank pieces are skipped, one bad piece spoils all. */
  function GroupsOf(pieces: seq<string>): Option<seq<seq<Filter>>> {
    if pieces == [] then Some([])
    else
      var part := Trim(pieces[|pieces| - 1]);
      match GroupsOf(pieces[..|pieces| - 1])
      case None => None
      case Some(groups) =>
        if part == "" then Some(groups)
        else match ParseFrom(part, 0)
             case None => None
             case Some(f) => Some(groups + [[f]])
  }

  method ParsePieces(pieces: seq<string>) returns (r: Option<seq<seq<Filter>>>)
    ensures r == GroupsOf(pieces)
  {
    hide Trim, ParseFrom;
    var groups: seq<seq<Filter>> := [];
    for i := 0 to |pieces|
      invariant GroupsOf(pieces[..i]) == Some(groups)
    {
      assert pieces[..i + 1][..i] == pieces[..i];
      var part := Trim(pieces[i]);
      if part == "" {
        continue;
      }
      var f := ParseFilterExpr(part);
      TrimTwice(pieces[i]);
      if f.None? {
        OneBadPiece(pieces, i + 1);
        return None;
      }
      groups := groups + [[f.value]];
    }
    assert pieces[..|pieces|] == pieces;
    return Some(groups);
  }

  method ParseOrGroups(text: string) returns (r: Option<seq<seq<Filter>>>)
    ensures r == if Stripped(text) == "" then Some([]) else GroupsOf(Pieces(Stripped(text), ','))
  {
    hide Trim, Pieces, GroupsOf;
    var raw := Trim(text);
    if HasPrefix(raw, "(") && HasSuffix(raw, ")") {
      raw := Trim(raw[1..|raw| - 1]);
    }
    if raw == "" {
      return Some([]);
    }
    var pieces := SplitTopLevel(raw, ',');
    r := ParsePieces(pieces);
  }

  lemma {:induction false} OneBadPiece(pieces: seq<string>, n: nat)
    requires n <= |pieces| && GroupsOf(pieces[..n]).None?
    ensures GroupsOf(pieces).None?
    decreases |pieces|
  {
    if n < |pieces| {
      assert pieces[..|pieces| - 1][..n] == pieces[..n];
      OneBadPiece(pieces[..|pieces| - 1], n);
    } else {
      assert pieces[..n] == pieces;
    }
  }

  function PrintedGroups(fs: seq<Filter>): string {
    "(" + Join(PrintedExprs(fs), ",") + ")"
  }

  function PrintedExprs(fs: seq<Filter>): seq<string> {
    seq(|fs|, i requires 0 <= i < |fs| => PrintedExpr(fs[i]))
  }

  function Singletons(fs: seq<Filter>): seq<seq<Filter>> {
    seq(|fs|, i requires 0 <= i < |fs| => [fs[i]])
  }

  /** A filter whose printed expression stands in an OR list: parentheses closed, no comma outside them, no blank
      at either end. */
  ghost predicate Listable(f: Filter) {
    Closed(PrintedExpr(f), ',') && Trim(PrintedExpr(f)) == PrintedExpr(f)
  }

  lemma TrimKeeps(s: string)
    ensures Trim(s) == s <==> s == "" || (!IsSpace(s[0]) && !IsSpace(s[|s| - 1]))
  {
  }

  lemma {:induction false} JoinEnds(pieces: seq<string>, sep: string)
    requires pieces != [] && pieces[0] != "" && pieces[|pieces| - 1] != ""
    ensures var text := Join(pieces, sep);
            text != "" && text[0] == pieces[0][0]
            && text[|text| - 1] == pieces[|pieces| - 1][|pieces[|pieces| - 1]| - 1]
  {
    if |pieces| > 1 {
      var n := |pieces| - 1;
      assert pieces == pieces[..n] + [pieces[n]];
      JoinSnoc(pieces[..n], pieces[n], sep);
    }
  }

  lemma ParensStrip(inner: string)
    ensures Stripped("(" + inner + ")") == Trim(inner)
  {
    var raw := "(" + inner + ")";
    TrimKeeps(raw);
    hide Trim;
    assert raw[0..1] == "(" && raw[|raw| - 1..|raw|] == ")";
    assert raw[1..|raw| - 1] == inner;
  }

  /** Stripping a printed list gives the joined expressions. */
  lemma PrintedStrips(fs: seq<Filter>)
    requires forall f :: f in fs ==> Listable(f)
    ensures Stripped(PrintedGroups(fs)) == Join(PrintedExprs(fs), ",")
  {
    hide Trim, IsSpace, Closed, Stripped;
    var exprs := PrintedExprs(fs);
    ParensStrip(Join(exprs, ","));
    TrimKeeps(Join(exprs, ","));
    if fs != [] {
      var n := |fs| - 1;
      assert Listable(fs[0]) && Listable(fs[n]);
      TrimKeeps(exprs[0]);
      TrimKeeps(exprs[n]);
      JoinEnds(exprs, ",");
    }
  }

  lemma {:induction false} GroupsCount(pieces: seq<string>)
    requires forall p :: p in pieces ==> Trim(p) != ""
    ensures GroupsOf(pieces).Some? ==> |GroupsOf(pieces).value| == |pieces|
  {
    hide Trim, ParseFrom;
    if pieces != [] {
      assert pieces == pieces[..|pieces| - 1] + [pieces[|pieces| - 1]];
      GroupsCount(pieces[..|pieces| - 1]);
    }
  }

  lemma SameSnoc<T>(a: seq<T>, x: T, b: seq<T>, y: T)
    ensures a + [x] == b + [y] <==> a == b && x == y
  {
    if a + [x] == b + [y] {
      assert a == (a + [x])[..|a|] && b == (b + [y])[..|b|];
      assert (a + [x])[|a|] == x && (b + [y])[|b|] == y;
    }
  }

  lemma {:induction false} PiecesParse(fs: seq<Filter>)
    requires forall f :: f in fs ==> Listable(f)
    ensures GroupsOf(PrintedExprs(fs)) == Some(Singletons(fs)) <==> forall f :: f in fs ==> Recoverable(f)
  {
    hide Recoverable, Closed, ParseFrom, Trim;
    if fs != [] {
      var before, f := fs[..|fs| - 1], fs[|fs| - 1];
      assert fs == before + [f] && f in fs;
      PiecesParse(before);
      ExpressionSurvivesExactlyWhen(f);
      assert PrintedExprs(fs)[..|before|] == PrintedExprs(before);
      assert PrintedExpr(f) != "" && Trim(PrintedExprs(fs)[|before|]) == PrintedExpr(f);
      assert Singletons(fs) == Singletons(before) + [[f]];
      ExprsNotBlank(before);
      GroupsCount(PrintedExprs(before));
      var parsed := ParseFrom(PrintedExpr(f), 0);
      if GroupsOf(PrintedExprs(before)).Some? && parsed.Some? {
        SameSnoc(GroupsOf(PrintedExprs(before)).value, [parsed.value], Singletons(before), [f]);
        assert [parsed.value] == [f] <==> [parsed.value][0] == [f][0];
      }
      assert forall x :: x in fs <==> x in before || x == f;
      assert GroupsOf(PrintedExprs(fs)) == Some(Singletons(fs))
             <==> GroupsOf(PrintedExprs(before)) == Some(Singletons(before)) && parsed == Some(f);
    } else {
      assert PrintedExprs(fs) == [] && Singletons(fs) == [];
    }
  }

  lemma ExprsNotBlank(fs: seq<Filter>)
    requires forall f :: f in fs ==> Listable(f)
    ensures forall p :: p in PrintedExprs(fs) ==> Trim(p) != ""
  {
    hide Trim, Closed;
    var exprs := PrintedExprs(fs);
    forall i | 0 <= i < |exprs|
      ensures Trim(exprs[i]) != ""
    {
      assert fs[i] in fs && PrintedExpr(fs[i]) != "";
    }
  }

  /** An OR list of filters, with parentheses closed, commas only inside them and no blank at an end, parses back to one
      group for each filter, in order, exactly when each is recoverable. */
  lemma OrListSurvivesExactlyWhen(fs: seq<Filter>)
    requires forall f :: f in fs ==> Listable(f)
    ensures var raw := Stripped(PrintedGroups(fs));
            (if raw == "" then Some([]) else GroupsOf(Pieces(raw, ','))) == Some(Singletons(fs))
            <==> forall f :: f in fs ==> Recoverable(f)
  {
    hide Recoverable, Closed, ParseFrom;
    PrintedStrips(fs);
    if fs != [] {
      var exprs := PrintedExprs(fs);
      forall p | p in exprs
        ensures Closed(p, ',')
      {
        var i :| 0 <= i < |fs| && exprs[i] == p;
        assert fs[i] in fs;
      }
      JoinedPiecesComeBack(exprs, ',');
      PiecesParse(fs);
      JoinEnds(exprs, ",");
    } else {
      assert Singletons(fs) == [];
    }
  }

  /** A value that carries an operator tried earlier is read as that operator: a column c compared by neq with
      "a.eq.b" comes back as a column "c.neq.a" compared by eq with "b". */
  lemma StrayOperatorCaptures()
    ensures ParseFrom(PrintedExpr(Filter("c", "neq", "a.eq.b")), 0) == Some(Filter("c.neq.a", "eq", "b"))
  {
    var f, g := Filter("c", "neq", "a.eq.b"), Filter("c.neq.a", "eq", "b");
    assert PrintedExpr(f) == "c.neq.a.eq.b" == PrintedExpr(g);
    EqIsFirst(g);
  }

  /** The first operator tried needs only not to be in the head: a column may have dots. */
  lemma EqIsFirst(f: Filter)
    requires f.op == "eq" && f.column == "c.neq.a"
    ensures ParseFrom(PrintedExpr(f), 0) == Some(f)
  {
    hide ParseFrom, PrintedExpr;
    var h, m := Head(f), Marker("eq");
    assert h == "c.neq.a.eq" && m == ".eq.";
    forall k | 0 <= k <= |h|
      ensures !OccursAt(h, m, k)
    {
      if k + 4 <= |h| {
        assert h[k..k + 4][3] == h[k + 3] && m[3] == '.' && h[k..k + 4][0] == h[k] && m[0] == '.';
      }
    }
    assert OPERATORS[0] == "eq";
    OperatorsDistinct();
    ExpressionSurvivesExactlyWhen(f);
  }

  // ---- Any text at all. ----

  /** What is read of an expression, written again, is that expression. */
  lemma {:induction false} ParsedIsPrinted(expr: string, n: nat)
    requires n <= |OPERATORS| && ParseFrom(expr, n).Some?
    ensures var f := ParseFrom(expr, n).value; PrintedExpr(f) == expr && f.op in OPERATORS && f.column != ""
    decreases |OPERATORS| - n
  {
    hide IndexFrom;
    var m := Marker(OPERATORS[n]);
    var at := Index(expr, m);
    if at.Some? && at.value > 0 {
      assert OccursAt(expr, m, at.value);
      assert expr == expr[..at.value] + expr[at.value..at.value + |m|] + expr[at.value + |m|..];
    } else {
      ParsedIsPrinted(expr, n + 1);
    }
  }

  /** Nothing is read exactly when no operator stands between dots, or only where the expression begins. */
  lemma {:induction false} NothingParsedExactlyWhen(expr: string, n: nat)
    requires n <= |OPERATORS|
    ensures ParseFrom(expr, n).None?
            <==> forall i :: n <= i < |OPERATORS| ==>
                   !Contains(expr, Marker(OPERATORS[i])) || HasPrefix(expr, Marker(OPERATORS[i]))
    decreases |OPERATORS| - n
  {
    if n < |OPERATORS| {
      NothingParsedExactlyWhen(expr, n + 1);
    }
  }

  /** The outer parentheses are taken off if there are both, and else nothing but blanks. */
  lemma StrippedIs(text: string, inner: string)
    ensures !(HasPrefix(Trim(text), "(") && HasSuffix(Trim(text), ")")) ==> Stripped(text) == Trim(text)
    ensures Stripped("(" + inner + ")") == Trim(inner)
  {
    ParensStrip(inner);
  }

  /** The groups are one for each piece that is not blank, and one unreadable piece makes the whole unreadable. */
  lemma {:induction false} GroupsAreOfPieces(pieces: seq<string>)
    ensures GroupsOf(pieces).Some? <==> forall p :: p in pieces && Trim(p) != "" ==> ParseFrom(Trim(p), 0).Some?
    ensures GroupsOf(pieces).Some? ==>
              forall g :: g in GroupsOf(pieces).value
                          <==> exists p :: p in pieces && Trim(p) != "" && g == [ParseFrom(Trim(p), 0).value]
  {
    hide ParseFrom, Trim;
    if pieces != [] {
      var before, last := pieces[..|pieces| - 1], pieces[|pieces| - 1];
      assert pieces == before + [last];
      GroupsAreOfPieces(before);
      assert forall p :: p in pieces <==> p in before || p == last;
      if GroupsOf(pieces).Some? {
        LastGroup(before, last);
      }
    }
  }

  lemma LastGroup(before: seq<string>, last: string)
    requires GroupsOf(before + [last]).Some?
    ensures GroupsOf(before).Some? && (Trim(last) != "" ==> ParseFrom(Trim(last), 0).Some?)
    ensures GroupsOf(before + [last]).value
            == GroupsOf(before).value + if Trim(last) == "" then [] else [[ParseFrom(Trim(last), 0).value]]
  {
    hide ParseFrom, Trim;
    assert (before + [last])[..|before|] == before;
  }
}
