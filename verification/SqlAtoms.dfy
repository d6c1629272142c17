/** What SQL makes of a condition on a row of text columns, and when the in-memory matcher makes the same of it. */
module SqlAtoms {
  import opened Text
  import opened SqlTokens
  import opened Filters

  // ---- SQL. ----

  /** LIKE: % is any text, _ any character, and a backslash takes the next character as it is. */
  predicate LikeMatch(t: string, p: string)
    decreases |p|, |t|
  {
    if p == "" then t == ""
    else if p[0] == '%' then LikeMatch(t, p[1..]) || (t != "" && LikeMatch(t[1..], p))
    else if p[0] == '_' then t != "" && LikeMatch(t[1..], p[1..])
    else if p[0] == '\\' then |p| > 1 && t != "" && t[0] == p[1] && LikeMatch(t[1..], p[2..])
    else t != "" && t[0] == p[0] && LikeMatch(t[1..], p[1..])
  }

  /** IS, on NULL or the text of a truth value; with any other word there is no such test. */
  predicate TestHolds(cell: Value, word: string) {
    if SameWord(word, "NULL") || SameWord(word, "UNKNOWN") then cell == Nil
    else if SameWord(word, "NOT NULL") || SameWord(word, "NOT UNKNOWN") then cell != Nil
    else if SameWord(word, "TRUE") then cell == Text("true")
    else if SameWord(word, "NOT TRUE") then cell != Text("true")
    else if SameWord(word, "FALSE") then cell == Text("false")
    else SameWord(word, "NOT FALSE") && cell != Text("false")
  }

  /** Whether SQL takes the condition for true of the row. A column the row lacks is NULL, and no comparison with NULL
      is true. */
  predicate SqlHolds(row: Row, a: Atom) {
    var cell := if a.column in row then row[a.column] else Nil;
    match a
    case Is(_, word) => TestHolds(cell, word)
    case OneOf(_, args) => cell != Nil && cell in args
    case Compare(_, op, arg) =>
      cell.Text? && arg.Text? &&
      match op
      case "<>" => cell.text != arg.text
      case ">" => Less(arg.text, cell.text)
      case ">=" => !Less(cell.text, arg.text)
      case "<" => Less(cell.text, arg.text)
      case "<=" => !Less(arg.text, cell.text)
      case "LIKE" => LikeMatch(cell.text, arg.text)
      case _ => cell.text == arg.text
  }

  // ---- LIKE and Contains. ----

  predicate Special(c: char) {
    c == '%' || c == '_' || c == '\\'
  }

  predicate Literal(s: string) {
    forall i :: 0 <= i < |s| ==> !Special(s[i])
  }

  function Percents(n: nat): string {
    seq(n, _ => '%')
  }

  lemma {:induction false} TrimSplits(v: string) returns (i: nat, j: nat)
    ensures v == Percents(i) + TrimPercent(v) + Percents(j)
    ensures TrimPercent(v) != "" ==> TrimPercent(v)[0] != '%' && TrimPercent(v)[|TrimPercent(v)| - 1] != '%'
  {
    if v == "" {
      i, j := 0, 0;
    } else if v[0] == '%' {
      i, j := TrimSplits(v[1..]);
      PercentInFront(v, i, TrimPercent(v), j);
      i := i + 1;
    } else if v[|v| - 1] == '%' {
      i, j := TrimSplits(v[..|v| - 1]);
      PercentBehind(v, i, TrimPercent(v), j);
      j := j + 1;
    } else {
      i, j := 0, 0;
      assert Percents(0) + v + Percents(0) == v;
    }
  }

  lemma PercentInFront(v: string, i: nat, core: string, j: nat)
    requires v != "" && v[0] == '%' && v[1..] == Percents(i) + core + Percents(j)
    ensures v == Percents(i + 1) + core + Percents(j)
  {
    assert v == ['%'] + v[1..] && Percents(i + 1) == ['%'] + Percents(i);
  }

  lemma PercentBehind(v: string, i: nat, core: string, j: nat)
    requires v != "" && v[|v| - 1] == '%' && v[..|v| - 1] == Percents(i) + core + Percents(j)
    ensures v == Percents(i) + core + Percents(j + 1)
  {
    assert v == v[..|v| - 1] + ['%'] && Percents(j + 1) == Percents(j) + ['%'];
  }

  lemma {:induction false} PercentsMatchAll(t: string, j: nat)
    ensures LikeMatch(t, Percents(j)) <==> j > 0 || t == ""
    decreases j
  {
    if j > 0 {
      assert Percents(j)[1..] == Percents(j - 1);
      if j == 1 {
        OnePercent(t);
      } else {
        PercentsMatchAll(t, j - 1);
      }
    }
  }

  lemma {:induction false} OnePercent(t: string)
    ensures LikeMatch(t, Percents(1))
  {
    assert Percents(1)[1..] == "";
    if t != "" {
      OnePercent(t[1..]);
    }
  }

  lemma {:induction false} LiteralMatches(t: string, core: string, p: string)
    requires Literal(core)
    ensures LikeMatch(t, core + p) <==> HasPrefix(t, core) && LikeMatch(t[|core|..], p)
    decreases |core|
  {
    if core == "" {
      assert core + p == p && t[0..] == t;
    } else {
      var q := core + p;
      assert q[0] == core[0] && !Special(core[0]) && q[1..] == core[1..] + p;
      if t != "" {
        LiteralMatches(t[1..], core[1..], p);
        PrefixTail(t, core);
      }
    }
  }

  lemma PrefixTail(t: string, core: string)
    requires t != "" && core != ""
    ensures HasPrefix(t, core) <==> t[0] == core[0] && HasPrefix(t[1..], core[1..])
    ensures HasPrefix(t, core) ==> t[|core|..] == t[1..][|core[1..]|..]
  {
    if |core| <= |t| {
      assert t[0..|core|] == [t[0]] + t[1..][0..|core| - 1];
      assert core == [core[0]] + core[1..];
    }
  }

  /** After leading percent signs, the rest may match anywhere. */
  lemma {:induction false} LeadingPercents(t: string, i: nat, q: string)
    requires i > 0
    ensures LikeMatch(t, Percents(i) + q) <==> exists k :: 0 <= k <= |t| && LikeMatch(t[k..], q)
    decreases i, |t|
  {
    var p := Percents(i) + q;
    assert p[0] == '%' && p[1..] == Percents(i - 1) + q;
    if i == 1 {
      assert p[1..] == q && t[0..] == t;
    } else {
      LeadingPercents(t, i - 1, q);
    }
    if t != "" {
      LeadingPercents(t[1..], i, q);
      assert forall k :: 0 <= k <= |t| - 1 ==> t[1..][k..] == t[k + 1..];
      if k :| 0 <= k <= |t| && LikeMatch(t[k..], q) {
        if k > 0 {
          assert t[1..][k - 1..] == t[k..];
        } else {
          assert t[0..] == t;
        }
      }
    } else {
      assert t[0..] == t;
    }
  }

  /** Between percent signs, a literal matches where it is contained. */
  lemma LiteralBetween(t: string, i: nat, core: string, j: nat)
    requires i > 0 && j > 0 && Literal(core)
    ensures LikeMatch(t, Percents(i) + core + Percents(j)) <==> Contains(t, core)
  {
    hide LikeMatch;
    var q := core + Percents(j);
    assert Percents(i) + core + Percents(j) == Percents(i) + q;
    LeadingPercents(t, i, q);
    forall k | 0 <= k <= |t|
      ensures LikeMatch(t[k..], q) <==> OccursAt(t, core, k)
    {
      LiteralMatches(t[k..], core, Percents(j));
      if HasPrefix(t[k..], core) {
        PercentsMatchAll(t[k..][|core|..], j);
      }
      OccursInTail(t, core, k);
    }
  }

  lemma OccursInTail(t: string, core: string, k: nat)
    requires k <= |t|
    ensures HasPrefix(t[k..], core) <==> OccursAt(t, core, k)
  {
    if k + |core| <= |t| {
      assert t[k..][0..|core|] == t[k..k + |core|];
    }
  }

  // ---- Patterns that are more than a literal between percent signs. ----

  /** A pattern that ends in the middle of an escape. */
  predicate Dangling(p: string) {
    p != "" && if p[0] == '\\' then |p| == 1 || Dangling(p[2..]) else Dangling(p[1..])
  }

  lemma {:induction false} DanglingNeverMatches(t: string, p: string)
    requires Dangling(p)
    ensures !LikeMatch(t, p)
    decreases |p|, |t|
  {
    if p[0] == '%' {
      DanglingNeverMatches(t, p[1..]);
      if t != "" {
        DanglingNeverMatches(t[1..], p);
      }
    } else if t != "" {
      if p[0] == '\\' {
        if |p| > 1 {
          DanglingNeverMatches(t[1..], p[2..]);
        }
      } else {
        DanglingNeverMatches(t[1..], p[1..]);
      }
    }
  }

  /** The shortest text the pattern matches, with an x for every underscore. */
  function Shortest(p: string): string {
    if p == "" then ""
    else if p[0] == '%' then Shortest(p[1..])
    else if p[0] == '_' then "x" + Shortest(p[1..])
    else if p[0] == '\\' then if |p| == 1 then "" else [p[1]] + Shortest(p[2..])
    else [p[0]] + Shortest(p[1..])
  }

  lemma {:induction false} ShortestMatches(p: string)
    requires !Dangling(p)
    ensures LikeMatch(Shortest(p), p)
    decreases |p|
  {
    if p != "" {
      var s := Shortest(p);
      if p[0] == '%' {
        ShortestMatches(p[1..]);
      } else if p[0] == '\\' {
        ShortestMatches(p[2..]);
        assert s[1..] == Shortest(p[2..]);
      } else {
        ShortestMatches(p[1..]);
        assert s[1..] == Shortest(p[1..]);
      }
    }
  }

  lemma {:induction false} ShortestOfPercents(j: nat)
    ensures Shortest(Percents(j)) == ""
  {
    if j > 0 {
      assert Percents(j)[1..] == Percents(j - 1);
      ShortestOfPercents(j - 1);
    }
  }

  /** It is no longer than the pattern without its last percent signs, and not the same text if there is anything
      special. */
  lemma {:induction false} ShortestIsShorter(p: string, j: nat)
    requires !Dangling(p + Percents(j))
    ensures |Shortest(p + Percents(j))| <= |p|
    ensures !Literal(p) ==> Shortest(p + Percents(j)) != p
    decreases |p|
  {
    var q := p + Percents(j);
    if p == "" {
      assert q == Percents(j);
      ShortestOfPercents(j);
    } else {
      assert q[0] == p[0];
      if p[0] == '\\' {
        if |p| == 1 {
          assert q[1..] == Percents(j);
          assert j > 0 && q[2..] == Percents(j - 1);
          ShortestOfPercents(j - 1);
          assert Shortest(q) == ['%'] + "";
        } else {
          assert q[2..] == p[2..] + Percents(j);
          ShortestIsShorter(p[2..], j);
        }
      } else {
        assert q[1..] == p[1..] + Percents(j);
        ShortestIsShorter(p[1..], j);
        assert p == [p[0]] + p[1..];
        LiteralTail(p);
      }
    }
  }

  lemma LiteralTail(p: string)
    requires p != ""
    ensures Literal(p) <==> !Special(p[0]) && Literal(p[1..])
  {
    if !Special(p[0]) && Literal(p[1..]) {
      assert forall i :: 1 <= i < |p| ==> p[i] == p[1..][i - 1];
    }
  }

  // ---- Which filters mean the same to both. ----

  const NIL := "<nil>"

  /** The pattern is some literal text between percent signs, and nothing that `<nil>` contains. */
  predicate PlainPattern(v: string) {
    var core := TrimPercent(v);
    && core != "" && Literal(core) && !Contains(NIL, core)
    && v[0] == '%' && v[|v| - 1] == '%'
  }

  /** The matcher prints a NULL cell as `<nil>` and compares that: the value must not be one that `<nil>` meets. */
  predicate AgreesWithSql(f: Filter) {
    match f.op
    case "neq" => false
    case "gt" => !Less(f.value, NIL)
    case "gte" => Less(NIL, f.value)
    case "lt" => !Less(NIL, f.value)
    case "lte" => Less(f.value, NIL)
    case "like" => PlainPattern(f.value)
    case "in" => forall part :: part in Split(f.value, ',') ==> Trim(part) != NIL
    case "is" => f.value in {"null", "true", "false"}
    case _ => f.value != NIL
  }

  ghost predicate AgreeOn(row: Row, f: Filter) {
    MatchFilter(row, f) <==> SqlHolds(row, Meaning(f))
  }

  /** The matcher finds what SQL would, on every row, exactly for those filters. */
  lemma MatcherAgreesExactlyWhen(f: Filter)
    ensures (forall row :: AgreeOn(row, f)) <==> AgreesWithSql(f)
  {
    hide AgreeOn, AgreesWithSql;
    if AgreesWithSql(f) {
      forall row
        ensures AgreeOn(row, f)
      {
        AgreedFilterAgrees(row, f);
      }
    } else {
      var row := Disagreement(f);
    }
  }

  lemma AgreedFilterAgrees(row: Row, f: Filter)
    requires AgreesWithSql(f)
    ensures AgreeOn(row, f)
  {
    if f.op == "like" {
      AgreedLike(row, f);
    } else if f.op == "in" {
      AgreedIn(row, f);
    } else if f.op == "is" {
      AgreedIs(row, f);
    } else {
      AgreedComparison(row, f);
    }
  }

  lemma Disagreement(f: Filter) returns (row: Row)
    requires !AgreesWithSql(f)
    ensures !AgreeOn(row, f)
  {
    if f.op == "like" {
      row := LikeDisagreement(f);
    } else if f.op == "in" {
      row := map[f.column := Nil];
      NilMatchesIn(f);
    } else if f.op == "is" {
      row := IsDisagreement(f);
    } else {
      row := ComparisonDisagreement(f);
    }
  }

  // ---- Comparisons. ----

  predicate Comparison(f: Filter) {
    f.op != "like" && f.op != "in" && f.op != "is"
  }

  lemma AgreedComparison(row: Row, f: Filter)
    requires Comparison(f) && AgreesWithSql(f)
    ensures AgreeOn(row, f)
  {
    hide Less, Contains, Split, TrimPercent, TestWord, InValues, LikeMatch;
  }

  lemma ComparisonDisagreement(f: Filter) returns (row: Row)
    requires Comparison(f) && !AgreesWithSql(f)
    ensures !AgreeOn(row, f)
  {
    hide Less, Contains, Split, TrimPercent, TestWord, InValues, LikeMatch;
    row := map[f.column := Nil];
    if f.op == "neq" {
      row := map[];
    }
  }

  // ---- `in`. ----

  lemma ValueIsPart(value: string, i: nat)
    requires i < |Split(value, ',')|
    ensures i < |InValues(value)| && InValues(value)[i] == Text(Trim(Split(value, ',')[i]))
  {
    hide Trim, Split;
  }

  lemma ValueCount(value: string)
    ensures |InValues(value)| == |Split(value, ',')|
  {
    hide Trim, Split;
  }

  /** A text is one of the values exactly when it is one of the pieces, trimmed. */
  lemma InMatchesOneOf(value: string, text: string)
    ensures (exists part :: part in Split(value, ',') && text == Trim(part)) <==> Text(text) in InValues(value)
  {
    hide Trim, Split, InValues;
    var parts, values := Split(value, ','), InValues(value);
    ValueCount(value);
    if part :| part in parts && text == Trim(part) {
      var i :| 0 <= i < |parts| && parts[i] == part;
      ValueIsPart(value, i);
    }
    if Text(text) in values {
      var i :| 0 <= i < |values| && values[i] == Text(text);
      ValueIsPart(value, i);
      assert parts[i] in parts && text == Trim(parts[i]);
    }
  }

  lemma AgreedIn(row: Row, f: Filter)
    requires f.op == "in" && AgreesWithSql(f)
    ensures AgreeOn(row, f)
  {
    hide Trim, Split, InValues;
    if f.column in row {
      InMatchesOneOf(f.value, Print(row[f.column]));
    }
  }

  lemma NilMatchesIn(f: Filter)
    requires f.op == "in" && !AgreesWithSql(f)
    ensures !AgreeOn(map[f.column := Nil], f)
  {
    hide Trim, Split, InValues;
    var row: Row := map[f.column := Nil];
    var part :| part in Split(f.value, ',') && Trim(part) == NIL;
    assert MatchFilter(row, f);
    assert row[f.column] == Nil;
  }

  // ---- `is`. ----

  lemma KnownTests(value: string)
    requires value in {"null", "true", "false"}
    ensures TestWord(value) == if value == "null" then "NULL" else value
  {
    var text := TestText(value);
    LexWord(text, "");
    LexEmpty();
    assert text + "" == text;
    assert Lex(text) == [Word(text)];
  }

  lemma AgreedIs(row: Row, f: Filter)
    requires f.op == "is" && AgreesWithSql(f)
    ensures AgreeOn(row, f)
  {
    hide TestWord;
    KnownTests(f.value);
    var word := TestWord(f.value);
    assert word == "NULL" || word == "true" || word == "false";
  }

  lemma IsDisagreement(f: Filter) returns (row: Row)
    requires f.op == "is" && !AgreesWithSql(f)
    ensures !AgreeOn(row, f)
  {
    hide TestWord, SameWord;
    var word := TestWord(f.value);
    if TestHolds(Nil, word) {
      row := map[];
    } else if SameWord(word, "NOT NULL") || SameWord(word, "NOT UNKNOWN") {
      row := map[f.column := Text(f.value + "x")];
    } else if SameWord(word, "TRUE") {
      row := map[f.column := Text("true")];
    } else if SameWord(word, "FALSE") {
      row := map[f.column := Text("false")];
    } else {
      row := map[f.column := Text(f.value)];
    }
  }

  // ---- `like`. ----

  lemma AgreedLike(row: Row, f: Filter)
    requires f.op == "like" && AgreesWithSql(f)
    ensures AgreeOn(row, f)
  {
    hide LikeMatch, Contains, TrimPercent, Literal;
    if f.column in row && row[f.column].Text? {
      var core := TrimPercent(f.value);
      var i, j := TrimSplits(f.value);
      EndsInPercents(f.value, i, core, j);
      LiteralBetween(row[f.column].text, i, core, j);
    }
  }

  lemma EndsInPercents(v: string, i: nat, core: string, j: nat)
    requires v == Percents(i) + core + Percents(j) && core != ""
    requires core[0] != '%' && core[|core| - 1] != '%'
    ensures v[0] == '%' <==> i > 0
    ensures v[|v| - 1] == '%' <==> j > 0
  {
    if i == 0 {
      assert v[0] == core[0];
    }
    if j == 0 {
      assert v[|v| - 1] == core[|core| - 1];
    }
  }

  lemma LikeIs(f: Filter, cell: Value)
    requires f.op == "like"
    ensures MatchFilter(map[f.column := cell], f) <==> Contains(Print(cell), TrimPercent(f.value))
    ensures SqlHolds(map[f.column := cell], Meaning(f)) <==> cell.Text? && LikeMatch(cell.text, f.value)
  {
    hide LikeMatch, Contains, TrimPercent;
    assert SqlOperator("like") == "LIKE";
  }

  lemma ContainsAt(t: string, part: string, k: nat)
    requires OccursAt(t, part, k)
    ensures Contains(t, part)
  {
  }

  lemma ContainedIsNoLonger(t: string, part: string)
    requires Contains(t, part)
    ensures |part| < |t| || part == t
  {
  }

  /** Where `like` goes wrong: a NULL cell, a text longer at an end without a percent sign, and the shortest text a
      pattern with special characters matches. */
  lemma LikeDisagreement(f: Filter) returns (row: Row)
    requires f.op == "like" && !AgreesWithSql(f)
    ensures !AgreeOn(row, f)
  {
    hide LikeMatch, TrimPercent, Contains, Literal;
    var v := f.value;
    var core := TrimPercent(v);
    var cell: Value := Nil;
    if core != "" && !Contains(NIL, core) {
      var i, j := TrimSplits(v);
      EndsInPercents(v, i, core, j);
      var t := TextThatDiffers(v, i, core, j);
      cell := Text(t);
    } else if core == "" {
      ContainsAt(NIL, core, 0);
    }
    LikeIs(f, cell);
    row := map[f.column := cell];
  }

  /** Every pattern other than a literal between percent signs matches a text without the core, or misses one with it.
      */
  lemma TextThatDiffers(v: string, i: nat, core: string, j: nat) returns (t: string)
    requires v == Percents(i) + core + Percents(j) && core != ""
    requires !Literal(core) || i == 0 || j == 0
    ensures LikeMatch(t, v) != Contains(t, core)
  {
    hide LikeMatch, Contains, Literal;
    if Dangling(v) {
      t := core;
      DanglingNeverMatches(t, v);
      ContainsAt(t, core, 0);
    } else if !Literal(core) {
      t := Shortest(v);
      ShortestMatches(v);
      ShortestBetween(v, i, core, j);
      if Contains(t, core) {
        ContainedIsNoLonger(t, core);
      }
    } else if i == 0 {
      var y := if core[0] == 'y' then 'z' else 'y';
      t := [y] + core;
      assert t[1..1 + |core|] == core;
      ContainsAt(t, core, 1);
      assert v == core + Percents(j);
      LiteralMatches(t, core, Percents(j));
      assert t[0..|core|][0] == y;
    } else {
      var y := if core[|core| - 1] == 'y' then 'z' else 'y';
      t := core + [y];
      assert t[0..|core|] == core;
      ContainsAt(t, core, 0);
      LiteralNeedsEnd(i, core, y);
      assert v == Percents(i) + core;
    }
  }

  lemma ShortestBetween(v: string, i: nat, core: string, j: nat)
    requires v == Percents(i) + core + Percents(j) && !Dangling(v) && !Literal(core)
    ensures |Shortest(v)| <= |core| && Shortest(v) != core
  {
    ShortestAfterPercents(i, core + Percents(j));
    assert v == Percents(i) + (core + Percents(j));
    ShortestIsShorter(core, j);
  }

  lemma {:induction false} ShortestAfterPercents(i: nat, q: string)
    ensures Shortest(Percents(i) + q) == Shortest(q)
    ensures Dangling(Percents(i) + q) <==> Dangling(q)
  {
    var p := Percents(i) + q;
    if i > 0 {
      assert p[0] == '%' && p[1..] == Percents(i - 1) + q;
      ShortestAfterPercents(i - 1, q);
    } else {
      assert p == q;
    }
  }

  /** A literal at the end of a pattern has to be at the end of the text. */
  lemma LiteralNeedsEnd(i: nat, core: string, y: char)
    requires i > 0 && core != "" && Literal(core) && y != core[|core| - 1]
    ensures !LikeMatch(core + [y], Percents(i) + core)
  {
    hide LikeMatch, Literal;
    var t := core + [y];
    LeadingPercents(t, i, core);
    forall k | 0 <= k <= |t|
      ensures !LikeMatch(t[k..], core)
    {
      assert core + "" == core;
      LiteralMatches(t[k..], core, "");
      if HasPrefix(t[k..], core) {
        PercentsMatchAll(t[k..][|core|..], 0);
        assert k <= 1 && t[k..][|core| - 1] == core[|core| - 1];
        assert Percents(0) == "";
      }
    }
  }

  // ---- Four rows on which the two differ. ----

  function OneCell(t: string): Row {
    map["c" := Text(t)]
  }

  lemma FourDifferences()
    ensures MatchFilter(OneCell("xabcx"), Filter("c", "like", "abc"))
            && !SqlHolds(OneCell("xabcx"), Meaning(Filter("c", "like", "abc")))
    ensures !MatchFilter(OneCell("ab"), Filter("c", "like", "a%b"))
            && SqlHolds(OneCell("ab"), Meaning(Filter("c", "like", "a%b")))
    ensures MatchFilter(map["c" := Nil], Filter("c", "neq", "a"))
            && !SqlHolds(map["c" := Nil], Meaning(Filter("c", "neq", "a")))
    ensures MatchFilter(map["c" := Nil], Filter("c", "eq", NIL))
            && !SqlHolds(map["c" := Nil], Meaning(Filter("c", "eq", NIL)))
  {
    hide LikeMatch, Contains, TrimPercent;
    LikeIs(Filter("c", "like", "abc"), Text("xabcx"));
    LikeIs(Filter("c", "like", "a%b"), Text("ab"));
    AbcOnXabcx();
    AnyBetween();
  }

  lemma AbcOnXabcx()
    ensures Contains("xabcx", TrimPercent("abc")) && !LikeMatch("xabcx", "abc")
  {
    assert OccursAt("xabcx", "abc", 1);
    ContainsAt("xabcx", "abc", 1);
  }

  lemma AnyBetween()
    ensures !Contains("ab", TrimPercent("a%b")) && LikeMatch("ab", "a%b")
  {
    var p := "a%b";
    assert p[1..] == "%b" && "%b"[1..] == "b" && "ab"[1..] == "b" && "b"[1..] == "";
    assert LikeMatch("b", "b");
    assert LikeMatch("b", "%b");
  }
}
