/** The WHERE compiler of the Postgres driver: the text it emits and the arguments that go with it. */
module Where {
  import opened Text
  import opened SqlTokens
  import opened Filters
  import R = Range

  // ---- The emitted text. ----

  function PlaceholderTexts(idx: nat, n: nat): seq<string> {
    seq(n, i requires 0 <= i < n => "$" + R.Decimal(idx + i))
  }

  /** The text of one filter whose first placeholder is $idx. */
  function FilterText(f: Filter, idx: nat): string {
    match f.op
    case "eq" => Quoted(f.column) + "=$" + R.Decimal(idx)
    case "in" => Quoted(f.column) + " IN (" + Join(PlaceholderTexts(idx, |InValues(f.value)|), ", ") + ")"
    case "is" => if f.value == "null" then Quoted(f.column) + " IS NULL" else Quoted(f.column) + " IS " + f.value
    case _ => Quoted(f.column) + " " + SqlOperator(f.op) + " $" + R.Decimal(idx)
  }

  function FilterArgs(f: Filter): seq<Value> {
    match Meaning(f)
    case Compare(_, _, arg) => [arg]
    case OneOf(_, args) => args
    case Is(_, _) => []
  }

  function Args(fs: seq<Filter>): seq<Value> {
    if fs == [] then [] else Args(fs[..|fs| - 1]) + FilterArgs(fs[|fs| - 1])
  }

  function Texts(fs: seq<Filter>, idx: nat): seq<string> {
    if fs == [] then []
    else
      var before := fs[..|fs| - 1];
      Texts(before, idx) + [FilterText(fs[|fs| - 1], idx + |Args(before)|)]
  }

  function GroupArgs(groups: seq<seq<Filter>>): seq<Value> {
    if groups == [] then [] else GroupArgs(groups[..|groups| - 1]) + Args(groups[|groups| - 1])
  }

  /** One parenthesised text for every group that has filters. */
  function GroupTexts(groups: seq<seq<Filter>>, idx: nat): seq<string> {
    if groups == [] then []
    else
      var before, g := groups[..|groups| - 1], groups[|groups| - 1];
      GroupTexts(before, idx)
      + if g == [] then [] else ["(" + Join(Texts(g, idx + |GroupArgs(before)|), " AND ") + ")"]
  }

  function OnlyIfAny<T>(ts: seq<T>): seq<seq<T>> {
    if ts == [] then [] else [ts]
  }

  /** The groups' disjunction, if any group has filters. */
  function OrText(groups: seq<seq<Filter>>, idx: nat): seq<string> {
    var ors := GroupTexts(groups, idx);
    if ors == [] then [] else ["(" + Join(ors, " OR ") + ")"]
  }

  function WhereText(fs: seq<Filter>, groups: seq<seq<Filter>>, idx: nat): string {
    Join(OnlyIfAny(Join(Texts(fs, idx), " AND ")) + OrText(groups, idx + |Args(fs)|), " AND ")
  }

  function WhereArgs(fs: seq<Filter>, groups: seq<seq<Filter>>): seq<Value> {
    Args(fs) + GroupArgs(groups)
  }

  // ---- The compiler. ----

  /** The body of buildWhere's loop: one filter. */
  method BuildFilter(f: Filter, start: nat) returns (part: string, args: seq<Value>)
    ensures part == FilterText(f, start)
    ensures args == FilterArgs(f)
  {
    hide Quoted, Lex, SingleTest, TestWord;
    var col := Quoted(f.column);
    match f.op
    case "eq" =>
      return col + "=$" + R.Decimal(start), [Text(f.value)];
    case "in" =>
      var vals := Split(f.value, ',');
      var placeholders: seq<string> := [];
      args := [];
      var idx := start;
      for i := 0 to |vals|
        invariant idx == start + i
        invariant placeholders == PlaceholderTexts(start, i)
        invariant args == InValues(f.value)[..i]
      {
        placeholders := placeholders + ["$" + R.Decimal(idx)];
        args := args + [Text(Trim(vals[i]))];
        idx := idx + 1;
      }
      part := col + " IN (" + Join(placeholders, ", ") + ")";
    case "is" =>
      if f.value == "null" {
        return col + " IS NULL", [];
      }
      return col + " IS " + f.value, [];
    case _ =>
      return col + " " + SqlOperator(f.op) + " $" + R.Decimal(start), [Text(f.value)];
  }

  /** buildWhere */
  method BuildWhere(fs: seq<Filter>, start: nat) returns (text: string, args: seq<Value>)
    ensures text == Join(Texts(fs, start), " AND ")
    ensures args == Args(fs)
  {
    hide FilterText, FilterArgs;
    if |fs| == 0 {
      return "", [];
    }
    var parts: seq<string> := [];
    args := [];
    var idx := start;
    for n := 0 to |fs|
      invariant idx == start + |args|
      invariant parts == Texts(fs[..n], start)
      invariant args == Args(fs[..n])
    {
      assert fs[..n + 1][..n] == fs[..n];
      var part, a := BuildFilter(fs[n], idx);
      parts := parts + [part];
      args := args + a;
      idx := idx + |a|;
    }
    assert fs[..|fs|] == fs;
    text := Join(parts, " AND ");
  }

  lemma FilterTextNotEmpty(f: Filter, idx: nat)
    ensures FilterText(f, idx) != ""
  {
    hide R.Decimal, Join, Escape;
  }

  lemma TextEmpty(fs: seq<Filter>, idx: nat)
    ensures Join(Texts(fs, idx), " AND ") == "" <==> fs == []
    ensures fs == [] ==> Args(fs) == [] && Texts(fs, idx) == []
  {
    hide FilterText, FilterArgs;
    if fs != [] {
      var before := fs[..|fs| - 1];
      FilterTextNotEmpty(fs[|fs| - 1], idx + |Args(before)|);
      JoinSnoc(Texts(before, idx), FilterText(fs[|fs| - 1], idx + |Args(before)|), " AND ");
    }
  }

  /** The part of whereClause that joins the OR groups: no text, or one. */
  method BuildOr(groups: seq<seq<Filter>>, start: nat) returns (parts: seq<string>, args: seq<Value>)
    ensures parts == OrText(groups, start)
    ensures args == GroupArgs(groups)
  {
    hide Texts, Args, Join;
    var ors: seq<string> := [];
    args := [];
    var idx := start;
    for n := 0 to |groups|
      invariant idx == start + |args|
      invariant ors == GroupTexts(groups[..n], start)
      invariant args == GroupArgs(groups[..n])
    {
      var group := groups[n];
      assert groups[..n + 1][..n] == groups[..n];
      var w, a := BuildWhere(group, idx);
      TextEmpty(group, idx);
      if w != "" {
        ors := ors + ["(" + w + ")"];
        args := args + a;
        idx := idx + |a|;
      }
    }
    assert groups[..|groups|] == groups;
    parts := if |ors| > 0 then ["(" + Join(ors, " OR ") + ")"] else [];
  }

  /** whereClause */
  method WhereClause(fs: seq<Filter>, groups: seq<seq<Filter>>, start: nat) returns (text: string, args: seq<Value>)
    ensures text == WhereText(fs, groups, start)
    ensures args == WhereArgs(fs, groups)
  {
    hide Texts, Args, Join, OrText, GroupArgs;
    var w, a := BuildWhere(fs, start);
    var ors, b := BuildOr(groups, start + |a|);
    text := Join(OnlyIfAny(w) + ors, " AND ");
    args := a + b;
  }
}
