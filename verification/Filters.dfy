/** Filters, the conditions they stand for, and the in-memory matcher. */
module Filters {
  import opened Text
  import opened SqlTokens

  datatype Filter = Filter(column: string, op: string, value: string)

  const OPERATORS: seq<string> := ["eq", "neq", "gt", "gte", "lt", "lte", "like", "in", "is"]

  /** A cell of a row: nil, or a value known by the text it prints as. */
  datatype Value = Nil | Text(text: string)

  type Row = map<string, Value>

  /** The condition on one column that a filter stands for, as SQL words. */
  datatype Atom =
    | Compare(column: string, op: string, arg: Value)
    | OneOf(column: string, args: seq<Value>)
    | Is(column: string, word: string)

  function SqlOperator(op: string): string {
    match op
    case "neq" => "<>"
    case "gt" => ">"
    case "gte" => ">="
    case "lt" => "<"
    case "lte" => "<="
    case "like" => "LIKE"
    case _ => "="
  }

  /** The values of an `in` filter. */
  function InValues(value: string): (vs: seq<Value>)
    ensures |vs| >= 1
  {
    var parts := Split(value, ',');
    seq(|parts|, i requires 0 <= i < |parts| => Text(Trim(parts[i])))
  }

  /** An `is` value goes into the SQL as it stands, except for `null`. */
  function TestText(value: string): string {
    if value == "null" then "NULL" else value
  }

  predicate IsNot(word: string) {
    SameWord(word, "NOT")
  }

  /** The value is one word, or NOT and one word. */
  predicate SingleTest(value: string) {
    var ts := Lex(TestText(value));
    AllWords(ts) && ((|ts| == 1 && !IsNot(ts[0].word)) || (|ts| == 2 && IsNot(ts[0].word)))
  }

  function TestWord(value: string): string {
    if SingleTest(value) then
      var ts := Lex(TestText(value));
      if |ts| == 1 then ts[0].word else "NOT " + ts[1].word
    else value
  }

  function Meaning(f: Filter): Atom {
    if f.op == "in" then OneOf(f.column, InValues(f.value))
    else if f.op == "is" then Is(f.column, TestWord(f.value))
    else Compare(f.column, SqlOperator(f.op), Text(f.value))
  }

  /** The conjunction a list of filters asks for. */
  ghost predicate AllHold(fs: seq<Filter>, holds: Atom -> bool) {
    forall f :: f in fs ==> holds(Meaning(f))
  }

  // ---- The in-memory matcher. ----

  function Print(v: Value): string {
    match v
    case Nil => "<nil>"
    case Text(t) => t
  }

  /** strings.Trim(s, "%") */
  function TrimPercent(s: string): string {
    if s == "" then ""
    else if s[0] == '%' then TrimPercent(s[1..])
    else if s[|s| - 1] == '%' then TrimPercent(s[..|s| - 1])
    else s
  }

  predicate MatchFilter(row: Row, f: Filter) {
    var ok := f.column in row;
    var val := if ok then row[f.column] else Nil;
    var text := Print(val);
    match f.op
    case "eq" => ok && text == f.value
    case "neq" => !ok || text != f.value
    case "gt" => ok && Less(f.value, text)
    case "gte" => ok && !Less(text, f.value)
    case "lt" => ok && Less(text, f.value)
    case "lte" => ok && !Less(f.value, text)
    case "like" => ok && Contains(text, TrimPercent(f.value))
    case "in" => ok && exists part :: part in Split(f.value, ',') && text == Trim(part)
    case "is" => if f.value == "null" then !ok || val == Nil else ok && text == f.value
    case _ => ok && text == f.value
  }

  predicate MatchFilters(row: Row, fs: seq<Filter>) {
    forall f :: f in fs ==> MatchFilter(row, f)
  }

  predicate MatchQuery(row: Row, fs: seq<Filter>, groups: seq<seq<Filter>>) {
    if |groups| > 0 then exists g :: g in groups && MatchFilters(row, g)
    else MatchFilters(row, fs)
  }
}
