/** Filters as URL query values: printing them, parsing them back, and splitting OR lists. */
module Query {
  import opened Text
  import opened Filters

  type Values = map<string, seq<string>>

  const RESERVED: set<string> := {"select", "order", "limit", "offset", "or", "and"}

  // ---- Plain filters: column=op.value ----

  function Printed(f: Filter): string {
    f.op + "." + f.value
  }

  function PrintedAll(fs: seq<Filter>): Values {
    if fs == [] then map[]
    else PrintedAll(fs[..|fs| - 1])[fs[|fs| - 1].column := [Printed(fs[|fs| - 1])]]
  }

  method FiltersToQueryValues(fs: seq<Filter>) returns (q: Values)
    ensures q == PrintedAll(fs)
  {
    q := map[];
    for i := 0 to |fs|
      invariant q == PrintedAll(fs[..i])
    {
      assert fs[..i + 1][..i] == fs[..i];
      q := q[fs[i].column := [fs[i].op + "." + fs[i].value]];
    }
    assert fs[..|fs|] == fs;
  }

  function ParseFilter(column: string, raw: string): Filter {
    match Index(raw, ".")
    case None => Filter(column, "eq", raw)
    case Some(dot) =>
      if dot > 0 && raw[..dot] in OPERATORS then Filter(column, raw[..dot], raw[dot + 1..])
      else Filter(column, "eq", raw)
  }

  ghost predicate ParsedFrom(f: Filter, values: Values) {
    var k := f.column;
    k in values && k !in RESERVED && values[k] != [] && f == ParseFilter(k, values[k][0])
  }

  function ParsedFilters(values: Values): set<Filter> {
    set k | k in values && k !in RESERVED && values[k] != [] :: ParseFilter(k, values[k][0])
  }

  /** The filter loop of ParseQuery, over the keys in whatever order the map is iterated. */
  method ParseFilters(values: Values) returns (fs: seq<Filter>)
    ensures (set f | f in fs) == ParsedFilters(values)
    ensures forall i, j :: 0 <= i < j < |fs| ==> fs[i].column != fs[j].column
  {
    fs := [];
    var rest := values;
    while rest != map[]
      invariant forall k :: k in rest ==> k in values && rest[k] == values[k]
      invariant forall k :: k in values && k !in rest && k !in RESERVED && values[k] != []
                            ==> ParseFilter(k, values[k][0]) in fs
      invariant forall f :: f in fs ==> f.column !in rest && ParsedFrom(f, values)
      invariant forall i, j :: 0 <= i < j < |fs| ==> fs[i].column != fs[j].column
      decreases |rest|
    {
      var k :| k in rest;
      var vals := rest[k];
      if !(k in RESERVED || |vals| == 0) {
        fs := fs + [ParseFilter(k, vals[0])];
      }
      rest := rest - {k};
    }
  }

  lemma KnownOperatorHasNoDot(op: string)
    requires op in OPERATORS
    ensures '.' !in op && op != ""
  {
  }

  /** The first dot of a printed filter ends its operator. */
  lemma PrintedParses(f: Filter)
    requires f.op in OPERATORS
    ensures ParseFilter(f.column, Printed(f)) == f
  {
    KnownOperatorHasNoDot(f.op);
    var raw := Printed(f);
    assert raw[..|f.op|] == f.op;
    IndexOfChar(raw, '.', |f.op|);
  }

  /** Different filters never share a column, no column is reserved, every operator is known. */
  ghost predicate Printable(fs: seq<Filter>) {
    && (forall f :: f in fs ==> f.op in OPERATORS && f.column !in RESERVED)
    && (forall f, g :: f in fs && g in fs && f.column == g.column ==> f == g)
  }

  lemma {:induction false} PrintedValues(fs: seq<Filter>)
    ensures forall f :: f in fs ==> f.column in PrintedAll(fs)
    ensures forall k :: k in PrintedAll(fs) ==>
              exists f :: f in fs && f.column == k && PrintedAll(fs)[k] == [Printed(f)]
  {
    if fs != [] {
      var before, last := fs[..|fs| - 1], fs[|fs| - 1];
      assert fs == before + [last];
      PrintedValues(before);
    }
  }

  lemma PrintableSurvive(fs: seq<Filter>)
    requires Printable(fs)
    ensures ParsedFilters(PrintedAll(fs)) == (set f | f in fs)
  {
    hide ParseFilter, Printed;
    PrintedValues(fs);
    var q := PrintedAll(fs);
    forall k | k in q
      ensures ParseFilter(k, q[k][0]) in fs
    {
      var f :| f in fs && f.column == k && q[k] == [Printed(f)];
      PrintedParses(f);
    }
    forall f | f in fs
      ensures f in ParsedFilters(q)
    {
      var g :| g in fs && g.column == f.column && q[f.column] == [Printed(g)];
      PrintedParses(f);
    }
  }

  lemma ParsedIsKnown(f: Filter, values: Values)
    requires f in ParsedFilters(values)
    ensures f.op in OPERATORS && f.column !in RESERVED && ParsedFrom(f, values)
  {
  }

  /** Printing filters and parsing them back returns the same filters exactly when they are printable. */
  lemma FiltersSurviveExactlyWhenPrintable(fs: seq<Filter>)
    ensures ParsedFilters(PrintedAll(fs)) == (set f | f in fs) <==> Printable(fs)
  {
    hide ParsedFilters, ParseFilter, Printed;
    if Printable(fs) {
      PrintableSurvive(fs);
    } else if ParsedFilters(PrintedAll(fs)) == (set f | f in fs) {
      forall f | f in fs
        ensures f.op in OPERATORS && f.column !in RESERVED && ParsedFrom(f, PrintedAll(fs))
      {
        assert f in (set g | g in fs);
        ParsedIsKnown(f, PrintedAll(fs));
      }
      assert false;
    }
  }

  /** A value that does not begin with a known operator and a dot is compared for equality, dots and all: `a@b.com`
      is. */
  lemma ValueWithoutOperator(column: string, raw: string)
    requires forall op :: op in OPERATORS ==> !HasPrefix(raw, op + ".")
    ensures ParseFilter(column, raw) == Filter(column, "eq", raw)
  {
    var dot := Index(raw, ".");
    if dot.Some? && dot.value > 0 {
      assert raw[dot.value..dot.value + 1] == ".";
      assert raw[0..dot.value + 1] == raw[..dot.value] + ".";
      assert HasPrefix(raw, raw[..dot.value] + ".");
    }
  }

  /** The operators, in the order in which an OR expression is searched for them. */
  lemma OperatorsInOrder()
    ensures OPERATORS == ["eq", "neq", "gt", "gte", "lt", "lte", "like", "in", "is"]
    ensures forall op :: op in OPERATORS <==> op in {"eq", "neq", "gt", "gte", "lt", "lte", "like", "in", "is"}
  {
    assert OPERATORS[0] == "eq" && OPERATORS[1] == "neq" && OPERATORS[2] == "gt" && OPERATORS[3] == "gte";
    assert OPERATORS[4] == "lt" && OPERATORS[5] == "lte" && OPERATORS[6] == "like" && OPERATORS[7] == "in";
    assert OPERATORS[8] == "is";
  }

  lemma ValueWithOperator(column: string, op: string, value: string)
    requires op in {"eq", "neq", "gt", "gte", "lt", "lte", "like", "in", "is"}
    ensures ParseFilter(column, op + "." + value) == Filter(column, op, value)
  {
    OperatorsInOrder();
    PrintedParses(Filter(column, op, value));
  }

  /** There is one filter for each parameter that has a value and is not reserved, and it is that of the first value. */
  lemma ParsedFiltersAre(values: Values, f: Filter)
    ensures f in ParsedFilters(values)
            <==> && f.column in values && values[f.column] != []
                 && f.column !in {"select", "order", "limit", "offset", "or", "and"}
                 && f == ParseFilter(f.column, values[f.column][0])
  {
    hide ParseFilter;
    assert forall k, raw :: ParseFilter(k, raw).column == k by { ColumnIsKept(); }
  }

  lemma ColumnIsKept()
    ensures forall k, raw :: ParseFilter(k, raw).column == k
  {
  }
}
