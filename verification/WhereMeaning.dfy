/** What a WHERE clause means: a parser in which AND binds tighter than OR, an evaluator with $k bound to the
    k-th argument, and the proof that the compiled clause means the filters it was compiled from. */
module WhereMeaning {
  import opened Text
  import opened SqlTokens
  import opened Filters
  import opened Where
  import opened WhereTokens

  datatype Expr =
    | Condition(column: string, op: string, index: nat)
    | Member(column: string, indices: seq<nat>)
    | Test(column: string, word: string)
    | Both(left: Expr, right: Expr)
    | Either(left: Expr, right: Expr)

  type Parse<!T> = Option<(T, seq<Token>)>

  /** OR-separated terms. */
  function ParseOr(ts: seq<Token>): (r: Parse<Expr>)
    ensures r.Some? ==> |r.value.1| < |ts|
    decreases |ts|, 2
  {
    match ParseAnd(ts)
    case None => None
    case Some((e, rest)) =>
      if rest != [] && rest[0] == Or then
        match ParseOr(rest[1..])
        case None => None
        case Some((e', rest')) => Some((Either(e, e'), rest'))
      else Some((e, rest))
  }

  /** AND-separated factors. */
  function ParseAnd(ts: seq<Token>): (r: Parse<Expr>)
    ensures r.Some? ==> |r.value.1| < |ts|
    decreases |ts|, 1
  {
    match ParseFactor(ts)
    case None => None
    case Some((e, rest)) =>
      if rest != [] && rest[0] == And then
        match ParseAnd(rest[1..])
        case None => None
        case Some((e', rest')) => Some((Both(e, e'), rest'))
      else Some((e, rest))
  }

  /** A parenthesised expression or one condition. */
  function ParseFactor(ts: seq<Token>): (r: Parse<Expr>)
    ensures r.Some? ==> |r.value.1| < |ts|
    decreases |ts|, 0
  {
    if ts == [] then None
    else if ts[0] == Open then
      match ParseOr(ts[1..])
      case None => None
      case Some((e, rest)) => if rest != [] && rest[0] == Close then Some((e, rest[1..])) else None
    else if |ts| >= 3 && ts[0].Name? then
      if ts[1] == Word("IN") && ts[2] == Open then
        match ParseList(ts[3..])
        case None => None
        case Some((ks, rest)) => Some((Member(ts[0].name, ks), rest))
      else if ts[1] == Word("IS") && ts[2].Word? then
        if !IsNot(ts[2].word) then Some((Test(ts[0].name, ts[2].word), ts[3..]))
        else if |ts| >= 4 && ts[3].Word? then Some((Test(ts[0].name, "NOT " + ts[3].word), ts[4..]))
        else None
      else if IsOperator(ts[1]) && ts[2].Param?
            then Some((Condition(ts[0].name, Operator(ts[1]), ts[2].index), ts[3..]))
      else None
    else None
  }

  predicate IsOperator(t: Token) {
    t.Symbol? || t == Word("LIKE")
  }

  function Operator(t: Token): string
    requires IsOperator(t)
  {
    if t.Symbol? then t.text else t.word
  }

  /** Comma-separated placeholders up to the closing parenthesis. */
  function ParseList(ts: seq<Token>): (r: Parse<seq<nat>>)
    ensures r.Some? ==> |r.value.1| < |ts|
  {
    if |ts| < 2 || !ts[0].Param? then None
    else if ts[1] == Close then Some(([ts[0].index], ts[2..]))
    else if ts[1] == Comma then
      match ParseList(ts[2..])
      case None => None
      case Some((ks, rest)) => Some(([ts[0].index] + ks, rest))
    else None
  }

  /** $k is the k-th argument, counted from 1. */
  function Argument(args: seq<Value>, k: nat): Value {
    if 1 <= k <= |args| then args[k - 1] else Nil
  }

  ghost predicate Eval(e: Expr, args: seq<Value>, holds: Atom -> bool) {
    match e
    case Condition(c, op, k) => holds(Compare(c, op, Argument(args, k)))
    case Member(c, ks) => holds(OneOf(c, seq(|ks|, i requires 0 <= i < |ks| => Argument(args, ks[i]))))
    case Test(c, word) => holds(Is(c, word))
    case Both(l, r) => Eval(l, args, holds) && Eval(r, args, holds)
    case Either(l, r) => Eval(l, args, holds) || Eval(r, args, holds)
  }

  /** Followed by anything at all, these tokens are read as one factor whose truth is `truth`. */
  ghost predicate ReadsAs(ts: seq<Token>, args: seq<Value>, holds: Atom -> bool, truth: bool) {
    forall rest :: FactorAs(ts, rest, args, holds, truth)
  }

  ghost predicate FactorAs(ts: seq<Token>, rest: seq<Token>, args: seq<Value>, holds: Atom -> bool, truth: bool) {
    var r := ParseFactor(ts + rest);
    r.Some? && r.value.1 == rest && Eval(r.value.0, args, holds) == truth
  }

  /** The arguments from $idx on are those the filters supply. */
  ghost predicate Supplies(args: seq<Value>, idx: nat, vs: seq<Value>) {
    1 <= idx && idx - 1 + |vs| <= |args| && args[idx - 1..idx - 1 + |vs|] == vs
  }

  lemma {:induction false} ListIsRead(idx: nat, n: nat, rest: seq<Token>)
    requires n >= 1
    ensures ParseList(Join(Placeholders(idx, n), [Comma]) + [Close] + rest)
            == Some((seq(n, i requires 0 <= i < n => idx + i), rest))
    decreases n
  {
    var ks := seq(n, i requires 0 <= i < n => idx + i);
    var ts := Join(Placeholders(idx, n), [Comma]) + [Close] + rest;
    if n == 1 {
      assert ts == [Param(idx), Close] + rest;
      assert ks == [idx];
    } else {
      ListIsRead(idx + 1, n - 1, rest);
      var more := Join(Placeholders(idx + 1, n - 1), [Comma]) + [Close] + rest;
      assert Placeholders(idx, n)[1..] == Placeholders(idx + 1, n - 1);
      assert ts == [Param(idx), Comma] + more;
      assert ts[2..] == more;
      assert ks == [idx] + seq(n - 1, i requires 0 <= i < n - 1 => idx + 1 + i);
    }
  }

  /** Placeholders bound to supplied arguments give those arguments. */
  lemma BoundArguments(args: seq<Value>, idx: nat, vs: seq<Value>)
    requires Supplies(args, idx, vs)
    ensures var ks := seq(|vs|, i requires 0 <= i < |vs| => idx + i);
            seq(|ks|, i requires 0 <= i < |ks| => Argument(args, ks[i])) == vs
  {
    var n := |vs|;
    var ks := seq(n, i requires 0 <= i < n => idx + i);
    var bound := seq(|ks|, i requires 0 <= i < |ks| => Argument(args, ks[i]));
    assert forall i :: 0 <= i < n ==> bound[i] == args[idx - 1..idx - 1 + n][i];
  }

  lemma ComparisonIsRead(c: string, op: string, arg: Value, idx: nat, rest: seq<Token>, args: seq<Value>,
                         holds: Atom -> bool)
    requires Supplies(args, idx, [arg])
    ensures FactorAs([Name(c), OpToken(op), Param(idx)], rest, args, holds, holds(Compare(c, op, arg)))
  {
    var ts := [Name(c), OpToken(op), Param(idx)];
    assert args[idx - 1..idx][0] == arg;
    assert (ts + rest)[3..] == rest;
  }

  lemma MembershipIsRead(c: string, vs: seq<Value>, idx: nat, rest: seq<Token>, args: seq<Value>, holds: Atom -> bool)
    requires Supplies(args, idx, vs) && vs != []
    ensures FactorAs([Name(c), Word("IN"), Open] + Join(Placeholders(idx, |vs|), [Comma]) + [Close], rest, args, holds,
                     holds(OneOf(c, vs)))
  {
    hide Supplies, Join;
    var list := Join(Placeholders(idx, |vs|), [Comma]) + [Close];
    var ts := [Name(c), Word("IN"), Open] + Join(Placeholders(idx, |vs|), [Comma]) + [Close];
    ListIsRead(idx, |vs|, rest);
    BoundArguments(args, idx, vs);
    assert ts + rest == [Name(c), Word("IN"), Open] + (list + rest);
    assert (ts + rest)[3..] == list + rest;
  }

  lemma TestIsRead(f: Filter, rest: seq<Token>, args: seq<Value>, holds: Atom -> bool)
    requires f.op == "is" && SingleTest(f.value)
    ensures FactorAs([Name(f.column), Word("IS")] + Lex(TestText(f.value)), rest, args, holds, holds(Meaning(f)))
  {
    hide Lex, IsNot;
    var words := Lex(TestText(f.value));
    var ts := [Name(f.column), Word("IS")] + words;
    assert ts[2..] == words;
    assert (ts + rest)[2 + |words|..] == rest;
  }

  /** One compiled filter is read as the condition it stands for. */
  lemma FilterIsRead(f: Filter, idx: nat, args: seq<Value>, holds: Atom -> bool)
    requires WellFormed(f) && Supplies(args, idx, FilterArgs(f))
    ensures ReadsAs(FilterTokens(f, idx), args, holds, holds(Meaning(f)))
  {
    hide FactorAs, Supplies, Join, Lex, TestWord, SingleTest;
    forall rest
      ensures FactorAs(FilterTokens(f, idx), rest, args, holds, holds(Meaning(f)))
    {
      if f.op == "is" {
        TestIsRead(f, rest, args, holds);
      } else {
        match Meaning(f)
        case Compare(c, op, arg) => ComparisonIsRead(c, op, arg, idx, rest, args, holds);
        case OneOf(c, vs) => MembershipIsRead(c, vs, idx, rest, args, holds);
      }
    }
  }

  ghost predicate AllRead(parts: seq<seq<Token>>, truths: seq<bool>, args: seq<Value>, holds: Atom -> bool) {
    && |parts| == |truths|
    && forall i :: 0 <= i < |parts| ==> ReadsAs(parts[i], args, holds, truths[i])
  }

  predicate StartsWith(ts: seq<Token>, t: Token) {
    ts != [] && ts[0] == t
  }

  /** Factors joined by AND are read as their conjunction. */
  lemma {:induction false} ConjunctionIsRead(
      parts: seq<seq<Token>>, truths: seq<bool>, rest: seq<Token>, args: seq<Value>, holds: Atom -> bool)
    requires parts != [] && AllRead(parts, truths, args, holds)
    requires !StartsWith(rest, And)
    ensures var r := ParseAnd(Join(parts, [And]) + rest);
            r.Some? && r.value.1 == rest && (Eval(r.value.0, args, holds) <==> false !in truths)
  {
    hide ParseFactor;
    var ts := Join(parts, [And]) + rest;
    if |parts| == 1 {
      assert FactorAs(parts[0], rest, args, holds, truths[0]);
      assert truths == [truths[0]];
    } else {
      var more := Join(parts[1..], [And]) + rest;
      assert ts == parts[0] + ([And] + more);
      assert FactorAs(parts[0], [And] + more, args, holds, truths[0]);
      ConjunctionIsRead(parts[1..], truths[1..], rest, args, holds);
      assert ([And] + more)[1..] == more;
      assert truths == [truths[0]] + truths[1..];
    }
  }

  /** Factors joined by OR are read as their disjunction. */
  lemma {:induction false} DisjunctionIsRead(
      parts: seq<seq<Token>>, truths: seq<bool>, rest: seq<Token>, args: seq<Value>, holds: Atom -> bool)
    requires parts != [] && AllRead(parts, truths, args, holds)
    requires !StartsWith(rest, And) && !StartsWith(rest, Or)
    ensures var r := ParseOr(Join(parts, [Or]) + rest);
            r.Some? && r.value.1 == rest && (Eval(r.value.0, args, holds) <==> true in truths)
  {
    var ts := Join(parts, [Or]) + rest;
    if |parts| == 1 {
      assert FactorAs(parts[0], rest, args, holds, truths[0]);
      assert truths == [truths[0]];
    } else {
      var more := Join(parts[1..], [Or]) + rest;
      assert ts == parts[0] + ([Or] + more);
      assert FactorAs(parts[0], [Or] + more, args, holds, truths[0]);
      DisjunctionIsRead(parts[1..], truths[1..], rest, args, holds);
      assert ([Or] + more)[1..] == more;
      assert truths == [truths[0]] + truths[1..];
    }
  }

  /** Anything read in full before a closing parenthesis is, in parentheses, one factor. */
  lemma ParensAreRead(ts: seq<Token>, args: seq<Value>, holds: Atom -> bool, truth: bool)
    requires forall rest :: OrAs(ts, [Close] + rest, args, holds, truth)
    ensures ReadsAs(Parens(ts), args, holds, truth)
  {
    forall rest
      ensures FactorAs(Parens(ts), rest, args, holds, truth)
    {
      assert (Parens(ts) + rest)[1..] == ts + ([Close] + rest);
      assert OrAs(ts, [Close] + rest, args, holds, truth);
      assert ([Close] + rest)[1..] == rest;
    }
  }

  ghost predicate OrAs(ts: seq<Token>, rest: seq<Token>, args: seq<Value>, holds: Atom -> bool, truth: bool) {
    var r := ParseOr(ts + rest);
    r.Some? && r.value.1 == rest && Eval(r.value.0, args, holds) == truth
  }

  // ---- The whole clause. ----

  ghost function Truths(fs: seq<Filter>, holds: Atom -> bool): seq<bool> {
    if fs == [] then [] else Truths(fs[..|fs| - 1], holds) + [holds(Meaning(fs[|fs| - 1]))]
  }

  lemma SuppliesParts(args: seq<Value>, idx: nat, a: seq<Value>, b: seq<Value>)
    requires Supplies(args, idx, a + b)
    ensures Supplies(args, idx, a) && Supplies(args, idx + |a|, b)
  {
    var all := args[idx - 1..idx - 1 + |a + b|];
    assert args[idx - 1..idx - 1 + |a|] == all[..|a|] == a;
    assert args[idx - 1 + |a|..idx - 1 + |a| + |b|] == all[|a|..] == b;
  }

  lemma AllReadAppend(parts1: seq<seq<Token>>, truths1: seq<bool>, parts2: seq<seq<Token>>, truths2: seq<bool>,
                      args: seq<Value>, holds: Atom -> bool)
    requires AllRead(parts1, truths1, args, holds) && AllRead(parts2, truths2, args, holds)
    ensures AllRead(parts1 + parts2, truths1 + truths2, args, holds)
  {
  }

  lemma NothingRead(args: seq<Value>, holds: Atom -> bool)
    ensures AllRead([], [], args, holds)
  {
  }

  lemma {:induction false} PartsAreRead(fs: seq<Filter>, idx: nat, args: seq<Value>, holds: Atom -> bool)
    requires AllWellFormed(fs) && Supplies(args, idx, Args(fs))
    ensures AllRead(Parts(fs, idx), Truths(fs, holds), args, holds)
  {
    hide ReadsAs, FilterTokens, FilterArgs, Meaning, Supplies, AllRead, WellFormed, AllWellFormed;
    NothingRead(args, holds);
    if fs != [] {
      var before, f := fs[..|fs| - 1], fs[|fs| - 1];
      PrefixWellFormed(fs);
      SuppliesParts(args, idx, Args(before), FilterArgs(f));
      PartsAreRead(before, idx, args, holds);
      FilterIsRead(f, idx + |Args(before)|, args, holds);
      OneMoreRead(Parts(before, idx), Truths(before, holds), FilterTokens(f, idx + |Args(before)|), holds(Meaning(f)),
                  args, holds);
    }
  }

  /** A group with filters, in its parentheses, is read as their conjunction. */
  lemma GroupIsRead(g: seq<Filter>, idx: nat, args: seq<Value>, holds: Atom -> bool)
    requires g != [] && AllWellFormed(g) && Supplies(args, idx, Args(g))
    ensures ReadsAs(Parens(Join(Parts(g, idx), [And])), args, holds, AllHold(g, holds))
  {
    var ts := Join(Parts(g, idx), [And]);
    PartsAreRead(g, idx, args, holds);
    TruthsAllHold(g, holds);
    forall rest
      ensures OrAs(ts, [Close] + rest, args, holds, AllHold(g, holds))
    {
      ConjunctionIsRead(Parts(g, idx), Truths(g, holds), [Close] + rest, args, holds);
    }
    ParensAreRead(ts, args, holds, AllHold(g, holds));
  }

  lemma {:induction false} TruthsAllHold(fs: seq<Filter>, holds: Atom -> bool)
    ensures false !in Truths(fs, holds) <==> AllHold(fs, holds)
  {
    if fs != [] {
      var before, f := fs[..|fs| - 1], fs[|fs| - 1];
      TruthsAllHold(before, holds);
      assert fs == before + [f];
    }
  }

  /** The truths of the groups that have filters. */
  ghost function GroupTruths(groups: seq<seq<Filter>>, holds: Atom -> bool): seq<bool> {
    if groups == [] then []
    else
      var g := groups[|groups| - 1];
      GroupTruths(groups[..|groups| - 1], holds) + if g == [] then [] else [AllHold(g, holds)]
  }

  lemma {:induction false} GroupTruthsAnyHolds(groups: seq<seq<Filter>>, holds: Atom -> bool)
    ensures true in GroupTruths(groups, holds) <==> exists g :: g in groups && g != [] && AllHold(g, holds)
    ensures GroupTruths(groups, holds) == [] <==> forall g :: g in groups ==> g == []
  {
    if groups != [] {
      var before, last := groups[..|groups| - 1], groups[|groups| - 1];
      GroupTruthsAnyHolds(before, holds);
      assert groups == before + [last];
      assert last in groups && forall g :: g in groups <==> g in before || g == last;
    }
  }

  lemma {:induction false} GroupsAreRead(groups: seq<seq<Filter>>, idx: nat, args: seq<Value>, holds: Atom -> bool)
    requires GroupsWellFormed(groups) && Supplies(args, idx, GroupArgs(groups))
    ensures AllRead(GroupParts(groups, idx), GroupTruths(groups, holds), args, holds)
  {
    hide ReadsAs, AllRead, Supplies, Parens, Parts, Join, Args, AllHold, AllWellFormed, GroupsWellFormed;
    NothingRead(args, holds);
    if groups != [] {
      var before, g := groups[..|groups| - 1], groups[|groups| - 1];
      var at := idx + |GroupArgs(before)|;
      PrefixGroupsWellFormed(groups);
      SuppliesParts(args, idx, GroupArgs(before), Args(g));
      GroupsAreRead(before, idx, args, holds);
      if g != [] {
        GroupIsRead(g, at, args, holds);
        OneMoreRead(GroupParts(before, idx), GroupTruths(before, holds), Parens(Join(Parts(g, at), [And])),
                    AllHold(g, holds), args, holds);
      } else {
        EmptyGroupAsksNothing(before, idx, holds);
        assert groups == before + [[]];
      }
    }
  }

  lemma EmptyGroupAsksNothing(groups: seq<seq<Filter>>, idx: nat, holds: Atom -> bool)
    ensures GroupParts(groups + [[]], idx) == GroupParts(groups, idx)
    ensures GroupTruths(groups + [[]], holds) == GroupTruths(groups, holds)
  {
    assert (groups + [[]])[..|groups|] == groups;
  }

  lemma OneMoreRead(parts: seq<seq<Token>>, truths: seq<bool>, ts: seq<Token>, truth: bool, args: seq<Value>,
                    holds: Atom -> bool)
    requires AllRead(parts, truths, args, holds) && ReadsAs(ts, args, holds, truth)
    ensures AllRead(parts + [ts], truths + [truth], args, holds)
  {
    hide ReadsAs;
  }

  ghost function OrTruth(groups: seq<seq<Filter>>, holds: Atom -> bool): seq<bool> {
    if GroupTruths(groups, holds) == [] then [] else [true in GroupTruths(groups, holds)]
  }

  /** The part for the groups, if there is one, is one factor. */
  lemma OrPartIsRead(groups: seq<seq<Filter>>, idx: nat, args: seq<Value>, holds: Atom -> bool)
    requires GroupsWellFormed(groups) && Supplies(args, idx, GroupArgs(groups))
    ensures AllRead(OrPart(groups, idx), OrTruth(groups, holds), args, holds)
  {
    var ors, truths := GroupParts(groups, idx), GroupTruths(groups, holds);
    GroupsAreRead(groups, idx, args, holds);
    if ors != [] {
      forall rest
        ensures OrAs(Join(ors, [Or]), [Close] + rest, args, holds, true in truths)
      {
        DisjunctionIsRead(ors, truths, [Close] + rest, args, holds);
      }
      ParensAreRead(Join(ors, [Or]), args, holds, true in truths);
    }
  }

  /** What the plain filters and the OR groups ask of a row: all of the former, and some group with filters
      if there is any. */
  ghost predicate Selects(fs: seq<Filter>, groups: seq<seq<Filter>>, holds: Atom -> bool) {
    && AllHold(fs, holds)
    && ((forall g :: g in groups ==> g == []) || exists g :: g in groups && g != [] && AllHold(g, holds))
  }

  /** The parts of the clause, with the plain filters one factor each, and what they ask. */
  function Factors(fs: seq<Filter>, groups: seq<seq<Filter>>, idx: nat): seq<seq<Token>> {
    Parts(fs, idx) + OrPart(groups, idx + |Args(fs)|)
  }

  ghost function FactorTruths(fs: seq<Filter>, groups: seq<seq<Filter>>, holds: Atom -> bool): seq<bool> {
    Truths(fs, holds) + OrTruth(groups, holds)
  }

  lemma FactorsAreRead(fs: seq<Filter>, groups: seq<seq<Filter>>, idx: nat, args: seq<Value>, holds: Atom -> bool)
    requires QueryWellFormed(fs, groups) && Supplies(args, idx, WhereArgs(fs, groups))
    ensures AllRead(Factors(fs, groups, idx), FactorTruths(fs, groups, holds), args, holds)
  {
    hide ReadsAs, AllRead, Supplies, Parts, OrPart, Truths, OrTruth, Args, GroupArgs;
    var orIdx := idx + |Args(fs)|;
    SuppliesParts(args, idx, Args(fs), GroupArgs(groups));
    PartsAreRead(fs, idx, args, holds);
    OrPartIsRead(groups, orIdx, args, holds);
    AllReadAppend(Parts(fs, idx), Truths(fs, holds), OrPart(groups, orIdx), OrTruth(groups, holds), args, holds);
  }

  lemma FactorTruthsSelect(fs: seq<Filter>, groups: seq<seq<Filter>>, holds: Atom -> bool)
    ensures false !in FactorTruths(fs, groups, holds) <==> Selects(fs, groups, holds)
    ensures FactorTruths(fs, groups, holds) == [] <==> fs == [] && forall g :: g in groups ==> g == []
  {
    TruthsAllHold(fs, holds);
    GroupTruthsAnyHolds(groups, holds);
  }

  /** Joining the filters first and the OR part afterwards is joining all of them. */
  lemma ClauseIsJoined(fs: seq<Filter>, groups: seq<seq<Filter>>, idx: nat)
    ensures ClauseTokens(fs, groups, idx) == Join(Factors(fs, groups, idx), [And])
  {
    hide Parts, Args, OrPart;
    var ands, ors := Parts(fs, idx), OrPart(groups, idx + |Args(fs)|);
    NoneOrOne(groups, idx + |Args(fs)|);
    WhereEmpty(fs, idx);
    PartsEmpty(fs, idx);
    JoinedTogether(ands, ors);
  }

  lemma NoneOrOne(groups: seq<seq<Filter>>, idx: nat)
    ensures |OrPart(groups, idx)| <= 1
  {
  }

  lemma PartsEmpty(fs: seq<Filter>, idx: nat)
    ensures Parts(fs, idx) == [] <==> fs == []
  {
  }

  lemma JoinedTogether(ands: seq<seq<Token>>, ors: seq<seq<Token>>)
    requires |ors| <= 1 && (ands != [] ==> Join(ands, [And]) != [])
    ensures Join(OnlyIfAny(Join(ands, [And])) + ors, [And]) == Join(ands + ors, [And])
  {
    var first := Join(ands, [And]);
    if ands == [] {
      assert OnlyIfAny(first) + ors == ands + ors;
    } else if ors == [] {
      assert OnlyIfAny(first) + ors == [first];
      assert ands + ors == ands;
    } else {
      assert ors == [ors[0]];
      JoinSnoc(ands, ors[0], [And]);
      JoinSnoc([first], ors[0], [And]);
    }
  }

  /** The emitted text means what was asked, for every row predicate and whatever arguments come first: it is empty
      exactly when nothing was asked, and otherwise it parses to the end, AND binding tighter than OR, and with
      $k bound to the k-th argument it holds exactly when the filters and groups do. */
  lemma ClauseMeansFilters(fs: seq<Filter>, groups: seq<seq<Filter>>, first: seq<Value>, holds: Atom -> bool)
    requires QueryWellFormed(fs, groups)
    ensures var ts, args := Lex(WhereText(fs, groups, |first| + 1)), first + WhereArgs(fs, groups);
            if fs == [] && forall g :: g in groups ==> g == [] then ts == [] && Selects(fs, groups, holds)
            else && ParseOr(ts).Some? && ParseOr(ts).value.1 == []
                 && (Eval(ParseOr(ts).value.0, args, holds) <==> Selects(fs, groups, holds))
  {
    hide Lex, QueryWellFormed, WhereText, ClauseTokens, ParseFactor, ReadsAs, Factors, FactorTruths, Selects;
    var idx, args := |first| + 1, first + WhereArgs(fs, groups);
    var parts, ts := Factors(fs, groups, idx), ClauseTokens(fs, groups, idx);
    ClauseIsLexed(fs, groups, idx);
    FactorsAreRead(fs, groups, idx, args, holds);
    FactorTruthsSelect(fs, groups, holds);
    ClauseIsJoined(fs, groups, idx);
    if parts != [] {
      ConjunctionIsRead(parts, FactorTruths(fs, groups, holds), [], args, holds);
      assert Join(parts, [And]) + [] == ts;
    }
  }
}
