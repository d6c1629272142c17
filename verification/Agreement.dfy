/** When the in-memory matcher and the SQL compiler select the same rows. */
module Agreement {
  import opened Filters
  import opened SqlAtoms
  import opened WhereMeaning

  /** MatchQuery over an abstract row: once there are OR groups, the plain filters are not looked at. */
  ghost predicate Matches(fs: seq<Filter>, groups: seq<seq<Filter>>, holds: Atom -> bool) {
    if groups != [] then exists g :: g in groups && AllHold(g, holds) else AllHold(fs, holds)
  }

  ghost predicate AllAgreeWithSql(fs: seq<Filter>) {
    forall f :: f in fs ==> AgreesWithSql(f)
  }

  /** The concrete matcher is the abstract one for SQL's conditions on the row, when every filter is one on which the
      two agree. */
  lemma MatchQueryIsMatches(row: Row, fs: seq<Filter>, groups: seq<seq<Filter>>)
    requires AllAgreeWithSql(fs) && forall g :: g in groups ==> AllAgreeWithSql(g)
    ensures MatchQuery(row, fs, groups) <==> Matches(fs, groups, a => SqlHolds(row, a))
  {
    hide AllAgreeWithSql;
    var holds := a => SqlHolds(row, a);
    MatchFiltersIsAllHold(row, fs);
    forall g | g in groups
      ensures MatchFilters(row, g) <==> AllHold(g, holds)
    {
      MatchFiltersIsAllHold(row, g);
    }
  }

  lemma MatchFiltersIsAllHold(row: Row, fs: seq<Filter>)
    requires AllAgreeWithSql(fs)
    ensures MatchFilters(row, fs) <==> AllHold(fs, a => SqlHolds(row, a))
  {
    hide MatchFilter, SqlHolds, Meaning, AgreesWithSql;
    forall f | f in fs
      ensures MatchFilter(row, f) <==> SqlHolds(row, Meaning(f))
    {
      MatcherAgreesExactlyWhen(f);
      assert AgreeOn(row, f);
    }
  }

  /** On such filters the matcher selects the rows the SQL clause selects, whenever the groups repeat what is asked. */
  lemma MatchQueryIsSql(row: Row, fs: seq<Filter>, groups: seq<seq<Filter>>)
    requires AllAgreeWithSql(fs) && forall g :: g in groups ==> AllAgreeWithSql(g)
    requires Repeated(fs, groups)
    ensures MatchQuery(row, fs, groups) <==> Selects(fs, groups, a => SqlHolds(row, a))
  {
    var holds := a => SqlHolds(row, a);
    MatchQueryIsMatches(row, fs, groups);
    RepeatedAgrees(fs, groups, holds);
    assert Matches(fs, groups, holds) == Matches(fs, groups, a => SqlHolds(row, a));
  }

  /** Every row the SQL clause selects, the matcher selects too. */
  lemma SqlSelectsNoMore(fs: seq<Filter>, groups: seq<seq<Filter>>, holds: Atom -> bool)
    requires Selects(fs, groups, holds)
    ensures Matches(fs, groups, holds)
  {
    if groups != [] && forall g :: g in groups ==> g == [] {
      assert groups[0] in groups && AllHold(groups[0], holds);
    }
  }

  ghost predicate Asks(g: seq<Filter>, a: Atom) {
    exists h :: h in g && Meaning(h) == a
  }

  /** No groups; or nothing asked at all; or no empty group, and every plain filter repeated in every group. */
  ghost predicate Repeated(fs: seq<Filter>, groups: seq<seq<Filter>>) {
    || groups == []
    || (fs == [] && forall g :: g in groups ==> g == [])
    || ((forall g :: g in groups ==> g != [])
        && forall f, g :: f in fs && g in groups ==> Asks(g, Meaning(f)))
  }

  /** The two agree on every row exactly when one of those three holds: in particular whenever there are no OR
      groups, or no plain filters and no empty group, and never when a group omits a plain filter. */
  lemma AgreeExactlyWhenRepeated(fs: seq<Filter>, groups: seq<seq<Filter>>)
    ensures (forall holds: Atom -> bool :: Matches(fs, groups, holds) <==> Selects(fs, groups, holds))
            <==> Repeated(fs, groups)
  {
    if Repeated(fs, groups) {
      forall holds: Atom -> bool
        ensures Matches(fs, groups, holds) <==> Selects(fs, groups, holds)
      {
        RepeatedAgrees(fs, groups, holds);
      }
    } else {
      var holds := NotRepeatedDiffers(fs, groups);
    }
  }

  lemma RepeatedAgrees(fs: seq<Filter>, groups: seq<seq<Filter>>, holds: Atom -> bool)
    requires Repeated(fs, groups)
    ensures Matches(fs, groups, holds) <==> Selects(fs, groups, holds)
  {
    hide Meaning;
    if groups != [] {
      if Selects(fs, groups, holds) {
        SqlSelectsNoMore(fs, groups, holds);
      }
      if g :| g in groups && AllHold(g, holds) {
        forall f | f in fs
          ensures holds(Meaning(f))
        {
          assert g != [] ==> Asks(g, Meaning(f));
        }
      }
    }
  }

  lemma NotRepeatedDiffers(fs: seq<Filter>, groups: seq<seq<Filter>>) returns (holds: Atom -> bool)
    requires !Repeated(fs, groups)
    ensures Matches(fs, groups, holds) && !Selects(fs, groups, holds)
  {
    if g :| g in groups && g == [] {
      holds := a => false;
      assert AllHold(g, holds);
      assert forall h: seq<Filter> :: h != [] && AllHold(h, holds) ==> h[0] in h && holds(Meaning(h[0]));
    } else {
      var f, g :| f in fs && g in groups && !Asks(g, Meaning(f));
      var asked := set h | h in g :: Meaning(h);
      holds := a => a in asked;
      assert AllHold(g, holds);
      assert !holds(Meaning(f));
    }
  }
}
