/** Searching, filtering and in-place deletion on slices, and sorting. */
module Seqs {

  /** The first index whose element satisfies p, or -1. */
  function IndexWhere<T>(s: seq<T>, p: T -> bool): (i: int)
    ensures -1 <= i < |s|
    ensures i >= 0 ==> p(s[i]) && forall j :: 0 <= j < i ==> !p(s[j])
    ensures i < 0 ==> forall j :: 0 <= j < |s| ==> !p(s[j])
  {
    if s == [] then -1
    else
      var i := IndexWhere(s[..|s| - 1], p);
      if i >= 0 then i else if p(s[|s| - 1]) then |s| - 1 else -1
  }

  method FindIndex<T>(s: seq<T>, p: T -> bool) returns (i: int)
    ensures i == IndexWhere(s, p)
  {
    for n := 0 to |s|
      invariant forall j :: 0 <= j < n ==> !p(s[j])
    {
      if p(s[n]) {
        return n;
      }
    }
    return -1;
  }

  /** The elements satisfying p, in order. */
  function Keep<T>(s: seq<T>, p: T -> bool): (kept: seq<T>)
    ensures forall x :: x in s && p(x) ==> x in kept
    ensures forall x :: x in kept ==> x in s && p(x)
  {
    if s == [] then []
    else
      assert s == s[..|s| - 1] + [s[|s| - 1]];
      Keep(s[..|s| - 1], p) + if p(s[|s| - 1]) then [s[|s| - 1]] else []
  }

  function RemoveAt<T>(s: seq<T>, i: int): seq<T>
    requires 0 <= i < |s|
  {
    s[..i] + s[i + 1..]
  }

  /** Filtering into the front of the very array being read, as `out := in[:0]` does. */
  method CompactInPlace<T>(a: array<T>, p: T -> bool) returns (n: nat)
    modifies a
    ensures n <= a.Length && a[..n] == Keep(old(a[..]), p)
  {
    n := 0;
    hide Keep;
    assert Keep(old(a[..0]), p) == [] by { KeepAll(old(a[..0]), p); }
    for i := 0 to a.Length
      invariant n <= i
      invariant a[..n] == Keep(old(a[..i]), p)
      invariant forall k :: i <= k < a.Length ==> a[k] == old(a[k])
    {
      var rec := a[i];
      KeepSnoc(old(a[..i]), rec, p);
      assert old(a[..i + 1]) == old(a[..i]) + [rec];
      if p(rec) {
        a[n] := rec;
        n := n + 1;
        assert a[..n] == a[..n - 1] + [rec];
      }
    }
    assert old(a[..a.Length]) == old(a[..]);
  }

  /** Shifting the tail of an array one place down, as `append(s[:i], s[i+1:]...)` does. */
  method ShiftOut<T>(a: array<T>, i: nat)
    requires i < a.Length
    modifies a
    ensures a[..a.Length - 1] == RemoveAt(old(a[..]), i)
  {
    for k := i to a.Length - 1
      invariant a[..k] == old(a[..i]) + old(a[i + 1..k + 1])
      invariant a[k..] == old(a[k..])
    {
      a[k] := a[k + 1];
      assert a[..k + 1] == a[..k] + [old(a[k + 1])];
    }
    assert old(a[i + 1..a.Length]) == old(a[i + 1..]);
  }

  method KeepSlice<T>(s: seq<T>, p: T -> bool) returns (kept: seq<T>)
    ensures kept == Keep(s, p)
  {
    var backing := new T[|s|](i requires 0 <= i < |s| => s[i]);
    assert backing[..] == s;
    var n := CompactInPlace(backing, p);
    kept := backing[..n];
  }

  method RemoveFromSlice<T>(s: seq<T>, i: nat) returns (rest: seq<T>)
    requires i < |s|
    ensures rest == RemoveAt(s, i)
  {
    var backing := new T[|s|](i requires 0 <= i < |s| => s[i]);
    assert backing[..] == s;
    ShiftOut(backing, i);
    rest := backing[..|s| - 1];
  }

  // ---- Keys without duplicates. ----

  ghost predicate Unique<T, K>(s: seq<T>, key: T -> K) {
    forall i, j :: 0 <= i < j < |s| ==> key(s[i]) != key(s[j])
  }

  lemma SameKeySameElement<T, K>(s: seq<T>, key: T -> K, a: T, b: T)
    requires Unique(s, key) && a in s && b in s && key(a) == key(b)
    ensures a == b
  {
    var i :| 0 <= i < |s| && s[i] == a;
    var j :| 0 <= j < |s| && s[j] == b;
    assert forall k :: 0 <= k < |s| && k != i ==> key(s[k]) != key(s[i]);
  }

  lemma UniqueSnoc<T, K>(s: seq<T>, x: T, key: T -> K)
    ensures Unique(s + [x], key) <==> Unique(s, key) && forall y :: y in s ==> key(y) != key(x)
  {
    if Unique(s + [x], key) {
      assert forall i :: 0 <= i < |s| ==> (s + [x])[i] == s[i];
      forall y | y in s
        ensures key(y) != key(x)
      {
        var i :| 0 <= i < |s| && s[i] == y;
        assert key((s + [x])[i]) != key((s + [x])[|s|]);
      }
    }
  }

  lemma {:induction false} KeepUnique<T, K>(s: seq<T>, p: T -> bool, key: T -> K)
    requires Unique(s, key)
    ensures Unique(Keep(s, p), key)
  {
    if s != [] {
      var before, last := s[..|s| - 1], s[|s| - 1];
      assert s == before + [last];
      UniqueSnoc(before, last, key);
      KeepUnique(before, p, key);
      UniqueSnoc(Keep(before, p), last, key);
    }
  }

  lemma OtherIsKept<T, K>(s: seq<T>, i: nat, key: T -> K, p: T -> bool, j: nat)
    requires Unique(s, key) && i < |s| && j < |s| && i != j
    requires forall x :: x in s ==> p(x) == (key(x) != key(s[i]))
    ensures p(s[j]) && !p(s[i])
  {
    assert s[i] in s && s[j] in s;
  }

  lemma SplitAt<T>(s: seq<T>, i: nat)
    requires i < |s|
    ensures s == s[..i] + [s[i]] + s[i + 1..]
  {
  }

  lemma OthersAreKept<T, K>(s: seq<T>, i: nat, key: T -> K, p: T -> bool)
    requires Unique(s, key) && i < |s|
    requires forall x :: x in s ==> p(x) == (key(x) != key(s[i]))
    ensures (forall x :: x in s[..i] ==> p(x)) && !p(s[i]) && forall x :: x in s[i + 1..] ==> p(x)
  {
    hide Unique;
    var front, back := s[..i], s[i + 1..];
    forall x | x in front
      ensures p(x)
    {
      var j :| 0 <= j < i && s[j] == x;
      OtherIsKept(s, i, key, p, j);
    }
    forall x | x in back
      ensures p(x)
    {
      var k :| 0 <= k < |back| && back[k] == x;
      OtherIsKept(s, i, key, p, i + 1 + k);
    }
    assert !p(s[i]) by {
      assert s[i] in s;
    }
  }

  /** Deleting the one element with a key is filtering that key out. */
  lemma RemoveIsKeep<T, K>(s: seq<T>, i: nat, key: T -> K, p: T -> bool)
    requires Unique(s, key) && i < |s|
    requires forall x :: x in s ==> p(x) == (key(x) != key(s[i]))
    ensures RemoveAt(s, i) == Keep(s, p)
  {
    hide Keep, Unique;
    OthersAreKept(s, i, key, p);
    KeepAround(s[..i], s[i], s[i + 1..], p);
    SplitAt(s, i);
  }

  lemma KeepAround<T>(front: seq<T>, x: T, back: seq<T>, p: T -> bool)
    requires (forall y :: y in front ==> p(y)) && !p(x) && forall y :: y in back ==> p(y)
    ensures Keep(front + [x] + back, p) == front + back
  {
    hide Keep;
    KeepAll(front, p);
    KeepAll(back, p);
    KeepSnoc(front, x, p);
    KeepConcat(front + [x], back, p);
  }

  lemma KeepSnoc<T>(s: seq<T>, x: T, p: T -> bool)
    ensures Keep(s + [x], p) == if p(x) then Keep(s, p) + [x] else Keep(s, p)
  {
    assert (s + [x])[..|s|] == s;
  }

  lemma {:induction false} KeepAll<T>(s: seq<T>, p: T -> bool)
    requires forall x :: x in s ==> p(x)
    ensures Keep(s, p) == s
  {
    if s != [] {
      var before, last := s[..|s| - 1], s[|s| - 1];
      assert s == before + [last];
      KeepAll(before, p);
      KeepSnoc(before, last, p);
    }
  }

  lemma {:induction false} KeepSame<T>(s: seq<T>, p: T -> bool, q: T -> bool)
    requires forall x :: x in s ==> p(x) == q(x)
    ensures Keep(s, p) == Keep(s, q)
  {
    if s != [] {
      var before, last := s[..|s| - 1], s[|s| - 1];
      assert s == before + [last];
      KeepSame(before, p, q);
      KeepSnoc(before, last, p);
      KeepSnoc(before, last, q);
    }
  }

  lemma {:induction false} KeepConcat<T>(a: seq<T>, b: seq<T>, p: T -> bool)
    ensures Keep(a + b, p) == Keep(a, p) + Keep(b, p)
  {
    hide Keep;
    if b == [] {
      assert a + b == a;
      KeepAll(b, p);
      assert Keep(a, p) + [] == Keep(a, p);
    } else {
      var before, last := b[..|b| - 1], b[|b| - 1];
      KeepConcat(a, before, p);
      KeepSnoc(a + before, last, p);
      KeepSnoc(before, last, p);
      assert b == before + [last];
      assert a + b == a + before + [last];
    }
  }

  /** Filtering twice, when the first filter drops nothing the second would keep. */
  lemma {:induction false} KeepKeep<T>(s: seq<T>, p: T -> bool, q: T -> bool)
    requires forall x :: x in s && q(x) ==> p(x)
    ensures Keep(Keep(s, p), q) == Keep(s, q)
  {
    if s != [] {
      var before, last := s[..|s| - 1], s[|s| - 1];
      KeepKeep(before, p, q);
      KeepConcat(Keep(before, p), if p(last) then [last] else [], q);
      assert Keep([last], q) == if q(last) then [last] else [] by {
        assert [last][..0] == [];
      }
    }
  }

  // ---- sort.Slice ----

  function Insert<T>(sorted: seq<T>, x: T, less: (T, T) -> bool): (r: seq<T>)
    ensures multiset(r) == multiset(sorted) + multiset{x}
  {
    if sorted == [] then [x]
    else
      var before, last := sorted[..|sorted| - 1], sorted[|sorted| - 1];
      assert sorted == before + [last];
      if less(x, last) then Insert(before, x, less) + [last] else sorted + [x]
  }

  function Sort<T>(s: seq<T>, less: (T, T) -> bool): (r: seq<T>)
    ensures multiset(r) == multiset(s)
  {
    if s == [] then []
    else
      assert s == s[..|s| - 1] + [s[|s| - 1]];
      Insert(Sort(s[..|s| - 1], less), s[|s| - 1], less)
  }

  /** What sort.Slice needs of its order: asymmetric, and "not less" is transitive. */
  ghost predicate WeakOrder<T(!new)>(less: (T, T) -> bool) {
    && (forall x, y :: less(x, y) ==> !less(y, x))
    && (forall x, y, z :: !less(y, x) && !less(z, y) ==> !less(z, x))
  }

  ghost predicate Sorted<T>(s: seq<T>, less: (T, T) -> bool) {
    forall i, j :: 0 <= i < j < |s| ==> !less(s[j], s[i])
  }

  lemma SortedSnoc<T(!new)>(s: seq<T>, x: T, less: (T, T) -> bool)
    ensures Sorted(s + [x], less) <==> Sorted(s, less) && forall y :: y in s ==> !less(x, y)
  {
    var all := s + [x];
    assert forall i :: 0 <= i < |s| ==> all[i] == s[i];
    if Sorted(all, less) {
      forall y | y in s
        ensures !less(x, y)
      {
        var i :| 0 <= i < |s| && s[i] == y;
        assert !less(all[|s|], all[i]);
      }
    }
  }

  lemma {:induction false} InsertSorted<T(!new)>(s: seq<T>, x: T, less: (T, T) -> bool)
    requires WeakOrder(less) && Sorted(s, less)
    ensures Sorted(Insert(s, x, less), less)
    ensures forall y :: y in Insert(s, x, less) ==> y == x || y in s
  {
    hide Sorted;
    if s == [] {
      SortedSnoc([], x, less);
      assert [] + [x] == [x];
      NothingSorted(less);
    } else {
      var before, last := s[..|s| - 1], s[|s| - 1];
      assert s == before + [last];
      SortedSnoc(before, last, less);
      if less(x, last) {
        InsertSorted(before, x, less);
        SortedSnoc(Insert(before, x, less), last, less);
      } else {
        SortedSnoc(s, x, less);
      }
    }
  }

  lemma NothingSorted<T(!new)>(less: (T, T) -> bool)
    ensures Sorted([], less)
  {
  }

  lemma {:induction false} SortSorted<T(!new)>(s: seq<T>, less: (T, T) -> bool)
    requires WeakOrder(less)
    ensures Sorted(Sort(s, less), less)
  {
    if s != [] {
      SortSorted(s[..|s| - 1], less);
      InsertSorted(Sort(s[..|s| - 1], less), s[|s| - 1], less);
    }
  }
}
