/** The few string operations of the Go standard library the model needs, on sequences of characters. */
module Text {

  datatype Option<+T> = None | Some(value: T)

  datatype Result<+T> = Ok(value: T) | Err(message: string)

  /** unicode.IsSpace */
  predicate IsSpace(c: char) {
    || c == ' ' || '\t' <= c <= '\r' || c == '\U{85}' || c == '\U{A0}' || c == '\U{1680}'
    || '\U{2000}' <= c <= '\U{200A}' || c == '\U{2028}' || c == '\U{2029}' || c == '\U{202F}'
    || c == '\U{205F}' || c == '\U{3000}'
  }

  /** strings.TrimSpace */
  function Trim(s: string): (t: string)
    ensures |t| <= |s|
    ensures t != "" ==> !IsSpace(t[0]) && !IsSpace(t[|t| - 1])
  {
    if s == "" then ""
    else if IsSpace(s[0]) then Trim(s[1..])
    else if IsSpace(s[|s| - 1]) then Trim(s[..|s| - 1])
    else s
  }

  lemma {:induction false} TrimTwice(s: string)
    ensures Trim(Trim(s)) == Trim(s)
  {
  }

  lemma TrimBlank()
    ensures Trim("") == ""
  {
  }

  /** strings.Split on a single character: one piece more than there are separators. */
  function Split(s: string, sep: char): (pieces: seq<string>)
    ensures |pieces| >= 1
  {
    if s == "" then [""]
    else
      var n := |s| - 1;
      var before := Split(s[..n], sep);
      if s[n] == sep then before + [""]
      else before[..|before| - 1] + [before[|before| - 1] + [s[n]]]
  }

  /** strings.Join */
  function Join<T>(pieces: seq<seq<T>>, sep: seq<T>): seq<T> {
    if pieces == [] then []
    else if |pieces| == 1 then pieces[0]
    else pieces[0] + sep + Join(pieces[1..], sep)
  }

  lemma {:induction false} JoinSnoc<T>(pieces: seq<seq<T>>, last: seq<T>, sep: seq<T>)
    ensures Join(pieces + [last], sep) == if pieces == [] then last else Join(pieces, sep) + sep + last
  {
    if |pieces| > 1 {
      JoinSnoc(pieces[1..], last, sep);
      assert (pieces + [last])[1..] == pieces[1..] + [last];
    } else if |pieces| == 1 {
      assert (pieces + [last])[1..] == [last];
    }
  }

  lemma {:induction false} JoinCons<T>(first: seq<T>, pieces: seq<seq<T>>, sep: seq<T>)
    ensures Join([first] + pieces, sep) == if pieces == [] then first else first + sep + Join(pieces, sep)
  {
    assert ([first] + pieces)[1..] == pieces;
  }

  /** Go's order on strings. */
  predicate Less(a: string, b: string) {
    b != "" && (a == "" || a[0] < b[0] || (a[0] == b[0] && Less(a[1..], b[1..])))
  }

  lemma {:induction false} LessAsymmetric(a: string, b: string)
    requires Less(a, b)
    ensures !Less(b, a)
  {
    if a != "" && a[0] == b[0] {
      LessAsymmetric(a[1..], b[1..]);
    }
  }

  lemma {:induction false} NotLessTransitive(a: string, b: string, c: string)
    requires !Less(b, a) && !Less(c, b)
    ensures !Less(c, a)
  {
    if a != "" && b != "" && c != "" && a[0] == b[0] == c[0] {
      NotLessTransitive(a[1..], b[1..], c[1..]);
    }
  }

  lemma {:induction false} NotLessBothWays(a: string, b: string)
    requires !Less(a, b) && !Less(b, a)
    ensures a == b
  {
    if a != "" && b != "" {
      NotLessBothWays(a[1..], b[1..]);
      assert a == [a[0]] + a[1..] && b == [b[0]] + b[1..];
    }
  }

  /** The first character in which two texts differ decides, and a text comes before its continuations. */
  lemma {:induction false} LessByFirstDifference(common: string, a: char, b: char, x: string, y: string)
    ensures a < b ==> Less(common + [a] + x, common + [b] + y)
    ensures Less(common, common + [a] + x)
  {
    var s, t := common + [a] + x, common + [b] + y;
    if common == "" {
      assert s[0] == a && t[0] == b;
    } else {
      LessByFirstDifference(common[1..], a, b, x, y);
      assert s[1..] == common[1..] + [a] + x && t[1..] == common[1..] + [b] + y;
    }
  }

  /** Whether `part` occurs in `s` at position `at`. */
  predicate OccursAt(s: string, part: string, at: nat) {
    at + |part| <= |s| && s[at..at + |part|] == part
  }

  /** strings.Index from position `from`: the first occurrence. */
  function IndexFrom(s: string, part: string, from: nat): (i: Option<nat>)
    requires from <= |s|
    ensures i.Some? ==> from <= i.value && OccursAt(s, part, i.value)
    ensures i.Some? ==> forall k :: from <= k < i.value ==> !OccursAt(s, part, k)
    ensures i.None? ==> forall k :: from <= k <= |s| ==> !OccursAt(s, part, k)
    decreases |s| - from
  {
    if OccursAt(s, part, from) then Some(from)
    else if from == |s| then None
    else IndexFrom(s, part, from + 1)
  }

  function Index(s: string, part: string): Option<nat> {
    IndexFrom(s, part, 0)
  }

  lemma IndexIs(s: string, part: string, at: nat)
    requires OccursAt(s, part, at)
    requires forall k :: 0 <= k < at ==> !OccursAt(s, part, k)
    ensures Index(s, part) == Some(at)
  {
  }

  lemma IndexOfChar(s: string, c: char, at: nat)
    requires at < |s| && s[at] == c
    requires c !in s[..at]
    ensures Index(s, [c]) == Some(at)
  {
    forall k | 0 <= k < at
      ensures !OccursAt(s, [c], k)
    {
      assert s[k..k + 1][0] == s[..at][k];
    }
    IndexIs(s, [c], at);
  }

  predicate Contains(s: string, part: string) {
    Index(s, part).Some?
  }

  predicate HasPrefix(s: string, part: string) {
    OccursAt(s, part, 0)
  }

  predicate HasSuffix(s: string, part: string) {
    |part| <= |s| && OccursAt(s, part, |s| - |part|)
  }

  /** The text after a separator that the text before it does not contain is determined. */
  lemma CutAt(a: string, b: string, sep: char, ra: string, rb: string)
    requires sep !in a && sep !in b
    requires a + [sep] + ra == b + [sep] + rb
    ensures a == b && ra == rb
  {
    var s := a + [sep] + ra;
    assert s[|a|] == sep && s[|b|] == sep;
    assert forall k :: 0 <= k < |a| ==> s[k] == a[k];
    assert forall k :: 0 <= k < |b| ==> s[k] == b[k];
    assert |a| == |b|;
    assert a == s[..|a|] && b == s[..|b|] && ra == s[|a| + 1..] && rb == s[|b| + 1..];
  }

  predicate Spaces(s: string) {
    forall i :: 0 <= i < |s| ==> IsSpace(s[i])
  }

  lemma SpaceInFront(s: string, a: string, t: string, b: string)
    requires s != "" && IsSpace(s[0]) && Spaces(a) && s[1..] == a + t + b
    ensures s == [s[0]] + a + t + b && Spaces([s[0]] + a)
  {
    assert s == [s[0]] + s[1..];
  }

  lemma SpaceBehind(s: string, a: string, t: string, b: string)
    requires s != "" && IsSpace(s[|s| - 1]) && Spaces(b) && s[..|s| - 1] == a + t + b
    ensures s == a + t + (b + [s[|s| - 1]]) && Spaces(b + [s[|s| - 1]])
  {
    assert s == s[..|s| - 1] + [s[|s| - 1]];
  }

  /** What is trimmed is white space at the ends, and all of it. */
  lemma {:induction false} TrimTakesSpaces(s: string) returns (a: string, b: string)
    ensures s == a + Trim(s) + b && Spaces(a) && Spaces(b)
  {
    hide IsSpace;
    a, b := "", "";
    if s == "" || (!IsSpace(s[0]) && !IsSpace(s[|s| - 1])) {
      assert "" + s + "" == s && Trim(s) == s;
    } else if IsSpace(s[0]) {
      a, b := TrimTakesSpaces(s[1..]);
      SpaceInFront(s, a, Trim(s), b);
      a := [s[0]] + a;
    } else {
      a, b := TrimTakesSpaces(s[..|s| - 1]);
      SpaceBehind(s, a, Trim(s), b);
      b := b + [s[|s| - 1]];
    }
  }

  lemma MoreOfLast(front: seq<string>, last: string, c: char, sep: char)
    ensures Join(front + [last + [c]], [sep]) == Join(front + [last], [sep]) + [c]
  {
    hide Join;
    JoinSnoc(front, last, [sep]);
    JoinSnoc(front, last + [c], [sep]);
    if front != [] {
      assert Join(front, [sep]) + [sep] + (last + [c]) == Join(front, [sep]) + [sep] + last + [c];
    }
  }

  lemma OneMorePiece(pieces: seq<string>, sep: char)
    requires pieces != []
    ensures Join(pieces + [""], [sep]) == Join(pieces, [sep]) + [sep]
  {
    hide Join;
    JoinSnoc(pieces, "", [sep]);
    assert Join(pieces, [sep]) + [sep] + "" == Join(pieces, [sep]) + [sep];
  }

  /** Splitting is undone by joining, and leaves no separator in a piece. */
  lemma {:induction false} SplitRestores(s: string, sep: char)
    ensures Join(Split(s, sep), [sep]) == s
    ensures forall piece :: piece in Split(s, sep) ==> sep !in piece
  {
    hide Join;
    if s == "" {
      JoinSnoc([], "", [sep]);
      assert [] + [""] == [""];
    } else {
      var rest, c := s[..|s| - 1], s[|s| - 1];
      var before := Split(rest, sep);
      SplitRestores(rest, sep);
      var front, last := before[..|before| - 1], before[|before| - 1];
      assert before == front + [last] && s == rest + [c] && last in before;
      if c == sep {
        OneMorePiece(before, sep);
      } else {
        MoreOfLast(front, last, c, sep);
      }
    }
  }
}
