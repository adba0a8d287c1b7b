/** Splitting and joining on a separator, and searching, on sequences of any kind. */
module Text {
  newtype Byte = x: int | 0 <= x < 256

  /** The first position of `c`, or the length if there is none. */
  function IndexOf<T(==)>(s: seq<T>, c: T): (i: nat)
    ensures i <= |s|
    ensures forall k :: 0 <= k < i ==> s[k] != c
    ensures i < |s| ==> s[i] == c
  {
    if s == [] || s[0] == c then 0 else 1 + IndexOf(s[1..], c)
  }

  lemma IndexOfUnique<T>(s: seq<T>, c: T, i: nat)
    requires i <= |s| && c !in s[..i] && (i < |s| ==> s[i] == c)
    ensures IndexOf(s, c) == i
  {
    assert forall k :: 0 <= k < i ==> s[k] == s[..i][k];
  }

  function Split<T(==)>(s: seq<T>, c: T): (parts: seq<seq<T>>)
    ensures 0 < |parts|
    decreases |s|
  {
    var i := IndexOf(s, c);
    if i == |s| then [s] else [s[..i]] + Split(s[i + 1..], c)
  }

  function Join<T>(parts: seq<seq<T>>, c: T): seq<T>
    requires 0 < |parts|
  {
    if |parts| == 1 then parts[0] else parts[0] + [c] + Join(parts[1..], c)
  }

  predicate Free<T(==)>(parts: seq<seq<T>>, c: T) {
    forall i :: 0 <= i < |parts| ==> c !in parts[i]
  }

  lemma SplitPrefix<T>(a: seq<T>, c: T, rest: seq<T>)
    requires c !in a
    ensures Split(a + [c] + rest, c) == [a] + Split(rest, c)
    ensures Split(a, c) == [a]
  {
    var s := a + [c] + rest;
    assert s[..|a|] == a && s[|a| + 1..] == rest;
    IndexOfUnique(s, c, |a|);
    assert a[..|a|] == a;
    IndexOfUnique(a, c, |a|);
  }

  lemma {:induction false} SplitJoin<T>(parts: seq<seq<T>>, c: T)
    requires 0 < |parts| && Free(parts, c)
    ensures Split(Join(parts, c), c) == parts
    decreases |parts|
  {
    if |parts| == 1 {
      SplitPrefix(parts[0], c, []);
    } else {
      SplitJoin(parts[1..], c);
      SplitPrefix(parts[0], c, Join(parts[1..], c));
    }
  }

  lemma {:induction false} JoinSplit<T>(s: seq<T>, c: T)
    ensures Join(Split(s, c), c) == s && Free(Split(s, c), c)
    decreases |s|
  {
    var i := IndexOf(s, c);
    if i < |s| {
      JoinSplit(s[i + 1..], c);
      assert s == s[..i] + [c] + s[i + 1..];
    }
  }

  /** `pattern` stands at position `i` of `s`. */
  predicate At<T(==)>(s: seq<T>, i: nat, pattern: seq<T>) {
    i + |pattern| <= |s| && s[i..i + |pattern|] == pattern
  }

  lemma AtAppend<T>(s: seq<T>, i: nat, a: seq<T>, b: seq<T>)
    ensures At(s, i, a + b) <==> At(s, i, a) && At(s, i + |a|, b)
  {
    if i + |a + b| <= |s| {
      var n := i + |a|;
      assert s[i..i + |a + b|] == s[i..n] + s[n..n + |b|];
      if s[i..i + |a + b|] == a + b {
        assert s[i..n] == (s[i..i + |a + b|])[..|a|] && s[n..n + |b|] == (s[i..i + |a + b|])[|a|..];
      }
    }
  }
}
