/** Facts about sequences used by the extractor and the synchronizer. */
module Sequences {

  /** No element occurs twice. */
  predicate Distinct<T(==)>(s: seq<T>) {
    forall i, j :: 0 <= i < j < |s| ==> s[i] != s[j]
  }

  /** The position of the first occurrence of `x` in `s`. */
  function FirstIndex<T(==)>(s: seq<T>, x: T): (k: nat)
    requires x in s
    ensures k < |s| && s[k] == x && x !in s[..k]
  {
    if s[0] == x then 0
    else
      var k := 1 + FirstIndex(s[1..], x);
      assert s[..k] == [s[0]] + s[1..][..k - 1];
      k
  }

  /** Any position holding `x` with no earlier `x` is the first occurrence. */
  lemma FirstIndexUnique<T>(s: seq<T>, x: T, k: nat)
    requires k < |s| && s[k] == x && x !in s[..k]
    ensures FirstIndex(s, x) == k
  {
    var f := FirstIndex(s, x);
    assert forall i :: 0 <= i < k ==> s[..k][i] == s[i];
    assert forall i :: 0 <= i < f ==> s[..f][i] == s[i];
  }

  /** A distinct sequence has as many elements as the set of its elements. */
  lemma {:induction false} DistinctCardinality<T>(s: seq<T>)
    requires Distinct(s)
    ensures |set x | x in s| == |s|
  {
    if s != [] {
      var p, y := s[..|s| - 1], s[|s| - 1];
      assert s == p + [y];
      assert Distinct(p);
      assert forall i :: 0 <= i < |p| ==> p[i] == s[i] != y;
      DistinctCardinality(p);
      assert (set x | x in s) == (set x | x in p) + {y};
    }
  }

  /** The elements of `s` that `keep` accepts, in their order in `s`. */
  function Only<T>(s: seq<T>, keep: T -> bool): (r: seq<T>)
    ensures |r| <= |s|
    ensures forall i :: 0 <= i < |r| ==> keep(r[i]) && r[i] in s
    ensures forall i :: 0 <= i < |s| && keep(s[i]) ==> s[i] in r
  {
    if s == [] then []
    else
      var rest := Only(s[..|s| - 1], keep);
      assert forall x :: x in s[..|s| - 1] ==> x in s;
      assert forall i :: 0 <= i < |s| - 1 ==> s[i] == s[..|s| - 1][i];
      if keep(s[|s| - 1]) then rest + [s[|s| - 1]] else rest
  }

  lemma {:induction false} OnlyConcat<T>(a: seq<T>, b: seq<T>, keep: T -> bool)
    ensures Only(a + b, keep) == Only(a, keep) + Only(b, keep)
  {
    if b == [] {
      assert a + b == a;
    } else {
      var b' := b[..|b| - 1];
      assert (a + b)[..|a + b| - 1] == a + b';
      OnlyConcat(a, b', keep);
    }
  }

  /** Selecting from a sequence none of whose elements is kept gives nothing. */
  lemma {:induction false} OnlyNone<T>(s: seq<T>, keep: T -> bool)
    requires forall i :: 0 <= i < |s| ==> !keep(s[i])
    ensures Only(s, keep) == []
  {
    if s != [] {
      OnlyNone(s[..|s| - 1], keep);
    }
  }

  /** Selecting from a sequence every element of which is kept gives it whole. */
  lemma {:induction false} OnlyAll<T>(s: seq<T>, keep: T -> bool)
    requires forall i :: 0 <= i < |s| ==> keep(s[i])
    ensures Only(s, keep) == s
  {
    if s != [] {
      OnlyAll(s[..|s| - 1], keep);
    }
  }

  /** Selecting from a single element keeps it exactly when `keep` accepts it. */
  lemma OnlySingle<T>(x: T, keep: T -> bool)
    ensures Only([x], keep) == if keep(x) then [x] else []
  {
    assert [x][..0] == [];
  }
}
