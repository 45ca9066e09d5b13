/** Order-preserving, duplicate-free selection of one sequence from another. */
module Subsequences {

  /** `f` places the elements of `a` at strictly increasing positions of `b`. */
  ghost predicate Places<T>(f: seq<nat>, a: seq<T>, b: seq<T>) {
    && |f| == |a|
    && (forall i :: 0 <= i < |f| ==> f[i] < |b|)
    && (forall i, j :: 0 <= i < j < |f| ==> f[i] < f[j])
    && (forall i :: 0 <= i < |f| ==> a[i] == b[f[i]])
  }

  ghost predicate Sub<T>(a: seq<T>, b: seq<T>) {
    exists f :: Places(f, a, b)
  }

  lemma SubEmpty<T>(b: seq<T>)
    ensures Sub([], b)
  {
    assert Places([], [], b);
  }

  lemma SubGrow<T>(a: seq<T>, b: seq<T>, c: seq<T>)
    requires Sub(a, b)
    ensures Sub(a, b + c)
  {
    var f :| Places(f, a, b);
    assert Places(f, a, b + c);
  }

  lemma SubExtend<T>(a: seq<T>, b: seq<T>, x: T)
    requires Sub(a, b)
    ensures Sub(a + [x], b + [x])
  {
    var f :| Places(f, a, b);
    var end: seq<nat> := [|b|];
    var g := f + end;
    assert Places(g, a + [x], b + [x]);
  }

  /** Leaving out a stretch keeps the rest in order. */
  lemma SubDrop<T>(p: seq<T>, x: seq<T>, q: seq<T>, b: seq<T>)
    requires Sub(p + x + q, b)
    ensures Sub(p + q, b)
  {
    var f :| Places(f, p + x + q, b);
    var g := f[..|p|] + f[|p| + |x|..];
    forall i | 0 <= i < |g|
      ensures g[i] < |b| && (p + q)[i] == b[g[i]]
    {
      var k := if i < |p| then i else i + |x|;
      assert g[i] == f[k] && (p + x + q)[k] == (p + q)[i];
    }
    assert Places(g, p + q, b);
  }

  /** Increasing positions are not below their index. */
  lemma {:induction false} PlacesAtLeast<T>(f: seq<nat>, a: seq<T>, b: seq<T>, i: nat)
    requires Places(f, a, b) && i < |f|
    ensures f[i] >= i
  {
    if i > 0 {
      PlacesAtLeast(f, a, b, i - 1);
    }
  }

  lemma PlacesWithoutLast<T>(f: seq<nat>, a: seq<T>, b: seq<T>)
    requires Places(f, a, b) && |a| == |b| > 0
    ensures a[|a| - 1] == b[|a| - 1] && Sub(a[..|a| - 1], b[..|a| - 1])
  {
    PlacesAtLeast(f, a, b, |a| - 1);
    assert forall i :: 0 <= i < |a| - 1 ==> f[i] < f[|a| - 1];
    assert Places(f[..|a| - 1], a[..|a| - 1], b[..|a| - 1]);
  }

  /** A selection as long as what it selects from is all of it. */
  lemma {:induction false} SubOfSameLength<T>(a: seq<T>, b: seq<T>)
    requires Sub(a, b) && |a| == |b|
    ensures a == b
    decreases |a|
  {
    hide Places;
    if a != [] {
      var last := |a| - 1;
      var f :| Places(f, a, b);
      PlacesWithoutLast(f, a, b);
      SubOfSameLength(a[..last], b[..last]);
      assert a == a[..last] + [a[last]] && b == b[..last] + [b[last]];
    }
  }
}
