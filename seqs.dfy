/** Sequence helpers shared by the dashboard model: the row selection of a
    boolean mask (`df[mask]`), counting and summing a column. */
module Seqs {

  /** The elements of `s` that satisfy `p`, in their original order. */
  function Filter<T>(s: seq<T>, p: T -> bool): (r: seq<T>)
    ensures |r| <= |s|
    decreases |s|
  {
    if s == [] then []
    else Filter(s[..|s| - 1], p) + (if p(s[|s| - 1]) then [s[|s| - 1]] else [])
  }

  lemma FilterAppend<T>(s: seq<T>, x: T, p: T -> bool)
    ensures Filter(s + [x], p) == Filter(s, p) + (if p(x) then [x] else [])
  {
    assert (s + [x])[..|s + [x]| - 1] == s;
  }

  /** A filter keeps every element that satisfies `p` as often as it occurs,
      and nothing else. */
  lemma {:induction false} FilterMultiset<T>(s: seq<T>, p: T -> bool)
    ensures forall x :: multiset(Filter(s, p))[x] == if p(x) then multiset(s)[x] else 0
    decreases |s|
  {
    if s != [] {
      var init := s[..|s| - 1];
      FilterMultiset(init, p);
      assert s == init + [s[|s| - 1]];
    }
  }

  /** A filter keeps exactly the elements that satisfy `p`. */
  lemma FilterMembers<T>(s: seq<T>, p: T -> bool)
    ensures forall x :: x in Filter(s, p) <==> x in s && p(x)
  {
    FilterMultiset(s, p);
    forall x ensures x in Filter(s, p) <==> x in s && p(x) {
      assert x in Filter(s, p) <==> multiset(Filter(s, p))[x] > 0;
      assert x in s <==> multiset(s)[x] > 0;
    }
  }

  /** An element that satisfies `p` survives the filter. */
  lemma FilterKeeps<T>(s: seq<T>, p: T -> bool, i: nat)
    requires i < |s| && p(s[i])
    ensures s[i] in Filter(s, p)
  {
    FilterMembers(s, p);
  }

  lemma TakeNext<T>(s: seq<T>, i: nat)
    requires i < |s|
    ensures s[..i] + [s[i]] == s[..i + 1]
  {
  }

  lemma {:induction false} FilterAll<T>(s: seq<T>, p: T -> bool)
    requires forall x :: x in s ==> p(x)
    ensures Filter(s, p) == s
    decreases |s|
  {
    if s != [] {
      var init := s[..|s| - 1];
      FilterAll(init, p);
      assert s == init + [s[|s| - 1]];
    }
  }

  lemma {:induction false} FilterNone<T>(s: seq<T>, p: T -> bool)
    requires forall x :: x in s ==> !p(x)
    ensures Filter(s, p) == []
    decreases |s|
  {
    if s != [] {
      FilterNone(s[..|s| - 1], p);
    }
  }

  lemma {:induction false} FilterConcat<T>(a: seq<T>, b: seq<T>, p: T -> bool)
    ensures Filter(a + b, p) == Filter(a, p) + Filter(b, p)
    decreases |b|
  {
    if b == [] {
      assert a + b == a;
    } else {
      var b' := b[..|b| - 1];
      assert (a + b)[..|a + b| - 1] == a + b';
      FilterConcat(a, b', p);
    }
  }

  /** Two filters in a row keep what satisfies both predicates. */
  lemma {:induction false} FilterFilter<T>(s: seq<T>, p: T -> bool, q: T -> bool)
    ensures Filter(Filter(s, p), q) == Filter(s, x => p(x) && q(x))
    decreases |s|
  {
    if s != [] {
      var init := s[..|s| - 1];
      var x := s[|s| - 1];
      FilterFilter(init, p, q);
      assert Filter(s, p) == Filter(init, p) + (if p(x) then [x] else []);
      if p(x) {
        FilterAppend(Filter(init, p), x, q);
      } else {
        assert Filter(init, p) + [] == Filter(init, p);
      }
    }
  }

  /** Filters on pointwise equivalent predicates agree. */
  lemma {:induction false} FilterExt<T>(s: seq<T>, p: T -> bool, q: T -> bool)
    requires forall x :: x in s ==> (p(x) <==> q(x))
    ensures Filter(s, p) == Filter(s, q)
    decreases |s|
  {
    if s != [] {
      FilterExt(s[..|s| - 1], p, q);
    }
  }

  /** A filter on a disjoint union counts the two parts. */
  lemma {:induction false} FilterCountUnion<T>(s: seq<T>, p: T -> bool, q: T -> bool, pq: T -> bool)
    requires forall x :: x in s ==> (pq(x) <==> p(x) || q(x))
    requires forall x :: x in s ==> !(p(x) && q(x))
    ensures |Filter(s, pq)| == |Filter(s, p)| + |Filter(s, q)|
    decreases |s|
  {
    if s != [] {
      FilterCountUnion(s[..|s| - 1], p, q, pq);
    }
  }

  /** Filters of two permutations of each other are permutations of each
      other. */
  lemma {:induction false} FilterPermutation<T>(a: seq<T>, b: seq<T>, p: T -> bool)
    requires multiset(a) == multiset(b)
    ensures multiset(Filter(a, p)) == multiset(Filter(b, p))
    decreases |a|
  {
    if a == [] {
      assert |b| == |multiset(b)| == 0;
    } else {
      var k := MatchLast(a, b);
      var a' := a[..|a| - 1];
      FilterPermutation(a', b[..k] + b[k + 1..], p);
      assert a == a' + [a[|a| - 1]];
      FilterAppend(a', a[|a| - 1], p);
      FilterRemoveAt(b, k, p);
    }
  }

  /** Filtering commutes with taking out one element. */
  lemma FilterRemoveAt<T>(b: seq<T>, k: nat, p: T -> bool)
    requires k < |b|
    ensures multiset(Filter(b, p))
         == multiset(Filter(b[..k] + b[k + 1..], p)) + multiset(if p(b[k]) then [b[k]] else [])
  {
    var u, x, w := b[..k], b[k], b[k + 1..];
    SplitAt(b, k);
    var fx := if p(x) then [x] else [];
    FilterConcat(u + [x], w, p);
    FilterAppend(u, x, p);
    FilterConcat(u, w, p);
    var fu, fw := Filter(u, p), Filter(w, p);
    assert Filter(b, p) == fu + fx + fw;
    assert multiset(Filter(b, p)) == multiset(fu) + multiset(fx) + multiset(fw);
    assert Filter(u + w, p) == fu + fw;
    assert multiset(Filter(u + w, p)) == multiset(fu) + multiset(fw);
    MultisetSwap(multiset(fu), multiset(fx), multiset(fw));
  }

  lemma SplitAt<T>(s: seq<T>, k: nat)
    requires k < |s|
    ensures s == (s[..k] + [s[k]]) + s[k + 1..]
  {
  }

  lemma MultisetSwap<T>(a: multiset<T>, m: multiset<T>, w: multiset<T>)
    ensures a + m + w == a + w + m
  {
  }

  /** The distinct values of `s` in order of first appearance, as
      `unique()` lists them. */
  function Dedup<K(==)>(s: seq<K>): (r: seq<K>)
    ensures forall i :: 0 <= i < |s| ==> s[i] in r
    ensures forall j :: 0 <= j < |r| ==> r[j] in s
    ensures forall i, j :: 0 <= i < j < |r| ==> r[i] != r[j]
    decreases |s|
  {
    if s == [] then []
    else
      var d := Dedup(s[..|s| - 1]);
      if s[|s| - 1] in d then d else d + [s[|s| - 1]]
  }

  /** The sum of a real-valued column. */
  function Sum<T>(s: seq<T>, f: T -> real): real
    decreases |s|
  {
    if s == [] then 0.0 else Sum(s[..|s| - 1], f) + f(s[|s| - 1])
  }

  lemma {:induction false} SumAppend<T>(a: seq<T>, b: seq<T>, f: T -> real)
    ensures Sum(a + b, f) == Sum(a, f) + Sum(b, f)
    decreases |b|
  {
    if b != [] {
      var b' := b[..|b| - 1];
      assert (a + b)[..|a + b| - 1] == a + b';
      SumAppend(a, b', f);
    } else {
      assert a + b == a;
    }
  }

  lemma SumSingle<T>(x: T, f: T -> real)
    ensures Sum([x], f) == f(x)
  {
    assert [x][..0] == [];
  }

  lemma SumRemoveAt<T>(s: seq<T>, p: nat, f: T -> real)
    requires p < |s|
    ensures Sum(s, f) == Sum(s[..p] + s[p + 1..], f) + f(s[p])
  {
    assert s == s[..p] + [s[p]] + s[p + 1..];
    SumAppend(s[..p] + [s[p]], s[p + 1..], f);
    SumAppend(s[..p], [s[p]], f);
    SumAppend(s[..p], s[p + 1..], f);
    SumSingle(s[p], f);
  }

  /** A sum does not depend on the order of the rows. */
  lemma {:induction false} SumPermutation<T>(a: seq<T>, b: seq<T>, f: T -> real)
    requires multiset(a) == multiset(b)
    ensures Sum(a, f) == Sum(b, f)
    decreases |a|
  {
    if a == [] {
      assert |b| == |multiset(b)| == 0;
    } else {
      var p := MatchLast(a, b);
      SumPermutation(a[..|a| - 1], b[..p] + b[p + 1..], f);
      SumRemoveAt(b, p, f);
    }
  }

  /** The last element of `a` sits somewhere in a permutation `b` of it, and
      what is left of either is a permutation of the other. */
  lemma MatchLast<T>(a: seq<T>, b: seq<T>) returns (p: nat)
    requires multiset(a) == multiset(b) && |a| > 0
    ensures p < |b| && b[p] == a[|a| - 1]
    ensures multiset(a[..|a| - 1]) == multiset(b[..p] + b[p + 1..])
  {
    var x := a[|a| - 1];
    var a' := a[..|a| - 1];
    assert a == a' + [x];
    assert x in multiset(b);
    p :| 0 <= p < |b| && b[p] == x;
    SplitAt(b, p);
    assert multiset(b[..p] + b[p + 1..]) == multiset(b) - multiset{x};
    assert multiset(a') == multiset(a) - multiset{x};
  }

  lemma {:induction false} SumNonNegative<T>(s: seq<T>, f: T -> real)
    requires forall x :: x in s ==> f(x) >= 0.0
    ensures Sum(s, f) >= 0.0
    decreases |s|
  {
    if s != [] {
      SumNonNegative(s[..|s| - 1], f);
    }
  }

  lemma {:induction false} SumExt<T>(s: seq<T>, f: T -> real, g: T -> real)
    requires forall x :: x in s ==> f(x) == g(x)
    ensures Sum(s, f) == Sum(s, g)
    decreases |s|
  {
    if s != [] {
      SumExt(s[..|s| - 1], f, g);
    }
  }

  /** The mean of a column, 0 for no rows (the dashboard's `else 0`). */
  function Mean<T>(s: seq<T>, f: T -> real): real
  {
    if |s| == 0 then 0.0 else Sum(s, f) / (|s| as real)
  }
}
