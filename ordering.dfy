/** Orders used by the dashboard's tables: Python's code-point order on
    strings, lexicographic order on tuples of strings (pandas `groupby`
    sorts its keys this way), and a stable sort on a key made of a number
    followed by such a tuple (`sort_values` on a month number, then on the
    status). */
module Ordering {

  /** Python's `<=` on `str`: lexicographic on code points. */
  predicate StrLeq(a: string, b: string)
  {
    a == [] || (b != [] && (a[0] < b[0] || (a[0] == b[0] && StrLeq(a[1..], b[1..]))))
  }

  predicate StrLt(a: string, b: string)
  {
    StrLeq(a, b) && a != b
  }

  lemma {:induction false} StrLeqTotal(a: string, b: string)
    ensures StrLeq(a, b) || StrLeq(b, a)
  {
    if a != [] && b != [] && a[0] == b[0] {
      StrLeqTotal(a[1..], b[1..]);
    }
  }

  lemma {:induction false} StrLeqTrans(a: string, b: string, c: string)
    requires StrLeq(a, b) && StrLeq(b, c)
    ensures StrLeq(a, c)
  {
    if a != [] && b != [] && c != [] && a[0] == b[0] && b[0] == c[0] {
      StrLeqTrans(a[1..], b[1..], c[1..]);
    }
  }

  lemma {:induction false} StrLeqAntisym(a: string, b: string)
    requires StrLeq(a, b) && StrLeq(b, a)
    ensures a == b
  {
    if a != [] && b != [] {
      StrLeqAntisym(a[1..], b[1..]);
      assert a == [a[0]] + a[1..];
      assert b == [b[0]] + b[1..];
    }
  }

  /** Lexicographic order on tuples of strings, as Python compares tuples. */
  predicate PartsLeq(a: seq<string>, b: seq<string>)
  {
    a == [] || (b != [] && (StrLt(a[0], b[0]) || (a[0] == b[0] && PartsLeq(a[1..], b[1..]))))
  }

  lemma {:induction false} PartsLeqTotal(a: seq<string>, b: seq<string>)
    ensures PartsLeq(a, b) || PartsLeq(b, a)
  {
    if a != [] && b != [] {
      StrLeqTotal(a[0], b[0]);
      if a[0] == b[0] {
        PartsLeqTotal(a[1..], b[1..]);
      }
    }
  }

  lemma {:induction false} PartsLeqTrans(a: seq<string>, b: seq<string>, c: seq<string>)
    requires PartsLeq(a, b) && PartsLeq(b, c)
    ensures PartsLeq(a, c)
  {
    if a != [] {
      if StrLt(a[0], b[0]) && StrLt(b[0], c[0]) {
        StrLeqTrans(a[0], b[0], c[0]);
        if a[0] == c[0] {
          StrLeqAntisym(a[0], b[0]);
        }
      } else if a[0] == b[0] && b[0] == c[0] {
        PartsLeqTrans(a[1..], b[1..], c[1..]);
      }
    }
  }

  /** The key a table is sorted by: a number first (the month number of
      `month_to_num`, 0 when absent), then a tuple of strings. */
  datatype SortKey = SortKey(num: int, parts: seq<string>)

  predicate KeyLeq(a: SortKey, b: SortKey)
  {
    a.num < b.num || (a.num == b.num && PartsLeq(a.parts, b.parts))
  }

  lemma KeyLeqTotal(a: SortKey, b: SortKey)
    ensures KeyLeq(a, b) || KeyLeq(b, a)
  {
    PartsLeqTotal(a.parts, b.parts);
  }

  lemma KeyLeqTrans(a: SortKey, b: SortKey, c: SortKey)
    requires KeyLeq(a, b) && KeyLeq(b, c)
    ensures KeyLeq(a, c)
  {
    if a.num == b.num && b.num == c.num {
      PartsLeqTrans(a.parts, b.parts, c.parts);
    }
  }

  ghost predicate SortedBy<T>(s: seq<T>, key: T -> SortKey)
  {
    forall i, j :: 0 <= i < j < |s| ==> KeyLeq(key(s[i]), key(s[j]))
  }

  /** Inserts `x` before the first element whose key is not below it, so
      that `x` comes before the elements with an equal key. */
  function Insert<T>(x: T, s: seq<T>, key: T -> SortKey): (r: seq<T>)
    decreases |s|
  {
    if s == [] then [x]
    else if KeyLeq(key(x), key(s[0])) then [x] + s
    else [s[0]] + Insert(x, s[1..], key)
  }

  lemma {:induction false} InsertFacts<T>(x: T, s: seq<T>, key: T -> SortKey)
    requires SortedBy(s, key)
    ensures multiset(Insert(x, s, key)) == multiset(s) + multiset{x}
    ensures SortedBy(Insert(x, s, key), key)
    ensures Insert(x, s, key) != [] && key(Insert(x, s, key)[0]) in {key(x)} + (if s == [] then {} else {key(s[0])})
    decreases |s|
  {
    if s == [] {
    } else if KeyLeq(key(x), key(s[0])) {
      var r := [x] + s;
      forall i, j | 0 <= i < j < |r| ensures KeyLeq(key(r[i]), key(r[j])) {
        if i == 0 && j > 1 {
          KeyLeqTrans(key(x), key(s[0]), key(s[j - 1]));
        }
      }
    } else {
      KeyLeqTotal(key(x), key(s[0]));
      var t := Insert(x, s[1..], key);
      InsertFacts(x, s[1..], key);
      assert s == [s[0]] + s[1..];
      var r := [s[0]] + t;
      forall i, j | 0 <= i < j < |r| ensures KeyLeq(key(r[i]), key(r[j])) {
        if i == 0 {
          assert r[j] in multiset(t);
          assert r[j] in s[1..] || r[j] == x;
          if r[j] != x {
            var k :| 0 <= k < |s[1..]| && s[1..][k] == r[j];
            assert s[k + 1] == r[j];
          }
        }
      }
    }
  }

  /** A stable sort: elements with equal keys keep their relative order
      (pandas' multi-column `sort_values` is stable). */
  function SortBy<T>(s: seq<T>, key: T -> SortKey): (r: seq<T>)
    ensures |r| == |s|
    ensures multiset(r) == multiset(s)
    ensures SortedBy(r, key)
    decreases |s|
  {
    if s == [] then []
    else
      var t := SortBy(s[1..], key);
      InsertFacts(s[0], t, key);
      assert s == [s[0]] + s[1..];
      assert |Insert(s[0], t, key)| == |multiset(Insert(s[0], t, key))|;
      Insert(s[0], t, key)
  }

  /** Sorting what is already sorted changes nothing, so re-sorting a table
      on the key it is sorted by leaves it as it is. */
  lemma {:induction false} SortSortedIsIdentity<T>(s: seq<T>, key: T -> SortKey)
    requires SortedBy(s, key)
    ensures SortBy(s, key) == s
    decreases |s|
  {
    if s != [] {
      assert SortedBy(s[1..], key);
      SortSortedIsIdentity(s[1..], key);
      assert s == [s[0]] + s[1..];
    }
  }

  /** No two elements share a projection. */
  ghost predicate DistinctOn<T, K>(s: seq<T>, f: T -> K)
  {
    forall i, j :: 0 <= i < j < |s| ==> f(s[i]) != f(s[j])
  }

  lemma RemoveAtMultiset<T>(s: seq<T>, p: nat)
    requires p < |s|
    ensures multiset(s[..p] + s[p + 1..]) == multiset(s) - multiset{s[p]}
  {
    assert s == s[..p] + [s[p]] + s[p + 1..];
  }

  lemma RemoveAtKeepsDistinct<T, K>(s: seq<T>, p: nat, f: T -> K)
    requires p < |s| && DistinctOn(s, f)
    ensures DistinctOn(s[..p] + s[p + 1..], f)
    ensures forall x :: x in s[..p] + s[p + 1..] ==> f(x) != f(s[p])
  {
    var s' := s[..p] + s[p + 1..];
    forall i, j | 0 <= i < j < |s'| ensures f(s'[i]) != f(s'[j]) {
      var i' := if i < p then i else i + 1;
      var j' := if j < p then j else j + 1;
      assert s'[i] == s[i'] && s'[j] == s[j'];
    }
    forall x | x in s' ensures f(x) != f(s[p]) {
      var q :| 0 <= q < |s'| && s'[q] == x;
      var q' := if q < p then q else q + 1;
      assert s[q'] == x && q' != p;
    }
  }

  lemma {:induction false} PermutationKeepsDistinct<T, K>(s: seq<T>, r: seq<T>, f: T -> K)
    requires multiset(s) == multiset(r)
    requires DistinctOn(s, f)
    ensures DistinctOn(r, f)
    decreases |r|
  {
    if r != [] {
      assert r[0] in multiset(s);
      var p :| 0 <= p < |s| && s[p] == r[0];
      var s' := s[..p] + s[p + 1..];
      RemoveAtMultiset(s, p);
      RemoveAtKeepsDistinct(s, p, f);
      assert r == [r[0]] + r[1..];
      assert multiset(r[1..]) == multiset(r) - multiset{r[0]};
      PermutationKeepsDistinct(s', r[1..], f);
      forall i, j | 0 <= i < j < |r| ensures f(r[i]) != f(r[j]) {
        assert r[j] == r[1..][j - 1];
        if i == 0 {
          assert r[j] in multiset(s');
        } else {
          assert r[i] == r[1..][i - 1];
        }
      }
    }
  }
}
