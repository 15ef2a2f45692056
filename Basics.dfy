/**
 * Collection idioms the hostel pages are written in: `Array.prototype.filter`,
 * `filter(...).length`, `map`, `Array.from(new Set(...))`, and the rounded
 * percentage `Math.round(part / total * 100)` guarded against division by zero.
 */
module Basics {

  /** A JavaScript value that may be `undefined`. */
  datatype Option<+T> = None | Some(value: T) {
    function GetOr(default: T): T {
      match this
      case Some(v) => v
      case None => default
    }
  }

  /** `s.filter(p)`: the elements of `s` that satisfy `p`, in their original order. */
  function Filter<T>(s: seq<T>, p: T -> bool): (r: seq<T>)
    ensures |r| <= |s|
    ensures forall i :: 0 <= i < |r| ==> r[i] in s && p(r[i])
    ensures forall i :: 0 <= i < |s| && p(s[i]) ==> s[i] in r
  {
    if s == [] then []
    else if p(s[0]) then [s[0]] + Filter(s[1..], p)
    else Filter(s[1..], p)
  }

  /**
   * The filter keeps every occurrence of a satisfying value and none of the
   * others: together with the order kept (FilterIsSubseq), that is exactly `filter`.
   */
  lemma {:induction false} FilterMultiplicity<T>(s: seq<T>, p: T -> bool)
    ensures var r := Filter(s, p);
            forall i :: 0 <= i < |s| ==> multiset(r)[s[i]] == if p(s[i]) then multiset(s)[s[i]] else 0
  {
    if s != [] {
      FilterMultiplicity(s[1..], p);
      assert s == [s[0]] + s[1..];
      var r := Filter(s, p);
      forall i | 0 <= i < |s|
        ensures multiset(r)[s[i]] == if p(s[i]) then multiset(s)[s[i]] else 0
      {
        var x := s[i];
        var t := Filter(s[1..], p);
        if x in s[1..] {
          var k :| 0 <= k < |s[1..]| && s[1..][k] == x;
          assert multiset(t)[s[1..][k]] == if p(x) then multiset(s[1..])[x] else 0;
        } else {
          assert multiset(s[1..])[x] == 0;
          assert x !in t;
          assert multiset(t)[x] == 0;
        }
      }
    }
  }

  /** `s.filter(p).length`. */
  function Count<T>(s: seq<T>, p: T -> bool): nat {
    |Filter(s, p)|
  }

  /** `a` is obtained from `b` by deleting elements, keeping the order of the rest. */
  ghost predicate IsSubseq<T>(a: seq<T>, b: seq<T>)
    decreases |b|
  {
    a == [] || (b != [] && ((a[0] == b[0] && IsSubseq(a[1..], b[1..])) || IsSubseq(a, b[1..])))
  }

  /** `s.map(f)`. */
  function MapSeq<T, U>(s: seq<T>, f: T -> U): (r: seq<U>)
    ensures |r| == |s|
    ensures forall i :: 0 <= i < |s| ==> r[i] == f(s[i])
  {
    seq(|s|, i requires 0 <= i < |s| => f(s[i]))
  }

  ghost predicate NoDuplicates<T>(s: seq<T>) {
    forall i, j :: 0 <= i < j < |s| ==> s[i] != s[j]
  }

  /** The position at which `x` first appears in `s`. */
  function FirstIndex<T(==)>(s: seq<T>, x: T): (k: nat)
    requires x in s
    ensures k < |s| && s[k] == x
    ensures forall j :: 0 <= j < k ==> s[j] != x
  {
    if s[0] == x then 0 else 1 + FirstIndex(s[1..], x)
  }

  /** Appending never moves the first appearance of a value already present. */
  lemma FirstIndexPrefix<T>(a: seq<T>, b: seq<T>)
    ensures forall x :: x in a ==> FirstIndex(a + b, x) == FirstIndex(a, x)
  {
    forall x | x in a ensures FirstIndex(a + b, x) == FirstIndex(a, x) {
      var k, k2 := FirstIndex(a, x), FirstIndex(a + b, x);
      assert (a + b)[k] == x;
    }
  }

  /**
   * `Array.from(new Set(s))`: each value of `s` once, in the order in which it
   * first appears (a JavaScript Set iterates in insertion order).
   */
  function Distinct<T(==)>(s: seq<T>): (r: seq<T>)
    ensures forall i :: 0 <= i < |r| ==> r[i] in s
    ensures forall i :: 0 <= i < |s| ==> s[i] in r
    ensures NoDuplicates(r)
    ensures |r| <= |s|
    ensures forall i, j :: 0 <= i < j < |r| ==> FirstIndex(s, r[i]) < FirstIndex(s, r[j])
    decreases |s|
  {
    if s == [] then []
    else
      var init, last := s[..|s| - 1], s[|s| - 1];
      assert s == init + [last];
      FirstIndexPrefix(init, [last]);
      var d := Distinct(init);
      if last in d then d
      else
        assert FirstIndex(s, last) == |init| by {
          assert last !in init;
        }
        d + [last]
  }

  /**
   * `Math.round(part / total * 100)` when `total > 0`, else 0, computed exactly
   * over the rationals: the nearest integer, halves rounded up.
   */
  function RoundedPercent(part: nat, total: nat): (r: nat)
    ensures total == 0 ==> r == 0
    ensures total > 0 ==> 2 * total * r <= 200 * part + total < 2 * total * r + 2 * total
    ensures part <= total ==> r <= 100
  {
    if total > 0 then
      var r := (200 * part + total) / (2 * total);
      DivBounds(200 * part + total, 2 * total);
      if part <= total then
        assert 200 * part + total < 2 * total * 101;
        DivBelow(200 * part + total, 2 * total, 101);
        r
      else r
    else 0
  }

  lemma DivBounds(a: nat, b: nat)
    requires b > 0
    ensures b * (a / b) <= a < b * (a / b) + b
  {
  }

  lemma MulMonotone(b: nat, x: nat, y: nat)
    requires x <= y
    ensures b * x <= b * y
  {
    assert b * y - b * x == b * (y - x);
  }

  lemma DivBelow(a: nat, b: nat, c: nat)
    requires b > 0 && a < b * c
    ensures a / b < c
  {
    DivBounds(a, b);
    if a / b >= c {
      MulMonotone(b, c, a / b);
    }
  }

  /** One step of a filter, at position `k`. */
  lemma FilterAt<T>(s: seq<T>, k: nat, p: T -> bool)
    requires k < |s|
    ensures Filter(s[k..], p) == (if p(s[k]) then [s[k]] else []) + Filter(s[k + 1..], p)
  {
    assert s[k..][1..] == s[k + 1..];
  }

  // ----- lemmas about Filter and Count -----

  lemma {:induction false} FilterIsSubseq<T>(s: seq<T>, p: T -> bool)
    ensures IsSubseq(Filter(s, p), s)
  {
    if s != [] {
      FilterIsSubseq(s[1..], p);
    }
  }

  /** A filter that keeps every element is the identity. */
  lemma {:induction false} FilterKeepsAll<T>(s: seq<T>, p: T -> bool)
    requires forall i :: 0 <= i < |s| ==> p(s[i])
    ensures Filter(s, p) == s
  {
    if s != [] {
      FilterKeepsAll(s[1..], p);
    }
  }

  lemma {:induction false} FilterAppend<T>(s: seq<T>, t: seq<T>, p: T -> bool)
    ensures Filter(s + t, p) == Filter(s, p) + Filter(t, p)
  {
    if s == [] {
      assert s + t == t;
    } else {
      assert (s + t)[1..] == s[1..] + t;
      FilterAppend(s[1..], t, p);
    }
  }

  /** `x => p(x) && q(x)`. */
  function Both<T>(p: T -> bool, q: T -> bool): T -> bool {
    x => p(x) && q(x)
  }

  /** Filtering twice is filtering once by the conjunction. */
  lemma {:induction false} FilterFilter<T>(s: seq<T>, p: T -> bool, q: T -> bool)
    ensures Filter(Filter(s, p), q) == Filter(s, Both(p, q))
  {
    if s != [] {
      FilterFilter(s[1..], p, q);
      if p(s[0]) {
        assert Filter(s, p)[1..] == Filter(s[1..], p);
      }
    }
  }

  /** Two predicates that never hold together count at most |s| elements between them. */
  lemma {:induction false} CountDisjoint<T>(s: seq<T>, p: T -> bool, q: T -> bool)
    requires forall i :: 0 <= i < |s| ==> !(p(s[i]) && q(s[i]))
    ensures Count(s, p) + Count(s, q) <= |s|
  {
    if s != [] {
      CountDisjoint(s[1..], p, q);
    }
  }

  // ----- grouping by a key: the totals of a partition add up -----

  function HasKey<T, K(==)>(key: T -> K, k: K): T -> bool {
    x => key(x) == k
  }

  /** The sum, over the keys `ks`, of the number of elements of `s` with that key. */
  function SumCounts<T, K(==)>(s: seq<T>, key: T -> K, ks: seq<K>): nat {
    if ks == [] then 0 else Count(s, HasKey(key, ks[0])) + SumCounts(s, key, ks[1..])
  }

  lemma {:induction false} SumCountsAppendKey<T, K>(s: seq<T>, key: T -> K, ks: seq<K>, k: K)
    ensures SumCounts(s, key, ks + [k]) == SumCounts(s, key, ks) + Count(s, HasKey(key, k))
  {
    if ks != [] {
      assert (ks + [k])[1..] == ks[1..] + [k];
      SumCountsAppendKey(s, key, ks[1..], k);
    }
  }

  lemma {:induction false} SumCountsAppendElem<T, K>(s: seq<T>, key: T -> K, ks: seq<K>, x: T)
    requires NoDuplicates(ks)
    ensures SumCounts(s + [x], key, ks) == SumCounts(s, key, ks) + (if key(x) in ks then 1 else 0)
  {
    if ks != [] {
      FilterAppend(s, [x], HasKey(key, ks[0]));
      assert key(x) in ks[1..] ==> key(x) != ks[0];
      assert key(x) in ks <==> key(x) == ks[0] || key(x) in ks[1..];
      SumCountsAppendElem(s, key, ks[1..], x);
    }
  }

  lemma CountNoKey<T, K>(s: seq<T>, key: T -> K, k: K)
    requires forall i :: 0 <= i < |s| ==> key(s[i]) != k
    ensures Count(s, HasKey(key, k)) == 0
  {
    var r := Filter(s, HasKey(key, k));
    if r != [] {
      assert r[0] in s;
    }
  }

  /** A key no element of `init` has is counted once more after `x` is appended. */
  lemma NewKeyCount<T, K>(init: seq<T>, key: T -> K, ks: seq<K>, x: T)
    requires forall i :: 0 <= i < |init| ==> key(init[i]) in ks
    requires key(x) !in ks
    ensures SumCounts(init + [x], key, ks + [key(x)]) == SumCounts(init + [x], key, ks) + 1
  {
    SumCountsAppendKey(init + [x], key, ks, key(x));
    CountNoKey(init, key, key(x));
    FilterAppend(init, [x], HasKey(key, key(x)));
  }

  /** Grouping `s` by `key` over its distinct keys accounts for every element exactly once. */
  lemma {:induction false} GroupTotals<T, K>(s: seq<T>, key: T -> K)
    ensures SumCounts(s, key, Distinct(MapSeq(s, key))) == |s|
    decreases |s|
  {
    if s != [] {
      var init, x := s[..|s| - 1], s[|s| - 1];
      assert s == init + [x];
      var m, mi := MapSeq(s, key), MapSeq(init, key);
      assert m[..|m| - 1] == mi;
      assert m[|m| - 1] == key(x);
      var ks := Distinct(mi);
      GroupTotals(init, key);
      SumCountsAppendElem(init, key, ks, x);
      if key(x) !in ks {
        assert Distinct(m) == ks + [key(x)];
        forall i | 0 <= i < |init| ensures key(init[i]) in ks {
          assert mi[i] == key(init[i]);
        }
        NewKeyCount(init, key, ks, x);
      }
    }
  }
}
