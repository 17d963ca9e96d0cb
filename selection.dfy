/** Row selection by a boolean mask (`df[mask]` in pandas) and the counts
    built on it (`len(df[mask])`). */
module Selection {
  import opened Wrappers

  /** The rows of `s` that satisfy `p`, in their original order. */
  function Where<T>(s: seq<T>, p: T -> bool): (r: seq<T>)
    ensures |r| <= |s|
    ensures forall x :: x in r ==> x in s && p(x)
  {
    if s == [] then []
    else Where(s[..|s| - 1], p) + (if p(s[|s| - 1]) then [s[|s| - 1]] else [])
  }

  /** `len(df[mask])`. */
  function Count<T>(s: seq<T>, p: T -> bool): nat {
    |Where(s, p)|
  }

  /** The positions of the rows of `s` that satisfy `p`, in increasing order. */
  function Positions<T>(s: seq<T>, p: T -> bool): seq<int> {
    if s == [] then []
    else Positions(s[..|s| - 1], p) + (if p(s[|s| - 1]) then [|s| - 1] else [])
  }

  /** `idx` lists, in strictly increasing order, exactly the positions of `s`
      whose row satisfies `p`, and `r` holds those rows in that order:
      `r` is the order-preserving subsequence of `s` selected by `p`. */
  ghost predicate IsSelection<T>(r: seq<T>, s: seq<T>, idx: seq<int>, p: T -> bool) {
    && |idx| == |r|
    && (forall k :: 0 <= k < |idx| ==> 0 <= idx[k] < |s| && r[k] == s[idx[k]])
    && (forall k, m :: 0 <= k < m < |idx| ==> idx[k] < idx[m])
    && (forall j :: 0 <= j < |s| ==> (p(s[j]) <==> j in idx))
  }

  lemma {:induction false} WhereSelects<T>(s: seq<T>, p: T -> bool)
    ensures IsSelection(Where(s, p), s, Positions(s, p), p)
  {
    if s != [] {
      var n := |s| - 1;
      var init := s[..n];
      WhereSelects(init, p);
      var idx := Positions(s, p);
      var idx0 := Positions(init, p);
      forall k | 0 <= k < |idx0| ensures idx0[k] < n {
      }
      forall j | 0 <= j < |s| ensures p(s[j]) <==> j in idx {
        if j < n {
          assert s[j] == init[j];
          assert j != n;
        } else {
          assert j !in idx0;
        }
      }
    }
  }

  /** Selecting with two masks that agree on every row gives the same rows. */
  lemma {:induction false} WhereExt<T>(s: seq<T>, p: T -> bool, q: T -> bool)
    requires forall x :: x in s ==> p(x) == q(x)
    ensures Where(s, p) == Where(s, q)
  {
    if s != [] {
      WhereExt(s[..|s| - 1], p, q);
    }
  }

  /** The mask of rows satisfying both masks (`mask1 & mask2`). */
  function And<T>(p: T -> bool, q: T -> bool): T -> bool {
    x => p(x) && q(x)
  }

  /** Filtering twice is filtering once by the conjunction of the masks. */
  lemma {:induction false} WhereWhere<T>(s: seq<T>, p: T -> bool, q: T -> bool)
    ensures Where(Where(s, p), q) == Where(s, And(p, q))
  {
    if s != [] {
      var n := |s| - 1;
      WhereWhere(s[..n], p, q);
      var w := Where(s, p);
      if p(s[n]) {
        assert w[..|w| - 1] == Where(s[..n], p);
      } else {
        assert w == Where(s[..n], p);
      }
    }
  }

  /** Every row satisfying the mask is kept. */
  lemma {:induction false} WhereKeeps<T>(s: seq<T>, p: T -> bool, x: T)
    requires x in s && p(x)
    ensures x in Where(s, p)
  {
    var n := |s| - 1;
    if s[n] != x {
      assert x in s[..n];
      WhereKeeps(s[..n], p, x);
    }
  }

  /** Keeping every row, or no row. */
  lemma {:induction false} WhereAll<T>(s: seq<T>, p: T -> bool)
    requires forall x :: x in s ==> p(x)
    ensures Where(s, p) == s
  {
    if s != [] {
      var n := |s| - 1;
      WhereAll(s[..n], p);
      assert s[..n] + [s[n]] == s;
    }
  }

  /** A mask that no row satisfies selects nothing. */
  lemma WhereNone<T>(s: seq<T>, p: T -> bool)
    requires forall x :: x in s ==> !p(x)
    ensures Where(s, p) == []
  {
  }

  /** Counts of two masks that never hold together add up to the count of
      their disjunction. */
  lemma {:induction false} CountDisjoint<T>(s: seq<T>, p: T -> bool, q: T -> bool, pq: T -> bool)
    requires forall x :: !(p(x) && q(x))
    requires forall x :: pq(x) == (p(x) || q(x))
    ensures Count(s, p) + Count(s, q) == Count(s, pq)
  {
    if s != [] {
      CountDisjoint(s[..|s| - 1], p, q, pq);
    }
  }

  /** The mask `df[column] == v`; a missing cell never equals `v`. */
  function HasValue<T, K(==)>(key: T -> Option<K>, v: K): T -> bool {
    x => key(x) == Some(v)
  }

  /** The mask `df[column].isin(vs)`. */
  function ValueIn<T, K(==)>(key: T -> Option<K>, vs: seq<K>): T -> bool {
    x => key(x).Some? && key(x).value in vs
  }

  /** The number of rows whose `key` is `v` (`value_counts()[v]`, 0 when absent). */
  function CountOf<T, K(==)>(s: seq<T>, key: T -> Option<K>, v: K): nat {
    Count(s, HasValue(key, v))
  }

  /** The counts for each value of `vs`, added up. */
  function SumCounts<T, K(==)>(s: seq<T>, key: T -> Option<K>, vs: seq<K>): nat {
    if vs == [] then 0
    else SumCounts(s, key, vs[..|vs| - 1]) + CountOf(s, key, vs[|vs| - 1])
  }

  ghost predicate Distinct<K>(vs: seq<K>) {
    forall i, j :: 0 <= i < j < |vs| ==> vs[i] != vs[j]
  }

  /** For distinct values, the per-value counts add up to the number of rows
      whose key is one of them. */
  lemma {:induction false} SumCountsDistinct<T, K>(s: seq<T>, key: T -> Option<K>, vs: seq<K>)
    requires Distinct(vs)
    ensures SumCounts(s, key, vs) == Count(s, ValueIn(key, vs))
  {
    if vs == [] {
      WhereNone(s, ValueIn(key, vs));
    } else {
      var n := |vs| - 1;
      var init := vs[..n];
      var v := vs[n];
      SumCountsDistinct(s, key, init);
      assert forall x :: ValueIn(key, vs)(x) == (ValueIn(key, init)(x) || HasValue(key, v)(x)) by {
        assert vs == init + [v];
      }
      CountDisjoint(s, ValueIn(key, init), HasValue(key, v), ValueIn(key, vs));
    }
  }

  /** Appending one row adds one to a count exactly when the row has the value. */
  lemma CountOfSnoc<T, K>(s: seq<T>, key: T -> Option<K>, v: K, x: T)
    ensures CountOf(s + [x], key, v) == CountOf(s, key, v) + (if key(x) == Some(v) then 1 else 0)
  {
    assert (s + [x])[..|s|] == s;
  }

  lemma SumCountsThree<T, K>(s: seq<T>, key: T -> Option<K>, a: K, b: K, c: K)
    ensures SumCounts(s, key, [a, b, c]) == CountOf(s, key, a) + CountOf(s, key, b) + CountOf(s, key, c)
  {
    assert [a, b, c][..2] == [a, b] && [a, b][..1] == [a] && [a][..0] == [];
    assert SumCounts(s, key, [a]) == CountOf(s, key, a);
    assert SumCounts(s, key, [a, b]) == CountOf(s, key, a) + CountOf(s, key, b);
  }
}
