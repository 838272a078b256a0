/**
 * The two array operations the pages build their views with:
 * Array.prototype.filter and a stable Array.prototype.sort.
 */
module Seqs {

  // ---------------------------------------------------------------------
  // filter

  /** Array.prototype.filter: the elements of `s` that `keep` accepts, in their order. */
  function Filter<T>(s: seq<T>, keep: T -> bool): (r: seq<T>)
    ensures |r| <= |s|
    ensures forall x :: x in r ==> x in s && keep(x)
  {
    if s == [] then []
    else Filter(s[..|s| - 1], keep) + (if keep(s[|s| - 1]) then [s[|s| - 1]] else [])
  }

  /** The positions of `s` that `keep` accepts, in increasing order. */
  function KeptIndices<T>(s: seq<T>, keep: T -> bool): seq<nat>
  {
    if s == [] then []
    else KeptIndices(s[..|s| - 1], keep) + (if keep(s[|s| - 1]) then [|s| - 1] else [])
  }

  /** `r` is the subsequence of `s` at the strictly increasing positions `idx`. */
  ghost predicate SubsequenceAt<T>(r: seq<T>, s: seq<T>, idx: seq<nat>) {
    && |idx| == |r|
    && (forall k :: 0 <= k < |idx| ==> idx[k] < |s| && r[k] == s[idx[k]])
    && (forall k, l :: 0 <= k < l < |idx| ==> idx[k] < idx[l])
  }

  /**
   * The filter keeps exactly the accepted elements and keeps them in
   * order: its result is the subsequence of `s` at the accepted positions.
   */
  lemma {:induction false} FilterIsSubsequence<T>(s: seq<T>, keep: T -> bool)
    ensures SubsequenceAt(Filter(s, keep), s, KeptIndices(s, keep))
    ensures forall i :: 0 <= i < |s| ==> (i in KeptIndices(s, keep) <==> keep(s[i]))
  {
    if s != [] {
      var n := |s| - 1;
      var p := s[..n];
      FilterIsSubsequence(p, keep);
      var fp, ip := Filter(p, keep), KeptIndices(p, keep);
      var r, idx := Filter(s, keep), KeptIndices(s, keep);
      if keep(s[n]) {
        assert r == fp + [s[n]] && idx == ip + [n];
      } else {
        assert r == fp && idx == ip;
      }
      assert |idx| == |r|;
      forall k | 0 <= k < |idx| ensures idx[k] < |s| && r[k] == s[idx[k]] {
        if k < |ip| {
          assert idx[k] == ip[k] && r[k] == fp[k] && p[ip[k]] == s[ip[k]];
        }
      }
      forall k, l | 0 <= k < l < |idx| ensures idx[k] < idx[l] {
        if l < |ip| { assert idx[k] == ip[k] && idx[l] == ip[l]; }
        else { assert idx[k] == ip[k] && ip[k] < n; }
      }
      forall i | 0 <= i < |s| ensures i in idx <==> keep(s[i]) {
        if i < n {
          assert p[i] == s[i];
          assert i in idx <==> i in ip;
        } else {
          assert n !in ip;
        }
      }
    }
  }

  /** A filter that accepts every element returns the sequence itself. */
  lemma {:induction false} FilterAll<T>(s: seq<T>, keep: T -> bool)
    requires forall x :: x in s ==> keep(x)
    ensures Filter(s, keep) == s
  {
    if s != [] {
      FilterAll(s[..|s| - 1], keep);
      assert s[..|s| - 1] + [s[|s| - 1]] == s;
    }
  }

  /** Every accepted element of `s` appears in the result. */
  lemma FilterKeeps<T>(s: seq<T>, keep: T -> bool, x: T)
    requires x in s && keep(x)
    ensures x in Filter(s, keep)
  {
    FilterIsSubsequence(s, keep);
    var i :| 0 <= i < |s| && s[i] == x;
    var idx := KeptIndices(s, keep);
    var k :| 0 <= k < |idx| && idx[k] == i;
    assert Filter(s, keep)[k] == x;
  }

  /** Filtering distributes over concatenation. */
  lemma {:induction false} FilterAppend<T>(a: seq<T>, b: seq<T>, keep: T -> bool)
    ensures Filter(a + b, keep) == Filter(a, keep) + Filter(b, keep)
  {
    if b != [] {
      FilterAppend(a, b[..|b| - 1], keep);
      assert (a + b)[..|a + b| - 1] == a + b[..|b| - 1];
    } else {
      assert a + b == a;
    }
  }

  // ---------------------------------------------------------------------
  // stable sort

  /**
   * Inserts `x` into `sorted` after the last element that does not
   * compare greater than it, so that equal elements keep their order.
   */
  function Insert<T>(sorted: seq<T>, x: T, cmp: (T, T) -> int): (r: seq<T>)
    ensures |r| == |sorted| + 1
    ensures multiset(r) == multiset(sorted) + multiset{x}
  {
    if sorted == [] then [x]
    else if cmp(sorted[|sorted| - 1], x) <= 0 then sorted + [x]
    else
      var init := sorted[..|sorted| - 1];
      assert sorted == init + [sorted[|sorted| - 1]];
      Insert(init, x, cmp) + [sorted[|sorted| - 1]]
  }

  /**
   * Array.prototype.sort with the comparator `cmp`, as a stable insertion
   * sort. For a comparator that orders consistently, every stable sort
   * gives this same sequence.
   */
  function SortBy<T>(s: seq<T>, cmp: (T, T) -> int): (r: seq<T>)
    ensures |r| == |s|
    ensures multiset(r) == multiset(s)
  {
    if s == [] then []
    else
      var init := s[..|s| - 1];
      assert s == init + [s[|s| - 1]];
      Insert(SortBy(init, cmp), s[|s| - 1], cmp)
  }

  /** A comparator that never says "greater" in both directions. */
  ghost predicate Antisymmetric<T(!new)>(cmp: (T, T) -> int) {
    forall a, b :: cmp(a, b) > 0 ==> cmp(b, a) <= 0
  }

  /** Each element compares at most equal to the next one. */
  ghost predicate Ordered<T>(r: seq<T>, cmp: (T, T) -> int) {
    forall i :: 0 <= i < |r| - 1 ==> cmp(r[i], r[i + 1]) <= 0
  }

  /** Dropping the last element keeps a sequence ordered. */
  lemma OrderedInit<T>(s: seq<T>, cmp: (T, T) -> int)
    requires s != [] && Ordered(s, cmp)
    ensures Ordered(s[..|s| - 1], cmp)
  {
    var init := s[..|s| - 1];
    forall i | 0 <= i < |init| - 1 ensures cmp(init[i], init[i + 1]) <= 0 {
      assert init[i] == s[i] && init[i + 1] == s[i + 1];
    }
  }

  /** Appending an element no smaller than the last one keeps a sequence ordered. */
  lemma OrderedSnoc<T>(s: seq<T>, x: T, cmp: (T, T) -> int)
    requires Ordered(s, cmp) && (s == [] || cmp(s[|s| - 1], x) <= 0)
    ensures Ordered(s + [x], cmp)
  {
    var r := s + [x];
    forall i | 0 <= i < |r| - 1 ensures cmp(r[i], r[i + 1]) <= 0 {
      if i < |s| - 1 { assert r[i] == s[i] && r[i + 1] == s[i + 1]; }
    }
  }

  lemma {:induction false} InsertOrdered<T(!new)>(sorted: seq<T>, x: T, cmp: (T, T) -> int)
    requires Antisymmetric(cmp) && Ordered(sorted, cmp)
    ensures Ordered(Insert(sorted, x, cmp), cmp)
    ensures var r := Insert(sorted, x, cmp);
            r[|r| - 1] == x || (sorted != [] && r[|r| - 1] == sorted[|sorted| - 1])
  {
    if sorted == [] {
    } else if cmp(sorted[|sorted| - 1], x) <= 0 {
      OrderedSnoc(sorted, x, cmp);
    } else {
      var init := sorted[..|sorted| - 1];
      var last := sorted[|sorted| - 1];
      OrderedInit(sorted, cmp);
      InsertOrdered(init, x, cmp);
      var r0 := Insert(init, x, cmp);
      assert cmp(r0[|r0| - 1], last) <= 0 by {
        if r0[|r0| - 1] != x {
          assert init != [] && r0[|r0| - 1] == init[|init| - 1] == sorted[|sorted| - 2];
        }
      }
      OrderedSnoc(r0, last, cmp);
    }
  }


  /** Sorting with an antisymmetric comparator leaves each element at most equal to the next. */
  lemma {:induction false} SortByOrdered<T(!new)>(s: seq<T>, cmp: (T, T) -> int)
    requires Antisymmetric(cmp)
    ensures Ordered(SortBy(s, cmp), cmp)
  {
    if s != [] {
      SortByOrdered(s[..|s| - 1], cmp);
      InsertOrdered(SortBy(s[..|s| - 1], cmp), s[|s| - 1], cmp);
    }
  }

  /** A comparator that calls every pair of elements equal leaves the order unchanged. */
  lemma {:induction false} SortByAllEqual<T>(s: seq<T>, cmp: (T, T) -> int)
    requires forall a, b :: a in s && b in s ==> cmp(a, b) == 0
    ensures SortBy(s, cmp) == s
  {
    if s != [] {
      var init := s[..|s| - 1];
      SortByAllEqual(init, cmp);
      assert s == init + [s[|s| - 1]];
      if init != [] {
        assert init[|init| - 1] in s;
      }
    }
  }

  /** Ordered by the differences of an integer key means sorted by that key. */
  lemma {:induction false} OrderedByKey<T>(r: seq<T>, key: T -> int, cmp: (T, T) -> int, i: int, j: int)
    requires forall a, b :: cmp(a, b) == key(a) - key(b)
    requires Ordered(r, cmp)
    requires 0 <= i <= j < |r|
    ensures key(r[i]) <= key(r[j])
    decreases j - i
  {
    if i < j {
      OrderedByKey(r, key, cmp, i + 1, j);
      assert cmp(r[i], r[i + 1]) <= 0;
    }
  }
}
