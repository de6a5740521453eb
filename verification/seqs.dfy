/** Sequence helpers with Python's list semantics. */
module Seqs {

  /** A Python slice bound resolved against a length `n`: negative bounds
      count from the end, and every bound is clamped into `[0, n]`. */
  function SliceBound(i: int, n: nat): (r: nat)
    ensures r <= n
    ensures 0 <= i <= n ==> r == i
    ensures i > n ==> r == n
    ensures i < 0 ==> r == if i + n < 0 then 0 else i + n
  {
    if i < 0 then (if i + n < 0 then 0 else i + n) else if i > n then n else i
  }

  /** Python's `s[lo:hi]`. */
  function PySlice<T>(s: seq<T>, lo: int, hi: int): (r: seq<T>)
    ensures 0 <= lo <= hi <= |s| ==> r == s[lo..hi]
    ensures |r| <= |s|
  {
    var a := SliceBound(lo, |s|);
    var b := SliceBound(hi, |s|);
    if a < b then s[a..b] else []
  }

  /** Python's `s[:k]`. */
  function PyPrefix<T>(s: seq<T>, k: int): (r: seq<T>)
    ensures k >= 0 ==> r == s[..if k < |s| then k else |s|]
    ensures k < 0 ==> r == s[..if |s| + k < 0 then 0 else |s| + k]
  {
    PySlice(s, 0, k)
  }

  /** A slice of a slice is a slice of the original. */
  lemma SliceOfSlice<T>(s: seq<T>, x: nat, y: nat, j: nat, k: nat)
    requires x <= y <= |s| && j <= k <= y - x
    ensures s[x..y][j..k] == s[x + j..x + k]
  {
    forall q | 0 <= q < k - j
      ensures s[x..y][j..k][q] == s[x + j..x + k][q]
    {
    }
  }

  /** A non-empty prefix is the shorter prefix and one more element. */
  lemma PrefixSnoc<T>(s: seq<T>, n: nat)
    requires 0 < n <= |s|
    ensures s[..n] == s[..n - 1] + [s[n - 1]]
    ensures multiset(s[..n]) == multiset(s[..n - 1]) + multiset{s[n - 1]}
  {
    assert s[..n] == s[..n - 1] + [s[n - 1]];
  }

  /** Concatenation of a sequence of sequences (repeated `list.extend`). */
  function Flatten<T>(xss: seq<seq<T>>): seq<T>
  {
    if |xss| == 0 then [] else Flatten(xss[..|xss| - 1]) + xss[|xss| - 1]
  }

  /** The concatenation is empty exactly when every part is. */
  lemma {:induction false} FlattenEmpty<T>(xss: seq<seq<T>>)
    ensures Flatten(xss) == [] <==> forall k :: 0 <= k < |xss| ==> xss[k] == []
  {
    if |xss| > 0 {
      var init := xss[..|xss| - 1];
      FlattenEmpty(init);
      assert forall k :: 0 <= k < |init| ==> init[k] == xss[k];
    }
  }

  /** An element of the concatenation is an element of one of the parts. */
  lemma {:induction false} FlattenMembers<T>(xss: seq<seq<T>>, x: T)
    ensures x in Flatten(xss) <==> exists k :: 0 <= k < |xss| && x in xss[k]
  {
    if |xss| > 0 {
      var init := xss[..|xss| - 1];
      FlattenMembers(init, x);
      assert forall k :: 0 <= k < |init| ==> init[k] == xss[k];
    }
  }

  lemma FlattenAppend<T>(xss: seq<seq<T>>, ys: seq<T>)
    ensures Flatten(xss + [ys]) == Flatten(xss) + ys
  {
    assert (xss + [ys])[..|xss|] == xss;
  }

  lemma {:induction false} FlattenConcat<T>(xss: seq<seq<T>>, yss: seq<seq<T>>)
    ensures Flatten(xss + yss) == Flatten(xss) + Flatten(yss)
    decreases |yss|
  {
    if |yss| == 0 {
      assert xss + yss == xss;
    } else {
      var init := yss[..|yss| - 1];
      assert xss + yss == (xss + init) + [yss[|yss| - 1]];
      FlattenAppend(xss + init, yss[|yss| - 1]);
      FlattenConcat(xss, init);
      FlattenAppend(init, yss[|yss| - 1]);
      assert yss == init + [yss[|yss| - 1]];
    }
  }

  /** Flattening a list that starts with two known pieces. */
  lemma FlattenPrefix2<T>(a: seq<T>, b: seq<T>, rest: seq<seq<T>>)
    ensures Flatten([a, b] + rest) == a + b + Flatten(rest)
  {
    FlattenConcat([a, b], rest);
    FlattenAppend([a], b);
    FlattenAppend([], a);
  }

  /** Three adjacent slices make up the suffix they start. */
  lemma SliceConcat3<T>(s: seq<T>, g: nat, i: nat, e: nat)
    requires g <= i <= e <= |s|
    ensures s[g..] == s[g..i] + s[i..e] + s[e..]
  {
  }

  predicate NoDuplicates<T(==)>(xs: seq<T>) {
    forall i, j :: 0 <= i < j < |xs| ==> xs[i] != xs[j]
  }

  /** The position of the first occurrence of `x` in `xs`. */
  function IndexOf<T(==)>(xs: seq<T>, x: T): (k: nat)
    requires x in xs
    ensures k < |xs| && xs[k] == x
    ensures forall j :: 0 <= j < k ==> xs[j] != x
  {
    if xs[0] == x then 0 else 1 + IndexOf(xs[1..], x)
  }

  lemma IndexOfPrefix<T>(xs: seq<T>, n: nat, x: T)
    requires n <= |xs| && x in xs[..n]
    ensures IndexOf(xs, x) == IndexOf(xs[..n], x)
  {
    var k := IndexOf(xs[..n], x);
    var m := IndexOf(xs, x);
    assert xs[k] == x;
    assert m <= k;
    assert xs[..n][m] == x;
  }

  /** Keep the first occurrence of every element, in order: the loop
      "append `x` unless it is already in the list". */
  function Dedup<T(==)>(xs: seq<T>): (r: seq<T>)
    ensures |r| <= |xs|
  {
    if |xs| == 0 then []
    else
      var d := Dedup(xs[..|xs| - 1]);
      if xs[|xs| - 1] in d then d else d + [xs[|xs| - 1]]
  }

  /** `Dedup` keeps every element, and nothing else. */
  lemma {:induction false} DedupMembers<T>(xs: seq<T>)
    ensures forall i :: 0 <= i < |Dedup(xs)| ==> Dedup(xs)[i] in xs
    ensures forall i :: 0 <= i < |xs| ==> xs[i] in Dedup(xs)
  {
    if |xs| > 0 {
      DedupMembers(xs[..|xs| - 1]);
      assert xs == xs[..|xs| - 1] + [xs[|xs| - 1]];
    }
  }

  /** `Dedup` keeps each element once, ordered by first occurrence. */
  lemma {:induction false} DedupOrder<T>(xs: seq<T>)
    ensures DedupMembersIn(xs)
    ensures NoDuplicates(Dedup(xs))
    ensures forall i, j :: 0 <= i < j < |Dedup(xs)| ==> IndexOf(xs, Dedup(xs)[i]) < IndexOf(xs, Dedup(xs)[j])
  {
    DedupMembers(xs);
    if |xs| > 0 {
      var init := xs[..|xs| - 1];
      var last := xs[|xs| - 1];
      var d := Dedup(init);
      DedupOrder(init);
      forall i | 0 <= i < |d|
        ensures IndexOf(xs, d[i]) == IndexOf(init, d[i])
      {
        IndexOfPrefix(xs, |xs| - 1, d[i]);
      }
      if last !in d {
        DedupMembers(init);
        assert xs[|xs| - 1] !in xs[..|xs| - 1];
      }
    }
  }

  /** Every kept element occurs in the input (so `IndexOf` applies to it). */
  ghost predicate DedupMembersIn<T>(xs: seq<T>) {
    forall i :: 0 <= i < |Dedup(xs)| ==> Dedup(xs)[i] in xs
  }

  /** `xs` is strictly increasing under `lt`. */
  predicate StrictlySorted<T>(lt: (T, T) -> bool, xs: seq<T>) {
    forall a, b :: 0 <= a < b < |xs| ==> lt(xs[a], xs[b])
  }

  ghost predicate Asymmetric<T(!new)>(lt: (T, T) -> bool) {
    forall x, y :: lt(x, y) ==> !lt(y, x)
  }

  /** Two strictly sorted sequences with the same elements are equal: a
      sorted order is determined by its elements. */
  lemma {:induction false} SortedUnique<T(!new)>(lt: (T, T) -> bool, a: seq<T>, b: seq<T>)
    requires Asymmetric(lt)
    requires StrictlySorted(lt, a) && StrictlySorted(lt, b)
    requires forall i :: 0 <= i < |a| ==> a[i] in b
    requires forall i :: 0 <= i < |b| ==> b[i] in a
    ensures a == b
    decreases |a|
  {
    if |a| > 0 {
      assert a[0] in b;
      var k :| 0 <= k < |b| && b[k] == a[0];
      var m :| 0 <= m < |a| && a[m] == b[0];
      assert k == 0;
      forall i | 0 <= i < |a| - 1
        ensures a[1..][i] in b[1..]
      {
        assert lt(a[0], a[i + 1]);
        var j :| 0 <= j < |b| && b[j] == a[i + 1];
        assert j != 0;
        assert b[1..][j - 1] == a[i + 1];
      }
      forall i | 0 <= i < |b| - 1
        ensures b[1..][i] in a[1..]
      {
        assert lt(b[0], b[i + 1]);
        var j :| 0 <= j < |a| && a[j] == b[i + 1];
        assert j != 0;
        assert a[1..][j - 1] == b[i + 1];
      }
      SortedUnique(lt, a[1..], b[1..]);
      assert a == [a[0]] + a[1..] && b == [b[0]] + b[1..];
    }
  }
}
