/** Two list-building loops the table extractor uses, stated once for any
    element type: keep the present results of a per-item step, and
    concatenate per-item results unless one of them fails. */
module Collect {
  import opened Wrappers
  import opened Seqs

  /** The present results of `f` over `xs`, in order: the loop "append the
      item's result when there is one". */
  function FilterMap<A, B>(f: A -> Option<B>, xs: seq<A>): (r: seq<B>)
    ensures |r| <= |xs|
  {
    if |xs| == 0 then []
    else
      var last := f(xs[|xs| - 1]);
      FilterMap(f, xs[..|xs| - 1]) + (if last.Some? then [last.value] else [])
  }

  /** The positions of the items that have a result, in order. */
  function Origins<A, B>(f: A -> Option<B>, xs: seq<A>): (r: seq<nat>)
    ensures |r| == |FilterMap(f, xs)|
  {
    if |xs| == 0 then []
    else Origins(f, xs[..|xs| - 1]) + (if f(xs[|xs| - 1]).Some? then [|xs| - 1] else [])
  }

  /** Result `m` is the result of item `Origins(f, xs)[m]`. */
  lemma {:induction false} OriginsAt<A, B>(f: A -> Option<B>, xs: seq<A>)
    ensures forall m :: 0 <= m < |Origins(f, xs)| ==>
      Origins(f, xs)[m] < |xs| && f(xs[Origins(f, xs)[m]]) == Some(FilterMap(f, xs)[m])
  {
    if |xs| > 0 {
      var n := |xs| - 1;
      var init := xs[..n];
      OriginsAt(f, init);
      var o := Origins(f, xs);
      var r := FilterMap(f, xs);
      forall m | 0 <= m < |o|
        ensures o[m] < |xs| && f(xs[o[m]]) == Some(r[m])
      {
        if m < |Origins(f, init)| {
          assert o[m] == Origins(f, init)[m] && r[m] == FilterMap(f, init)[m];
          assert xs[o[m]] == init[o[m]];
        }
      }
    }
  }

  /** The positions are increasing: results keep the item order. */
  lemma {:induction false} OriginsIncrease<A, B>(f: A -> Option<B>, xs: seq<A>)
    ensures forall m :: 0 <= m < |Origins(f, xs)| ==> Origins(f, xs)[m] < |xs|
    ensures forall a, b :: 0 <= a < b < |Origins(f, xs)| ==> Origins(f, xs)[a] < Origins(f, xs)[b]
  {
    if |xs| > 0 {
      OriginsIncrease(f, xs[..|xs| - 1]);
    }
  }

  /** Every item with a result has its position listed. */
  lemma {:induction false} OriginsComplete<A, B>(f: A -> Option<B>, xs: seq<A>)
    ensures forall k :: 0 <= k < |xs| && f(xs[k]).Some? ==> k in Origins(f, xs)
  {
    if |xs| > 0 {
      var n := |xs| - 1;
      var init := xs[..n];
      OriginsComplete(f, init);
      forall k | 0 <= k < n && f(xs[k]).Some?
        ensures k in Origins(f, xs)
      {
        assert xs[k] == init[k];
      }
    }
  }

  /** Each result comes from one item, in item order, and every item with a
      result contributes it: `idx` names the item of each result. */
  lemma FilterMapOrigin<A, B>(f: A -> Option<B>, xs: seq<A>) returns (idx: seq<nat>)
    ensures |idx| == |FilterMap(f, xs)|
    ensures forall m :: 0 <= m < |idx| ==> idx[m] < |xs| && f(xs[idx[m]]) == Some(FilterMap(f, xs)[m])
    ensures forall a, b :: 0 <= a < b < |idx| ==> idx[a] < idx[b]
    ensures forall k :: 0 <= k < |xs| && f(xs[k]).Some? ==> k in idx
  {
    idx := Origins(f, xs);
    OriginsAt(f, xs);
    OriginsIncrease(f, xs);
    OriginsComplete(f, xs);
  }

  /** No item has a result exactly when the list of results is empty. */
  lemma FilterMapEmpty<A, B>(f: A -> Option<B>, xs: seq<A>)
    ensures FilterMap(f, xs) == [] <==> forall k :: 0 <= k < |xs| ==> f(xs[k]).None?
  {
    var idx := FilterMapOrigin(f, xs);
    if FilterMap(f, xs) != [] {
      assert f(xs[idx[0]]).Some?;
    }
  }

  /** The results of every item, when none failed. */
  function Values<A, B>(f: A -> Result<seq<B>>, xs: seq<A>): (r: seq<seq<B>>)
    requires forall k :: 0 <= k < |xs| ==> f(xs[k]).Success?
    ensures |r| == |xs|
    ensures forall k :: 0 <= k < |xs| ==> r[k] == f(xs[k]).value
  {
    seq(|xs|, k requires 0 <= k < |xs| => f(xs[k]).value)
  }

  /** The loop "append each item's result", where a failing item aborts
      with its error: it succeeds exactly when every item does, with every
      item's value in order, and otherwise fails with some item's error. */
  function MapAll<A, B>(f: A -> Result<B>, xs: seq<A>): (r: Result<seq<B>>)
    ensures r.Success? <==> forall k :: 0 <= k < |xs| ==> f(xs[k]).Success?
    ensures r.Success? ==> |r.value| == |xs|
    ensures r.Success? ==> forall k :: 0 <= k < |xs| ==> r.value[k] == f(xs[k]).value
    ensures r.Failure? ==> exists k :: 0 <= k < |xs| && f(xs[k]) == Failure(r.error)
  {
    if |xs| == 0 then Success([])
    else
      var init := xs[..|xs| - 1];
      assert forall k :: 0 <= k < |init| ==> init[k] == xs[k];
      var rest := MapAll(f, init);
      var last := f(xs[|xs| - 1]);
      if rest.Failure? then rest
      else if last.Failure? then Failure(last.error)
      else Success(rest.value + [last.value])
  }

  /** The loop "extend the list with each item's results", where a failing
      item aborts with its error. */
  function ConcatAll<A, B>(f: A -> Result<seq<B>>, xs: seq<A>): (r: Result<seq<B>>)
  {
    if |xs| == 0 then Success([])
    else match ConcatAll(f, xs[..|xs| - 1])
      case Failure(e) => Failure(e)
      case Success(before) =>
        match f(xs[|xs| - 1])
        case Failure(e) => Failure(e)
        case Success(items) => Success(before + items)
  }

  /** The loop succeeds exactly when every item does, and then returns all
      results concatenated in item order. */
  lemma {:induction false} ConcatAllSpec<A, B>(f: A -> Result<seq<B>>, xs: seq<A>)
    ensures ConcatAll(f, xs).Success? <==> forall k :: 0 <= k < |xs| ==> f(xs[k]).Success?
    ensures ConcatAll(f, xs).Success? ==> ConcatAll(f, xs).value == Flatten(Values(f, xs))
  {
    if |xs| > 0 {
      var n := |xs| - 1;
      var init := xs[..n];
      ConcatAllSpec(f, init);
      assert forall k :: 0 <= k < n ==> init[k] == xs[k];
      if ConcatAll(f, xs).Success? {
        assert Values(f, xs) == Values(f, init) + [f(xs[n]).value];
        FlattenAppend(Values(f, init), f(xs[n]).value);
      }
    }
  }

  /** A failing item's error is the first failure's: the items before it
      all succeed. */
  lemma {:induction false} ConcatAllFailure<A, B>(f: A -> Result<seq<B>>, xs: seq<A>) returns (k: nat)
    requires ConcatAll(f, xs).Failure?
    ensures k < |xs| && f(xs[k]) == Failure(ConcatAll(f, xs).error)
    ensures forall j :: 0 <= j < k ==> f(xs[j]).Success?
  {
    var n := |xs| - 1;
    var init := xs[..n];
    if ConcatAll(f, init).Failure? {
      k := ConcatAllFailure(f, init);
      assert xs[k] == init[k];
      assert forall j :: 0 <= j < k ==> init[j] == xs[j];
    } else {
      ConcatAllSpec(f, init);
      assert forall j :: 0 <= j < n ==> init[j] == xs[j];
      k := n;
    }
  }

  /** A property every present result has holds of every kept result. */
  lemma {:induction false} FilterMapKeeps<A, B>(f: A -> Option<B>, xs: seq<A>, P: B -> bool)
    requires forall k :: 0 <= k < |xs| && f(xs[k]).Some? ==> P(f(xs[k]).value)
    ensures forall m :: 0 <= m < |FilterMap(f, xs)| ==> P(FilterMap(f, xs)[m])
  {
    OriginsAt(f, xs);
  }

  /** A property every item's results have holds of the concatenation. */
  lemma {:induction false} ConcatAllKeeps<A, B>(f: A -> Result<seq<B>>, xs: seq<A>, P: B -> bool)
    requires forall k, m :: 0 <= k < |xs| && f(xs[k]).Success? && 0 <= m < |f(xs[k]).value| ==> P(f(xs[k]).value[m])
    ensures ConcatAll(f, xs).Success? ==> forall i :: 0 <= i < |ConcatAll(f, xs).value| ==> P(ConcatAll(f, xs).value[i])
  {
    if |xs| > 0 {
      var n := |xs| - 1;
      var init := xs[..n];
      assert forall k :: 0 <= k < n ==> init[k] == xs[k];
      ConcatAllKeeps(f, init, P);
      if ConcatAll(f, xs).Success? {
        var before := ConcatAll(f, init).value;
        var items := f(xs[n]).value;
        assert ConcatAll(f, xs).value == before + items;
        forall i | 0 <= i < |before| + |items|
          ensures P((before + items)[i])
        {
          if i >= |before| {
            assert (before + items)[i] == items[i - |before|];
          }
        }
      }
    }
  }
}
