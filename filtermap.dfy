/**
 * `map` followed by a `filter` that drops the items the map could not
 * resolve, the shape of both field discovery (containers without a title
 * are skipped) and title resolution (model items without a field are
 * dropped).
 */
module FilterMaps {

  import opened Optional

  /** The results of `f` that are present, in the order of `xs`. */
  function FilterMap<A, B>(xs: seq<A>, f: A -> Option<B>): (r: seq<B>)
    ensures |r| <= |xs|
  {
    if xs == [] then []
    else
      var init := FilterMap(xs[..|xs| - 1], f);
      match f(xs[|xs| - 1])
      case None => init
      case Some(y) => init + [y]
  }

  /** The indices of the items `f` resolves, in increasing order. */
  function Kept<A, B>(xs: seq<A>, f: A -> Option<B>): (o: seq<nat>)
    ensures forall k :: 0 <= k < |o| ==> o[k] < |xs|
  {
    if xs == [] then []
    else
      var init := Kept(xs[..|xs| - 1], f);
      if f(xs[|xs| - 1]).Some? then init + [|xs| - 1] else init
  }

  /** The output is the resolved items, in input order: the k-th output
      comes from the k-th resolved input, the origins increase, and every
      resolved input is among them. */
  lemma {:induction false} FilterMapSpec<A, B>(xs: seq<A>, f: A -> Option<B>)
    ensures var r, o := FilterMap(xs, f), Kept(xs, f);
      |r| == |o| &&
      (forall k :: 0 <= k < |o| ==> f(xs[o[k]]) == Some(r[k])) &&
      (forall k, l :: 0 <= k < l < |o| ==> o[k] < o[l]) &&
      (forall j :: 0 <= j < |xs| && f(xs[j]).Some? ==> j in o)
  {
    if xs != [] {
      var init := xs[..|xs| - 1];
      FilterMapSpec(init, f);
      assert forall j :: 0 <= j < |init| ==> init[j] == xs[j];
    }
  }

  /** Nothing is dropped exactly when every item resolves. */
  lemma {:induction false} FilterMapKeepsAll<A, B>(xs: seq<A>, f: A -> Option<B>)
    ensures |FilterMap(xs, f)| == |xs| <==> forall j :: 0 <= j < |xs| ==> f(xs[j]).Some?
  {
    if xs != [] {
      var init := xs[..|xs| - 1];
      FilterMapKeepsAll(init, f);
      assert forall j :: 0 <= j < |init| ==> init[j] == xs[j];
    }
  }

  /** One more item extends the output by its result, if any. */
  lemma FilterMapSnoc<A, B>(xs: seq<A>, x: A, f: A -> Option<B>)
    ensures FilterMap(xs + [x], f) == FilterMap(xs, f) + (if f(x).Some? then [f(x).value] else [])
  {
    assert (xs + [x])[..|xs + [x]| - 1] == xs;
  }

  /** One more item of a prefix extends the output by its result, if any. */
  lemma FilterMapStep<A, B>(xs: seq<A>, i: nat, f: A -> Option<B>, done: seq<B>, y: Option<B>)
    requires i < |xs| && done == FilterMap(xs[..i], f) && y == f(xs[i])
    ensures FilterMap(xs[..i + 1], f) == done + (if y.Some? then [y.value] else [])
  {
    assert xs[..i + 1] == xs[..i] + [xs[i]];
    FilterMapSnoc(xs[..i], xs[i], f);
  }

  /** `Array.prototype.find`: the first item satisfying `p`, if any. */
  function Find<A>(xs: seq<A>, p: A -> bool): (r: Option<A>)
    ensures r.None? <==> forall j :: 0 <= j < |xs| ==> !p(xs[j])
    ensures r.Some? ==>
      exists i :: 0 <= i < |xs| && xs[i] == r.value && p(xs[i]) && forall j :: 0 <= j < i ==> !p(xs[j])
  {
    if xs == [] then None
    else if p(xs[0]) then Some(xs[0])
    else
      var r := Find(xs[1..], p);
      assert forall j :: 1 <= j < |xs| ==> xs[j] == xs[1..][j - 1];
      r
  }

  /** The item at `i` is found when it satisfies `p` and no earlier one does. */
  lemma {:induction false} FindAt<A>(xs: seq<A>, p: A -> bool, i: nat)
    requires i < |xs| && p(xs[i])
    requires forall j :: 0 <= j < i ==> !p(xs[j])
    ensures Find(xs, p) == Some(xs[i])
  {
    if i > 0 {
      assert !p(xs[0]);
      assert forall j :: 0 <= j < i - 1 ==> xs[1..][j] == xs[j + 1];
      FindAt(xs[1..], p, i - 1);
    }
  }
}
