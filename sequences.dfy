/** Building a list by filtering another one, as the service's loops do:
    walk the input in order and append `f(x)` for every `x` that passes
    `keep`. */
module Sequences {

  /** The list such a loop produces. Defined from the back, the way the loop
      grows its output. */
  function Select<A, B>(xs: seq<A>, keep: A -> bool, f: A -> B): (r: seq<B>)
    ensures |r| <= |xs|
  {
    if xs == [] then []
    else
      var last := xs[|xs| - 1];
      Select(xs[..|xs| - 1], keep, f) + (if keep(last) then [f(last)] else [])
  }

  /** The positions of the elements the loop keeps: increasing, and holding
      exactly the positions whose element passes `keep`. */
  function Kept<A>(xs: seq<A>, keep: A -> bool): (r: seq<nat>)
    ensures forall k :: 0 <= k < |r| ==> r[k] < |xs| && keep(xs[r[k]])
    ensures forall k, l :: 0 <= k < l < |r| ==> r[k] < r[l]
    ensures forall i :: 0 <= i < |xs| && keep(xs[i]) ==> i in r
  {
    if xs == [] then []
    else
      var n := |xs| - 1;
      var init := xs[..n];
      var rest := Kept(init, keep);
      assert forall k :: 0 <= k < |rest| ==> init[rest[k]] == xs[rest[k]];
      assert forall i :: 0 <= i < n ==> init[i] == xs[i];
      rest + (if keep(xs[n]) then [n] else [])
  }

  /** The output has one element per kept position. */
  lemma {:induction false} SelectLength<A, B>(xs: seq<A>, keep: A -> bool, f: A -> B)
    ensures |Select(xs, keep, f)| == |Kept(xs, keep)|
  {
    if xs != [] {
      SelectLength(xs[..|xs| - 1], keep, f);
    }
  }

  /** Output element `k` is `f` of the input at the `k`-th kept position. */
  lemma {:induction false} SelectIndex<A, B>(xs: seq<A>, keep: A -> bool, f: A -> B, k: nat)
    requires k < |Kept(xs, keep)|
    ensures |Select(xs, keep, f)| == |Kept(xs, keep)|
    ensures Select(xs, keep, f)[k] == f(xs[Kept(xs, keep)[k]])
  {
    SelectLength(xs, keep, f);
    var n := |xs| - 1;
    var init := xs[..n];
    SelectLength(init, keep, f);
    if k < |Kept(init, keep)| {
      SelectIndex(init, keep, f, k);
      assert Select(xs, keep, f)[k] == Select(init, keep, f)[k];
      assert Kept(xs, keep)[k] == Kept(init, keep)[k];
      assert init[Kept(init, keep)[k]] == xs[Kept(init, keep)[k]];
    }
  }

  /** Element `k` of the output is `f` of the `k`-th kept input element: the
      output holds exactly the kept elements, mapped, in input order. */
  lemma SelectAt<A, B>(xs: seq<A>, keep: A -> bool, f: A -> B)
    ensures |Select(xs, keep, f)| == |Kept(xs, keep)|
    ensures forall k :: 0 <= k < |Kept(xs, keep)| ==>
              Select(xs, keep, f)[k] == f(xs[Kept(xs, keep)[k]])
  {
    SelectLength(xs, keep, f);
    forall k | 0 <= k < |Kept(xs, keep)|
      ensures Select(xs, keep, f)[k] == f(xs[Kept(xs, keep)[k]])
    {
      SelectIndex(xs, keep, f, k);
    }
  }

  /** What holds of `f(x)` for every kept `x` holds of every output element. */
  lemma SelectAll<A, B>(xs: seq<A>, keep: A -> bool, f: A -> B, p: B -> bool)
    requires forall i :: 0 <= i < |xs| && keep(xs[i]) ==> p(f(xs[i]))
    ensures forall y :: y in Select(xs, keep, f) ==> p(y)
  {
    SelectAt(xs, keep, f);
    var r, idx := Select(xs, keep, f), Kept(xs, keep);
    forall y | y in r ensures p(y) {
      var k :| 0 <= k < |r| && r[k] == y;
      assert y == f(xs[idx[k]]);
    }
  }
}
