/** How pieces put together come apart again. */
module Sequences {
  import opened Outcomes

  lemma Append<T>(a: seq<T>, b: seq<T>, c: seq<T>)
    ensures a + b + c == a + (b + c)
  {
  }

  lemma Regroup<T>(a: seq<T>, b: seq<T>, c: seq<T>, d: seq<T>)
    ensures a + (b + c + d) == a + b + c + d
  {
  }

  lemma Split<T>(a: seq<T>, b: seq<T>, c: seq<T>)
    ensures (a + b + c)[..|a|] == a
    ensures (a + b + c)[|a|..|a| + |b|] == b
    ensures (a + b + c)[|a| + |b|..] == c
  {
  }

  // ----- the values that are there -----

  function Present<T>(xs: seq<Option<T>>): seq<T> {
    if xs == [] then []
    else Present(xs[..|xs| - 1]) + (if xs[|xs| - 1].Some? then [xs[|xs| - 1].value] else [])
  }

  lemma PresentStep<T>(xs: seq<Option<T>>, k: nat)
    requires k < |xs|
    ensures Present(xs[..k + 1]) == Present(xs[..k]) + (if xs[k].Some? then [xs[k].value] else [])
  {
    assert xs[..k + 1][..k] == xs[..k];
  }

  /** These positions are the `Some`s of `xs`, in order, and `ys` are their values. */
  ghost predicate Picks<T(!new)>(xs: seq<Option<T>>, at: seq<nat>, ys: seq<T>) {
    && |at| == |ys| && (forall i, j :: 0 <= i < j < |at| ==> at[i] < at[j])
    && (forall i :: 0 <= i < |at| ==> at[i] < |xs| && xs[at[i]] == Some(ys[i]))
    && (forall k :: 0 <= k < |xs| && xs[k].Some? ==> k in at)
  }

  lemma PicksGrow<T(!new)>(xs: seq<Option<T>>, at: seq<nat>, ys: seq<T>, x: Option<T>)
    requires Picks(xs, at, ys)
    ensures if x.Some? then Picks(xs + [x], at + [|xs|], ys + [x.value]) else Picks(xs + [x], at, ys)
  {
    var more := xs + [x];
    if x.Some? {
      var at' := at + [|xs|];
      forall k | 0 <= k < |more| && more[k].Some?
        ensures k in at'
      {
        assert k < |xs| ==> xs[k].Some? && k in at;
        assert at'[|at|] == |xs|;
      }
    } else {
      assert forall k :: 0 <= k < |xs| ==> more[k] == xs[k];
    }
  }

  /** Nothing that is there is left out, repeated or out of order, and nothing is made up. */
  lemma {:induction false} PresentPicks<T(!new)>(xs: seq<Option<T>>) returns (at: seq<nat>)
    ensures Picks(xs, at, Present(xs))
  {
    if xs == [] {
      at := [];
    } else {
      var n := |xs| - 1;
      at := PresentPicks(xs[..n]);
      assert xs[..n] + [xs[n]] == xs;
      PicksGrow(xs[..n], at, Present(xs[..n]), xs[n]);
      hide Picks;
      if xs[n].Some? {
        at := at + [n];
      } else {
        assert Present(xs[..n]) + [] == Present(xs[..n]);
      }
    }
  }
}
