/** What it means that a sequence is made from another one by keeping some of its elements, in order. */
module Filters {
  import opened Wrappers

  predicate Increasing(p: seq<int>) {
    forall i, j :: 0 <= i < j < |p| ==> p[i] < p[j]
  }

  /** `p` tells where in `xs` each element of `ys` comes from, and leaves out nothing that `f` keeps. */
  predicate PickedAt<T, U(==)>(xs: seq<T>, f: T -> Option<U>, ys: seq<U>, p: seq<int>) {
    && |p| == |ys| && Increasing(p)
    && (forall k :: 0 <= k < |p| ==> 0 <= p[k] < |xs| && f(xs[p[k]]) == Some(ys[k]))
    && (forall i :: 0 <= i < |xs| && f(xs[i]).Some? ==> i in p)
  }

  /** `ys` is what `f` makes of the elements of `xs` that it keeps: each once, in the order of `xs`. */
  ghost predicate Picked<T, U>(xs: seq<T>, f: T -> Option<U>, ys: seq<U>) {
    exists p :: PickedAt(xs, f, ys, p)
  }

  lemma NothingPicked<T, U>(f: T -> Option<U>)
    ensures Picked([], f, [])
  {
    assert PickedAt([], f, [], []);
  }

  lemma OneMore<T, U>(xs: seq<T>, f: T -> Option<U>, ys: seq<U>, p: seq<int>, y: U)
    requires xs != [] && PickedAt(xs[..|xs| - 1], f, ys, p) && f(xs[|xs| - 1]) == Some(y)
    ensures PickedAt(xs, f, ys + [y], p + [|xs| - 1])
  {
    var n, q, zs := |xs| - 1, p + [|xs| - 1], ys + [y];
    forall k | 0 <= k < |q|
      ensures 0 <= q[k] < |xs| && f(xs[q[k]]) == Some(zs[k])
    {
      assert k < |p| ==> xs[..n][p[k]] == xs[p[k]];
    }
    forall i | 0 <= i < |xs| && f(xs[i]).Some?
      ensures i in q
    {
      assert i < n ==> xs[..n][i] == xs[i];
    }
  }

  lemma OneLeftOut<T, U>(xs: seq<T>, f: T -> Option<U>, ys: seq<U>, p: seq<int>)
    requires xs != [] && PickedAt(xs[..|xs| - 1], f, ys, p) && f(xs[|xs| - 1]).None?
    ensures PickedAt(xs, f, ys, p)
  {
    var n := |xs| - 1;
    forall k | 0 <= k < |p|
      ensures 0 <= p[k] < |xs| && f(xs[p[k]]) == Some(ys[k])
    {
      assert xs[..n][p[k]] == xs[p[k]];
    }
    forall i | 0 <= i < |xs| && f(xs[i]).Some?
      ensures i in p
    {
      assert xs[..n][i] == xs[i];
    }
  }

  /** One more element: it is added at the end or left out. */
  lemma PickedLast<T, U>(xs: seq<T>, f: T -> Option<U>, before: seq<U>, ys: seq<U>)
    requires xs != [] && Picked(xs[..|xs| - 1], f, before)
    requires ys == before + var kept := f(xs[|xs| - 1]); if kept.Some? then [kept.value] else []
    ensures Picked(xs, f, ys)
  {
    hide PickedAt;
    var kept := f(xs[|xs| - 1]);
    var p :| PickedAt(xs[..|xs| - 1], f, before, p);
    if kept.Some? {
      OneMore(xs, f, before, p, kept.value);
    } else {
      assert ys == before;
      OneLeftOut(xs, f, before, p);
    }
  }

  /** What is picked is determined. */
  lemma {:induction false} PickedOnce<T, U>(xs: seq<T>, f: T -> Option<U>, ys: seq<U>, zs: seq<U>)
    requires Picked(xs, f, ys) && Picked(xs, f, zs)
    ensures ys == zs
    decreases |ys|
  {
    var p :| PickedAt(xs, f, ys, p);
    var q :| PickedAt(xs, f, zs, q);
    SamePlaces(p, q);
  }

  lemma {:induction false} SamePlaces(p: seq<int>, q: seq<int>)
    requires Increasing(p) && Increasing(q)
    requires forall x :: x in p <==> x in q
    ensures p == q
  {
    assert q == [] || q[|q| - 1] in q;
    assert p == [] || p[|p| - 1] in p;
    if p != [] {
      var m, n := |p| - 1, |q| - 1;
      assert p[m] in q && q[n] in p;
      forall x
        ensures x in p[..m] <==> x in q[..n]
      {
        LastApart(p, x);
        LastApart(q, x);
      }
      SamePlaces(p[..m], q[..n]);
    }
  }

  lemma LastApart(p: seq<int>, x: int)
    requires p != [] && Increasing(p)
    ensures x in p[..|p| - 1] <==> x in p && x != p[|p| - 1]
  {
  }
}
