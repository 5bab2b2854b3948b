/** The rule every UpdateConfig of the four configuration packages follows:
    parameter sources are applied in order, and each field takes the value
    of the last source whose value for it is accepted (a validator passes,
    the value is not a sentinel, not empty, not nil), keeping its previous
    value when no source's is. */
module ParamMerge {
  import opened Wrappers

  /** The last `f(p)` over the sources `ps` that `accept` admits. */
  function LatestBy<S, T>(ps: seq<S>, f: S -> T, accept: T -> bool): Option<T> {
    if ps == [] then None
    else
      var n := |ps| - 1;
      if accept(f(ps[n])) then Some(f(ps[n])) else LatestBy(ps[..n], f, accept)
  }

  /** A field after the merge: the latest accepted value, or `init`. */
  function Or<T>(init: T, latest: Option<T>): T {
    if latest.Some? then latest.value else init
  }

  /** No source is accepted exactly when there is no latest value. */
  lemma {:induction false} LatestByNone<S, T>(ps: seq<S>, f: S -> T, accept: T -> bool)
    ensures LatestBy(ps, f, accept).None? <==> forall i :: 0 <= i < |ps| ==> !accept(f(ps[i]))
  {
    if ps != [] {
      var n := |ps| - 1;
      LatestByNone(ps[..n], f, accept);
      assert forall i :: 0 <= i < n ==> ps[..n][i] == ps[i];
    }
  }

  /** The latest value is the accepted value of the last source whose
      value is accepted. */
  lemma {:induction false} LatestByIsLast<S, T>(ps: seq<S>, f: S -> T, accept: T -> bool, i: int)
    requires 0 <= i < |ps| && accept(f(ps[i]))
    requires forall j :: i < j < |ps| ==> !accept(f(ps[j]))
    ensures LatestBy(ps, f, accept) == Some(f(ps[i]))
  {
    var n := |ps| - 1;
    if i < n {
      assert ps[..n][i] == ps[i];
      assert forall j :: i < j < n ==> ps[..n][j] == ps[j];
      LatestByIsLast(ps[..n], f, accept, i);
    }
  }

  /** Whatever the merge takes, some source offered and `accept` admitted. */
  lemma {:induction false} LatestByAccepted<S, T>(ps: seq<S>, f: S -> T, accept: T -> bool)
    requires LatestBy(ps, f, accept).Some?
    ensures accept(LatestBy(ps, f, accept).value)
    ensures exists i :: 0 <= i < |ps| && f(ps[i]) == LatestBy(ps, f, accept).value
  {
    var n := |ps| - 1;
    if !accept(f(ps[n])) {
      LatestByAccepted(ps[..n], f, accept);
      var i :| 0 <= i < n && f(ps[..n][i]) == LatestBy(ps[..n], f, accept).value;
      assert ps[..n][i] == ps[i];
    }
  }

  /** Merging in two calls is merging once: the sources of the second call
      override those of the first wherever they offer an accepted value. */
  lemma {:induction false} LatestByConcat<S, T>(xs: seq<S>, ys: seq<S>, f: S -> T, accept: T -> bool)
    ensures LatestBy(xs + ys, f, accept) ==
      if LatestBy(ys, f, accept).Some? then LatestBy(ys, f, accept) else LatestBy(xs, f, accept)
  {
    if ys == [] {
      assert xs + ys == xs;
    } else {
      var n := |ys| - 1;
      assert (xs + ys)[..|xs| + n] == xs + ys[..n];
      LatestByConcat(xs, ys[..n], f, accept);
    }
  }

  /** The same, for the value a field ends with. */
  lemma MergeTwice<S, T>(init: T, xs: seq<S>, ys: seq<S>, f: S -> T, accept: T -> bool)
    ensures Or(Or(init, LatestBy(xs, f, accept)), LatestBy(ys, f, accept)) == Or(init, LatestBy(xs + ys, f, accept))
  {
    LatestByConcat(xs, ys, f, accept);
  }
}
