/** Optional values, all-or-nothing outcomes, and the join-all combinator that
    models `Promise.all` over a mapped array. */
module Outcomes {

  /** A value that may be absent: JavaScript's `null`/`undefined` versus a value. */
  datatype Option<+T> = None | Some(value: T)

  /** The outcome of a step that either yields a value or throws. Every throw of
      the scraper ends the whole run in the same way, so a failure carries no
      payload. */
  datatype Outcome<+T> = Done(value: T) | Failure {
    predicate IsFailure() {
      Failure?
    }

    function PropagateFailure<U>(): Outcome<U>
      requires Failure?
    {
      Failure
    }

    function Extract(): T
      requires Done?
    {
      value
    }
  }

  /** `x ?? throw_()`: a missing value fails, a present one (even an empty
      string) is passed on unchanged. */
  function Required<T>(x: Option<T>): (r: Outcome<T>)
    ensures r.Failure? <==> x.None?
    ensures r.Done? ==> r.value == x.value
  {
    match x
    case None => Failure
    case Some(v) => Done(v)
  }

  /** `Promise.all(xs.map(f))` when `f` has no side effects: the results in the
      order of `xs`, or a failure as soon as one element fails. */
  function MapAll<A, B>(xs: seq<A>, f: A -> Outcome<B>): (r: Outcome<seq<B>>)
    ensures r.Done? <==> forall i :: 0 <= i < |xs| ==> f(xs[i]).Done?
    ensures r.Done? ==> |r.value| == |xs|
    ensures r.Done? ==> forall i :: 0 <= i < |xs| ==> f(xs[i]) == Done(r.value[i])
    decreases |xs|
  {
    if |xs| == 0 then Done([])
    else
      var head :- f(xs[0]);
      var tail :- MapAll(xs[1..], f);
      Done([head] + tail)
  }

  /** Joining the concatenation of two arrays is joining each and concatenating
      the results; a failure on either side fails the whole. */
  lemma {:induction false} MapAllAppend<A, B>(xs: seq<A>, ys: seq<A>, f: A -> Outcome<B>)
    ensures MapAll(xs + ys, f) ==
      if MapAll(xs, f).Done? && MapAll(ys, f).Done?
      then Done(MapAll(xs, f).value + MapAll(ys, f).value)
      else Failure
    decreases |xs|
  {
    if |xs| == 0 {
      assert xs + ys == ys;
      if MapAll(ys, f).Done? {
        assert [] + MapAll(ys, f).value == MapAll(ys, f).value;
      }
    } else {
      assert (xs + ys)[1..] == xs[1..] + ys;
      MapAllAppend(xs[1..], ys, f);
      if f(xs[0]).Done? && MapAll(xs[1..], f).Done? && MapAll(ys, f).Done? {
        assert [f(xs[0]).value] + (MapAll(xs[1..], f).value + MapAll(ys, f).value)
            == ([f(xs[0]).value] + MapAll(xs[1..], f).value) + MapAll(ys, f).value;
      }
    }
  }

  /** `.flat()`: the lists one after another. Nothing is lost and nothing is
      added: every element of every list is in the result, and every element
      of the result comes from some list. */
  function Flatten<T>(lists: seq<seq<T>>): (r: seq<T>)
    ensures forall i, x :: 0 <= i < |lists| && x in lists[i] ==> x in r
    ensures forall x :: x in r ==> exists i :: 0 <= i < |lists| && x in lists[i]
    decreases |lists|
  {
    if |lists| == 0 then [] else lists[0] + Flatten(lists[1..])
  }

  lemma {:induction false} FlattenAppend<T>(xs: seq<seq<T>>, ys: seq<seq<T>>)
    ensures Flatten(xs + ys) == Flatten(xs) + Flatten(ys)
    decreases |xs|
  {
    if |xs| == 0 {
      assert xs + ys == ys;
    } else {
      assert (xs + ys)[1..] == xs[1..] + ys;
      FlattenAppend(xs[1..], ys);
    }
  }

  /** `(await Promise.all(xs.map(f))).flat()` when `f` has no side effects:
      it succeeds exactly when every element succeeds, and then holds each
      element's results. */
  function JoinFlat<A, B>(xs: seq<A>, f: A -> Outcome<seq<B>>): (r: Outcome<seq<B>>)
    ensures r.Done? ==> forall i :: 0 <= i < |xs| ==> f(xs[i]).Done?
    ensures r.Done? <== forall i :: 0 <= i < |xs| ==> f(xs[i]).Done?
    ensures r.Done? ==> forall i, y :: 0 <= i < |xs| && y in f(xs[i]).value ==> y in r.value
    ensures r.Done? ==> forall y :: y in r.value ==> exists i :: 0 <= i < |xs| && y in f(xs[i]).value
  {
    var lists :- MapAll(xs, f);
    Done(Flatten(lists))
  }

  /** Joining and flattening one element gives that element's list. */
  lemma JoinFlatSingle<A, B>(x: A, f: A -> Outcome<seq<B>>)
    ensures JoinFlat([x], f) == f(x)
  {
    assert [x][1..] == [];
    assert MapAll([x][1..], f) == Done([]);
    if f(x).Done? {
      var v := f(x).value;
      assert MapAll([x], f) == Done([v] + []);
      assert [v] + [] == [v];
      assert [v][1..] == [];
      assert Flatten([v]) == v + [] == v;
      assert JoinFlat([x], f) == Done(Flatten([v]));
    }
  }

  /** Joining and flattening a concatenation gives the two results one after
      the other; a failure on either side fails the whole. */
  lemma JoinFlatAppend<A, B>(xs: seq<A>, ys: seq<A>, f: A -> Outcome<seq<B>>)
    ensures JoinFlat(xs + ys, f) ==
      if JoinFlat(xs, f).Done? && JoinFlat(ys, f).Done?
      then Done(JoinFlat(xs, f).value + JoinFlat(ys, f).value)
      else Failure
  {
    MapAllAppend(xs, ys, f);
    if MapAll(xs, f).Done? && MapAll(ys, f).Done? {
      FlattenAppend(MapAll(xs, f).value, MapAll(ys, f).value);
    }
  }
}
