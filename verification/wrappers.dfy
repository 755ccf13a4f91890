/** Failure-carrying datatypes, and mapping a fallible function over a
    sequence the way a Python loop does when the first exception aborts it. */
module Wrappers {

  /** A value that may be absent, as Python's `None` or a missing key. */
  datatype Option<+T> = None | Some(value: T)

  /** Either a computed value or the error that aborted the computation. */
  datatype Result<+R, +E> = Success(value: R) | Failure(error: E)

  /** `k` is the first index at which `f` fails. */
  ghost predicate FirstFailure<A, B, E>(f: A -> Result<B, E>, xs: seq<A>, k: int) {
    0 <= k < |xs| && f(xs[k]).Failure? && forall j :: 0 <= j < k ==> f(xs[j]).Success?
  }

  /** Apply `f` to every element in order, stopping at the first failure. */
  function MapAll<A, B, E>(f: A -> Result<B, E>, xs: seq<A>): (r: Result<seq<B>, E>)
    ensures r.Success? <==> forall i :: 0 <= i < |xs| ==> f(xs[i]).Success?
    ensures r.Success? ==> |r.value| == |xs| && forall i :: 0 <= i < |xs| ==> r.value[i] == f(xs[i]).value
    ensures r.Failure? ==> exists k :: FirstFailure(f, xs, k) && r.error == f(xs[k]).error
    decreases |xs|
  {
    if xs == [] then Success([])
    else
      var head := f(xs[0]);
      var tail := MapAll(f, xs[1..]);
      assert forall i :: 0 < i < |xs| ==> xs[i] == xs[1..][i - 1];
      if head.Failure? then
        assert FirstFailure(f, xs, 0);
        Failure(head.error)
      else if tail.Failure? then
        assert exists k :: FirstFailure(f, xs, k) && tail.error == f(xs[k]).error by {
          var k :| FirstFailure(f, xs[1..], k) && tail.error == f(xs[1..][k]).error;
          assert FirstFailure(f, xs, k + 1);
        }
        Failure(tail.error)
      else
        Success([head.value] + tail.value)
  }

  /** There is at most one first failure. */
  lemma FirstFailureUnique<A, B, E>(f: A -> Result<B, E>, xs: seq<A>, k: int, k': int)
    requires FirstFailure(f, xs, k) && FirstFailure(f, xs, k')
    ensures k == k'
  {
  }

  /** Mapping over a concatenation: the results concatenate, and the first
      failure (in the first part if there is one) wins. */
  lemma MapAllAppend<A, B, E>(f: A -> Result<B, E>, a: seq<A>, b: seq<A>)
    ensures MapAll(f, a).Failure? ==> MapAll(f, a + b) == MapAll(f, a)
    ensures MapAll(f, a).Success? && MapAll(f, b).Failure? ==> MapAll(f, a + b) == MapAll(f, b)
    ensures MapAll(f, a).Success? && MapAll(f, b).Success? ==>
              MapAll(f, a + b) == Success(MapAll(f, a).value + MapAll(f, b).value)
  {
    if MapAll(f, a).Failure? {
      MapAllAppendFirstFails(f, a, b);
    } else if MapAll(f, b).Failure? {
      MapAllAppendSecondFails(f, a, b);
    } else {
      MapAllAppendBothSucceed(f, a, b);
    }
  }

  /** A failure in the first part is the failure of the whole. */
  lemma MapAllAppendFirstFails<A, B, E>(f: A -> Result<B, E>, a: seq<A>, b: seq<A>)
    requires MapAll(f, a).Failure?
    ensures MapAll(f, a + b) == MapAll(f, a)
  {
    var ab := a + b;
    var r := MapAll(f, ab);
    var k :| FirstFailure(f, a, k) && MapAll(f, a).error == f(a[k]).error;
    assert forall i :: 0 <= i <= k ==> ab[i] == a[i];
    assert FirstFailure(f, ab, k);
    var k' :| FirstFailure(f, ab, k') && r.error == f(ab[k']).error;
    FirstFailureUnique(f, ab, k, k');
  }

  /** After a successful first part, the second part's failure is the whole's. */
  lemma MapAllAppendSecondFails<A, B, E>(f: A -> Result<B, E>, a: seq<A>, b: seq<A>)
    requires MapAll(f, a).Success? && MapAll(f, b).Failure?
    ensures MapAll(f, a + b) == MapAll(f, b)
  {
    var ab := a + b;
    var r := MapAll(f, ab);
    var k :| FirstFailure(f, b, k) && MapAll(f, b).error == f(b[k]).error;
    assert forall i :: 0 <= i < |a| ==> ab[i] == a[i];
    assert forall i :: 0 <= i <= k ==> ab[|a| + i] == b[i];
    assert FirstFailure(f, ab, |a| + k);
    var k' :| FirstFailure(f, ab, k') && r.error == f(ab[k']).error;
    FirstFailureUnique(f, ab, |a| + k, k');
  }

  /** Two successful parts give the concatenated values. */
  lemma MapAllAppendBothSucceed<A, B, E>(f: A -> Result<B, E>, a: seq<A>, b: seq<A>)
    requires MapAll(f, a).Success? && MapAll(f, b).Success?
    ensures MapAll(f, a + b) == Success(MapAll(f, a).value + MapAll(f, b).value)
  {
    var ab := a + b;
    var vs := MapAll(f, a).value + MapAll(f, b).value;
    forall i | 0 <= i < |ab| ensures f(ab[i]) == Success(vs[i]) {
      if i < |a| {
        assert ab[i] == a[i];
      } else {
        assert ab[i] == b[i - |a|];
      }
    }
    MapAllAllSucceed(f, ab, vs);
  }

  /** When every element maps to a success, the results are those values. */
  lemma MapAllAllSucceed<A, B, E>(f: A -> Result<B, E>, xs: seq<A>, vs: seq<B>)
    requires |vs| == |xs| && forall i :: 0 <= i < |xs| ==> f(xs[i]) == Success(vs[i])
    ensures MapAll(f, xs) == Success(vs)
  {
    var r := MapAll(f, xs);
    assert r.Success?;
    assert r.value == vs;
  }
}
