/** Failure-carrying values used throughout the model: `Option` for JavaScript's
    `undefined`/`null`, `Result` for a computation that may throw. */
module Wrappers {

  datatype Option<+T> = None | Some(value: T)

  datatype Result<+T, +E> = Ok(value: T) | Err(error: E) {
    predicate IsFailure() { Err? }

    function PropagateFailure<U>(): Result<U, E>
      requires Err?
    {
      Err(error)
    }

    function Extract(): T
      requires Ok?
    {
      value
    }
  }

  /** `e` is the error of the first element of `xs` on which `f` fails. */
  ghost predicate FirstFailure<A, B, E>(f: A -> Result<B, E>, xs: seq<A>, e: E) {
    exists k :: 0 <= k < |xs| && f(xs[k]) == Err(e) && (forall j :: 0 <= j < k ==> f(xs[j]).Ok?)
  }

  /** Applies `f` to every element in order and collects the results; the
      first element on which `f` fails makes the whole call fail with its error
      (a loop whose body may throw). */
  function MapAll<A, B, E>(f: A -> Result<B, E>, xs: seq<A>): (r: Result<seq<B>, E>)
    ensures r.Ok? ==> |r.value| == |xs|
    ensures r.Ok? ==> forall k :: 0 <= k < |xs| ==> f(xs[k]) == Ok(r.value[k])
    ensures r.Err? ==> FirstFailure(f, xs, r.error)
    ensures r.Err? <==> exists k :: 0 <= k < |xs| && f(xs[k]).Err?
  {
    if |xs| == 0 then Ok([])
    else
      match f(xs[0])
      case Err(e) => Err(e)
      case Ok(y) =>
        var rest := MapAll(f, xs[1..]);
        assert forall k :: 0 < k < |xs| ==> xs[k] == xs[1..][k - 1];
        if rest.Err? then
          FirstFailureCons(f, xs, rest.error);
          Err(rest.error)
        else
          var r := [y] + rest.value;
          assert forall k :: 0 < k < |xs| ==> r[k] == rest.value[k - 1];
          Ok(r)
  }

  /** When `f` succeeds everywhere, `MapAll` collects exactly its results. */
  lemma MapAllOk<A, B, E>(f: A -> Result<B, E>, xs: seq<A>, ys: seq<B>)
    requires |xs| == |ys| && forall k :: 0 <= k < |xs| ==> f(xs[k]) == Ok(ys[k])
    ensures MapAll(f, xs) == Ok(ys)
  {
    var r := MapAll(f, xs);
    assert !exists k :: 0 <= k < |xs| && f(xs[k]).Err? by {
      forall k | 0 <= k < |xs|
        ensures f(xs[k]).Ok?
      {
        assert f(xs[k]) == Ok(ys[k]);
      }
    }
    assert r.Ok?;
    assert |r.value| == |ys|;
    forall k | 0 <= k < |xs|
      ensures r.value[k] == ys[k]
    {
      assert f(xs[k]) == Ok(r.value[k]) && f(xs[k]) == Ok(ys[k]);
    }
    assert r.value == ys;
  }

  lemma FirstFailureCons<A, B, E>(f: A -> Result<B, E>, xs: seq<A>, e: E)
    requires |xs| > 0 && f(xs[0]).Ok? && FirstFailure(f, xs[1..], e)
    ensures FirstFailure(f, xs, e)
  {
    var k :| 0 <= k < |xs[1..]| && f(xs[1..][k]) == Err(e) && (forall j :: 0 <= j < k ==> f(xs[1..][j]).Ok?);
    assert f(xs[k + 1]) == Err(e);
    forall j | 0 <= j < k + 1
      ensures f(xs[j]).Ok?
    {
      if j > 0 {
        assert xs[j] == xs[1..][j - 1];
      }
    }
  }

  /** The JavaScript exceptions the modelled code can raise, and the rejection
      of a call to an outside service. */
  datatype Thrown = TypeError | RangeError | SyntaxError | ServiceError

  /** JavaScript truthiness of an optional string: present and non-empty. */
  predicate Truthy(s: Option<string>) {
    s.Some? && s.value != ""
  }

  /** `a || b` on optional strings. */
  function OrElse(a: Option<string>, b: string): string {
    if Truthy(a) then a.value else b
  }
}
