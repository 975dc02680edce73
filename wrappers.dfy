/** Option and Result: the model's stand-ins for Python's None and for raised exceptions. */
module Wrappers {

  datatype Option<+T> = None | Some(value: T) {
    function GetOr(default: T): T {
      match this
      case Some(v) => v
      case None => default
    }
  }

  /** A call that either returns a value or raises; `error` is the exception's message. */
  datatype Result<+R> = Success(value: R) | Failure(error: string)

  /**
   * A loop that applies `f` to each element of `xs` in order and lets the
   * first exception escape: the results in order, or that exception.
   */
  function MapUntilFailure<A, B>(f: A -> Result<B>, xs: seq<A>): Result<seq<B>> {
    if |xs| == 0 then Success([])
    else
      match MapUntilFailure(f, xs[..|xs| - 1])
      case Failure(e) => Failure(e)
      case Success(prefix) =>
        match f(xs[|xs| - 1])
        case Failure(e) => Failure(e)
        case Success(y) => Success(prefix + [y])
  }

  /** Once an exception escapes from a prefix, the whole loop ends with it. */
  lemma {:induction false} FailureSticks<A, B>(f: A -> Result<B>, xs: seq<A>, k: nat)
    requires k <= |xs| && MapUntilFailure(f, xs[..k]).Failure?
    ensures MapUntilFailure(f, xs) == MapUntilFailure(f, xs[..k])
    decreases |xs| - k
  {
    if k < |xs| {
      var longer := xs[..k + 1];
      assert longer[..|longer| - 1] == xs[..k];
      FailureSticks(f, xs, k + 1);
    } else {
      assert xs[..k] == xs;
    }
  }

  /** A completed loop holds, position by position, the result of each element. */
  lemma {:induction false} MapUntilFailureResults<A, B>(f: A -> Result<B>, xs: seq<A>)
    requires MapUntilFailure(f, xs).Success?
    ensures var out := MapUntilFailure(f, xs).value;
            && |out| == |xs|
            && forall i :: 0 <= i < |xs| ==> Success(out[i]) == f(xs[i])
  {
    if |xs| > 0 {
      var init := xs[..|xs| - 1];
      MapUntilFailureResults(f, init);
      var prefix := MapUntilFailure(f, init).value;
      var out := MapUntilFailure(f, xs).value;
      assert out == prefix + [f(xs[|xs| - 1]).value];
      forall i | 0 <= i < |xs| ensures Success(out[i]) == f(xs[i]) {
        if i < |xs| - 1 {
          assert init[i] == xs[i];
        }
      }
    }
  }

  /** The loop completes exactly when no element raises. */
  lemma {:induction false} MapUntilFailureSucceeds<A, B>(f: A -> Result<B>, xs: seq<A>)
    ensures MapUntilFailure(f, xs).Success? <==> forall i :: 0 <= i < |xs| ==> f(xs[i]).Success?
  {
    if |xs| > 0 {
      var init := xs[..|xs| - 1];
      MapUntilFailureSucceeds(f, init);
      assert forall i :: 0 <= i < |init| ==> init[i] == xs[i];
    }
  }
}
