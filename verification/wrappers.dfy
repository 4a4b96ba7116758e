/** Failure-carrying datatypes used by every module of the model.
    A thrown JavaScript exception becomes `Failure`, `null`/`undefined` becomes `None`. */
module Wrappers {

  datatype Option<+T> = None | Some(value: T) {
    function GetOr(default: T): T {
      match this
      case Some(v) => v
      case None => default
    }
  }

  datatype Result<+R, +E> = Success(value: R) | Failure(error: E) {
    function ToOption(): Option<R> {
      match this
      case Success(v) => Some(v)
      case Failure(_) => None
    }
  }

  /** `Promise.all` over already-settled results, taken in order: the values when
      every result is a success, else a failure. `Promise.all` rejects with the
      failure that settles first in time, which the model cannot see; returning the
      first failure in list order is a modelling choice, and no contract depends on
      which failure it is. */
  function AllOk<R, E>(rs: seq<Result<R, E>>): (r: Result<seq<R>, E>)
    ensures r.Success? <==> forall k :: 0 <= k < |rs| ==> rs[k].Success?
    ensures r.Success? ==> |r.value| == |rs| && forall k :: 0 <= k < |rs| ==> rs[k] == Success(r.value[k])
    decreases |rs|
  {
    if rs == [] then Success([])
    else match rs[0]
      case Failure(e) => Failure(e)
      case Success(v) =>
        match AllOk(rs[1..])
        case Failure(e) => Failure(e)
        case Success(vs) => Success([v] + vs)
  }

  lemma AllOkOfValues<R, E>(rs: seq<Result<R, E>>, vs: seq<R>)
    requires |rs| == |vs| && forall k :: 0 <= k < |rs| ==> rs[k] == Success(vs[k])
    ensures AllOk(rs) == Success(vs)
  {
    var r := AllOk(rs);
    assert r.Success?;
    assert r.value == vs;
  }
}
