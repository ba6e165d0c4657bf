/** The result codes the modelled code tests or returns, and the stock Option type. */
module Base {

  // The codes of inc/base/artik_error.h that the modelled functions produce themselves;
  // every other code a daemon call may answer with is `Other`.
  datatype Error =
    | SOk
    | EBadArgs
    | ENotSupported
    | ETryAgain
    | EInvalidValue
    | EZigbeeError
    | EZigbeeNoDevice
    | Other(code: int)

  datatype Option<+T> = None | Some(value: T) {
    function GetOr(default: T): T {
      if None? then default else value
    }
  }

  // xs without its k-th element; xs itself when there is none.
  function Without<X>(xs: seq<X>, k: nat): (ys: seq<X>)
    ensures k < |xs| ==> |ys| == |xs| - 1
    ensures k < |xs| ==> forall i :: 0 <= i < |ys| ==> ys[i] == xs[if i < k then i else i + 1]
  {
    if k < |xs| then xs[..k] + xs[k + 1..] else xs
  }
}
