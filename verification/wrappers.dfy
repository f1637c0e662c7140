/** Failure-compatible Option and Result types shared by every puzzle module.
    A Rust `Option<T>` becomes `Option<T>`; a Rust `Result<T, anyhow::Error>` becomes
    `Result<T, E>` where `E` is a small error-kind datatype of the module that fails. */
module Wrappers {

  datatype Option<+T> = None | Some(value: T) {
    predicate IsFailure() { None? }

    function PropagateFailure<U>(): Option<U>
      requires None?
    {
      None
    }

    function Extract(): T
      requires Some?
    {
      value
    }
  }

  datatype Result<+T, +E> = Ok(value: T) | Err(error: E) {
    predicate IsFailure() { Err? }

    function PropagateFailure<U>(): Result<U, E>
      requires Err?
    {
      Err(error)
    }

    function Extract(): T
      requires Ok?
    {
      value
    }
  }

  /** `collect::<Result<Vec<_>, _>>()` over `rs[i..]`: every value when all are `Ok`,
      otherwise the first error. */
  function CollectFrom<T, E>(rs: seq<Result<T, E>>, i: nat): (r: Result<seq<T>, E>)
    requires i <= |rs|
    ensures r.Ok? <==> forall k :: i <= k < |rs| ==> rs[k].Ok?
    ensures r.Ok? ==> |r.value| == |rs| - i && forall k :: i <= k < |rs| ==> r.value[k - i] == rs[k].value
    ensures r.Err? ==> exists k :: i <= k < |rs| && rs[k] == Err(r.error)
                                   && forall j :: i <= j < k ==> rs[j].Ok?
    decreases |rs| - i
  {
    if i == |rs| then Ok([])
    else
      match rs[i]
      case Err(e) => Err(e)
      case Ok(v) =>
        match CollectFrom(rs, i + 1)
        case Err(e) => Err(e)
        case Ok(rest) => Ok([v] + rest)
  }
}
