/**
 * The error taxonomy of volume operations: a transient failure that may fix
 * itself on retry, a non-final failure meaning the operation may still be in
 * progress in the background, and every other error. `None` is Go's nil error.
 */
module OperationTypes {
  import opened Wrappers

  datatype OperationError =
    | TransientOperationFailure(msg: string)
    | NonFinalOperationFailure(msg: string)
    | GenericError(msg: string)
  {
    /** The error text; for both failure kinds it is the message they were built with. */
    function Error(): string {
      match this
      case TransientOperationFailure(m) => m
      case NonFinalOperationFailure(m) => m
      case GenericError(m) => m
    }
  }

  function NewTransientOperationFailure(msg: string): (e: OperationError)
    ensures e.TransientOperationFailure?
    ensures e.Error() == msg
  {
    TransientOperationFailure(msg)
  }

  function NewNonFinalOperationFailure(msg: string): (e: OperationError)
    ensures e.NonFinalOperationFailure?
    ensures e.Error() == msg
  {
    NonFinalOperationFailure(msg)
  }

  /** False for the two retryable kinds; true for anything else, nil included. */
  predicate IsOperationFinishedError(err: Option<OperationError>)
  {
    !(err.Some? && (err.value.NonFinalOperationFailure? || err.value.TransientOperationFailure?))
  }

  predicate IsNonFinalError(err: Option<OperationError>)
  {
    err.Some? && err.value.NonFinalOperationFailure?
  }

  /** How the two classifiers relate, over every error and nil. */
  lemma ClassifiersAgree(err: Option<OperationError>)
    ensures err.None? ==> IsOperationFinishedError(err) && !IsNonFinalError(err)
    ensures IsNonFinalError(err) ==> !IsOperationFinishedError(err)
    ensures !IsOperationFinishedError(err) <==>
              exists m :: err == Some(NewTransientOperationFailure(m)) || err == Some(NewNonFinalOperationFailure(m))
    ensures IsNonFinalError(err) <==> exists m :: err == Some(NewNonFinalOperationFailure(m))
  {
    if err.Some? {
      var m := err.value.Error();
      assert err.value.TransientOperationFailure? ==> err == Some(NewTransientOperationFailure(m));
      assert err.value.NonFinalOperationFailure? ==> err == Some(NewNonFinalOperationFailure(m));
    }
  }
}
