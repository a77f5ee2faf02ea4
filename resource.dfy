/**
 * Resource: the loading / success / error state a screen shows, its three
 * inspection helpers and the conversion from kotlin.Result.
 *
 * Each `on...` helper runs an action for one case and returns the receiver;
 * the model returns the receiver together with the arguments the action is
 * run with (None when it is not run).
 */
module Resources {
  import W = Wrappers

  datatype Resource<+T> = Success(data: T) | Error(message: string, cause: W.Option<W.Exception>) | Loading

  const UnknownErrorMessage: string := "Error desconocido"

  /** onSuccess: the action receives the data of a Success. */
  function OnSuccess<T>(r: Resource<T>): (out: (Resource<T>, W.Option<T>))
    ensures out.0 == r
    ensures out.1.Some? <==> r.Success?
    ensures r.Success? ==> out.1.value == r.data
  {
    (r, if r.Success? then W.Some(r.data) else W.None)
  }

  /** onError: the action receives the message and cause of an Error. */
  function OnError<T>(r: Resource<T>): (out: (Resource<T>, W.Option<(string, W.Option<W.Exception>)>))
    ensures out.0 == r
    ensures out.1.Some? <==> r.Error?
    ensures r.Error? ==> out.1.value == (r.message, r.cause)
  {
    (r, if r.Error? then W.Some((r.message, r.cause)) else W.None)
  }

  /** onLoading: the action runs for Loading. */
  function OnLoading<T>(r: Resource<T>): (out: (Resource<T>, bool))
    ensures out.0 == r
    ensures out.1 <==> r.Loading?
  {
    (r, r.Loading?)
  }

  /** Chaining the three helpers on one resource runs exactly one action and hands the same resource along. */
  lemma ExactlyOneActionRuns<T>(r: Resource<T>)
    ensures OnLoading(OnError(OnSuccess(r).0).0).0 == r
    ensures (if OnSuccess(r).1.Some? then 1 else 0) + (if OnError(r).1.Some? then 1 else 0) + (if OnLoading(r).1 then 1 else 0) == 1
  {
  }

  /** toResource: a success keeps its value; a failure keeps its exception as the cause and its message, or "Error desconocido" when null. */
  function ToResource<T>(result: W.Result<T>): (r: Resource<T>)
    ensures result.Success? <==> r.Success?
    ensures result.Success? ==> r.data == result.value
    ensures result.Failure? ==> r.Error? && r.cause == W.Some(result.error)
    ensures result.Failure? ==> r.message == result.error.message.GetOr(UnknownErrorMessage)
  {
    match result
    case Success(v) => Success(v)
    case Failure(e) => Error(e.message.GetOr(UnknownErrorMessage), W.Some(e))
  }

  /** A converted result is never Loading, and only a null message is replaced (an empty one is kept). */
  lemma ToResourceShapes<T>(result: W.Result<T>)
    ensures !ToResource(result).Loading?
    ensures result.Failure? && result.error.message.Some? ==> ToResource(result).message == result.error.message.value
    ensures result.Failure? && result.error.message.None? ==> ToResource(result).message == UnknownErrorMessage
  {
  }

  /** Converting a success and reading it back with onSuccess hands the original value to the action. */
  lemma SuccessReachesAction<T>(v: T)
    ensures OnSuccess(ToResource(W.Success(v))).1 == W.Some(v)
    ensures !OnError(ToResource(W.Success(v))).1.Some?
  {
  }
}
