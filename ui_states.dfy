/** The screen states a loading operation moves through, and their derivation from a `Result`. */
module UiStates {
  import opened Wrappers
  import opened Errors
  import ResultExt

  /** The message shown for a failure whose exception has none. */
  const UnknownErrorMessage: string := "Unknown error"

  datatype UiState<T> = Loading | Success(data: T) | Error(message: string, throwable: Option<Throwable>)

  /** `toUiState`: a success shows its value, a failure its exception's message. */
  function ToUiState<T>(r: ResultExt.Result<T>): (u: UiState<T>)
    ensures !u.Loading?
    ensures r.Success? <==> u.Success?
    ensures r.Success? ==> u.data == r.value
    ensures r.Failure? ==> u.throwable == Some(r.exception)
    ensures r.Failure? && r.exception.message.Some? ==> u.message == r.exception.message.value
    ensures r.Failure? && r.exception.message.None? ==> u.message == UnknownErrorMessage
  {
    match r
    case Success(v) => UiState.Success(v)
    case Failure(t) => Error(t.message.GetOr(UnknownErrorMessage), Some(t))
  }

  /** Different results give different states: the state keeps everything the result holds. */
  lemma ToUiStateInjective<T>(a: ResultExt.Result<T>, b: ResultExt.Result<T>)
    requires ToUiState(a) == ToUiState(b)
    ensures a == b
  {
  }
}
