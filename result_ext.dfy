/**
 * Kotlin's `Result` and the app's `onSuccess`/`onFailure` helpers, which run
 * a callback on one outcome and hand back the same result.  A callback's
 * invocations are recorded as the list of arguments it received.
 */
module ResultExt {
  import opened Wrappers
  import opened Errors

  datatype Result<T> = Success(value: T) | Failure(exception: Throwable)

  /** What a helper did: returned its receiver after these callback calls, or threw. */
  datatype Tapped<R, A> = Returned(receiver: R, calls: seq<A>) | NullDereference

  /**
   * `onSuccess`: calls the action with the value of a success; the value is
   * read with `getOrNull()!!`, so a success holding null throws instead.
   */
  function OnSuccess<T>(r: Result<Option<T>>): (out: Tapped<Result<Option<T>>, T>)
    ensures out.NullDereference? <==> r == Success(None)
    ensures out.Returned? ==> out.receiver == r
    ensures out.Returned? ==> (|out.calls| == 1 <==> r.Success?) && (r.Failure? <==> out.calls == [])
    ensures out.Returned? && r.Success? ==> out.calls == [r.value.value]
  {
    match r
    case Success(v) => if v.None? then NullDereference else Returned(r, [v.value])
    case Failure(_) => Returned(r, [])
  }

  /** `onFailure`: calls the action with the exception of a failure; never throws. */
  function OnFailure<T>(r: Result<T>): (out: Tapped<Result<T>, Throwable>)
    ensures out.Returned? && out.receiver == r
    ensures r.Failure? ==> out.calls == [r.exception]
    ensures r.Success? <==> out.calls == []
  {
    match r
    case Success(_) => Returned(r, [])
    case Failure(e) => Returned(r, [e])
  }

  /** Chaining both helpers calls exactly one of the two actions, once. */
  lemma ExactlyOneActionRuns<T>(r: Result<Option<T>>)
    requires r != Success(None)
    ensures var s := OnSuccess(r);
            s.Returned? && |s.calls| + |OnFailure(s.receiver).calls| == 1
  {
  }
}
