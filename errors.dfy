/**
 * The app's error classification: every exception is mapped to one of four
 * error kinds, each with a fixed user-facing message.
 */
module Errors {
  import opened Wrappers

  /** The exception families the classification tells apart. */
  datatype ThrowableClass =
    | UnknownHostException
    | ConnectException
    | SocketTimeoutException
    | FirebaseAuthException
    | FirebaseFirestoreException
    | OtherException(name: string)

  /** An exception: its class and its (possibly null) message. */
  datatype Throwable = Throwable(cls: ThrowableClass, message: Option<string>)

  const NetworkMessage: string := "Lỗi kết nối mạng. Vui lòng kiểm tra kết nối internet."
  const AuthMessage: string := "Lỗi xác thực. Vui lòng thử lại."
  const FirestoreMessage: string := "Lỗi lưu trữ dữ liệu."
  const UnknownMessage: string := "Đã xảy ra lỗi không xác định."

  datatype AppError =
    | NetworkError(throwable: Option<Throwable>)
    | AuthError(throwable: Option<Throwable>)
    | FirestoreError(throwable: Option<Throwable>)
    | UnknownError(throwable: Option<Throwable>)
  {
    /** The fixed message of each kind. */
    function Message(): (m: string)
      ensures NetworkError? ==> m == NetworkMessage
      ensures AuthError? ==> m == AuthMessage
      ensures FirestoreError? ==> m == FirestoreMessage
      ensures UnknownError? ==> m == UnknownMessage
    {
      match this
      case NetworkError(_) => NetworkMessage
      case AuthError(_) => AuthMessage
      case FirestoreError(_) => FirestoreMessage
      case UnknownError(_) => UnknownMessage
    }

    /** `errorCause`. */
    function ErrorCause(): Option<Throwable>
    {
      throwable
    }
  }

  /** A network failure: host lookup, connection or socket timeout. */
  predicate IsNetworkFailure(cls: ThrowableClass)
  {
    cls == UnknownHostException || cls == ConnectException || cls == SocketTimeoutException
  }

  /** `AppError.fromThrowable`. */
  function FromThrowable(t: Throwable): (e: AppError)
    ensures e.ErrorCause() == Some(t)
    ensures e.NetworkError? <==> IsNetworkFailure(t.cls)
    ensures e.AuthError? <==> t.cls == FirebaseAuthException
    ensures e.FirestoreError? <==> t.cls == FirebaseFirestoreException
    ensures e.UnknownError? <==> t.cls.OtherException?
  {
    match t.cls
    case UnknownHostException => NetworkError(Some(t))
    case ConnectException => NetworkError(Some(t))
    case SocketTimeoutException => NetworkError(Some(t))
    case FirebaseAuthException => AuthError(Some(t))
    case FirebaseFirestoreException => FirestoreError(Some(t))
    case OtherException(_) => UnknownError(Some(t))
  }

  /** The four messages are distinct, so the message alone tells the kind. */
  lemma MessagesIdentifyKinds(a: AppError, b: AppError)
    requires a.Message() == b.Message()
    ensures a.NetworkError? == b.NetworkError? && a.AuthError? == b.AuthError?
    ensures a.FirestoreError? == b.FirestoreError? && a.UnknownError? == b.UnknownError?
  {
    assert |NetworkMessage| == 53 && |AuthMessage| == 31;
    assert |FirestoreMessage| == 20 && |UnknownMessage| == 29;
  }

  /** The classification looks only at the exception's class, never at its message. */
  lemma FromThrowableIgnoresMessage(t: Throwable, message: Option<string>)
    ensures FromThrowable(t.(message := message)).Message() == FromThrowable(t).Message()
  {
  }
}
