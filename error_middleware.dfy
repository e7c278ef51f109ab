/** `errorMiddleware.ts`: the last handler, mapping a thrown error to a response. */
module ErrorMiddleware {
  import opened Http

  /** A thrown error: an `AuthenticationError` or any other `Error`, with its message. */
  datatype AppError = AuthenticationError(message: string) | OtherError(message: string)

  /** The error's `name`: the class sets "AuthenticationError", the base class leaves "Error". */
  function ErrorName(e: AppError): (name: string)
    ensures name == "AuthenticationError" <==> e.AuthenticationError?
  {
    if e.AuthenticationError? then "AuthenticationError" else "Error"
  }

  const UnauthorizedPrefix := "Unauthorized: "

  /**
   * `errorHandler`: an authentication error is 401 with its message after "Unauthorized: "; any
   * other error is 500 with `success: false` and its message, or "Internal Server Error" when the
   * message is empty.
   */
  function ErrorHandler(e: AppError): (r: Response)
    ensures r.status == 401 <==> e.AuthenticationError?
    ensures r.status == 401 || r.status == 500
    ensures e.AuthenticationError? ==> r.body.Message? && |r.body.message| == |UnauthorizedPrefix| + |e.message|
    ensures e.OtherError? ==> r.body.Failure? && !r.body.success && r.body.message != ""
    ensures e.OtherError? && e.message != "" ==> r.body.message == e.message
  {
    if e.AuthenticationError? then Response(401, Message(UnauthorizedPrefix + e.message))
    else Response(500, Failure(false, if e.message == "" then "Internal Server Error" else e.message))
  }

  /**
   * The 401 message reads back as the prefix followed by the original message, so the client can
   * recover what was thrown.
   */
  lemma AuthenticationMessageRecoverable(message: string)
    ensures var m := ErrorHandler(AuthenticationError(message)).body.message;
            m[..|UnauthorizedPrefix|] == UnauthorizedPrefix && m[|UnauthorizedPrefix|..] == message
  {
    var m := ErrorHandler(AuthenticationError(message)).body.message;
    assert m == UnauthorizedPrefix + message;
  }

  /** Two authentication errors answer the same exactly when their messages are the same. */
  lemma AuthenticationResponsesDistinct(a: string, b: string)
    ensures ErrorHandler(AuthenticationError(a)) == ErrorHandler(AuthenticationError(b)) <==> a == b
  {
    if ErrorHandler(AuthenticationError(a)) == ErrorHandler(AuthenticationError(b)) {
      AuthenticationMessageRecoverable(a);
      AuthenticationMessageRecoverable(b);
    }
  }
}
