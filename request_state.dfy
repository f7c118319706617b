/** The request step shared by `handleEvaluate` (frontend/src/pages/EvaluationPage.jsx)
    and `handleRunCompare` (frontend/src/pages/CompareLLMPage.jsx): what an
    awaited call hands back and which error text the page then shows. */
module PageRequest {
  import opened JsValues

  /** The outcome of the awaited call: the parsed JSON body's `status`,
      `results` and `message`, or the `message` of the exception thrown
      (network failure, a body that is not JSON). */
  datatype Reply<R> =
    | Replied(status: Value, results: R, message: Value)
    | Threw(errorMessage: Value)

  /** `data.status === "success"` */
  predicate Succeeded<R>(reply: Reply<R>) {
    reply.Replied? && reply.status == Str("success")
  }

  /** `message || fallback` */
  function MessageOr(message: Value, fallback: string): (r: Value)
    ensures Truthy(message) ==> r == message
    ensures !Truthy(message) ==> r == Str(fallback)
    ensures Truthy(r) <==> Truthy(message) || fallback != ""
  {
    if Truthy(message) then message else Str(fallback)
  }

  /** The error a failed request leaves: the body's message or the page's
      own fallback, or for an exception its message or "Network error". */
  function FailureText<R>(reply: Reply<R>, fallback: string): (e: Value)
    requires !Succeeded(reply)
    ensures fallback != "" ==> Truthy(e)
  {
    match reply
    case Replied(_, _, message) => MessageOr(message, fallback)
    case Threw(message) => MessageOr(message, "Network error")
  }
}
