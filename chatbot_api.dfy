/**
 * The text client's service layer (src/services/chatbotAPI.js): an axios
 * instance whose response interceptor unwraps successful responses to their
 * body and turns every failure into an Error with a user-facing message, and
 * the calls built on it. A call's transport outcome is a parameter; a thrown
 * Error is a `Failure` carrying its message.
 */
module ChatbotApi {
  import opened Wrappers
  import opened Text

  const RefusedCode: string := "ECONNREFUSED"
  const ConnectionRefusedMessage: string :=
    "Unable to connect to the chatbot server. Please ensure the backend is running on port 5000."
  const ServerErrorPrefix: string := "Server error: "
  const NoResponseMessage: string := "No response from server. Please check your connection."
  const RequestFailedPrefix: string := "Request failed: "
  const ChatFailedMessage: string := "Failed to get response from chatbot"
  const HealthyStatus: string := "healthy"

  /** `error.response`: the status and the `error` field of the body, if any. */
  datatype ErrorResponse = ErrorResponse(status: nat, dataError: Option<string>)

  /** What axios hands the interceptor on failure: `code`, `response`, whether `request` was made, and `message`. */
  datatype AxiosError = AxiosError(code: Option<string>, response: Option<ErrorResponse>, requestMade: bool, message: string)

  /** A successful HTTP exchange. */
  datatype HttpResponse<T> = HttpResponse(status: nat, data: T)

  /** Body of `POST /chat`. */
  datatype ChatBody = ChatBody(success: bool, reply: string, error: Option<string>)

  /** Body of `GET /health`. */
  datatype HealthBody = HealthBody(status: Option<string>)

  /** Body of `POST /clear-history`. */
  datatype ClearBody = ClearBody(success: bool)

  /** JavaScript truthiness of an optional string. */
  predicate Truthy(o: Option<string>) { o.Some? && o.value != "" }

  /**
   * The interceptor's error branch, a decision table checked in this order:
   * a refused connection, then a server response (its `error`, else its
   * status), then a request that got no answer, then anything else. Every
   * message is non-empty.
   */
  function ErrorMessage(e: AxiosError): (msg: string)
    ensures msg != ""
    ensures e.code == Some(RefusedCode) ==> msg == ConnectionRefusedMessage
    ensures e.code != Some(RefusedCode) && e.response.Some? && Truthy(e.response.value.dataError) ==>
      msg == e.response.value.dataError.value
    ensures e.code != Some(RefusedCode) && e.response.Some? && !Truthy(e.response.value.dataError) ==>
      msg == ServerErrorPrefix + NatToString(e.response.value.status)
    ensures e.code != Some(RefusedCode) && e.response.None? && e.requestMade ==> msg == NoResponseMessage
    ensures e.code != Some(RefusedCode) && e.response.None? && !e.requestMade ==> msg == RequestFailedPrefix + e.message
  {
    if e.code == Some(RefusedCode) then ConnectionRefusedMessage
    else if e.response.Some? then
      (if Truthy(e.response.value.dataError) then e.response.value.dataError.value
       else ServerErrorPrefix + NatToString(e.response.value.status))
    else if e.requestMade then NoResponseMessage
    else RequestFailedPrefix + e.message
  }

  /** A refused connection wins over everything else axios reports with it. */
  lemma RefusedWins(e: AxiosError, response: Option<ErrorResponse>, requestMade: bool, message: string)
    requires e.code == Some(RefusedCode)
    ensures ErrorMessage(e.(response := response, requestMade := requestMade, message := message)) == ErrorMessage(e)
  {
  }

  /** A bare status error still names the status: it can be read back from the message. */
  lemma {:induction false} ServerStatusReadable(e: AxiosError)
    requires e.code != Some(RefusedCode) && e.response.Some? && !Truthy(e.response.value.dataError)
    ensures |ErrorMessage(e)| > |ServerErrorPrefix|
    ensures ErrorMessage(e)[..|ServerErrorPrefix|] == ServerErrorPrefix
    ensures AllDigits(ErrorMessage(e)[|ServerErrorPrefix|..])
    ensures ParseNat(ErrorMessage(e)[|ServerErrorPrefix|..]) == e.response.value.status
  {
    var digits := NatToString(e.response.value.status);
    assert ErrorMessage(e) == ServerErrorPrefix + digits;
    assert ErrorMessage(e)[|ServerErrorPrefix|..] == digits;
    ParseNatToString(e.response.value.status);
  }

  /** The interceptor: a success becomes its `data`, a failure the normalised message. */
  function Intercept<T>(outcome: Result<HttpResponse<T>, AxiosError>): (r: Result<T, string>)
    ensures outcome.Success? <==> r.Success?
    ensures outcome.Success? ==> r.value == outcome.value.data
    ensures outcome.Failure? ==> r.error == ErrorMessage(outcome.error) && r.error != ""
  {
    match outcome
    case Success(response) => Success(response.data)
    case Failure(e) => Failure(ErrorMessage(e))
  }

  /**
   * `fetchChatbotResponse`: the reply when the body says `success`; otherwise
   * it throws the body's `error`, the default message when that is empty or
   * absent, or the interceptor's message when the request itself failed. What
   * it throws is never empty.
   */
  function FetchChatbotResponse(outcome: Result<HttpResponse<ChatBody>, AxiosError>): (r: Result<string, string>)
    ensures r.Success? <==> outcome.Success? && outcome.value.data.success
    ensures r.Success? ==> r.value == outcome.value.data.reply
    ensures outcome.Failure? ==> r == Failure(ErrorMessage(outcome.error))
    ensures outcome.Success? && !outcome.value.data.success ==>
      r.error == (if Truthy(outcome.value.data.error) then outcome.value.data.error.value else ChatFailedMessage)
    ensures r.Failure? ==> r.error != ""
  {
    match Intercept(outcome)
    case Failure(msg) => Failure(msg)
    case Success(body) =>
      if body.success then Success(body.reply)
      else if Truthy(body.error) then Failure(body.error.value)
      else Failure(ChatFailedMessage)
  }

  /** `clearChatHistory`: the body's `success` flag, or the interceptor's message thrown. */
  function ClearChatHistory(outcome: Result<HttpResponse<ClearBody>, AxiosError>): (r: Result<bool, string>)
    ensures outcome.Success? ==> r == Success(outcome.value.data.success)
    ensures outcome.Failure? ==> r == Failure(ErrorMessage(outcome.error))
  {
    match Intercept(outcome)
    case Success(body) => Success(body.success)
    case Failure(msg) => Failure(msg)
  }

  /** `checkBackendHealth`: true exactly for a reachable server that reports "healthy"; it never throws. */
  function CheckBackendHealth(outcome: Result<HttpResponse<HealthBody>, AxiosError>): (healthy: bool)
    ensures healthy <==> outcome.Success? && outcome.value.data.status == Some(HealthyStatus)
  {
    match Intercept(outcome)
    case Success(body) => body.status == Some(HealthyStatus)
    case Failure(_) => false
  }
}
