/**
  What the handlers see of HTTP and of their collaborators: the identity provider's verdict,
  the parsed body, the speech service's reply, the response they return and the trace of
  collaborator calls they make.
*/
module Http {
  import opened Wrappers
  import opened Users

  /** The claims of a validated Google ID token; either may be null. */
  datatype Claims = Claims(email: Option<string>, name: Option<string>)

  /** `GoogleJsonWebSignature.ValidateAsync`: the payload, or the message of the exception it threw. */
  datatype Validation = Validated(claims: Claims) | Rejected(message: string)

  /** The identity provider accepted the bearer token and named `email` in its claims. */
  predicate ValidatedEmail(token: Option<string>, validate: Option<string> -> Validation, email: string)
  {
    var v := validate(token);
    v.Validated? && v.claims.email == Some(email)
  }

  /** `JsonSerializer.Deserialize<SpeechRequest>`: it throws on malformed JSON and gives null for `null`. */
  datatype Body = Malformed | JsonNull | Parsed(request: SpeechRequest)

  /**
    The speech service's answer: its status code and the audio bytes it streams back, or
    `SendFailed` when `SendAsync` itself throws (a transport failure or the client's time-out).
  */
  datatype Reply = Reply(status: int, audio: seq<bv8>) | SendFailed

  /** The `IActionResult` a handler returns; `ServerError` stands for an exception that escapes it. */
  datatype Response =
    | Ok(message: string)                                     // OkObjectResult
    | File(contentType: string, fileName: string, content: seq<bv8>) // FileStreamResult
    | BadRequest(message: string)                             // BadRequestObjectResult
    | Unauthorized(message: string, error: string)            // UnauthorizedObjectResult
    | UnauthorizedEmpty                                       // UnauthorizedResult
    | Forbid                                                  // ForbidResult
    | Status(code: int)                                       // StatusCodeResult
    | ServerError                                             // unhandled exception

  /** The HTTP status each result produces. */
  function StatusOf(r: Response): int
  {
    match r
    case Ok(_) => 200
    case File(_, _, _) => 200
    case BadRequest(_) => 400
    case Unauthorized(_, _) => 401
    case UnauthorizedEmpty => 401
    case Forbid => 403
    case Status(code) => code
    case ServerError => 500
  }

  /** `HttpResponseMessage.IsSuccessStatusCode`. */
  predicate IsSuccessStatusCode(code: int)
  {
    200 <= code <= 299
  }

  /** The speech service answered, with a success status. */
  predicate Succeeded(reply: Reply)
  {
    reply.Reply? && IsSuccessStatusCode(reply.status)
  }

  const INVALID_TOKEN := "Invalid token."
  const INVALID_PARAMETERS := "Invalid request parameters."
  const TRIAL_LIMIT_REACHED := "Trial limit reached."
  const INVALID_PAYLOAD := "Invalid request payload."
  const AUTH_HANDLED := "Authentication handled successfully."
  const AUDIO_MPEG := "audio/mpeg"
  const SPEECH_FILE_NAME := "generated_speech.mp3"

  /** One call a handler makes to a collaborator, in the order it makes them. */
  datatype Step =
    | ValidateToken(token: Option<string>)
    | ReadBody
    | ReadUser(email: string)
    | CallUpstream(model: string, input: string, voice: string)
    | UpsertUser(user: User)
    | CreateUser(user: User)

  /** What a handler call produces: its response, the container's documents afterwards, its calls. */
  datatype Outcome = Outcome(response: Response, items: map<string, User>, steps: seq<Step>)
}
