/**
 * The REST API's error replies: a JSON payload naming the HTTP status, with
 * an optional human-readable message, returned together with the status.
 */
module ApiErrors {
  import opened Prelude

  /** werkzeug's `HTTP_STATUS_CODES`: the standard reason phrase of each status code. */
  const HttpStatusCodes: map<int, string> := map[
    100 := "Continue", 101 := "Switching Protocols", 102 := "Processing", 103 := "Early Hints",
    200 := "OK", 201 := "Created", 202 := "Accepted", 203 := "Non Authoritative Information",
    204 := "No Content", 205 := "Reset Content", 206 := "Partial Content", 207 := "Multi Status",
    208 := "Already Reported", 226 := "IM Used",
    300 := "Multiple Choices", 301 := "Moved Permanently", 302 := "Found", 303 := "See Other",
    304 := "Not Modified", 305 := "Use Proxy", 306 := "Switch Proxy", 307 := "Temporary Redirect",
    308 := "Permanent Redirect",
    400 := "Bad Request", 401 := "Unauthorized", 402 := "Payment Required", 403 := "Forbidden",
    404 := "Not Found", 405 := "Method Not Allowed", 406 := "Not Acceptable",
    407 := "Proxy Authentication Required", 408 := "Request Timeout", 409 := "Conflict", 410 := "Gone",
    411 := "Length Required", 412 := "Precondition Failed", 413 := "Request Entity Too Large",
    414 := "Request URI Too Long", 415 := "Unsupported Media Type",
    416 := "Requested Range Not Satisfiable", 417 := "Expectation Failed", 418 := "I'm a teapot",
    421 := "Misdirected Request", 422 := "Unprocessable Entity", 423 := "Locked",
    424 := "Failed Dependency", 425 := "Too Early", 426 := "Upgrade Required",
    428 := "Precondition Required", 429 := "Too Many Requests",
    431 := "Request Header Fields Too Large", 449 := "Retry With",
    451 := "Unavailable For Legal Reasons",
    500 := "Internal Server Error", 501 := "Not Implemented", 502 := "Bad Gateway",
    503 := "Service Unavailable", 504 := "Gateway Timeout", 505 := "HTTP Version Not Supported",
    506 := "Variant Also Negotiates", 507 := "Insufficient Storage", 508 := "Loop Detected",
    510 := "Not Extended", 511 := "Network Authentication Failed"
  ]

  /** `HTTP_STATUS_CODES.get(status_code, 'Unknown error')`. */
  function StatusName(code: int): (name: string)
    ensures code in HttpStatusCodes ==> name == HttpStatusCodes[code]
    ensures code !in HttpStatusCodes ==> name == "Unknown error"
  {
    if code in HttpStatusCodes then HttpStatusCodes[code] else "Unknown error"
  }

  /** The `(payload, status_code)` pair a view returns. */
  datatype ErrorReply = ErrorReply(payload: map<string, string>, status: int)

  /**
   * `error_response(status_code, message)`: the payload always names the
   * status, carries `message` exactly when it is truthy, and holds nothing
   * else; the status is returned unchanged.
   */
  function ErrorResponse(status: int, message: Option<string>): (r: ErrorReply)
    ensures r.status == status
    ensures "error" in r.payload && r.payload["error"] == StatusName(status)
    ensures "message" in r.payload <==> Truthy(message)
    ensures "message" in r.payload ==> r.payload["message"] == message.value
    ensures r.payload.Keys <= {"error", "message"}
  {
    var payload := map["error" := StatusName(status)];
    if Truthy(message) then ErrorReply(payload["message" := message.value], status)
    else ErrorReply(payload, status)
  }

  /** `bad_request(message)`: a 400 reply named "Bad Request" that carries any non-empty message. */
  function BadRequest(message: string): (r: ErrorReply)
    ensures r == ErrorResponse(400, Some(message))
    ensures r.status == 400 && r.payload["error"] == "Bad Request"
    ensures "message" in r.payload <==> message != ""
  {
    ErrorResponse(400, Some(message))
  }

  /** `handle_exception(e)`: the exception's code and its name, with no message. */
  function HandleException(code: int): (r: ErrorReply)
    ensures r == ErrorResponse(code, None)
    ensures r.status == code && r.payload == map["error" := StatusName(code)]
  {
    ErrorResponse(code, None)
  }

  /** The two aborts the users API raises, as the handler renders them. */
  lemma AbortReplies()
    ensures HandleException(403) == ErrorReply(map["error" := "Forbidden"], 403)
    ensures HandleException(404) == ErrorReply(map["error" := "Not Found"], 404)
  {
  }
}
