/**
 * Application response codes (internal/response/code.go) and the error value
 * that services return: a code plus a human-readable message.
 */
module ResponseCode {
  import opened Wrappers

  /** The twelve named codes; in Go `Code` is a string type and these are its constants. */
  datatype Code =
    | Success | ServerError | BadRequest | InvalidRequest | Failed | Pending
    | InvalidInputParam | DuplicateUser | NotFound | Unauthorized | Forbidden | GatewayTimeout

  /** The code string each constant stands for. */
  function AsString(c: Code): (r: string)
    ensures |r| == 6 && r[..2] == "CS"
    ensures FromString(r) == Some(c)
  {
    match c
    case Success => "CS0000"
    case ServerError => "CS0001"
    case BadRequest => "CS0002"
    case InvalidRequest => "CS0004"
    case Failed => "CS0073"
    case Pending => "CS0050"
    case InvalidInputParam => "CS0032"
    case DuplicateUser => "CS0033"
    case NotFound => "CS0034"
    case Unauthorized => "CS0502"
    case Forbidden => "CS0503"
    case GatewayTimeout => "CS0048"
  }

  /** Reads a code string back; the partner of AsString. */
  function FromString(s: string): Option<Code>
  {
    if s == "CS0000" then Some(Success)
    else if s == "CS0001" then Some(ServerError)
    else if s == "CS0002" then Some(BadRequest)
    else if s == "CS0004" then Some(InvalidRequest)
    else if s == "CS0073" then Some(Failed)
    else if s == "CS0050" then Some(Pending)
    else if s == "CS0032" then Some(InvalidInputParam)
    else if s == "CS0033" then Some(DuplicateUser)
    else if s == "CS0034" then Some(NotFound)
    else if s == "CS0502" then Some(Unauthorized)
    else if s == "CS0503" then Some(Forbidden)
    else if s == "CS0048" then Some(GatewayTimeout)
    else None
  }

  /** Distinct codes have distinct strings. */
  lemma AsStringInjective(a: Code, b: Code)
    requires AsString(a) == AsString(b)
    ensures a == b
  {
    assert Some(a) == FromString(AsString(a)) == FromString(AsString(b)) == Some(b);
  }

  function GetStatus(c: Code): (r: string)
    ensures r == "SUCCESS" <==> c == Success
    ensures r == "SUCCESS" || r == "FAILED"
  {
    if c == Success then "SUCCESS" else "FAILED"
  }

  /** The message table; InvalidRequest and Forbidden have no entry. */
  const CodeMessages: map<Code, string> := map[
    Success := "success",
    Failed := "failed",
    Pending := "pending",
    BadRequest := "bad or invalid request",
    Unauthorized := "Unauthorized Token",
    GatewayTimeout := "Gateway Timeout",
    ServerError := "Internal Server Error",
    InvalidInputParam := "Other invalid argument",
    DuplicateUser := "duplicate user",
    NotFound := "Not found"
  ]

  /** A Go map lookup of a missing key yields the zero value, the empty string. */
  function GetMessage(c: Code): (r: string)
    ensures c in CodeMessages ==> r == CodeMessages[c]
    ensures r == "" <==> c == InvalidRequest || c == Forbidden
    ensures c == NotFound ==> r == "Not found"
  {
    assert c in CodeMessages <==> c != InvalidRequest && c != Forbidden by {
      assert CodeMessages.Keys == {Success, Failed, Pending, BadRequest, Unauthorized, GatewayTimeout,
                                   ServerError, InvalidInputParam, DuplicateUser, NotFound};
    }
    if c in CodeMessages then CodeMessages[c] else ""
  }

  /** The same version string for every code. */
  function GetVersion(c: Code): (r: string)
    ensures r == "1"
  {
    "1"
  }

  /** The error a service returns: the code it carries and its message text. */
  datatype Failure = Failure(code: Code, message: string)

  /** What a service method that returns only `error` ends with: nil, or the error. */
  datatype Outcome = Done | Fail(failure: Failure)
}
