/** The closed set of errors the dictionary client can raise, and the
    user-facing text of each one. */
module NetworkErrors {
  import opened Wrappers
  import Text

  /** Eight cases; only ServerError carries data (an HTTP status or a URL
      error code). */
  datatype NetworkError =
    | InvalidURL
    | NoInternetConnection
    | NotFound
    | ServerError(code: int)
    | DecodingError
    | NoData
    | RateLimitExceeded
    | Timeout

  const ServerErrorPrefix: string := "Server error occurred (Error "
  const ServerErrorSuffix: string := "). Please try again later"

  /** `errorDescription`: an optional string in the source, present for every case. */
  function ErrorDescription(e: NetworkError): (r: Option<string>)
    ensures r.Some?
  {
    match e
    case InvalidURL => Some("Invalid URL format")
    case NoInternetConnection => Some("No internet connection. " + "Please check your connection and try again")
    case NotFound => Some("Word not found in dictionary")
    case ServerError(code) => Some(ServerErrorPrefix + Text.IntToString(code) + ServerErrorSuffix)
    case DecodingError => Some("Error processing server response")
    case NoData => Some("No definition found")
    case RateLimitExceeded => Some("Too many requests. " + "Please try again in a moment")
    case Timeout => Some("Request timed out. Please try again")
  }

  /** `error.localizedDescription`, which for a LocalizedError is its
      errorDescription whenever that is present (here: always). This is the
      text the search screen shows. */
  function LocalizedDescription(e: NetworkError): (r: string)
    ensures ErrorDescription(e) == Some(r)
  {
    ErrorDescription(e).value
  }

  predicate StartsWith(s: string, prefix: string) {
    |prefix| <= |s| && s[..|prefix|] == prefix
  }

  /** The message of a server error starts with the server-error prefix and the
      code can be read back from it. */
  lemma ServerErrorMessageCarriesCode(code: int)
    ensures var m := LocalizedDescription(ServerError(code));
      StartsWith(m, "Server error occurred") &&
      |ServerErrorPrefix| + |ServerErrorSuffix| < |m| &&
      Text.IsIntLiteral(m[|ServerErrorPrefix|..|m| - |ServerErrorSuffix|]) &&
      Text.ParseInt(m[|ServerErrorPrefix|..|m| - |ServerErrorSuffix|]) == code
  {
    var m := LocalizedDescription(ServerError(code));
    var digits := Text.IntToString(code);
    assert m == ServerErrorPrefix + digits + ServerErrorSuffix;
    assert m[..|"Server error occurred"|] == "Server error occurred";
    assert m[|ServerErrorPrefix|..|m| - |ServerErrorSuffix|] == digits;
    Text.IntToStringRoundTrip(code);
  }

  /** None of the seven data-free messages looks like a server-error message. */
  lemma FixedMessagesAreNotServerErrors(e: NetworkError)
    requires !e.ServerError?
    ensures !StartsWith(LocalizedDescription(e), "Server error occurred")
  {
    var m := LocalizedDescription(e);
    assert m[0] != 'S' by {
      match e
      case InvalidURL => assert m == "Invalid URL format"; assert "Invalid URL format"[0] == 'I';
      case NoInternetConnection => assert m[0] == "No internet connection. "[0] == 'N';
      case NotFound => assert m == "Word not found in dictionary"; assert "Word not found in dictionary"[0] == 'W';
      case DecodingError => assert m == "Error processing server response"; assert "Error processing server response"[0] == 'E';
      case NoData => assert m == "No definition found"; assert "No definition found"[0] == 'N';
      case RateLimitExceeded => assert m[0] == "Too many requests. "[0] == 'T';
      case Timeout => assert m == "Request timed out. Please try again"; assert "Request timed out. Please try again"[0] == 'R';
    }
  }

  /** Different errors are shown with different messages: the message alone
      tells which error occurred, including the server-error code. */
  lemma DescriptionInjective(e1: NetworkError, e2: NetworkError)
    requires LocalizedDescription(e1) == LocalizedDescription(e2)
    ensures e1 == e2
  {
    var m := LocalizedDescription(e1);
    if e1.ServerError? && e2.ServerError? {
      ServerErrorMessageCarriesCode(e1.code);
      ServerErrorMessageCarriesCode(e2.code);
    } else if e1.ServerError? {
      ServerErrorMessageCarriesCode(e1.code);
      FixedMessagesAreNotServerErrors(e2);
    } else if e2.ServerError? {
      ServerErrorMessageCarriesCode(e2.code);
      FixedMessagesAreNotServerErrors(e1);
    } else if e1 != e2 {
      FixedMessagesDistinct(e1, e2);
    }
  }

  /** The seven data-free messages are pairwise distinct. */
  lemma FixedMessagesDistinct(e1: NetworkError, e2: NetworkError)
    requires !e1.ServerError? && !e2.ServerError? && e1 != e2
    ensures LocalizedDescription(e1) != LocalizedDescription(e2)
  {
  }
}
