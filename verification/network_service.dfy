/** The dictionary client: builds the request for a word and classifies what
    comes back (an HTTP response, a non-HTTP response or a transport error)
    into an entry or a NetworkError. The HTTP exchange itself is an input. */
module NetworkService {
  import opened Wrappers
  import opened WordDefinitions
  import opened NetworkErrors
  import Text

  const BaseURL: string := "https://api.dictionaryapi.dev/api/v2/entries/en/"

  /** Raw values of the URLError codes the client tells apart. */
  const NotConnectedToInternet: int := -1009
  const NetworkConnectionLost: int := -1005
  const TimedOut: int := -1001

  /** What the HTTP exchange produced. `decoded` is the JSON body decoded as an
      array of entries, or None when decoding fails. */
  datatype Response =
    | Http(statusCode: int, decoded: Option<seq<WordDefinitionResponse>>)
    | NonHttp
    | Transport(code: int)

  /** What the body of the outer `do` block can throw: a NetworkError it raised
      itself, a URLError from the transport, or the decoder's own error. */
  datatype Thrown =
    | Raised(error: NetworkError)
    | UrlFailure(code: int)
    | DecoderFailure

  /** The request target for a word: the base URL followed by the lower-cased word. */
  function RequestURL(word: string): (r: string)
    ensures |r| == |BaseURL| + |word| && r[..|BaseURL|] == BaseURL
    ensures forall i :: 0 <= i < |word| ==> r[|BaseURL| + i] == Text.LowerChar(word[i])
  {
    BaseURL + Text.Lower(word)
  }

  /** Two words give the same request exactly when they differ only in case. */
  lemma RequestURLIgnoresCase(w1: string, w2: string)
    ensures RequestURL(w1) == RequestURL(w2) <==> Text.EqualIgnoringCase(w1, w2)
  {
    Text.LowerEqualIff(w1, w2);
    if RequestURL(w1) == RequestURL(w2) {
      assert Text.Lower(w1) == RequestURL(w1)[|BaseURL|..];
      assert Text.Lower(w2) == RequestURL(w2)[|BaseURL|..];
    }
  }

  /** The inner `do` block of the 2xx branch: decode the array and take its
      first element, raising NoData when it is empty. */
  function FirstDefinition(decoded: Option<seq<WordDefinitionResponse>>): (r: Result<WordDefinitionResponse, Thrown>)
    ensures r.Success? <==> decoded.Some? && |decoded.value| > 0
    ensures r.Success? ==> r.value == decoded.value[0]
    ensures r.Failure? ==> r.error == (if decoded.None? then DecoderFailure else Raised(NoData))
  {
    match decoded
    case None => Failure(DecoderFailure)
    case Some(list) => if |list| == 0 then Failure(Raised(NoData)) else Success(list[0])
  }

  /** The outer `do` block: the transport call, the HTTP check and the status
      switch. Whatever the inner 2xx block throws is replaced by DecodingError. */
  function Attempt(response: Response): (r: Result<WordDefinitionResponse, Thrown>)
    ensures r.Failure? && r.error.UrlFailure? ==> response == Transport(r.error.code)
    ensures r.Failure? ==> !r.error.DecoderFailure? && r.error != Raised(NoData)
  {
    match response
    case Transport(code) => Failure(UrlFailure(code))
    case NonHttp => Failure(Raised(ServerError(0)))
    case Http(status, decoded) =>
      if 200 <= status <= 299 then
        match FirstDefinition(decoded)
        case Success(first) => Success(first)
        case Failure(_) => Failure(Raised(DecodingError))
      else if status == 404 then Failure(Raised(NotFound))
      else if status == 429 then Failure(Raised(RateLimitExceeded))
      else if 500 <= status <= 599 then Failure(Raised(ServerError(status)))
      else Failure(Raised(ServerError(status)))
  }

  /** The `catch` clauses: a URLError is classified by its code, any other
      error is rethrown as it is. */
  function TransportError(code: int): (e: NetworkError)
    ensures e.NoInternetConnection? <==> code == NotConnectedToInternet || code == NetworkConnectionLost
    ensures e.Timeout? <==> code == TimedOut
    ensures !e.NoInternetConnection? && !e.Timeout? ==> e == ServerError(code)
  {
    if code == NotConnectedToInternet || code == NetworkConnectionLost then NoInternetConnection
    else if code == TimedOut then Timeout
    else ServerError(code)
  }

  /** Everything `fetchWordDefinition` does once the URL has been built. */
  function Classify(response: Response): (r: Result<WordDefinitionResponse, NetworkError>)
    ensures r.Success? <==>
      response.Http? && 200 <= response.statusCode <= 299 &&
      response.decoded.Some? && |response.decoded.value| > 0
    ensures r.Success? ==> r.value == response.decoded.value[0]
    ensures r.Failure? ==> r.error != NoData && r.error != InvalidURL
    ensures response.NonHttp? ==> r == Failure(ServerError(0))
    ensures response.Http? ==>
      var status := response.statusCode;
      (200 <= status <= 299 && r.Failure? ==> r.error == DecodingError) &&
      (status == 404 ==> r == Failure(NotFound)) &&
      (status == 429 ==> r == Failure(RateLimitExceeded)) &&
      (!(200 <= status <= 299) && status != 404 && status != 429 ==> r == Failure(ServerError(status)))
    ensures response.Transport? ==> r == Failure(TransportError(response.code))
  {
    match Attempt(response)
    case Success(entry) => Success(entry)
    case Failure(UrlFailure(code)) => Failure(TransportError(code))
    case Failure(Raised(e)) => Failure(e)
  }

  /** A NetworkError raised by the status switch reaches the caller unchanged:
      the URLError handler never reclassifies it. */
  lemma RaisedErrorsPassThrough(response: Response, e: NetworkError)
    requires Attempt(response) == Failure(Raised(e))
    ensures Classify(response) == Failure(e)
    ensures !response.Transport?
  {
  }

  /** An empty 2xx array is decoded by the inner block into NoData, but the
      caller sees DecodingError. */
  lemma EmptyArrayIsDecodingError(status: int)
    requires 200 <= status <= 299
    ensures FirstDefinition(Some([])) == Failure(Raised(NoData))
    ensures Classify(Http(status, Some([]))) == Failure(DecodingError)
  {
  }

  /** `fetchWordDefinition(word:)`. `buildable` says which strings `URL(string:)`
      accepts and `server` answers a request for a URL. */
  function FetchWordDefinition(word: string, buildable: string -> bool, server: string -> Response)
    : (r: Result<WordDefinitionResponse, NetworkError>)
    ensures !buildable(RequestURL(word)) <==> r == Failure(InvalidURL)
    ensures buildable(RequestURL(word)) ==> r == Classify(server(RequestURL(word)))
  {
    var url := RequestURL(word);
    if !buildable(url) then Failure(InvalidURL) else Classify(server(url))
  }

  /** When the URL cannot be built the result is InvalidURL whatever the
      server would have answered: no request is made. */
  lemma UnbuildableURLMakesNoRequest(word: string, buildable: string -> bool, s1: string -> Response, s2: string -> Response)
    requires !buildable(RequestURL(word))
    ensures FetchWordDefinition(word, buildable, s1) == FetchWordDefinition(word, buildable, s2) == Failure(InvalidURL)
  {
  }

  /** Words that differ only in case are looked up identically. */
  lemma FetchIgnoresCase(w1: string, w2: string, buildable: string -> bool, server: string -> Response)
    requires Text.EqualIgnoringCase(w1, w2)
    ensures FetchWordDefinition(w1, buildable, server) == FetchWordDefinition(w2, buildable, server)
  {
    RequestURLIgnoresCase(w1, w2);
  }
}
