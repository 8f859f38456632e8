/**
  The `useEffect` callback that runs when the page loads: it reads `code` and
  `state` from the query, recovers the verifier from the state, exchanges the
  code, and on an access token starts the data fetch and cleans the URL.
 */
module Callback {
  import opened Wrappers
  import opened Params
  import opened Pkce
  import opened TokenExchange

  /**
    The effects the callback has: the `loading` flag, whether `getAccessToken`
    was called, the token requests posted, whether `history.replaceState`
    removed the query, and the tokens `fetchSpotifyData` was called with.
   */
  datatype Snapshot = Snapshot(
    loading: bool,
    exchangeCalled: bool,
    tokenRequests: seq<Params>,
    urlCleaned: bool,
    fetchCalls: seq<string>)

  const Initial: Snapshot := Snapshot(false, false, [], false, [])

  /** The effect of the callback on a page whose query is `query`. */
  function OnRedirect(before: Snapshot, query: Params, post: Endpoint): (after: Snapshot)
  {
    var code := Get(query, "code");
    var state := Get(query, "state");
    if !(Truthy(code) && Truthy(state)) then before
    else
      match DecodeState(state.value)
      case Err(_) => before.(loading := false)
      case Ok(codeVerifier) =>
        var x := GetAccessToken(code.value, codeVerifier, post);
        var exchanging := before.(loading := true, exchangeCalled := true,
                                  tokenRequests := before.tokenRequests + if x.sent.Some? then [x.sent.value] else []);
        Settled(exchanging, x.result)
  }

  /**
    What the `.then` and `.catch` handlers do when the exchange settles: with an
    access token the data fetch starts and the URL is cleaned; with no token,
    or on a rejection, loading ends.
   */
  function Settled(s: Snapshot, result: Option<Payload>): (after: Snapshot)
  {
    match result
    case None => s.(loading := false)
    case Some(data) =>
      if HasAccessToken(data) then s.(fetchCalls := s.fetchCalls + [data["access_token"]], urlCleaned := true)
      else s.(loading := false)
  }

  /** The page's state, with the callback as a method that updates it in the source's order. */
  class Page {
    var loading: bool
    var exchangeCalled: bool
    var tokenRequests: seq<Params>
    var urlCleaned: bool
    var fetchCalls: seq<string>

    function Snap(): Snapshot
      reads this
    {
      Snapshot(loading, exchangeCalled, tokenRequests, urlCleaned, fetchCalls)
    }

    constructor ()
      ensures Snap() == Initial
    {
      loading := false;
      exchangeCalled := false;
      tokenRequests := [];
      urlCleaned := false;
      fetchCalls := [];
    }

    method HandleRedirect(query: Params, post: Endpoint)
      modifies this
      ensures Snap() == OnRedirect(old(Snap()), query, post)
    {
      var code := Get(query, "code");
      var state := Get(query, "state");
      if Truthy(code) && Truthy(state) {
        var decoded := DecodeState(state.value);
        match decoded {
          case Err(_) =>
            loading := false;
          case Ok(codeVerifier) =>
            loading := true;
            exchangeCalled := true;
            var x := GetAccessToken(code.value, codeVerifier, post);
            if x.sent.Some? {
              tokenRequests := tokenRequests + [x.sent.value];
            }
            HandleSettled(x.result);
        }
      }
    }

    method HandleSettled(result: Option<Payload>)
      modifies this
      ensures Snap() == Settled(old(Snap()), result)
    {
      match result {
        case None =>
          loading := false;
        case Some(data) =>
          if HasAccessToken(data) {
            fetchCalls := fetchCalls + [data["access_token"]];
            urlCleaned := true;
          } else {
            loading := false;
          }
      }
    }
  }

  /** Without both a non-empty `code` and a non-empty `state` nothing happens. */
  lemma NoCodeOrStateIsNoOp(before: Snapshot, query: Params, post: Endpoint)
    requires !Truthy(Get(query, "code")) || !Truthy(Get(query, "state"))
    ensures OnRedirect(before, query, post) == before
  {
  }

  /** A state that does not decode ends loading and exchanges nothing. */
  lemma UndecodableStateStops(before: Snapshot, query: Params, post: Endpoint)
    requires Truthy(Get(query, "code")) && Truthy(Get(query, "state"))
    requires DecodeState(Get(query, "state").value).Err?
    ensures OnRedirect(before, query, post) == before.(loading := false)
  {
  }

  /**
    A state that decodes but carries no usable verifier reaches the guard:
    `getAccessToken` is called, nothing is posted, loading ends, the URL stays.
   */
  lemma MissingVerifierStops(before: Snapshot, query: Params, post: Endpoint)
    requires Truthy(Get(query, "code")) && Truthy(Get(query, "state"))
    requires DecodeState(Get(query, "state").value).Ok?
    requires !Truthy(DecodeState(Get(query, "state").value).value)
    ensures OnRedirect(before, query, post) == before.(loading := false, exchangeCalled := true)
  {
  }

  /**
    The provider returns an access token to the exchange this query starts:
    both parameters are present, the state decodes to a non-empty verifier,
    and the endpoint answers that request with a payload holding a token.
   */
  predicate TokenReceived(query: Params, post: Endpoint)
  {
    && Truthy(Get(query, "code")) && Truthy(Get(query, "state"))
    && var decoded := DecodeState(Get(query, "state").value);
    && decoded.Ok? && Truthy(decoded.value)
    && var reply := post(TokenForm(Get(query, "code").value, decoded.value.value));
    && reply.Some? && reply.value.body.Some? && HasAccessToken(reply.value.body.value)
  }

  /** The access token of that reply. */
  function ReceivedToken(query: Params, post: Endpoint): string
    requires TokenReceived(query, post)
  {
    var verifier := DecodeState(Get(query, "state").value).value.value;
    post(TokenForm(Get(query, "code").value, verifier)).value.body.value["access_token"]
  }

  /**
    The URL is cleaned, the data fetch is started and loading stays on exactly
    when an access token was received; otherwise loading is reset (or left
    alone when nothing happened) and the URL is left as it was.
   */
  lemma CleanedExactlyOnToken(before: Snapshot, query: Params, post: Endpoint)
    ensures var after := OnRedirect(before, query, post);
      && after.urlCleaned == (before.urlCleaned || TokenReceived(query, post))
      && (TokenReceived(query, post) <==> |after.fetchCalls| == |before.fetchCalls| + 1)
      && (TokenReceived(query, post) ==> after.fetchCalls == before.fetchCalls + [ReceivedToken(query, post)])
      && (!TokenReceived(query, post) ==> after.fetchCalls == before.fetchCalls)
      && (TokenReceived(query, post) ==> after.loading)
      && (!TokenReceived(query, post) && Truthy(Get(query, "code")) && Truthy(Get(query, "state"))
          ==> !after.loading)
  {
    var code := Get(query, "code");
    var state := Get(query, "state");
    if Truthy(code) && Truthy(state) {
      var decoded := DecodeState(state.value);
      if decoded.Ok? {
        GuardNeverYieldsToken(code.value, decoded.value, post);
      }
    }
  }

  /**
    The callback for a query carrying a non-empty code and a state that decodes
    to a non-empty verifier posts that verifier with the code; a reply payload
    holding an access token, whatever else it holds, starts the data fetch with
    that token and cleans the URL.
   */
  lemma CallbackExchangesVerifier(code: string, state: string, verifier: string, post: Endpoint)
    requires code != "" && verifier != ""
    requires DecodeState(state) == Ok(Some(verifier))
    ensures var after := OnRedirect(Initial, [("code", code), ("state", state)], post);
      && after.exchangeCalled
      && after.tokenRequests == [TokenForm(code, verifier)]
      && (forall ok, data :: HasAccessToken(data) && post(TokenForm(code, verifier)) == Some(Reply(ok, Some(data)))
            ==> after.fetchCalls == [data["access_token"]] && after.urlCleaned && after.loading)
  {
    var form := TokenForm(code, verifier);
    var x := GetAccessToken(code, Some(verifier), post);
    var exchanging := Initial.(loading := true, exchangeCalled := true, tokenRequests := [form]);
    CallbackReachesExchange(code, state, verifier, post);
    forall ok, data | HasAccessToken(data) && post(form) == Some(Reply(ok, Some(data)))
      ensures Settled(exchanging, x.result).fetchCalls == [data["access_token"]]
    {
      TokenSettles(exchanging, x.result, data);
    }
  }

  /** Settling on a payload that holds a token records one fetch with that token and cleans the URL. */
  lemma TokenSettles(s: Snapshot, result: Option<Payload>, data: Payload)
    requires result == Some(data) && HasAccessToken(data)
    ensures Settled(s, result) == s.(fetchCalls := s.fetchCalls + [data["access_token"]], urlCleaned := true)
  {
  }

  /** The steps up to the exchange: past the checks, the state decoded, one request posted. */
  lemma CallbackReachesExchange(code: string, state: string, verifier: string, post: Endpoint)
    requires code != "" && verifier != ""
    requires DecodeState(state) == Ok(Some(verifier))
    ensures OnRedirect(Initial, [("code", code), ("state", state)], post)
         == Settled(Initial.(loading := true, exchangeCalled := true, tokenRequests := [TokenForm(code, verifier)]),
                    GetAccessToken(code, Some(verifier), post).result)
  {
    var query := [("code", code), ("state", state)];
    GetAt(query, 1);
    assert Get(query, "code") == Some(code);
    assert state != "" by {
      DecodeEmptyState();
    }
    DecodedStateExchanges(Initial, query, verifier, post);
  }

  /** With both parameters present and the state decoding to a verifier, the callback posts one request and settles on its reply. */
  lemma DecodedStateExchanges(before: Snapshot, query: Params, verifier: string, post: Endpoint)
    requires Truthy(Get(query, "code")) && Truthy(Get(query, "state")) && verifier != ""
    requires DecodeState(Get(query, "state").value) == Ok(Some(verifier))
    ensures var code := Get(query, "code").value;
      OnRedirect(before, query, post)
      == Settled(before.(loading := true, exchangeCalled := true,
                         tokenRequests := before.tokenRequests + [TokenForm(code, verifier)]),
                 GetAccessToken(code, Some(verifier), post).result)
  {
    var code := Get(query, "code").value;
    assert GetAccessToken(code, Some(verifier), post).sent == Some(TokenForm(code, verifier));
  }

  /**
    The whole flow: the callback for the redirect that `BeginLogin` set up, with
    any non-empty code, posts exactly one token request, and its
    `code_verifier` is the verifier whose challenge the authorization request
    carried. When the endpoint answers with a payload holding a token, the data
    fetch runs with that token and the URL is cleaned.
   */
  lemma LoginThenCallback(draws: Draws, sha256: seq<Base64.Byte> -> Digest, code: string, post: Endpoint)
    requires code != ""
    ensures var login := BeginLogin(draws, sha256);
      var query := [("code", code), ("state", Get(login.request.query, "state").value)];
      var after := OnRedirect(Initial, query, post);
      && after.exchangeCalled
      && after.tokenRequests == [TokenForm(code, login.verifier)]
      && Get(login.request.query, "code_challenge")
         == Some(CodeChallenge(Get(after.tokenRequests[0], "code_verifier").value, sha256))
      && (forall ok, data :: HasAccessToken(data) && post(TokenForm(code, login.verifier)) == Some(Reply(ok, Some(data)))
            ==> after.fetchCalls == [data["access_token"]] && after.urlCleaned && after.loading)
  {
    var login := BeginLogin(draws, sha256);
    assert |login.verifier| == VerifierLength;
    CallbackExchangesVerifier(code, Get(login.request.query, "state").value, login.verifier, post);
  }
}
