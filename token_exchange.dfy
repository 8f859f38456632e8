/**
  `getAccessToken`: the guard on the code verifier and the form-encoded POST to
  the token endpoint. The network is a parameter: the reply the endpoint gives
  to a form body.
 */
module TokenExchange {
  import opened Wrappers
  import opened Params
  import Pkce

  const TokenEndpoint: string := "https://accounts.spotify.com/api/token"

  /** A JSON object the provider returns, with its string-valued members. */
  type Payload = map<string, string>

  /**
    A response: `response.ok` and the outcome of `response.json()`, which is
    `None` when the body is not a JSON object.
   */
  datatype Reply = Reply(ok: bool, body: Option<Payload>)

  /** The token endpoint: the reply to a POST of this form body, `None` when `fetch` rejects. */
  type Endpoint = Params -> Option<Reply>

  /**
    One call of `getAccessToken`: the form body it posted, if any, and what its
    promise settles to (`None`: it rejects).
   */
  datatype Exchange = Exchange(sent: Option<Params>, result: Option<Payload>)

  const NoVerifierPayload: Payload := map["error" := "No code verifier found"]

  /** `data.access_token` is truthy. */
  predicate HasAccessToken(data: Payload) {
    "access_token" in data && data["access_token"] != ""
  }

  /** The five form fields of the token request, in the source's order. */
  function TokenForm(code: string, verifier: string): (ps: Params)
    ensures Names(ps) == ["client_id", "grant_type", "code", "redirect_uri", "code_verifier"]
    ensures Get(ps, "client_id") == Some(Pkce.ClientId)
    ensures Get(ps, "grant_type") == Some("authorization_code")
    ensures Get(ps, "code") == Some(code)
    ensures Get(ps, "redirect_uri") == Some(Pkce.RedirectUri)
    ensures Get(ps, "code_verifier") == Some(verifier)
  {
    var ps := [("client_id", Pkce.ClientId), ("grant_type", "authorization_code"), ("code", code),
               ("redirect_uri", Pkce.RedirectUri), ("code_verifier", verifier)];
    GetAt(ps, 2);
    GetAt(ps, 3);
    GetAt(ps, 4);
    ps
  }

  /**
    `getAccessToken(code, codeVerifier)`: with a falsy verifier (undefined or
    empty) nothing is posted and the result is the local error object;
    otherwise the five fields are posted and the provider's payload is the
    result whatever the status was.
   */
  function GetAccessToken(code: string, codeVerifier: Option<string>, post: Endpoint): (x: Exchange)
    ensures x.sent.None? <==> !Truthy(codeVerifier)
    ensures !Truthy(codeVerifier) ==> x.result == Some(NoVerifierPayload)
    ensures x.sent.Some? ==> x.sent.value == TokenForm(code, codeVerifier.value)
    ensures x.sent.Some? ==> x.result == match post(x.sent.value) case None => None case Some(reply) => reply.body
  {
    if !Truthy(codeVerifier) then Exchange(None, Some(NoVerifierPayload))
    else
      var form := TokenForm(code, codeVerifier.value);
      match post(form)
      case None => Exchange(Some(form), None)
      case Some(reply) => Exchange(Some(form), reply.body)
  }

  /** The status code plays no part: two endpoints that differ only in `ok` give the same exchange. */
  lemma ExchangeIgnoresStatus(code: string, codeVerifier: Option<string>, p1: Endpoint, p2: Endpoint)
    requires forall form :: p1(form).Some? == p2(form).Some?
    requires forall form :: p1(form).Some? ==> p1(form).value.body == p2(form).value.body
    ensures GetAccessToken(code, codeVerifier, p1) == GetAccessToken(code, codeVerifier, p2)
  {
  }

  /** The guard's error object carries no access token, and a posted verifier is never empty. */
  lemma GuardNeverYieldsToken(code: string, codeVerifier: Option<string>, post: Endpoint)
    ensures !Truthy(codeVerifier) ==> !HasAccessToken(GetAccessToken(code, codeVerifier, post).result.value)
    ensures var x := GetAccessToken(code, codeVerifier, post);
      x.sent.Some? ==> Truthy(Get(x.sent.value, "code_verifier"))
  {
  }
}
