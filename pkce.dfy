/**
  The PKCE half of the login (RFC 7636): the random code verifier, its S256
  challenge, the flow state carried through the redirect in the `state`
  parameter, and the authorization request that `handleLogin` navigates to.
 */
module Pkce {
  import opened Wrappers
  import opened Chars
  import opened Base64
  import opened Json
  import opened Params

  const ClientId: string := "983e8c61011a4ea0a7036be122845985"
  const RedirectUri: string := "https://whats-my-neighborhood.vercel.app/"
  const Scopes: string := "user-top-read user-read-private"
  const AuthorizeEndpoint: string := "https://accounts.spotify.com/authorize"
  const VerifierLength: nat := 64
  const NonceLength: nat := 16

  type AlphabetIndex = i: int | 0 <= i < 62

  /**
    The random source: `Draws(k)` is the value of
    `Math.floor(Math.random() * possible.length)` at its k-th evaluation.
   */
  type Draws = nat -> AlphabetIndex

  /** `generateRandomString(length)`: character i is the one the i-th draw picks. */
  function RandomString(length: nat, draws: Draws): (s: string)
    ensures |s| == length && IsAlnumString(s)
    ensures forall i :: 0 <= i < length ==> AlnumIndex(s[i]) == draws(i)
  {
    var s := seq(length, i requires 0 <= i < length => AlnumChar(draws(i)));
    assert forall i :: 0 <= i < length ==> s[i] == AlnumChar(draws(i)) && IsAlnum(s[i]);
    s
  }

  /** The draws after the first `n`: what a second call of `generateRandomString` consumes. */
  function After(draws: Draws, n: nat): Draws
  {
    (k: nat) => draws(n + k)
  }

  /** Every alphanumeric string of the right length is the outcome of some draws. */
  lemma RandomStringCovers(t: string)
    requires IsAlnumString(t)
    ensures exists draws: Draws :: RandomString(|t|, draws) == t
  {
    var draws: Draws := (k: nat) => if k < |t| then AlnumIndex(t[k]) else 0;
    var s := RandomString(|t|, draws);
    forall i | 0 <= i < |t| ensures s[i] == t[i] {
      AlnumIndexChar(t[i]);
    }
    assert s == t;
  }

  /** Different draws give different strings: no two indices share a character. */
  lemma RandomStringInjective(length: nat, d1: Draws, d2: Draws)
    requires RandomString(length, d1) == RandomString(length, d2)
    ensures forall i :: 0 <= i < length ==> d1(i) == d2(i)
  {
  }

  /** A 64-character verifier meets section 4.1 of RFC 7636: 43 to 128 unreserved characters. */
  lemma VerifierIsWellFormed(draws: Draws)
    ensures var v := RandomString(VerifierLength, draws);
      43 <= |v| <= 128 && forall i :: 0 <= i < |v| ==> IsUnreserved(v[i])
  {
  }

  /** `TextEncoder.encode` of one Unicode scalar value. */
  function Utf8Char(c: char): (b: seq<Byte>)
    ensures 1 <= |b| <= 4
    ensures c as int < 0x80 <==> |b| == 1
    ensures c as int < 0x80 ==> b == [c as int]
  {
    var n := c as int;
    if n < 0x80 then [n]
    else if n < 0x800 then [0xC0 + n / 64, 0x80 + n % 64]
    else if n < 0x10000 then [0xE0 + n / 4096, 0x80 + (n / 64) % 64, 0x80 + n % 64]
    else [0xF0 + n / 262144, 0x80 + (n / 4096) % 64, 0x80 + (n / 64) % 64, 0x80 + n % 64]
  }

  /** `new TextEncoder().encode(s)`. */
  function Utf8(s: string): (b: seq<Byte>)
    ensures |s| <= |b| <= 4 * |s|
  {
    if |s| == 0 then [] else Utf8Char(s[0]) + Utf8(s[1..])
  }

  /** An ASCII string encodes to its own character codes, one byte each. */
  lemma {:induction false} Utf8Ascii(s: string)
    requires IsAscii(s)
    ensures Utf8(s) == StringBytes(s)
  {
    if |s| > 0 {
      Utf8Ascii(s[1..]);
      assert StringBytes(s) == [s[0] as int] + StringBytes(s[1..]);
    }
  }

  /** A SHA-256 digest. */
  type Digest = d: seq<Byte> | |d| == 32
    witness [0, 0, 0, 0, 0, 0, 0, 0, 0, 0, 0, 0, 0, 0, 0, 0, 0, 0, 0, 0, 0, 0, 0, 0, 0, 0, 0, 0, 0, 0, 0, 0]

  /**
    `base64urlencode(await sha256(verifier))`: the S256 `code_challenge` of
    section 4.2 of RFC 7636. It is 43 URL-safe characters and decodes back to
    the digest of the verifier's UTF-8 bytes.
   */
  function CodeChallenge(verifier: string, sha256: seq<Byte> -> Digest): (c: string)
    ensures |c| == 43
    ensures forall i :: 0 <= i < |c| ==> IsUnreserved(c[i])
    ensures Base64UrlDecode(c) == Some(sha256(Utf8(verifier)))
  {
    var digest := sha256(Utf8(verifier));
    Base64UrlRoundTrip(digest);
    Base64UrlEncode(digest)
  }

  /** Two verifiers with the same challenge have the same digest. */
  lemma ChallengeDeterminesDigest(v1: string, v2: string, sha256: seq<Byte> -> Digest)
    requires CodeChallenge(v1, sha256) == CodeChallenge(v2, sha256)
    ensures sha256(Utf8(v1)) == sha256(Utf8(v2))
  {
  }

  datatype DecodeError = InvalidBase64 | InvalidJson

  /**
    `btoa(JSON.stringify({ verifier, random }))`; `None` when `btoa` throws,
    which it does exactly when a field holds a character above U+00FF.
   */
  function EncodeState(verifier: string, random: string): (r: Option<string>)
    ensures r.Some? <==> IsBinaryString(verifier) && IsBinaryString(random)
  {
    var text := StringifyState(verifier, random);
    StateTextBinary(verifier, random);
    Btoa(text)
  }

  /**
    `JSON.parse(atob(state)).verifier`: `Ok(None)` when the object has no
    `verifier` member (the value `undefined`), an error when `atob` or
    `JSON.parse` throws.
   */
  function DecodeState(state: string): (r: Result<Option<string>, DecodeError>)
    ensures r == Err(InvalidBase64) <==> Atob(state).None?
    ensures r.Ok? <==> Atob(state).Some? && ParseObject(Atob(state).value).Some?
  {
    match Atob(state)
    case None => Err(InvalidBase64)
    case Some(text) =>
      match ParseObject(text)
      case None => Err(InvalidJson)
      case Some(members) => Ok(Property(members, "verifier"))
  }

  lemma {:induction false} EscapeBodyKeeps(s: string, i: nat)
    requires i < |s| && s[i] as int >= 0x20 && s[i] != '"' && s[i] != '\\'
    ensures s[i] in EscapeBody(s)
    decreases i
  {
    if i == 0 {
      assert EscapeBody(s) == [s[0]] + EscapeBody(s[1..]);
    } else {
      EscapeBodyKeeps(s[1..], i - 1);
      assert EscapeBody(s) == EscapeChar(s[0]) + EscapeBody(s[1..]);
    }
  }

  lemma BinaryConcat(a: string, b: string)
    ensures IsBinaryString(a + b) <==> IsBinaryString(a) && IsBinaryString(b)
  {
    if IsBinaryString(a + b) {
      forall i | 0 <= i < |a| ensures a[i] as int < 256 {
        assert (a + b)[i] == a[i];
      }
      forall i | 0 <= i < |b| ensures b[i] as int < 256 {
        assert (a + b)[|a| + i] == b[i];
      }
    }
  }

  lemma QuoteBinary(s: string)
    ensures IsBinaryString(Quote(s)) <==> IsBinaryString(s)
  {
    BinaryConcat("\"" + EscapeBody(s), "\"");
    BinaryConcat("\"", EscapeBody(s));
    if IsBinaryString(s) {
      EscapeBodyBelow(s, 256);
    } else {
      var i :| 0 <= i < |s| && s[i] as int >= 256;
      EscapeBodyKeeps(s, i);
    }
  }

  lemma BinaryTwoField(a: string, b: string, c: string, d: string)
    ensures IsBinaryString("{" + (a + ":" + b) + ("," + (c + ":" + d + "}")))
            <==> IsBinaryString(a) && IsBinaryString(b) && IsBinaryString(c) && IsBinaryString(d)
  {
    BinaryConcat(a, ":");
    BinaryConcat(a + ":", b);
    BinaryConcat(c, ":");
    BinaryConcat(c + ":", d);
    BinaryConcat(c + ":" + d, "}");
    BinaryConcat(",", c + ":" + d + "}");
    BinaryConcat("{", a + ":" + b);
    BinaryConcat("{" + (a + ":" + b), "," + (c + ":" + d + "}"));
  }

  /** The character-by-character form of `IsBinaryString`, which Dafny can evaluate on a literal. */
  predicate BinaryChars(s: string)
  {
    |s| == 0 || (s[0] as int < 256 && BinaryChars(s[1..]))
  }

  lemma {:induction false} BinaryCharsBinary(s: string)
    requires BinaryChars(s)
    ensures IsBinaryString(s)
  {
    if |s| > 0 {
      BinaryCharsBinary(s[1..]);
    }
  }

  lemma StateTextBinary(v: string, r: string)
    ensures IsBinaryString(StringifyState(v, r)) <==> IsBinaryString(v) && IsBinaryString(r)
  {
    assert BinaryChars("verifier") && BinaryChars("random");
    BinaryCharsBinary("verifier");
    BinaryCharsBinary("random");
    QuoteBinary("verifier");
    QuoteBinary(v);
    QuoteBinary("random");
    QuoteBinary(r);
    BinaryTwoField(Quote("verifier"), Quote(v), Quote("random"), Quote(r));
  }

  /**
    The flow state round trip: decoding the state built from a verifier and a
    nonce recovers that verifier, and the parsed object is exactly the record.
   */
  lemma StateRoundTrip(verifier: string, random: string)
    requires IsBinaryString(verifier) && IsBinaryString(random)
    ensures EncodeState(verifier, random).Some?
    ensures var state := EncodeState(verifier, random).value;
      && Atob(state) == Some(StringifyState(verifier, random))
      && ParseObject(Atob(state).value) == Some([("verifier", verifier), ("random", random)])
      && DecodeState(state) == Ok(Some(verifier))
  {
    var text := StringifyState(verifier, random);
    StateTextBinary(verifier, random);
    AtobBtoa(text);
    ParseStringifyState(verifier, random);
    assert Property([("verifier", verifier), ("random", random)], "verifier") == Some(verifier);
  }

  /**
    A state holding a character that is neither in the base64 alphabet, nor
    ASCII whitespace, nor `=` takes the failure branch.
   */
  lemma DecodeStateRejectsForeignChar(state: string, i: nat)
    requires i < |state|
    requires !IsBase64Char(state[i]) && !IsAsciiWhitespace(state[i]) && state[i] != '='
    ensures DecodeState(state) == Err(InvalidBase64)
  {
    var d0 := RemoveWhitespace(state);
    assert state[i] in d0;
    var d := if |d0| % 4 == 0 then DropPadding(d0) else d0;
    var j :| 0 <= j < |d0| && d0[j] == state[i];
    assert j < |d| && d[j] == state[i];
    assert !AllBase64(d);
  }

  /** The empty state decodes to the empty text, which `JSON.parse` refuses. */
  lemma DecodeEmptyState()
    ensures DecodeState("") == Err(InvalidJson)
  {
    assert Atob("") == Some("");
  }

  datatype AuthorizationRequest = AuthorizationRequest(endpoint: string, query: Params)

  /** What `handleLogin` produces before navigating: the verifier it generated and the request. */
  datatype Login = Login(verifier: string, nonce: string, request: AuthorizationRequest)

  /** The seven parameters of the authorization request, in the source's order. */
  function AuthorizationParams(challenge: string, state: string): (ps: Params)
    ensures Names(ps) == ["client_id", "response_type", "redirect_uri", "scope",
                          "code_challenge_method", "code_challenge", "state"]
    ensures Get(ps, "client_id") == Some(ClientId)
    ensures Get(ps, "response_type") == Some("code")
    ensures Get(ps, "redirect_uri") == Some(RedirectUri)
    ensures Get(ps, "scope") == Some(Scopes)
    ensures Get(ps, "code_challenge_method") == Some("S256")
    ensures Get(ps, "code_challenge") == Some(challenge)
    ensures Get(ps, "state") == Some(state)
  {
    var ps := [("client_id", ClientId), ("response_type", "code"), ("redirect_uri", RedirectUri),
               ("scope", Scopes), ("code_challenge_method", "S256"), ("code_challenge", challenge),
               ("state", state)];
    GetAt(ps, 2);
    GetAt(ps, 3);
    GetAt(ps, 4);
    GetAt(ps, 5);
    assert "scope" != "state" by { assert "scope"[1] != "state"[1]; }
    GetAt(ps, 6);
    ps
  }

  /**
    `handleLogin`: a 64-character verifier from the first draws, a 16-character
    nonce from the next ones, the challenge, the state and the request.
   */
  function BeginLogin(draws: Draws, sha256: seq<Byte> -> Digest): (l: Login)
    ensures l.verifier == RandomString(VerifierLength, draws)
    ensures l.nonce == RandomString(NonceLength, After(draws, VerifierLength))
    ensures l.request.endpoint == AuthorizeEndpoint
    ensures Names(l.request.query) == ["client_id", "response_type", "redirect_uri", "scope",
                                       "code_challenge_method", "code_challenge", "state"]
    ensures Get(l.request.query, "client_id") == Some(ClientId)
    ensures Get(l.request.query, "response_type") == Some("code")
    ensures Get(l.request.query, "redirect_uri") == Some(RedirectUri)
    ensures Get(l.request.query, "scope") == Some(Scopes)
    ensures Get(l.request.query, "code_challenge_method") == Some("S256")
    ensures Get(l.request.query, "code_challenge") == Some(CodeChallenge(l.verifier, sha256))
    ensures Get(l.request.query, "state").Some?
    ensures DecodeState(Get(l.request.query, "state").value) == Ok(Some(l.verifier))
  {
    var codeVerifier := RandomString(VerifierLength, draws);
    var codeChallenge := CodeChallenge(codeVerifier, sha256);
    var nonce := RandomString(NonceLength, After(draws, VerifierLength));
    AlnumIsBinary(codeVerifier);
    AlnumIsBinary(nonce);
    StateRoundTrip(codeVerifier, nonce);
    var state := EncodeState(codeVerifier, nonce).value;
    Login(codeVerifier, nonce, AuthorizationRequest(AuthorizeEndpoint, AuthorizationParams(codeChallenge, state)))
  }

  lemma AlnumIsBinary(s: string)
    requires IsAlnumString(s)
    ensures IsBinaryString(s)
  {
  }
}
