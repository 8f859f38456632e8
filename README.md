# What's my neighborhood — the login flow and the classifier, in Dafny

This project models the logic of the `SpotifyNeighborhood` React component, leaving out the
browser, the network and the crypto API. The component:

- signs the user in to Spotify with the Authorization Code flow and PKCE (RFC 7636);
- carries the code verifier through the redirect inside the `state` parameter;
- exchanges the returned code for an access token;
- sorts the user's top tracks into one of six musical "neighbourhoods".

The modules follow the pieces of the component:

| module | file | what it holds |
|---|---|---|
| `Wrappers` | wrappers.dfy | `Option` and `Result` |
| `Chars` | chars.dfy | ASCII character classes, ASCII `toLowerCase`, `includes`, `join(' ')`, and the lemma that a space-free word is found in a space-joined text exactly when it is found in one piece |
| `Base64` | base64.dfy | `btoa` (RFC 4648 section 4 over a Latin-1 binary string), `atob` (forgiving-base64 decode, whitespace and padding tolerated), and `base64urlencode` (RFC 4648 section 5, no padding) with its round trip |
| `Json` | json.dfy | `JSON.stringify` of the two-field state record, with ECMA-262 string escaping; `JSON.parse` restricted to objects whose members are all strings; the parse/stringify round trip |
| `Params` | params.dfy | an ordered key/value record standing in for `URLSearchParams`: `get` returns the first match |
| `Pkce` | pkce.dfy | `generateRandomString` over an index oracle, UTF-8, the S256 challenge, encoding and decoding of the flow state, and the authorization request of `handleLogin` |
| `TokenExchange` | token_exchange.dfy | `getAccessToken`: the guard on the verifier, the five form fields, and the payload returned whatever the status |
| `Callback` | callback.dfy | the `useEffect` callback as a class `Page` whose method updates `loading`, the token requests, the URL clean-up and the data fetch, checked against a function `OnRedirect` on a snapshot of that state |
| `Neighborhood` | neighborhood.dfy | `analyzeNeighborhood`: the nested counting loops as methods over a map, the joined lower-cased text, the first-match keyword chain and the six cards |
| `PlainObject` | plain_object.dfy | the counting object as the source writes it (a plain `{}`), kept for the finding below |

Three things are parameters: randomness, a function `Draws` from the draw number to an index in
[0, 62); SHA-256, a function from bytes to 32 bytes; and the token endpoint, a function from the
form body to a reply, or to nothing when `fetch` rejects.

The component does not do three things an OAuth client might be expected to do:

- the callback handles no `error=access_denied` parameter: without a `code` it does nothing;
- the query string is removed from the URL only when an access token arrives, never on a failure;
- there is no multi-state machine, only a `loading` flag, which the callback resets on each
  failure path and leaves set on success (`fetchSpotifyData` resets it later).

## Model

| member | source | states |
|---|---|---|
| Pkce.RandomString | whats-my-neighborhood/src/SpotifyNeighborhood.js:14-17 | the string has exactly the requested length, every character is in `A–Z a–z 0–9`, and character i is the alphabet entry the i-th draw selects |
| Pkce.RandomStringCovers | whats-my-neighborhood/src/SpotifyNeighborhood.js:14-17 | every alphanumeric string of a given length can be produced by some sequence of draws |
| Pkce.RandomStringInjective | whats-my-neighborhood/src/SpotifyNeighborhood.js:14-17 | two runs that produce the same string made the same draws |
| Pkce.VerifierIsWellFormed | whats-my-neighborhood/src/SpotifyNeighborhood.js:33 | the 64-character verifier is 43 to 128 unreserved characters, as section 4.1 of RFC 7636 requires |
| Chars.AlnumChar | whats-my-neighborhood/src/SpotifyNeighborhood.js:15 | entry i of the 62-character alphabet is alphanumeric, and its position is i |
| Chars.AlnumIndexChar | whats-my-neighborhood/src/SpotifyNeighborhood.js:15 | every alphanumeric character is the alphabet entry at its own position |
| Base64.Sextets | whats-my-neighborhood/src/SpotifyNeighborhood.js:26 | n bytes split into ceil(4n/3) six-bit groups, and the pad bits of a final 1- or 2-byte group are zero, as section 3.5 of RFC 4648 requires; with OctetsSextets this fixes every group |
| Base64.OctetsSextets | whats-my-neighborhood/src/SpotifyNeighborhood.js:26 | reassembling the six-bit groups gives back the bytes |
| Base64.Encode | whats-my-neighborhood/src/SpotifyNeighborhood.js:26 | the base64 text of n bytes is 4·ceil(n/3) characters long |
| Base64.DecodeEncode | whats-my-neighborhood/src/SpotifyNeighborhood.js:26 | forgiving-base64 decoding reverses base64 encoding |
| Base64.Btoa | whats-my-neighborhood/src/SpotifyNeighborhood.js:26 | `btoa` succeeds exactly on strings whose characters are all below 256 |
| Base64.Atob | whats-my-neighborhood/src/SpotifyNeighborhood.js:100 | whatever `atob` returns is a binary string |
| Base64.AtobBtoa | whats-my-neighborhood/src/SpotifyNeighborhood.js:37 | `atob(btoa(s))` is `s` for every binary string `s` |
| Base64.RemoveWhitespaceKeeps | whats-my-neighborhood/src/SpotifyNeighborhood.js:100 | every character that is not ASCII whitespace occurs in the result exactly as often as in the input |
| Base64.RemoveWhitespaceConcat | whats-my-neighborhood/src/SpotifyNeighborhood.js:100 | removing whitespace from a concatenation concatenates the pieces with whitespace removed, so the kept characters stay in their order |
| Base64.TrimTrailing | whats-my-neighborhood/src/SpotifyNeighborhood.js:29 | the result is the longest prefix that does not end in the character, and only that character was removed |
| Base64.TrimTrailingRun | whats-my-neighborhood/src/SpotifyNeighborhood.js:29 | stripping a run of `=` from a text not ending in `=` gives back that text |
| Base64.Base64UrlEncode | whats-my-neighborhood/src/SpotifyNeighborhood.js:25-30 | the output is the URL-alphabet encoding of the six-bit groups, ceil(4n/3) characters long, with no `+`, `/` or `=` |
| Base64.SubstitutedEncoding | whats-my-neighborhood/src/SpotifyNeighborhood.js:25-30 | base64 followed by the two replacements and the trim equals the base64url alphabet applied to the six-bit groups |
| Base64.Base64UrlRoundTrip | whats-my-neighborhood/src/SpotifyNeighborhood.js:25-30 | undoing the substitutions, re-padding and decoding recovers the bytes |
| Base64.Base64UrlInjective | whats-my-neighborhood/src/SpotifyNeighborhood.js:25-30 | different byte strings have different base64url encodings |
| Pkce.Utf8Char | whats-my-neighborhood/src/SpotifyNeighborhood.js:20-21 | a character takes 1 to 4 bytes, and a single byte holding its code exactly when it is ASCII |
| Pkce.Utf8Ascii | whats-my-neighborhood/src/SpotifyNeighborhood.js:20-21 | the UTF-8 encoding of an ASCII string is its character codes |
| Pkce.CodeChallenge | whats-my-neighborhood/src/SpotifyNeighborhood.js:34-35 | the S256 challenge is 43 unreserved characters, and decoding it gives the SHA-256 digest of the verifier's UTF-8 bytes |
| Pkce.ChallengeDeterminesDigest | whats-my-neighborhood/src/SpotifyNeighborhood.js:34-35 | equal challenges come from equal digests |
| Json.EscapeChar | whats-my-neighborhood/src/SpotifyNeighborhood.js:37 | a character is written as itself exactly when it is not a control character, a quote or a backslash |
| Json.HexDigit | whats-my-neighborhood/src/SpotifyNeighborhood.js:37 | the lower-case hex digit for n reads back as n |
| Json.ParseEscapeChar | whats-my-neighborhood/src/SpotifyNeighborhood.js:100 | the parser reads back every escape that `JSON.stringify` writes |
| Json.ParseEscapeBody | whats-my-neighborhood/src/SpotifyNeighborhood.js:100 | an escaped string body followed by a quote parses to the original string, with the rest left over |
| Json.ParseQuote | whats-my-neighborhood/src/SpotifyNeighborhood.js:100 | a quoted string parses back to the original string |
| Json.ParseQuotedMember | whats-my-neighborhood/src/SpotifyNeighborhood.js:100 | `"k":"v"` parses to the member (k, v) |
| Json.ParseTwoFieldObject | whats-my-neighborhood/src/SpotifyNeighborhood.js:100 | a two-member object text parses to exactly those two members |
| Json.ParseStringifyState | whats-my-neighborhood/src/SpotifyNeighborhood.js:100 | parsing the stringified `{verifier, random}` gives exactly those two members in that order |
| Json.PropertyLastWins | whats-my-neighborhood/src/SpotifyNeighborhood.js:101 | when some member has the key, `.verifier` reads the value of the last such member, as `JSON.parse` keeps the last duplicate |
| Json.EscapeBodyBelow | whats-my-neighborhood/src/SpotifyNeighborhood.js:37 | escaping adds no character at or above any bound of 128 or more that the input respects |
| Json.SkipWsDropsWhitespace | whats-my-neighborhood/src/SpotifyNeighborhood.js:100 | skipping whitespace leaves a suffix of the input, and everything dropped in front of it is JSON whitespace |
| Pkce.EncodeState | whats-my-neighborhood/src/SpotifyNeighborhood.js:37 | encoding succeeds exactly when both fields are binary strings |
| Pkce.StateTextBinary | whats-my-neighborhood/src/SpotifyNeighborhood.js:37 | the stringified record is a binary string exactly when both fields are |
| Pkce.DecodeState | whats-my-neighborhood/src/SpotifyNeighborhood.js:100-101 | decoding fails with an invalid-base64 error exactly when `atob` fails, and succeeds exactly when `atob` succeeds and the text parses as an object |
| Pkce.StateRoundTrip | whats-my-neighborhood/src/SpotifyNeighborhood.js:100-101 | for binary fields the state decodes to the JSON text of the record, that text parses to exactly the two members, and the recovered verifier is the one encoded |
| Pkce.DecodeStateRejectsForeignChar | whats-my-neighborhood/src/SpotifyNeighborhood.js:99-123 | a state holding a character outside the base64 alphabet, whitespace and `=` takes the failure branch |
| Pkce.DecodeEmptyState | whats-my-neighborhood/src/SpotifyNeighborhood.js:99-123 | an empty state decodes to the empty text, which is not JSON |
| Params.GetAt | whats-my-neighborhood/src/SpotifyNeighborhood.js:91-92 | `get` returns the value of the first entry with the name |
| Pkce.AuthorizationParams | whats-my-neighborhood/src/SpotifyNeighborhood.js:39-48 | the request has exactly the seven parameters in the source's order, each with its source value |
| Pkce.BeginLogin | whats-my-neighborhood/src/SpotifyNeighborhood.js:32-48 | `handleLogin` uses draws 0–63 for the verifier and 64–79 for the nonce; it targets the authorize endpoint with the seven parameters; `code_challenge` is the S256 challenge of that verifier; and `state` decodes back to that verifier |
| TokenExchange.TokenForm | whats-my-neighborhood/src/SpotifyNeighborhood.js:70-76 | the form body has the five fields in order, and `code_verifier` is the given verifier |
| TokenExchange.GetAccessToken | whats-my-neighborhood/src/SpotifyNeighborhood.js:55-87 | nothing is posted exactly when the verifier is falsy, and then the result is `{error: 'No code verifier found'}`; otherwise the five-field form is posted and the result is the provider's payload, or a rejection |
| TokenExchange.ExchangeIgnoresStatus | whats-my-neighborhood/src/SpotifyNeighborhood.js:79-86 | the result does not depend on `response.ok` |
| TokenExchange.GuardNeverYieldsToken | whats-my-neighborhood/src/SpotifyNeighborhood.js:60-63 | the guard's error object has no access token, and a posted verifier is never empty |
| Callback.Page.constructor | whats-my-neighborhood/src/SpotifyNeighborhood.js:8 | a new page is not loading, has made no requests and has not touched the URL |
| Callback.Page.HandleRedirect | whats-my-neighborhood/src/SpotifyNeighborhood.js:89-125 | the step-by-step updates leave the page in the state that `OnRedirect` gives |
| Callback.Page.HandleSettled | whats-my-neighborhood/src/SpotifyNeighborhood.js:107-119 | the `.then` and `.catch` handlers leave the page in the state that `Settled` gives: a token starts the fetch and cleans the URL, anything else ends loading |
| Callback.NoCodeOrStateIsNoOp | whats-my-neighborhood/src/SpotifyNeighborhood.js:98 | without a non-empty `code` and a non-empty `state`, nothing changes |
| Callback.UndecodableStateStops | whats-my-neighborhood/src/SpotifyNeighborhood.js:99-123 | a state that does not decode only sets loading to false |
| Callback.MissingVerifierStops | whats-my-neighborhood/src/SpotifyNeighborhood.js:101-114 | a decoded state with no usable verifier calls the exchange, whose guard (line 60) posts nothing, then loading ends and the URL is kept |
| Callback.CleanedExactlyOnToken | whats-my-neighborhood/src/SpotifyNeighborhood.js:105-119 | the URL is cleaned and the data fetch is started exactly when the exchange returns an access token, the fetch is called with that token, and loading then stays on; on every other path that gets past the `code && state` check, loading ends false |
| Callback.CallbackReachesExchange | whats-my-neighborhood/src/SpotifyNeighborhood.js:90-106 | a query with a non-empty code and a state that decodes to a verifier sets loading, calls the exchange once with that code and verifier, and settles on its reply |
| Callback.CallbackExchangesVerifier | whats-my-neighborhood/src/SpotifyNeighborhood.js:98-110 | a query whose state carries a verifier posts exactly one token request with that verifier; a reply payload holding an access token, whatever other members it has, starts the data fetch with that token and cleans the URL |
| Callback.LoginThenCallback | whats-my-neighborhood/src/SpotifyNeighborhood.js:32-110 | after `handleLogin`, the callback for its redirect posts the login's own verifier, whose S256 challenge is the `code_challenge` the authorization request carried; a reply payload holding an access token starts the fetch with that token |
| Chars.LowerChar | whats-my-neighborhood/src/SpotifyNeighborhood.js:160-161 | the result is never upper-case and is alphanumeric exactly when the input is; an upper-case letter becomes the lower-case letter 26 places further along the alphabet, and any other character is unchanged |
| Chars.LowerJoin | whats-my-neighborhood/src/SpotifyNeighborhood.js:160-161 | lower-casing the joined names is joining the lower-cased names |
| Chars.IncludesAt | whats-my-neighborhood/src/SpotifyNeighborhood.js:167 | `includes` holds exactly when the word sits at some position of the text |
| Chars.IncludesAcrossSpace | whats-my-neighborhood/src/SpotifyNeighborhood.js:162 | a non-empty word with no space occurs in `x + ' ' + y` exactly when it occurs in `x` or in `y` |
| Chars.IncludesJoin | whats-my-neighborhood/src/SpotifyNeighborhood.js:160-161 | such a word occurs in the space-joined text exactly when it occurs in one of the pieces |
| Neighborhood.FirstOccurrences | whats-my-neighborhood/src/SpotifyNeighborhood.js:160 | the key list holds every name once, the same names as the input, and no duplicates |
| Neighborhood.CountArtists | whats-my-neighborhood/src/SpotifyNeighborhood.js:152-160 | after both loops the keys are exactly the artist names, each count is the number of occurrences of the name across all tracks, and the key list is the names in first-seen order |
| Neighborhood.CountTrack | whats-my-neighborhood/src/SpotifyNeighborhood.js:155-157 | counting one track's artists extends the tally by exactly those names |
| Neighborhood.TallyOfCounts | whats-my-neighborhood/src/SpotifyNeighborhood.js:155-157 | the tally built by `artists[name] = (artists[name] \|\| 0) + 1` holds exactly the names seen, each with its number of occurrences |
| Neighborhood.KeywordListsAreWords | whats-my-neighborhood/src/SpotifyNeighborhood.js:167-195 | every keyword is a non-empty lower-case word, so none contains a space |
| Neighborhood.JoinedIncludes | whats-my-neighborhood/src/SpotifyNeighborhood.js:160-161 | a keyword occurs in the lower-cased joined names exactly when it occurs in one lower-cased name |
| Neighborhood.CombinedTextMentions | whats-my-neighborhood/src/SpotifyNeighborhood.js:160-162 | a keyword list hits `allText` exactly when it hits some single artist or track name, ignoring case |
| Neighborhood.ClassifyCombinedText | whats-my-neighborhood/src/SpotifyNeighborhood.js:160-209 | searching the lower-cased joined artist keys and track names for a keyword gives the same label as asking whether any single name contains it |
| Neighborhood.AnalyzeNeighborhood | whats-my-neighborhood/src/SpotifyNeighborhood.js:151-212 | the card is the one for the first keyword list, in the order Hip-Hop, Pop, Rock, Soul, Electronic, that some artist or track name contains, and Eclectic Junction when none does |
| Neighborhood.MoreNamesNeverLowerPrecedence | whats-my-neighborhood/src/SpotifyNeighborhood.js:166-209 | adding names can only move the label to an earlier neighbourhood in the chain |
| Neighborhood.CaseIgnored | whats-my-neighborhood/src/SpotifyNeighborhood.js:160-161 | names and their lower-cased forms get the same label |
| Neighborhood.ArtistNamesMembers | whats-my-neighborhood/src/SpotifyNeighborhood.js:154-158 | a name is counted exactly when some artist of some track has it |
| Neighborhood.SameTracksSameNeighborhood | whats-my-neighborhood/src/SpotifyNeighborhood.js:151-212 | reordering or repeating tracks does not change the label, so it depends on neither name order nor counts |
| Neighborhood.NoTracksIsEclectic | whats-my-neighborhood/src/SpotifyNeighborhood.js:202-208 | with no tracks the label is Eclectic Junction |
| Neighborhood.KeysSpanVocabulary | whats-my-neighborhood/src/SpotifyNeighborhood.js:160-162 | the names searched, the counted keys together with the track names, are exactly the artist names and the track names |
| PlainObject.PlainObjectCountsOtherNames | whats-my-neighborhood/src/SpotifyNeighborhood.js:152-158 | for names not inherited from `Object.prototype`, the plain object holds exactly the names, each with its number of occurrences |
| PlainObject.PrototypeNamesMiscounted | whats-my-neighborhood/src/SpotifyNeighborhood.js:152-158 | an artist named `constructor` is stored as a string instead of the count 1, and an artist named `__proto__` is not stored at all |

## Left out

- React rendering and the hooks plumbing are UI. `fetchSpotifyData` and `setNeighborhood` are left out too: the data fetch appears only as the token it is called with, and the classifier's result as its return value.
- `fetch`, `response.json()` and `Promise.all` are network I/O. The token endpoint is a parameter: a function from the form body to a reply. A reply whose body is not a JSON object is modelled like a rejected promise; of an object, only the string-valued members are kept. The source takes different paths: a body that is not JSON makes `response.json()` reject (line 79); a JSON `null` throws a `TypeError` in `.then` (line 108); a number, string or array reaches the `else` branch (lines 111-114). All three end in the same state, with loading false and the URL kept.
- `window.crypto.subtle.digest` is a foreign asynchronous call. It is modelled as an arbitrary function from bytes to 32 bytes.
- `Math.random` is floating point and non-deterministic. It is modelled only as an oracle of indices in [0, 62).
- `window.location`, `window.history.replaceState` and `console` are browser effects. Navigation appears as the returned request, the clean-up as a flag, and logging not at all.
- `URL` and `URLSearchParams` serialisation is a host library. The query and the form body are ordered name/value records, without percent-encoding.
- `JSON.parse` is modelled only on objects whose member values are all strings. Any other text counts as a parse failure. The source instead goes on with an undefined or non-string verifier, and, when only another member is not a string (as in `{"verifier":"abc","random":1}`), with the string verifier: it then posts a token request (lines 101, 106, 65-77) where the model posts nothing. A `\u` escape of a surrogate is refused.
- `toLowerCase` is modelled for ASCII only. Other characters are left unchanged.
- `Object.keys` lists integer-like keys first in ascending order. The model lists every key in insertion order. The classification does not depend on this order.
- TokenExchange.GetAccessToken: the token reply is a map from names to strings, so a truthy `access_token` that is not a string cannot be represented. The source would pass such a value on to `fetchSpotifyData` (lines 108-109).
- Pkce.EncodeState: `btoa` throws on a string with a character above 255. Here that is a `None` result. The handler only calls it with alphanumeric fields.

## Findings

| source | as written | input that shows it | evidently intended | confidence | as-written member | corrected member |
|---|---|---|---|---|---|---|
| whats-my-neighborhood/src/SpotifyNeighborhood.js:152-157 | `artists` is a plain `{}`, so `artists[name] \|\| 0` reads members inherited from `Object.prototype` | one track whose only artist is named `constructor` stores a string rather than 1; an artist named `__proto__` is not stored at all, so `Object.keys` misses that name | a count of 1 per occurrence for every name, e.g. with `Object.create(null)` or a `Map` | not executed; the documented JavaScript semantics of property lookup and of the `__proto__` setter | PlainObject.PrototypeNamesMiscounted | Neighborhood.CountArtists |

The counts themselves are never displayed, and no keyword occurs in `__proto__`, so the label shown to the user is the same either way. The rest of the model uses the corrected map counter.
