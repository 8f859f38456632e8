/**
  The part of JSON the flow state needs: `JSON.stringify` of a record whose
  fields are strings (string quoting as in `QuoteJSONString` of ECMA-262), and
  `JSON.parse` of an object whose member values are all strings. Any other
  text is a parse failure here.
 */
module Json {
  import opened Wrappers

  /** One lower-case hexadecimal digit, as `QuoteJSONString` writes them. */
  function HexDigit(n: int): (c: char)
    requires 0 <= n < 16
    ensures IsHexDigit(c) && HexValue(c) == n
  {
    if n < 10 then ('0' as int + n) as char else ('a' as int + (n - 10)) as char
  }

  predicate IsHexDigit(c: char) {
    '0' <= c <= '9' || 'a' <= c <= 'f' || 'A' <= c <= 'F'
  }

  function HexValue(c: char): (n: int)
    requires IsHexDigit(c)
    ensures 0 <= n < 16
  {
    if '0' <= c <= '9' then c as int - '0' as int
    else if 'a' <= c <= 'f' then c as int - 'a' as int + 10
    else c as int - 'A' as int + 10
  }

  /** How `JSON.stringify` writes one character inside a string. */
  function EscapeChar(c: char): (e: string)
    ensures 1 <= |e|
    ensures |e| == 1 <==> (c as int >= 0x20 && c != '"' && c != '\\')
    ensures |e| == 1 ==> e == [c]
  {
    if c as int == 0x08 then "\\b"
    else if c == '\t' then "\\t"
    else if c == '\n' then "\\n"
    else if c as int == 0x0C then "\\f"
    else if c == '\r' then "\\r"
    else if c == '"' then "\\\""
    else if c == '\\' then "\\\\"
    else if c as int < 0x20 then "\\u00" + [HexDigit(c as int / 16), HexDigit(c as int % 16)]
    else [c]
  }

  function EscapeBody(s: string): (e: string)
  {
    if |s| == 0 then "" else EscapeChar(s[0]) + EscapeBody(s[1..])
  }

  /** A JSON string literal for `s`. */
  function Quote(s: string): string
  {
    "\"" + EscapeBody(s) + "\""
  }

  /** `JSON.stringify` of a record with two string fields, in declaration order. */
  function TwoFieldObject(k1: string, v1: string, k2: string, v2: string): string
  {
    "{" + (Quote(k1) + ":" + Quote(v1)) + ("," + (Quote(k2) + ":" + Quote(v2) + "}"))
  }

  /** `JSON.stringify({ verifier: v, random: r })`. */
  function StringifyState(verifier: string, random: string): string
  {
    TwoFieldObject("verifier", verifier, "random", random)
  }

  /**
    Reads the escape after a backslash; a `\u` escape naming a UTF-16 surrogate
    is refused (see the README).
   */
  function Unescape(t: string): (r: Option<(char, string)>)
    ensures r.Some? ==> |r.value.1| < |t|
  {
    if |t| == 0 then None
    else if t[0] == '"' then Some(('"', t[1..]))
    else if t[0] == '\\' then Some(('\\', t[1..]))
    else if t[0] == '/' then Some(('/', t[1..]))
    else if t[0] == 'b' then Some((0x08 as char, t[1..]))
    else if t[0] == 'f' then Some((0x0C as char, t[1..]))
    else if t[0] == 'n' then Some(('\n', t[1..]))
    else if t[0] == 'r' then Some(('\r', t[1..]))
    else if t[0] == 't' then Some(('\t', t[1..]))
    else if t[0] == 'u' && |t| >= 5
            && IsHexDigit(t[1]) && IsHexDigit(t[2]) && IsHexDigit(t[3]) && IsHexDigit(t[4]) then
      var n := HexValue(t[1]) * 4096 + HexValue(t[2]) * 256 + HexValue(t[3]) * 16 + HexValue(t[4]);
      if 0xD800 <= n < 0xE000 then None else Some((n as char, t[5..]))
    else None
  }

  /** Puts `c` in front of the string a successful read produced. */
  function Cons(c: char, r: Option<(string, string)>): Option<(string, string)>
  {
    match r
    case None => None
    case Some((body, rest)) => Some(([c] + body, rest))
  }

  /**
    Reads the characters of a string literal after its opening quote, up to and
    including the closing quote; gives the string and the text after it.
   */
  function ParseStringBody(s: string): (r: Option<(string, string)>)
    ensures r.Some? ==> |r.value.1| < |s|
    decreases |s|
  {
    if |s| == 0 then None
    else if s[0] == '"' then Some(("", s[1..]))
    else if s[0] == '\\' then
      match Unescape(s[1..])
      case None => None
      case Some((c, t)) => Cons(c, ParseStringBody(t))
    else if s[0] as int < 0x20 then None
    else Cons(s[0], ParseStringBody(s[1..]))
  }

  function ParseString(s: string): (r: Option<(string, string)>)
    ensures r.Some? ==> |r.value.1| < |s|
  {
    if |s| > 0 && s[0] == '"' then ParseStringBody(s[1..]) else None
  }

  /** JSON whitespace: space, TAB, LF and CR. */
  predicate IsJsonWhitespace(c: char) {
    c == ' ' || c == '\t' || c == '\n' || c == '\r'
  }

  function SkipWs(s: string): (t: string)
    ensures |t| <= |s|
    ensures |t| == 0 || !IsJsonWhitespace(t[0])
    ensures |s| == 0 || !IsJsonWhitespace(s[0]) ==> t == s
    decreases |s|
  {
    if |s| > 0 && IsJsonWhitespace(s[0]) then SkipWs(s[1..]) else s
  }

  /** `SkipWs` leaves a suffix of its input and drops only whitespace in front of it. */
  lemma {:induction false} SkipWsDropsWhitespace(s: string)
    ensures SkipWs(s) == s[|s| - |SkipWs(s)|..]
    ensures forall i :: 0 <= i < |s| - |SkipWs(s)| ==> IsJsonWhitespace(s[i])
    decreases |s|
  {
    if |s| > 0 && IsJsonWhitespace(s[0]) {
      SkipWsDropsWhitespace(s[1..]);
      assert s[1..][|s| - 1 - |SkipWs(s)|..] == s[|s| - |SkipWs(s)|..];
      forall i | 1 <= i < |s| - |SkipWs(s)| ensures IsJsonWhitespace(s[i]) {
        assert s[i] == s[1..][i - 1];
      }
    }
  }

  /** `"key" : "value"` */
  function ParseMember(s: string): (r: Option<((string, string), string)>)
    ensures r.Some? ==> |r.value.1| < |s|
  {
    match ParseString(s)
    case None => None
    case Some((key, rest)) =>
      var t := SkipWs(rest);
      if |t| == 0 || t[0] != ':' then None
      else
        match ParseString(SkipWs(t[1..]))
        case None => None
        case Some((value, rest')) => Some(((key, value), rest'))
  }

  /** One or more members separated by commas. */
  function ParseMembers(s: string): (r: Option<(seq<(string, string)>, string)>)
    ensures r.Some? ==> |r.value.1| < |s|
    decreases |s|
  {
    match ParseMember(s)
    case None => None
    case Some((m, rest)) =>
      var t := SkipWs(rest);
      if |t| > 0 && t[0] == ',' then
        match ParseMembers(SkipWs(t[1..]))
        case None => None
        case Some((ms, rest')) => Some(([m] + ms, rest'))
      else Some(([m], t))
  }

  /** `JSON.parse(text)` for an object whose members all have string values, in text order. */
  function ParseObject(text: string): (r: Option<seq<(string, string)>>)
  {
    var t := SkipWs(text);
    if |t| == 0 || t[0] != '{' then None
    else
      var u := SkipWs(t[1..]);
      if |u| > 0 && u[0] == '}' then
        (if SkipWs(u[1..]) == "" then Some([]) else None)
      else
        match ParseMembers(u)
        case None => None
        case Some((ms, rest)) =>
          if |rest| > 0 && rest[0] == '}' && SkipWs(rest[1..]) == "" then Some(ms) else None
  }

  /** Property access on the parsed object: with duplicate keys the last one wins. */
  function Property(ms: seq<(string, string)>, key: string): (r: Option<string>)
    ensures r.Some? <==> exists i :: 0 <= i < |ms| && ms[i].0 == key
    ensures r.Some? ==> exists i :: 0 <= i < |ms| && ms[i] == (key, r.value)
  {
    if |ms| == 0 then None
    else if ms[|ms| - 1].0 == key then Some(ms[|ms| - 1].1)
    else Property(ms[..|ms| - 1], key)
  }

  /** With duplicate keys, `Property` reads the last member that has the key, as `JSON.parse` keeps it. */
  lemma {:induction false} PropertyLastWins(ms: seq<(string, string)>, key: string)
    ensures Property(ms, key).Some? ==>
      exists i :: 0 <= i < |ms| && ms[i] == (key, Property(ms, key).value)
               && forall j :: i < j < |ms| ==> ms[j].0 != key
    decreases |ms|
  {
    if |ms| > 0 && ms[|ms| - 1].0 != key && Property(ms, key).Some? {
      var init := ms[..|ms| - 1];
      PropertyLastWins(init, key);
      var i :| 0 <= i < |init| && init[i] == (key, Property(init, key).value)
               && forall j :: i < j < |init| ==> init[j].0 != key;
      assert ms[i] == init[i];
      forall j | i < j < |ms| ensures ms[j].0 != key {
        if j < |init| {
          assert ms[j] == init[j];
        }
      }
    }
  }

  lemma UnescapeHex(c: char, t: string)
    requires c as int < 0x20
    ensures Unescape(("u00" + [HexDigit(c as int / 16), HexDigit(c as int % 16)]) + t) == Some((c, t))
  {
    var e := ("u00" + [HexDigit(c as int / 16), HexDigit(c as int % 16)]) + t;
    assert e[0] == 'u' && e[1] == '0' && e[2] == '0';
    assert e[5..] == t;
  }

  lemma ParseTwoCharEscape(c: char, e: char, t: string)
    requires Unescape([e] + t) == Some((c, t))
    ensures ParseStringBody(['\\', e] + t) == Cons(c, ParseStringBody(t))
  {
    var s := ['\\', e] + t;
    assert s[0] == '\\' && s[1..] == [e] + t;
    ParseBackslash(s, c, t);
  }

  lemma ParseBackslash(s: string, c: char, t: string)
    requires |s| > 0 && s[0] == '\\' && Unescape(s[1..]) == Some((c, t))
    ensures ParseStringBody(s) == Cons(c, ParseStringBody(t))
  {
  }

  lemma ParseEscapeChar(c: char, t: string)
    ensures ParseStringBody(EscapeChar(c) + t) == Cons(c, ParseStringBody(t))
  {
    var s := EscapeChar(c) + t;
    if |EscapeChar(c)| == 1 {
      assert s[1..] == t;
    } else if c as int == 0x08 {
      ParseTwoCharEscape(c, 'b', t);
    } else if c == '\t' {
      ParseTwoCharEscape(c, 't', t);
    } else if c == '\n' {
      ParseTwoCharEscape(c, 'n', t);
    } else if c as int == 0x0C {
      ParseTwoCharEscape(c, 'f', t);
    } else if c == '\r' {
      ParseTwoCharEscape(c, 'r', t);
    } else if c == '"' {
      ParseTwoCharEscape(c, '"', t);
    } else if c == '\\' {
      ParseTwoCharEscape(c, '\\', t);
    } else {
      UnescapeHex(c, t);
      assert s[1..] == ("u00" + [HexDigit(c as int / 16), HexDigit(c as int % 16)]) + t;
    }
  }

  /** The body of `Quote(v)` reads back as `v`, leaving what follows the closing quote. */
  lemma {:induction false} ParseEscapeBody(v: string, rest: string)
    ensures ParseStringBody(EscapeBody(v) + "\"" + rest) == Some((v, rest))
    decreases |v|
  {
    if |v| == 0 {
      assert EscapeBody(v) + "\"" + rest == "\"" + rest;
      assert ("\"" + rest)[1..] == rest;
    } else {
      ParseEscapeBody(v[1..], rest);
      EscapeBodyFront(v, rest);
      ParseEscapedStep(v[0], EscapeBody(v[1..]) + "\"" + rest, v[1..], rest);
      assert [v[0]] + v[1..] == v;
    }
  }

  lemma EscapeBodyFront(v: string, rest: string)
    requires |v| > 0
    ensures EscapeBody(v) + "\"" + rest == EscapeChar(v[0]) + (EscapeBody(v[1..]) + "\"" + rest)
  {
    assert EscapeBody(v) == EscapeChar(v[0]) + EscapeBody(v[1..]);
    Regroup(EscapeChar(v[0]), EscapeBody(v[1..]), "\"", rest);
  }

  lemma Regroup(a: string, b: string, c: string, d: string)
    ensures (a + b) + c + d == a + (b + c + d)
  {
  }

  /** One escaped character in front of a body that parses. */
  lemma ParseEscapedStep(c: char, t: string, body: string, rest: string)
    requires ParseStringBody(t) == Some((body, rest))
    ensures ParseStringBody(EscapeChar(c) + t) == Some(([c] + body, rest))
  {
    ParseEscapeChar(c, t);
  }

  lemma ParseQuote(v: string, rest: string)
    ensures ParseString(Quote(v) + rest) == Some((v, rest))
  {
    assert Quote(v) + rest == "\"" + (EscapeBody(v) + "\"" + rest);
    ParseEscapeBody(v, rest);
  }

  lemma ParseMemberSteps(s: string, k: string, tail: string, v: string, rest: string)
    requires ParseString(s) == Some((k, tail))
    requires |tail| > 0 && tail[0] == ':'
    requires ParseString(SkipWs(tail[1..])) == Some((v, rest))
    ensures ParseMember(s) == Some(((k, v), rest))
  {
  }

  lemma ParseQuotedMember(k: string, v: string, rest: string)
    ensures ParseMember(Quote(k) + ":" + Quote(v) + rest) == Some(((k, v), rest))
  {
    var tail := ":" + (Quote(v) + rest);
    assert Quote(k) + ":" + Quote(v) + rest == Quote(k) + tail;
    ParseMemberAfterKey(k, tail, v, rest);
  }

  lemma ParseMemberAfterKey(k: string, tail: string, v: string, rest: string)
    requires tail == ":" + (Quote(v) + rest)
    ensures ParseMember(Quote(k) + tail) == Some(((k, v), rest))
  {
    var qv := Quote(v) + rest;
    ParseQuote(k, tail);
    assert SkipWs(tail[1..]) == qv by {
      assert tail[1..] == qv;
      assert qv[0] == '"';
    }
    ParseQuote(v, rest);
    ParseMemberSteps(Quote(k) + tail, k, tail, v, rest);
  }

  lemma ParseMembersLast(s: string, m: (string, string), rest: string)
    requires ParseMember(s) == Some((m, rest))
    requires |rest| > 0 && rest[0] != ',' && !IsJsonWhitespace(rest[0])
    ensures ParseMembers(s) == Some(([m], rest))
  {
  }

  lemma ParseMembersCons(s: string, m: (string, string), rest: string, ms: seq<(string, string)>, rest': string)
    requires ParseMember(s) == Some((m, rest))
    requires |rest| > 0 && rest[0] == ','
    requires ParseMembers(SkipWs(rest[1..])) == Some((ms, rest'))
    ensures ParseMembers(s) == Some(([m] + ms, rest'))
  {
  }

  lemma ParseObjectSteps(text: string, ms: seq<(string, string)>)
    requires |text| > 0 && text[0] == '{'
    requires |text[1..]| > 0 && text[1] != '}' && !IsJsonWhitespace(text[1])
    requires ParseMembers(text[1..]) == Some((ms, "}"))
    ensures ParseObject(text) == Some(ms)
  {
    assert "}"[1..] == "";
  }

  lemma ParseTwoMembers(u: string, m1: (string, string), afterFirst: string, m2: (string, string))
    requires ParseMember(u) == Some((m1, afterFirst))
    requires |afterFirst| > 0 && afterFirst[0] == ','
    requires ParseMember(afterFirst[1..]) == Some((m2, "}"))
    requires |afterFirst[1..]| > 0 && afterFirst[1] == '"'
    ensures ParseMembers(u) == Some(([m1, m2], "}"))
  {
    ParseMembersLast(afterFirst[1..], m2, "}");
    ParseMembersCons(u, m1, afterFirst, [m2], "}");
    assert [m1] + [m2] == [m1, m2];
  }

  lemma TwoFieldShape(a: string, b: string, c: string, d: string)
    ensures "{" + (a + ":" + b) + ("," + (c + ":" + d + "}")) == "{" + (a + ":" + b + ("," + (c + ":" + d + "}")))
  {
  }

  /** Parsing a stringified two-field record gives exactly its two members, in order. */
  lemma ParseTwoFieldObject(k1: string, v1: string, k2: string, v2: string)
    ensures ParseObject(TwoFieldObject(k1, v1, k2, v2)) == Some([(k1, v1), (k2, v2)])
  {
    var second := Quote(k2) + ":" + Quote(v2) + "}";
    var afterFirst := "," + second;
    var u := Quote(k1) + ":" + Quote(v1) + afterFirst;
    var text := "{" + u;
    TwoFieldShape(Quote(k1), Quote(v1), Quote(k2), Quote(v2));
    assert TwoFieldObject(k1, v1, k2, v2) == text;
    ParseQuotedMember(k1, v1, afterFirst);
    ParseQuotedMember(k2, v2, "}");
    assert afterFirst[1..] == second;
    assert second[0] == '"';
    ParseTwoMembers(u, (k1, v1), afterFirst, (k2, v2));
    assert text[1..] == u && u[0] == '"';
    ParseObjectSteps(text, [(k1, v1), (k2, v2)]);
  }

  lemma ParseStringifyState(v: string, r: string)
    ensures ParseObject(StringifyState(v, r)) == Some([("verifier", v), ("random", r)])
  {
    ParseTwoFieldObject("verifier", v, "random", r);
  }

  /** Every character `JSON.stringify` adds is ASCII, so Latin-1 fields give a Latin-1 text. */
  lemma {:induction false} EscapeBodyBelow(s: string, bound: int)
    requires 128 <= bound
    requires forall i :: 0 <= i < |s| ==> s[i] as int < bound
    ensures forall i :: 0 <= i < |EscapeBody(s)| ==> EscapeBody(s)[i] as int < bound
    decreases |s|
  {
    if |s| > 0 {
      EscapeBodyBelow(s[1..], bound);
      var e := EscapeChar(s[0]);
      forall i | 0 <= i < |EscapeBody(s)| ensures EscapeBody(s)[i] as int < bound {
        if i < |e| {
          assert EscapeBody(s)[i] == e[i];
        } else {
          assert EscapeBody(s)[i] == EscapeBody(s[1..])[i - |e|];
        }
      }
    }
  }
}
