/**
  Base64 as the browser provides it: `btoa` is the encoding of section 4 of
  RFC 4648 over a binary string (one character per byte), `atob` is the
  WHATWG "forgiving-base64 decode". On top of them, the component's
  `base64urlencode` (section 5 of RFC 4648, without padding).
 */
module Base64 {
  import opened Wrappers
  import opened Chars

  type Byte = x: int | 0 <= x < 256

  type Sextet = x: int | 0 <= x < 64

  predicate IsBase64Char(c: char) { IsAlnum(c) || c == '+' || c == '/' }

  /** Table 1 of RFC 4648: the standard alphabet. */
  function SextetChar(v: Sextet): (c: char)
    ensures IsBase64Char(c) && SextetValue(c) == v
  {
    if v < 62 then AlnumChar(v) else if v == 62 then '+' else '/'
  }

  function SextetValue(c: char): (v: Sextet)
    requires IsBase64Char(c)
  {
    if c == '+' then 62 else if c == '/' then 63 else AlnumIndex(c)
  }

  lemma SextetCharValue(c: char)
    requires IsBase64Char(c)
    ensures SextetChar(SextetValue(c)) == c
  {
    if IsAlnum(c) {
      AlnumIndexChar(c);
    }
  }

  /** Table 2 of RFC 4648: the URL- and filename-safe alphabet. */
  function UrlSextetChar(v: Sextet): (c: char)
    ensures IsAlnum(c) || c == '-' || c == '_'
  {
    if v < 62 then AlnumChar(v) else if v == 62 then '-' else '_'
  }

  /** Splits bytes into 6-bit groups, 3 bytes to 4 groups; a final 1 or 2 bytes give 2 or 3 groups. */
  function Sextets(b: seq<Byte>): (s: seq<Sextet>)
    ensures |s| == (4 * |b| + 2) / 3
    ensures |b| % 3 == 1 ==> s[|s| - 1] % 16 == 0
    ensures |b| % 3 == 2 ==> s[|s| - 1] % 4 == 0
    decreases |b|
  {
    if |b| == 0 then []
    else if |b| == 1 then [b[0] / 4, (b[0] % 4) * 16]
    else if |b| == 2 then [b[0] / 4, (b[0] % 4) * 16 + b[1] / 16, (b[1] % 16) * 4]
    else [b[0] / 4, (b[0] % 4) * 16 + b[1] / 16, (b[1] % 16) * 4 + b[2] / 64, b[2] % 64] + Sextets(b[3..])
  }

  /**
    Joins 6-bit groups back into bytes; a final 2 or 3 groups give 1 or 2 bytes
    and the bits left over are discarded.
   */
  function Octets(s: seq<Sextet>): (b: seq<Byte>)
    requires |s| % 4 != 1
    decreases |s|
  {
    if |s| == 0 then []
    else
      var s0, s1: int := s[0], s[1];
      if |s| == 2 then [s0 * 4 + s1 / 16]
      else
        var s2: int := s[2];
        if |s| == 3 then [s0 * 4 + s1 / 16, (s1 % 16) * 16 + s2 / 4]
        else [s0 * 4 + s1 / 16, (s1 % 16) * 16 + s2 / 4, (s2 % 4) * 64 + s[3]] + Octets(s[4..])
  }

  /** The bit arithmetic of one group: the bytes are recovered from the sextets that split them. */
  lemma GroupBits(x: Byte, y: Byte, z: Byte)
    ensures (x / 4) * 4 + ((x % 4) * 16 + y / 16) / 16 == x
    ensures (((x % 4) * 16 + y / 16) % 16) * 16 + ((y % 16) * 4 + z / 64) / 4 == y
    ensures (((y % 16) * 4 + z / 64) % 4) * 64 + z % 64 == z
  {
  }

  /** Decoding the four sextets of a full group, followed by more groups. */
  lemma OctetsGroup(x: Byte, y: Byte, z: Byte, rest: seq<Sextet>)
    requires |rest| % 4 != 1
    ensures var g: seq<Sextet> := [x / 4, (x % 4) * 16 + y / 16, (y % 16) * 4 + z / 64, z % 64];
      |g + rest| % 4 != 1 && Octets(g + rest) == [x, y, z] + Octets(rest)
  {
    var g: seq<Sextet> := [x / 4, (x % 4) * 16 + y / 16, (y % 16) * 4 + z / 64, z % 64];
    assert (g + rest)[4..] == rest;
    GroupBits(x, y, z);
  }

  /** Decoding the 2 or 3 sextets of a final group of 1 or 2 bytes. */
  lemma OctetsTail(x: Byte, y: Byte, n: nat)
    requires n == 1 || n == 2
    ensures n == 1 ==> Octets([x / 4, (x % 4) * 16]) == [x]
    ensures n == 2 ==> Octets([x / 4, (x % 4) * 16 + y / 16, (y % 16) * 4]) == [x, y]
  {
    if n == 1 {
      GroupBits(x, 0, 0);
    } else {
      GroupBits(x, y, 0);
    }
  }

  lemma {:induction false} OctetsSextets(b: seq<Byte>)
    ensures |Sextets(b)| % 4 != 1
    ensures Octets(Sextets(b)) == b
    decreases |b|
  {
    if |b| == 1 {
      var x := b[0];
      assert Sextets(b) == [x / 4, (x % 4) * 16];
      OctetsTail(x, 0, 1);
      assert b == [x];
    } else if |b| == 2 {
      var x, y := b[0], b[1];
      assert Sextets(b) == [x / 4, (x % 4) * 16 + y / 16, (y % 16) * 4];
      OctetsTail(x, y, 2);
      assert b == [x, y];
    } else if |b| > 2 {
      var x, y, z := b[0], b[1], b[2];
      var rest := Sextets(b[3..]);
      assert Sextets(b) == [x / 4, (x % 4) * 16 + y / 16, (y % 16) * 4 + z / 64, z % 64] + rest;
      OctetsSextets(b[3..]);
      OctetsGroup(x, y, z, rest);
      assert b == [x, y, z] + b[3..];
    }
  }

  function SextetChars(s: seq<Sextet>): (t: string)
    ensures |t| == |s|
    ensures forall i :: 0 <= i < |s| ==> t[i] == SextetChar(s[i])
  {
    seq(|s|, i requires 0 <= i < |s| => SextetChar(s[i]))
  }

  function Padding(n: nat): (p: string)
    ensures |p| == (3 - n % 3) % 3
    ensures forall i :: 0 <= i < |p| ==> p[i] == '='
  {
    if n % 3 == 1 then "==" else if n % 3 == 2 then "=" else ""
  }

  /** Section 4 of RFC 4648: groups of 4 characters, the last one padded with `=`. */
  function Encode(b: seq<Byte>): (s: string)
    ensures |s| % 4 == 0 && |s| == 4 * ((|b| + 2) / 3)
  {
    var body := SextetChars(Sextets(b));
    var pad := Padding(|b|);
    EncodedLength(|b|, |body|, |pad|);
    body + pad
  }

  /** ceil(4n/3) sextets and the padding fill a whole number of 4-character groups. */
  lemma EncodedLength(n: nat, body: nat, pad: nat)
    requires body == (4 * n + 2) / 3 && pad == (3 - n % 3) % 3
    ensures body + pad == 4 * ((n + 2) / 3) && (body + pad) % 4 == 0
  {
    var q, r := n / 3, n % 3;
    assert n == 3 * q + r;
    assert 4 * n + 2 == 3 * (4 * q) + (4 * r + 2);
    assert body == 4 * q + (4 * r + 2) / 3;
    assert (n + 2) / 3 == q + (r + 2) / 3;
  }

  /** The ASCII whitespace of the WHATWG Infra standard: TAB, LF, FF, CR and SPACE. */
  predicate IsAsciiWhitespace(c: char) {
    c == '\t' || c == '\n' || c as int == 0x0C || c == '\r' || c == ' '
  }

  function RemoveWhitespace(s: string): (t: string)
    ensures forall i :: 0 <= i < |t| ==> !IsAsciiWhitespace(t[i])
    ensures forall i :: 0 <= i < |s| && !IsAsciiWhitespace(s[i]) ==> s[i] in t
    ensures forall c :: c in t ==> c in s
    ensures (forall i :: 0 <= i < |s| ==> !IsAsciiWhitespace(s[i])) ==> t == s
  {
    if |s| == 0 then ""
    else if IsAsciiWhitespace(s[0]) then RemoveWhitespace(s[1..])
    else [s[0]] + RemoveWhitespace(s[1..])
  }

  /** Every character that is not whitespace is kept as often as it occurs. */
  lemma {:induction false} RemoveWhitespaceKeeps(s: string)
    ensures forall c :: !IsAsciiWhitespace(c) ==> multiset(RemoveWhitespace(s))[c] == multiset(s)[c]
    decreases |s|
  {
    if |s| > 0 {
      RemoveWhitespaceKeeps(s[1..]);
      assert s == [s[0]] + s[1..];
    }
  }

  /** Removing whitespace works piece by piece, so the kept characters stay in their order. */
  lemma {:induction false} RemoveWhitespaceConcat(a: string, b: string)
    ensures RemoveWhitespace(a + b) == RemoveWhitespace(a) + RemoveWhitespace(b)
    decreases |a|
  {
    if |a| > 0 {
      assert (a + b)[0] == a[0] && (a + b)[1..] == a[1..] + b;
      RemoveWhitespaceConcat(a[1..], b);
    } else {
      assert a + b == b;
    }
  }

  /** Removes one or two trailing `=`. */
  function DropPadding(s: string): (t: string)
    ensures |t| <= |s| && t == s[..|t|]
    ensures forall i :: |t| <= i < |s| ==> s[i] == '='
  {
    if |s| >= 2 && s[|s| - 2] == '=' && s[|s| - 1] == '=' then s[..|s| - 2]
    else if |s| >= 1 && s[|s| - 1] == '=' then s[..|s| - 1]
    else s
  }

  predicate AllBase64(s: string) {
    forall i :: 0 <= i < |s| ==> IsBase64Char(s[i])
  }

  function Values(s: string): (v: seq<Sextet>)
    requires AllBase64(s)
    ensures |v| == |s|
  {
    seq(|s|, i requires 0 <= i < |s| => SextetValue(s[i]))
  }

  /**
    The forgiving-base64 decode that `atob` runs: whitespace is removed, when the
    length is a multiple of 4 one or two trailing `=` are removed, a length of
    1 modulo 4 or a character outside the alphabet is a failure, and the rest
    is decoded group by group.
   */
  function ForgivingDecode(data: string): (r: Option<seq<Byte>>)
  {
    var d0 := RemoveWhitespace(data);
    var d := if |d0| % 4 == 0 then DropPadding(d0) else d0;
    if |d| % 4 == 1 || !AllBase64(d) then None
    else Some(Octets(Values(d)))
  }

  lemma ValuesSextetChars(s: seq<Sextet>)
    ensures AllBase64(SextetChars(s)) && Values(SextetChars(s)) == s
  {
  }

  lemma EncodeHasNoWhitespace(b: seq<Byte>)
    ensures RemoveWhitespace(Encode(b)) == Encode(b)
  {
    var x := SextetChars(Sextets(b));
    var p := Padding(|b|);
    forall i | 0 <= i < |x + p| ensures !IsAsciiWhitespace((x + p)[i]) {
      if i < |x| {
        assert (x + p)[i] == x[i];
      } else {
        assert (x + p)[i] == p[i - |x|];
      }
    }
  }

  lemma DropPaddingEncode(b: seq<Byte>)
    ensures DropPadding(Encode(b)) == SextetChars(Sextets(b))
  {
    var x := SextetChars(Sextets(b));
    var e := Encode(b);
    assert |x| == 0 || x[|x| - 1] != '=';
    if |b| % 3 == 0 {
      assert e == x;
    } else if |b| % 3 == 2 {
      assert e == x + "=";
      assert e[..|e| - 1] == x;
    } else {
      assert e == x + "==";
      assert e[..|e| - 2] == x;
    }
  }

  /** Decoding the section 4 encoding gives back the bytes. */
  lemma DecodeEncode(b: seq<Byte>)
    ensures ForgivingDecode(Encode(b)) == Some(b)
  {
    EncodeHasNoWhitespace(b);
    DropPaddingEncode(b);
    OctetsSextets(b);
    ValuesSextetChars(Sextets(b));
  }

  /** A byte as a one-character (Latin-1) string, as `String.fromCharCode` gives it. */
  function BinaryString(b: seq<Byte>): (s: string)
    ensures |s| == |b|
    ensures forall i :: 0 <= i < |b| ==> s[i] as int == b[i]
  {
    seq(|b|, i requires 0 <= i < |b| => b[i] as char)
  }

  predicate IsBinaryString(s: string) {
    forall i :: 0 <= i < |s| ==> s[i] as int < 256
  }

  function StringBytes(s: string): (b: seq<Byte>)
    requires IsBinaryString(s)
    ensures |b| == |s|
    ensures BinaryString(b) == s
  {
    seq(|s|, i requires 0 <= i < |s| => s[i] as int)
  }

  /** `btoa`: fails (an `InvalidCharacterError`) on a character above U+00FF. */
  function Btoa(s: string): (r: Option<string>)
    ensures r.Some? <==> IsBinaryString(s)
  {
    if IsBinaryString(s) then Some(Encode(StringBytes(s))) else None
  }

  /** `atob`: fails (an `InvalidCharacterError`) when forgiving-base64 decode fails. */
  function Atob(s: string): (r: Option<string>)
    ensures r.Some? ==> IsBinaryString(r.value)
  {
    match ForgivingDecode(s)
    case Some(b) => Some(BinaryString(b))
    case None => None
  }

  lemma StringBytesBinary(b: seq<Byte>)
    ensures IsBinaryString(BinaryString(b)) && StringBytes(BinaryString(b)) == b
  {
  }

  /** `atob(btoa(s)) == s` for every string `btoa` accepts. */
  lemma AtobBtoa(s: string)
    requires IsBinaryString(s)
    ensures Btoa(s).Some? && Atob(Btoa(s).value) == Some(s)
  {
    DecodeEncode(StringBytes(s));
  }

  /** `s.replace(/a/g, b)` for single characters. */
  function ReplaceChar(s: string, a: char, b: char): (t: string)
    ensures |t| == |s|
    ensures forall i :: 0 <= i < |s| ==> t[i] == if s[i] == a then b else s[i]
  {
    seq(|s|, i requires 0 <= i < |s| => if s[i] == a then b else s[i])
  }

  /** `s.replace(/=+$/, '')`: removes the run of `c` at the end of `s`. */
  function TrimTrailing(s: string, c: char): (t: string)
    ensures |t| <= |s| && t == s[..|t|]
    ensures |t| == 0 || t[|t| - 1] != c
    ensures forall i :: |t| <= i < |s| ==> s[i] == c
    decreases |s|
  {
    if |s| > 0 && s[|s| - 1] == c then TrimTrailing(s[..|s| - 1], c) else s
  }

  lemma {:induction false} TrimTrailingRun(x: string, p: string, c: char)
    requires |x| == 0 || x[|x| - 1] != c
    requires forall i :: 0 <= i < |p| ==> p[i] == c
    ensures TrimTrailing(x + p, c) == x
    decreases |p|
  {
    if |p| > 0 {
      assert (x + p)[..|x + p| - 1] == x + p[..|p| - 1];
      TrimTrailingRun(x, p[..|p| - 1], c);
    } else {
      assert x + p == x;
    }
  }

  /** Characters of Table 2 of RFC 4648 for the given groups, without padding. */
  function UrlSextetChars(s: seq<Sextet>): (t: string)
    ensures |t| == |s|
    ensures forall i :: 0 <= i < |s| ==> t[i] == UrlSextetChar(s[i])
  {
    seq(|s|, i requires 0 <= i < |s| => UrlSextetChar(s[i]))
  }

  predicate IsUrlSafe(c: char) { IsAlnum(c) || c == '-' || c == '_' }

  /**
    The component's `base64urlencode`: `btoa` of the bytes as a binary string,
    then `+` to `-`, `/` to `_`, and the trailing `=` removed. The result is the
    base64url encoding of section 5 of RFC 4648 without padding: only URL-safe
    characters, ceil(4n/3) of them.
   */
  function Base64UrlEncode(buffer: seq<Byte>): (r: string)
    ensures r == UrlSextetChars(Sextets(buffer))
    ensures |r| == (4 * |buffer| + 2) / 3
    ensures forall i :: 0 <= i < |r| ==> IsUrlSafe(r[i])
    ensures '+' !in r && '/' !in r && '=' !in r
  {
    var binary := BinaryString(buffer);
    StringBytesBinary(buffer);
    var standard := Btoa(binary).value;
    var urlSafe := ReplaceChar(ReplaceChar(standard, '+', '-'), '/', '_');
    SubstitutedEncoding(buffer);
    TrimTrailing(urlSafe, '=')
  }

  lemma SubstitutedEncoding(b: seq<Byte>)
    ensures TrimTrailing(ReplaceChar(ReplaceChar(Encode(b), '+', '-'), '/', '_'), '=')
            == UrlSextetChars(Sextets(b))
  {
    var s := Sextets(b);
    var u := UrlSextetChars(s);
    var r := ReplaceChar(ReplaceChar(Encode(b), '+', '-'), '/', '_');
    assert r == u + Padding(|b|);
    TrimTrailingRun(u, Padding(|b|), '=');
  }

  /** Re-pads to a multiple of 4 characters with `=`. */
  function Repad(s: string): (t: string)
    ensures |t| % 4 == 0 || |s| % 4 == 1
  {
    if |s| % 4 == 2 then s + "==" else if |s| % 4 == 3 then s + "=" else s
  }

  /** Decoding of base64url without padding: undo the substitutions, re-pad, decode. */
  function Base64UrlDecode(s: string): Option<seq<Byte>>
  {
    ForgivingDecode(Repad(ReplaceChar(ReplaceChar(s, '-', '+'), '_', '/')))
  }

  lemma Base64UrlRoundTrip(b: seq<Byte>)
    ensures Base64UrlDecode(Base64UrlEncode(b)) == Some(b)
  {
    var s := Sextets(b);
    var back := ReplaceChar(ReplaceChar(UrlSextetChars(s), '-', '+'), '_', '/');
    assert back == SextetChars(s);
    assert Repad(back) == Encode(b);
    DecodeEncode(b);
  }

  /** Two buffers with the same base64url encoding are equal. */
  lemma Base64UrlInjective(a: seq<Byte>, b: seq<Byte>)
    requires Base64UrlEncode(a) == Base64UrlEncode(b)
    ensures a == b
  {
    Base64UrlRoundTrip(a);
    Base64UrlRoundTrip(b);
  }
}
