/**
  Character classes and the small string operations the component relies on:
  ASCII alphanumerics, ASCII lower-casing, `String.prototype.includes` and
  `Array.prototype.join(' ')`.
 */
module Chars {

  predicate IsUpper(c: char) { 'A' <= c <= 'Z' }

  predicate IsLower(c: char) { 'a' <= c <= 'z' }

  predicate IsDigit(c: char) { '0' <= c <= '9' }

  predicate IsAlnum(c: char) { IsUpper(c) || IsLower(c) || IsDigit(c) }

  predicate IsAlnumString(s: string) {
    forall i :: 0 <= i < |s| ==> IsAlnum(s[i])
  }

  predicate IsAscii(s: string) {
    forall i :: 0 <= i < |s| ==> s[i] as int < 128
  }

  /**
    The i-th character of the 62-character alphabet
    `ABCDEFGHIJKLMNOPQRSTUVWXYZabcdefghijklmnopqrstuvwxyz0123456789`.
   */
  function AlnumChar(i: int): (c: char)
    requires 0 <= i < 62
    ensures IsAlnum(c) && AlnumIndex(c) == i
  {
    if i < 26 then ('A' as int + i) as char
    else if i < 52 then ('a' as int + (i - 26)) as char
    else ('0' as int + (i - 52)) as char
  }

  /** The position of an alphanumeric character in that alphabet. */
  function AlnumIndex(c: char): (i: int)
    requires IsAlnum(c)
    ensures 0 <= i < 62
  {
    if IsUpper(c) then c as int - 'A' as int
    else if IsLower(c) then c as int - 'a' as int + 26
    else c as int - '0' as int + 52
  }

  lemma AlnumIndexChar(c: char)
    requires IsAlnum(c)
    ensures AlnumChar(AlnumIndex(c)) == c
  {
  }

  /** The `unreserved` characters of section 4.1 of RFC 7636 (and of RFC 3986). */
  predicate IsUnreserved(c: char) {
    IsAlnum(c) || c == '-' || c == '.' || c == '_' || c == '~'
  }

  /** `toLowerCase` restricted to ASCII: only `A`..`Z` change. */
  function LowerChar(c: char): (d: char)
    ensures !IsUpper(d)
    ensures IsAlnum(d) <==> IsAlnum(c)
    ensures IsUpper(c) ==> IsLower(d) && AlnumIndex(d) == AlnumIndex(c) + 26
    ensures !IsUpper(c) ==> d == c
  {
    if IsUpper(c) then (c as int + 32) as char else c
  }

  function Lower(s: string): (t: string)
    ensures |t| == |s|
    ensures forall i :: 0 <= i < |s| ==> t[i] == LowerChar(s[i])
  {
    seq(|s|, i requires 0 <= i < |s| => LowerChar(s[i]))
  }

  lemma LowerConcat(a: string, b: string)
    ensures Lower(a + b) == Lower(a) + Lower(b)
  {
  }

  /** `s.includes(k)`: `k` occurs in `s` as a contiguous piece. */
  predicate Includes(s: string, k: string)
    decreases |s|
  {
    |k| <= |s| && (s[..|k|] == k || (|s| > 0 && Includes(s[1..], k)))
  }

  /** `xs.join(' ')`. */
  function Join(xs: seq<string>): string
  {
    if |xs| == 0 then ""
    else if |xs| == 1 then xs[0]
    else xs[0] + " " + Join(xs[1..])
  }

  predicate HasNoSpace(k: string) {
    forall i :: 0 <= i < |k| ==> k[i] != ' '
  }

  /** Lower-casing the joined text is joining the lower-cased pieces. */
  lemma {:induction false} LowerJoin(xs: seq<string>)
    ensures Lower(Join(xs)) == Join(seq(|xs|, i requires 0 <= i < |xs| => Lower(xs[i])))
  {
    var ys := seq(|xs|, i requires 0 <= i < |xs| => Lower(xs[i]));
    if |xs| > 1 {
      LowerJoin(xs[1..]);
      assert ys[1..] == seq(|xs[1..]|, i requires 0 <= i < |xs[1..]| => Lower(xs[1..][i]));
      LowerConcat(xs[0] + " ", Join(xs[1..]));
      LowerConcat(xs[0], " ");
    }
  }

  /** `k` sits in `s` at position `p`. */
  predicate OccursAt(s: string, k: string, p: int) {
    0 <= p <= |s| - |k| && s[p..p + |k|] == k
  }

  /** A piece occurs in `s` exactly when it occurs at some position of `s`. */
  lemma {:induction false} IncludesAt(s: string, k: string)
    ensures Includes(s, k) <==> exists p :: OccursAt(s, k, p)
    decreases |s|
  {
    if |k| <= |s| && |s| > 0 {
      IncludesAt(s[1..], k);
      if Includes(s, k) {
        if s[..|k|] == k {
          assert s[0..0 + |k|] == k;
          assert OccursAt(s, k, 0);
        } else {
          var q :| OccursAt(s[1..], k, q);
          assert s[q + 1..q + 1 + |k|] == s[1..][q..q + |k|];
          assert OccursAt(s, k, q + 1);
        }
      }
      if exists p :: OccursAt(s, k, p) {
        var p :| OccursAt(s, k, p);
        if p > 0 {
          assert s[1..][p - 1..p - 1 + |k|] == s[p..p + |k|];
          assert OccursAt(s[1..], k, p - 1);
        }
      }
    } else if |k| <= |s| {
      assert s[0..0 + |k|] == k;
      assert OccursAt(s, k, 0);
    }
  }

  lemma {:induction false} IncludesPrefix(s: string, t: string, k: string)
    requires Includes(s, k)
    ensures Includes(s + t, k)
    decreases |s|
  {
    if s[..|k|] == k {
      assert (s + t)[..|k|] == k;
    } else {
      assert (s + t)[1..] == s[1..] + t;
      IncludesPrefix(s[1..], t, k);
    }
  }

  lemma {:induction false} IncludesSuffix(s: string, t: string, k: string)
    requires Includes(t, k)
    ensures Includes(s + t, k)
    decreases |s|
  {
    if |s| == 0 {
      assert s + t == t;
    } else {
      assert (s + t)[1..] == s[1..] + t;
      IncludesSuffix(s[1..], t, k);
    }
  }

  /**
    A non-empty piece without a space that occurs in `x + " " + y` occurs in `x`
    or in `y`, and conversely: the separator cannot be part of a match.
   */
  lemma {:induction false} IncludesAcrossSpace(x: string, y: string, k: string)
    requires |k| > 0 && HasNoSpace(k)
    ensures Includes(x + " " + y, k) <==> Includes(x, k) || Includes(y, k)
    decreases |x|
  {
    var s := x + " " + y;
    if Includes(x, k) {
      IncludesPrefix(x, " " + y, k);
      assert x + (" " + y) == s;
    }
    if Includes(y, k) {
      IncludesSuffix(x + " ", y, k);
    }
    if Includes(s, k) {
      if |x| == 0 {
        assert s[0] == ' ';
        assert s[..|k|] != k by { assert k[0] != ' '; }
        assert s[1..] == y;
      } else if |k| <= |x| && s[..|k|] == k {
        assert x[..|k|] == s[..|k|];
      } else {
        if |x| < |k| <= |s| {
          NoMatchAcrossSpace(x, y, k);
        }
        assert s[1..] == x[1..] + " " + y;
        IncludesAcrossSpace(x[1..], y, k);
        if Includes(x[1..], k) {
          IncludesSuffix([x[0]], x[1..], k);
          assert [x[0]] + x[1..] == x;
        }
      }
    }
  }

  lemma NoMatchAcrossSpace(x: string, y: string, k: string)
    requires HasNoSpace(k) && |x| < |k| <= |x| + 1 + |y|
    ensures (x + " " + y)[..|k|] != k
  {
    var s := x + " " + y;
    assert s[|x|] == ' ';
    assert k[|x|] != ' ';
  }

  /** A non-empty piece without a space occurs in the space-joined text iff it occurs in one piece. */
  lemma {:induction false} IncludesJoin(xs: seq<string>, k: string)
    requires |k| > 0 && HasNoSpace(k)
    ensures Includes(Join(xs), k) <==> exists i :: 0 <= i < |xs| && Includes(xs[i], k)
  {
    if |xs| == 0 {
      assert !Includes("", k);
    } else if |xs| == 1 {
    } else {
      IncludesJoin(xs[1..], k);
      IncludesAcrossSpace(xs[0], Join(xs[1..]), k);
      if exists i :: 0 <= i < |xs| && Includes(xs[i], k) {
        var i :| 0 <= i < |xs| && Includes(xs[i], k);
        if i > 0 {
          assert xs[1..][i - 1] == xs[i];
        }
      }
      if exists i :: 0 <= i < |xs[1..]| && Includes(xs[1..][i], k) {
        var i :| 0 <= i < |xs[1..]| && Includes(xs[1..][i], k);
        assert xs[i + 1] == xs[1..][i];
      }
    }
  }
}
