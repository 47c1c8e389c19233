/**
 * The shape check applied to a private key before anything is signed
 * (`is_valid_private_key`): strip surrounding whitespace, lower-case, drop one
 * leading "0x", then demand exactly 64 hexadecimal digits.
 */
module KeyFormat {

  /**
   * The code points for which Python's `str.isspace()` holds; `str.strip()` removes these.
   * None of them is an ASCII letter or digit.
   */
  predicate IsSpace(c: char): (ok: bool)
    ensures ok ==> !('0' <= c <= '9') && !('a' <= c <= 'z') && !('A' <= c <= 'Z')
  {
    ('\U{9}' <= c <= '\U{D}') || ('\U{1C}' <= c <= '\U{20}') || c == '\U{85}' || c == '\U{A0}'
    || c == '\U{1680}' || ('\U{2000}' <= c <= '\U{200A}') || c == '\U{2028}' || c == '\U{2029}'
    || c == '\U{202F}' || c == '\U{205F}' || c == '\U{3000}'
  }

  /** `s.lstrip()`: the longest suffix of `s` whose every dropped character is whitespace. */
  function TrimStart(s: string): (r: string)
    ensures |r| <= |s| && r == s[|s| - |r|..]
    ensures forall i :: 0 <= i < |s| - |r| ==> IsSpace(s[i])
    ensures r == [] || !IsSpace(r[0])
  {
    if |s| > 0 && IsSpace(s[0]) then
      var r := TrimStart(s[1..]);
      assert s[1..][|s| - 1 - |r|..] == s[|s| - |r|..];
      assert forall i :: 1 <= i < |s| - |r| ==> s[i] == s[1..][i - 1];
      r
    else s
  }

  /** `s.rstrip()`: the longest prefix of `s` whose every dropped character is whitespace. */
  function TrimEnd(s: string): (r: string)
    ensures |r| <= |s| && r == s[..|r|]
    ensures forall i :: |r| <= i < |s| ==> IsSpace(s[i])
    ensures r == [] || !IsSpace(r[|r| - 1])
  {
    if |s| > 0 && IsSpace(s[|s| - 1]) then
      var r := TrimEnd(s[..|s| - 1]);
      assert s[..|s| - 1][..|r|] == s[..|r|];
      assert forall i :: |r| <= i < |s| - 1 ==> s[i] == s[..|s| - 1][i];
      r
    else s
  }

  /** `s.strip()`. */
  function Strip(s: string): (r: string)
    ensures r == [] || (!IsSpace(r[0]) && !IsSpace(r[|r| - 1]))
  {
    TrimEnd(TrimStart(s))
  }

  /** Case mapping of one character, for the ASCII letters. */
  function LowerChar(c: char): (d: char)
  {
    if 'A' <= c <= 'Z' then (c as int - 'A' as int + 'a' as int) as char else c
  }

  /** `s.lower()`, character by character. */
  function Lower(s: string): (r: string)
    ensures |r| == |s|
    ensures forall i :: 0 <= i < |s| ==> r[i] == LowerChar(s[i])
  {
    if s == [] then [] else [LowerChar(s[0])] + Lower(s[1..])
  }

  /** One character of the class `[0-9a-f]`. */
  predicate IsHexDigit(c: char)
  {
    ('0' <= c <= '9') || ('a' <= c <= 'f')
  }

  /**
   * Exactly 64 characters of `[0-9a-f]`: no matched character is whitespace or an `x`.
   * This is the answer `re.match` gives for `^[0-9a-f]{64}$` on a text that does not end
   * in a newline; `PatternMatch` is the answer on any text, and `PatternMatchAfterStrip`
   * shows the two agree on what the validator looks at.
   */
  predicate IsHex64(t: string): (ok: bool)
    ensures ok ==> |t| == 64 && forall i :: 0 <= i < |t| ==> !IsSpace(t[i]) && t[i] != 'x'
  {
    |t| == 64 && forall i :: 0 <= i < |t| ==> IsHexDigit(t[i])
  }

  /**
   * `re.match(r'^[0-9a-f]{64}$', t)`: since `$` also matches just before one final
   * newline, 64 digits followed by "\n" match as well.
   */
  predicate PatternMatch(t: string)
  {
    IsHex64(t) || (|t| == 65 && t[64] == '\n' && IsHex64(t[..64]))
  }

  /** One leading "0x" removed, as `startswith('0x')` followed by `[2:]`. */
  function DropHexPrefix(t: string): (r: string)
    ensures |t| >= 2 && t[0] == '0' && t[1] == 'x' ==> r == t[2..]
    ensures !(|t| >= 2 && t[0] == '0' && t[1] == 'x') ==> r == t
  {
    if |t| >= 2 && t[..2] == "0x" then t[2..] else t
  }

  /**
   * `is_valid_private_key`. An accepted key, once stripped, has 64 characters, or 66
   * with the prefix; `ValidPrivateKeyIff` describes the accepted set exactly.
   */
  predicate IsValidPrivateKey(key: string): (ok: bool)
    ensures ok ==> |Strip(key)| == 64 || |Strip(key)| == 66
  {
    IsHex64(DropHexPrefix(Lower(Strip(key))))
  }

  /**
   * The regular expression sees a stripped key, which never ends in a newline, so its
   * `$` leniency never comes into play: `IsHex64` gives the pattern's answer.
   */
  lemma PatternMatchAfterStrip(key: string)
    ensures IsValidPrivateKey(key) <==> PatternMatch(DropHexPrefix(Lower(Strip(key))))
  {
  }

  /** `$` accepts one trailing newline, which the full match `IsHex64` does not. */
  lemma PatternAcceptsFinalNewline()
    ensures PatternMatch(Repeat('a', 64) + "\n") && !IsHex64(Repeat('a', 64) + "\n")
  {
    assert (Repeat('a', 64) + "\n")[..64] == Repeat('a', 64);
  }

  // ---------------------------------------------------------------------------
  // An independent statement of what is accepted, on the stripped text itself.

  predicate IsHexDigitAnyCase(c: char)
  {
    IsHexDigit(c) || ('A' <= c <= 'F')
  }

  predicate AllHexAnyCase(t: string)
  {
    forall i :: 0 <= i < |t| ==> IsHexDigitAnyCase(t[i])
  }

  /** The stripped key is 64 hex digits in either case, or "0x"/"0X" followed by 64 of them. */
  predicate AcceptedShape(key: string)
  {
    KeyShape(Strip(key))
  }

  /** 64 hex digits in either case, or "0x"/"0X" followed by 64 of them. */
  predicate KeyShape(t: string)
  {
    (|t| == 64 && AllHexAnyCase(t))
    || (|t| == 66 && t[0] == '0' && (t[1] == 'x' || t[1] == 'X') && AllHexAnyCase(t[2..]))
  }

  lemma LowerCharFacts(c: char)
    ensures IsHexDigit(LowerChar(c)) <==> IsHexDigitAnyCase(c)
    ensures LowerChar(c) == '0' <==> c == '0'
    ensures LowerChar(c) == 'x' <==> (c == 'x' || c == 'X')
  {
  }

  /** The validator accepts exactly the keys of `AcceptedShape`. */
  lemma ValidPrivateKeyIff(key: string)
    ensures IsValidPrivateKey(key) <==> AcceptedShape(key)
  {
    var t := Strip(key);
    var u := Lower(t);
    forall i | 0 <= i < |t| ensures IsHexDigit(u[i]) <==> IsHexDigitAnyCase(t[i]) {
      LowerCharFacts(t[i]);
    }
    if |t| >= 2 {
      LowerCharFacts(t[0]);
      LowerCharFacts(t[1]);
    }
    if |u| >= 2 && u[0] == '0' && u[1] == 'x' {
      assert DropHexPrefix(u) == u[2..];
      assert !IsHexDigitAnyCase(t[1]);
      if IsValidPrivateKey(key) {
        forall i | 0 <= i < |t[2..]| ensures IsHexDigitAnyCase(t[2..][i]) {
          assert u[2..][i] == u[i + 2];
        }
      }
      if AcceptedShape(key) {
        assert |t| == 66;
        forall i | 0 <= i < |u[2..]| ensures IsHexDigit(u[2..][i]) {
          assert t[2..][i] == t[i + 2];
        }
      }
    } else {
      assert DropHexPrefix(u) == u;
    }
  }

  /** Whitespace around a key is ignored: `Strip(pre + t + post) == t`. */
  lemma {:induction false} StripPadded(pre: string, t: string, post: string)
    requires forall i :: 0 <= i < |pre| ==> IsSpace(pre[i])
    requires forall i :: 0 <= i < |post| ==> IsSpace(post[i])
    requires t == [] || (!IsSpace(t[0]) && !IsSpace(t[|t| - 1]))
    ensures Strip(pre + t + post) == t
  {
    if t == [] {
      assert pre + t + post == pre + post;
      AllSpaceStrips(pre + post);
    } else {
      assert pre + t + post == pre + (t + post);
      TrimStartPadded(pre, t + post);
      TrimEndPadded(t, post);
    }
  }

  lemma AllSpaceStrips(s: string)
    requires forall i :: 0 <= i < |s| ==> IsSpace(s[i])
    ensures Strip(s) == []
  {
  }

  lemma {:induction false} TrimStartPadded(pre: string, rest: string)
    requires forall i :: 0 <= i < |pre| ==> IsSpace(pre[i])
    requires rest == [] || !IsSpace(rest[0])
    ensures TrimStart(pre + rest) == rest
  {
    if pre != [] {
      assert (pre + rest)[1..] == pre[1..] + rest;
      TrimStartPadded(pre[1..], rest);
    } else {
      assert pre + rest == rest;
    }
  }

  lemma {:induction false} TrimEndPadded(t: string, post: string)
    requires forall i :: 0 <= i < |post| ==> IsSpace(post[i])
    requires t == [] || !IsSpace(t[|t| - 1])
    ensures TrimEnd(t + post) == t
  {
    if post != [] {
      var s := t + post;
      assert s[..|s| - 1] == t + post[..|post| - 1];
      TrimEndPadded(t, post[..|post| - 1]);
    } else {
      assert t + post == t;
    }
  }

  // ---------------------------------------------------------------------------
  // Boundary cases: prefixes, padding, lengths and non-hex digits.

  function Repeat(c: char, n: nat): (r: string)
    ensures |r| == n
    ensures forall i :: 0 <= i < n ==> r[i] == c
  {
    if n == 0 then [] else [c] + Repeat(c, n - 1)
  }

  lemma StripUnpadded(s: string)
    requires s == [] || (!IsSpace(s[0]) && !IsSpace(s[|s| - 1]))
    ensures Strip(s) == s
  {
    StripPadded([], s, []);
    assert [] + s + [] == s;
  }

  /** "0x" followed by 64 lower-case digits, and "0X" followed by 64 upper-case ones, are accepted. */
  lemma PrefixedKeysAccepted()
    ensures IsValidPrivateKey("0x" + Repeat('a', 64))
    ensures IsValidPrivateKey("0X" + Repeat('A', 64))
  {
    PrefixedRunAccepted('x', 'a');
    PrefixedRunAccepted('X', 'A');
  }

  lemma PrefixedRunAccepted(x: char, d: char)
    requires x == 'x' || x == 'X'
    requires IsHexDigitAnyCase(d)
    ensures IsValidPrivateKey(['0', x] + Repeat(d, 64))
  {
    PrefixedDigitsAccepted(x, Repeat(d, 64));
  }

  lemma PrefixedDigitsAccepted(x: char, digits: string)
    requires x == 'x' || x == 'X'
    requires |digits| == 64 && AllHexAnyCase(digits)
    ensures IsValidPrivateKey(['0', x] + digits)
  {
    AfterTwo('0', x, digits);
    PrefixedKeyAccepted(['0', x] + digits, digits);
  }

  lemma PrefixedKeyAccepted(k: string, digits: string)
    requires |k| == 66 && k[0] == '0' && (k[1] == 'x' || k[1] == 'X')
    requires k[2..] == digits && AllHexAnyCase(digits)
    ensures IsValidPrivateKey(k)
  {
    assert k[65] == digits[63];
    StripUnpadded(k);
    ShapeAccepted(k);
  }

  lemma ShapeAccepted(k: string)
    requires AcceptedShape(k)
    ensures IsValidPrivateKey(k)
  {
    ValidPrivateKeyIff(k);
  }

  lemma AfterTwo(a: char, b: char, s: string)
    ensures ([a, b] + s)[2..] == s
  {
  }

  /** Surrounding whitespace, here a space and a trailing newline, does not matter. */
  lemma PaddedKeyAccepted()
    ensures IsValidPrivateKey(" " + Repeat('f', 64) + "\n")
  {
    PaddedDigitsAccepted(Repeat('f', 64));
  }

  lemma PaddedDigitsAccepted(digits: string)
    requires |digits| == 64 && AllHexAnyCase(digits)
    ensures IsValidPrivateKey(" " + digits + "\n")
  {
    StripPadded(" ", digits, "\n");
    ValidPrivateKeyIff(" " + digits + "\n");
  }

  /** 63 digits are too few, 'g' is not a hex digit, and "0x" does not count towards the 64. */
  lemma MalformedKeysRejected()
    ensures !IsValidPrivateKey(Repeat('a', 63))
    ensures !IsValidPrivateKey(Repeat('g', 64))
    ensures !IsValidPrivateKey("0x" + Repeat('a', 63))
  {
    RunRejected('a', 63);
    RunRejected('g', 64);
    PrefixedShortRunRejected('a', 63);
  }

  lemma RunRejected(d: char, n: nat)
    requires n > 0 && !IsSpace(d)
    requires n != 66 && (n != 64 || !IsHexDigitAnyCase(d))
    ensures !IsValidPrivateKey(Repeat(d, n))
  {
    var k := Repeat(d, n);
    if n == 64 {
      NonHexRejected(k);
    } else {
      WrongLengthRejected(k);
    }
  }

  lemma PrefixedShortRunRejected(d: char, n: nat)
    requires n > 0 && n != 62 && n != 64 && !IsSpace(d)
    ensures !IsValidPrivateKey("0x" + Repeat(d, n))
  {
    WrongLengthRejected("0x" + Repeat(d, n));
  }

  lemma WrongLengthRejected(k: string)
    requires k == [] || (!IsSpace(k[0]) && !IsSpace(k[|k| - 1]))
    requires |k| != 64 && |k| != 66
    ensures !IsValidPrivateKey(k)
  {
    StripUnpadded(k);
    ValidPrivateKeyIff(k);
  }

  lemma NonHexRejected(k: string)
    requires |k| == 64 && !IsSpace(k[0]) && !IsSpace(k[63])
    requires !IsHexDigitAnyCase(k[0])
    ensures !IsValidPrivateKey(k)
  {
    StripUnpadded(k);
    ValidPrivateKeyIff(k);
  }
}
