/** Bytes and the ASCII-only text operations the request code relies on:
    Rust's `eq_ignore_ascii_case` on header names and the decimal digits
    of a header value. */
module Ascii {

  /** Rust's `u8`. */
  newtype byte = b: int | 0 <= b < 256

  const PLUS: byte := 0x2B   // '+'
  const MINUS: byte := 0x2D  // '-'

  predicate IsDigit(b: byte)
  {
    0x30 <= b <= 0x39
  }

  function DigitValue(b: byte): nat
    requires IsDigit(b)
  {
    (b - 0x30) as nat
  }

  predicate IsAsciiByte(b: byte)
  {
    b < 0x80
  }

  /** `char::to_ascii_lowercase`: only 'A'..'Z' change. */
  function LowerChar(c: char): char
  {
    if 'A' <= c <= 'Z' then (c as int + 32) as char else c
  }

  /** `str::to_ascii_lowercase`. */
  function ToAsciiLowercase(s: string): string
  {
    if s == [] then [] else [LowerChar(s[0])] + ToAsciiLowercase(s[1..])
  }

  /** `str::eq_ignore_ascii_case`: equal lengths, and the pairs of
      characters taken in order agree after ASCII lower-casing. */
  predicate EqIgnoreAsciiCase(a: string, b: string): (eq: bool)
    ensures eq ==> |a| == |b|
    ensures a == b ==> eq
  {
    |a| == |b| && (a == [] || (LowerChar(a[0]) == LowerChar(b[0]) && EqIgnoreAsciiCase(a[1..], b[1..])))
  }

  lemma {:induction false} ToAsciiLowercaseLength(s: string)
    ensures |ToAsciiLowercase(s)| == |s|
  {
    if s != [] {
      ToAsciiLowercaseLength(s[1..]);
    }
  }

  /** Comparing ignoring ASCII case is the same as lower-casing both
      sides and comparing exactly. */
  lemma {:induction false} EqIgnoreAsciiCaseIff(a: string, b: string)
    ensures EqIgnoreAsciiCase(a, b) <==> ToAsciiLowercase(a) == ToAsciiLowercase(b)
  {
    ToAsciiLowercaseLength(a);
    ToAsciiLowercaseLength(b);
    if a != [] && b != [] {
      EqIgnoreAsciiCaseIff(a[1..], b[1..]);
      var la, lb := ToAsciiLowercase(a), ToAsciiLowercase(b);
      assert la == [LowerChar(a[0])] + ToAsciiLowercase(a[1..]);
      assert lb == [LowerChar(b[0])] + ToAsciiLowercase(b[1..]);
      if la == lb {
        assert la[0] == lb[0];
        assert la[1..] == lb[1..];
      }
    }
  }

  /** A name already in lower case matches exactly the names that
      lower-case to it. */
  lemma MatchesLowercaseName(name: string, lower: string)
    requires ToAsciiLowercase(lower) == lower
    ensures EqIgnoreAsciiCase(name, lower) <==> ToAsciiLowercase(name) == lower
  {
    EqIgnoreAsciiCaseIff(name, lower);
  }

  /** The pairwise reading of `eq_ignore_ascii_case`. */
  lemma {:induction false} EqIgnoreAsciiCaseIndexwise(a: string, b: string)
    ensures EqIgnoreAsciiCase(a, b) <==>
              |a| == |b| && forall i :: 0 <= i < |a| ==> LowerChar(a[i]) == LowerChar(b[i])
  {
    if a != [] && b != [] {
      EqIgnoreAsciiCaseIndexwise(a[1..], b[1..]);
      if |a| == |b| && forall i :: 0 <= i < |a| ==> LowerChar(a[i]) == LowerChar(b[i]) {
        assert forall i :: 0 <= i < |a| - 1 ==> a[1..][i] == a[i + 1] && b[1..][i] == b[i + 1];
      }
    }
  }

  /** Text without upper-case letters is its own lower case. */
  lemma {:induction false} LowercaseFixed(s: string)
    requires forall i :: 0 <= i < |s| ==> !('A' <= s[i] <= 'Z')
    ensures ToAsciiLowercase(s) == s
  {
    if s != [] {
      LowercaseFixed(s[1..]);
    }
  }
}
