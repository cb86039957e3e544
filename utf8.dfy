/** `str::from_utf8`'s acceptance test, the well-formed byte sequences of
    RFC 3629 section 4: no overlong forms, no surrogates, nothing above
    U+10FFFF. Only whether a value passes matters to the request code. */
module Utf8 {
  import opened Ascii

  predicate IsContinuation(b: byte)
  {
    0x80 <= b <= 0xBF
  }

  /** The length of the well-formed character encoding that starts `s`,
      or 0 when `s` does not start with one. */
  function CharWidth(s: seq<byte>): nat
    requires s != []
  {
    var b := s[0];
    if b < 0x80 then 1
    else if 0xC2 <= b <= 0xDF then
      if |s| >= 2 && IsContinuation(s[1]) then 2 else 0
    else if 0xE0 <= b <= 0xEF then
      var lo: byte := if b == 0xE0 then 0xA0 else 0x80;
      var hi: byte := if b == 0xED then 0x9F else 0xBF;
      if |s| >= 3 && lo <= s[1] <= hi && IsContinuation(s[2]) then 3 else 0
    else if 0xF0 <= b <= 0xF4 then
      var lo: byte := if b == 0xF0 then 0x90 else 0x80;
      var hi: byte := if b == 0xF4 then 0x8F else 0xBF;
      if |s| >= 4 && lo <= s[1] <= hi && IsContinuation(s[2]) && IsContinuation(s[3]) then 4 else 0
    else 0
  }

  /** RFC 3629 section 1: the octets C0, C1 and F5 to FF never appear. */
  predicate ValidUtf8(s: seq<byte>): (valid: bool)
    decreases |s|
    ensures valid ==> forall i :: 0 <= i < |s| ==> s[i] != 0xC0 && s[i] != 0xC1 && s[i] < 0xF5
    ensures valid && s != [] ==> !IsContinuation(s[0])
  {
    s == [] || (var n := CharWidth(s); 0 < n <= |s| && ValidUtf8(s[n..]))
  }

  /** Pure ASCII text is valid UTF-8. */
  lemma {:induction false} AsciiIsUtf8(s: seq<byte>)
    requires forall i :: 0 <= i < |s| ==> IsAsciiByte(s[i])
    ensures ValidUtf8(s)
  {
    if s != [] {
      assert CharWidth(s) == 1;
      AsciiIsUtf8(s[1..]);
    }
  }
}
