/** Well-formed UTF-8 (The Unicode Standard, section 3.9, Table 3-7), which
    `String::from_utf8` checks and `FromUtf8Error` reports. */
module Utf8 {
  import opened Ints

  predicate IsContinuation(b: u8) { 0x80 <= b <= 0xBF }

  /** The length of the encoded character at the head of `b`, or 0 when the
      head is not a well-formed sequence. */
  function CharWidth(b: Bytes): (w: nat)
    requires b != []
    ensures w <= 4 && w <= |b|
    ensures w == 1 <==> b[0] <= 0x7F
  {
    var b0 := b[0];
    if b0 <= 0x7F then 1
    else if 0xC2 <= b0 <= 0xDF then
      if 2 <= |b| && IsContinuation(b[1]) then 2 else 0
    else if b0 == 0xE0 then
      if 3 <= |b| && 0xA0 <= b[1] <= 0xBF && IsContinuation(b[2]) then 3 else 0
    else if (0xE1 <= b0 <= 0xEC) || (0xEE <= b0 <= 0xEF) then
      if 3 <= |b| && IsContinuation(b[1]) && IsContinuation(b[2]) then 3 else 0
    else if b0 == 0xED then
      if 3 <= |b| && 0x80 <= b[1] <= 0x9F && IsContinuation(b[2]) then 3 else 0
    else if b0 == 0xF0 then
      if 4 <= |b| && 0x90 <= b[1] <= 0xBF && IsContinuation(b[2]) && IsContinuation(b[3]) then 4 else 0
    else if 0xF1 <= b0 <= 0xF3 then
      if 4 <= |b| && IsContinuation(b[1]) && IsContinuation(b[2]) && IsContinuation(b[3]) then 4 else 0
    else if b0 == 0xF4 then
      if 4 <= |b| && 0x80 <= b[1] <= 0x8F && IsContinuation(b[2]) && IsContinuation(b[3]) then 4 else 0
    else 0
  }

  /** `b` is a sequence of well-formed encoded characters. */
  predicate ValidUtf8(b: Bytes)
    decreases |b|
  {
    b == [] || (CharWidth(b) > 0 && ValidUtf8(b[CharWidth(b)..]))
  }

  /** `Utf8Error::valid_up_to`: the length of the longest prefix made of
      whole well-formed characters. */
  function ValidUpTo(b: Bytes): (n: nat)
    ensures n <= |b|
    ensures n < |b| ==> CharWidth(b[n..]) == 0
    decreases |b|
  {
    if b == [] || CharWidth(b) == 0 then
      assert b[0..] == b;
      0
    else
      var w := CharWidth(b);
      var m := ValidUpTo(b[w..]);
      assert b[w..][m..] == b[w + m..];
      w + m
  }

  /** Checking and `valid_up_to` agree: a string is well-formed exactly when
      its valid prefix is all of it, and that prefix is itself well-formed. */
  lemma {:induction false} ValidUpToSpec(b: Bytes)
    ensures ValidUtf8(b) <==> ValidUpTo(b) == |b|
    ensures ValidUtf8(b[..ValidUpTo(b)])
    decreases |b|
  {
    if b != [] && CharWidth(b) > 0 {
      var w := CharWidth(b);
      ValidUpToSpec(b[w..]);
      var p := b[..ValidUpTo(b)];
      assert p[..w] == b[..w];
      assert p[w..] == b[w..][..ValidUpTo(b[w..])];
      CharWidthPrefix(b, p);
    } else {
      assert b[..0] == [];
    }
  }

  /** The width of the head character only depends on its own bytes. */
  lemma CharWidthPrefix(b: Bytes, p: Bytes)
    requires b != [] && CharWidth(b) > 0
    requires CharWidth(b) <= |p| && p[..CharWidth(b)] == b[..CharWidth(b)]
    ensures CharWidth(p) == CharWidth(b)
  {
    var w := CharWidth(b);
    assert p[0] == b[0];
    if w >= 2 { assert p[1] == b[1]; }
    if w >= 3 { assert p[2] == b[2]; }
    if w == 4 { assert p[3] == b[3]; }
  }

  /** Seven-bit bytes are always well-formed. */
  lemma {:induction false} AsciiIsValid(b: Bytes)
    requires forall i :: 0 <= i < |b| ==> b[i] <= 0x7F
    ensures ValidUtf8(b)
    decreases |b|
  {
    if b != [] {
      AsciiIsValid(b[1..]);
    }
  }

  /** The bytes of a seven-bit string. */
  function AsciiBytes(s: string): (r: Bytes)
    requires forall i :: 0 <= i < |s| ==> s[i] as int <= 0x7F
    ensures |r| == |s| && forall i :: 0 <= i < |s| ==> r[i] == s[i] as int
  {
    if s == [] then [] else [s[0] as int] + AsciiBytes(s[1..])
  }
}
