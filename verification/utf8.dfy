/** The UTF-8 conversions of Node's `Buffer`: `Buffer.from(s)` writes each character of a
    string as one to four bytes (section 3 of RFC 3629), and `buf.toString('utf-8')` reads
    them back, putting U+FFFD in place of bytes that do not form a character. */
module Utf8 {
  import opened Common

  /** A byte of the form 10xxxxxx, which continues a multi-byte character. */
  predicate IsContinuation(b: Byte)
  {
    0x80 <= b < 0xC0
  }

  /** The bytes of one character: the scalar value's bits, split as the table of section
      3 of RFC 3629 lays them out, for 1, 2, 3 or 4 bytes. */
  function EncodeChar(c: char): (b: seq<Byte>)
    ensures 1 <= |b| <= 4
    ensures (c as int < 0x80) <==> |b| == 1
    ensures forall i :: 1 <= i < |b| ==> IsContinuation(b[i])
  {
    var v := c as int;
    if v < 0x80 then [v]
    else if v < 0x800 then [0xC0 + v / 64, 0x80 + v % 64]
    else if v < 0x10000 then [0xE0 + v / 4096, 0x80 + (v / 64) % 64, 0x80 + v % 64]
    else [0xF0 + v / 262144, 0x80 + (v / 4096) % 64, 0x80 + (v / 64) % 64, 0x80 + v % 64]
  }

  /** `Buffer.from(s)`: the characters' bytes one after another. */
  function Encode(s: string): (b: seq<Byte>)
    ensures |b| >= |s|
  {
    if s == [] then [] else EncodeChar(s[0]) + Encode(s[1..])
  }

  const Replacement: char := '\U{FFFD}'

  /** A value that may become a `char`: a Unicode scalar value. */
  predicate IsScalar(v: int)
  {
    (0 <= v < 0xD800) || (0xE000 <= v < 0x110000)
  }

  /** The first character of a non-empty byte string and the number of bytes it takes: a
      well-formed sequence gives its character, anything else gives U+FFFD for one byte. */
  function DecodeFirst(b: seq<Byte>): (r: (char, nat))
    requires |b| > 0
    ensures 1 <= r.1 <= |b| && r.1 <= 4
  {
    var b0 := b[0] as int;
    if b0 < 0x80 then (b0 as char, 1)
    else if 0xC0 <= b0 < 0xE0 && |b| >= 2 && IsContinuation(b[1]) then
      var v := (b0 - 0xC0) * 64 + (b[1] as int - 0x80);
      if 0x80 <= v then (v as char, 2) else (Replacement, 1)
    else if 0xE0 <= b0 < 0xF0 && |b| >= 3 && IsContinuation(b[1]) && IsContinuation(b[2]) then
      var v := (b0 - 0xE0) * 4096 + (b[1] as int - 0x80) * 64 + (b[2] as int - 0x80);
      if 0x800 <= v && IsScalar(v) then (v as char, 3) else (Replacement, 1)
    else if 0xF0 <= b0 < 0xF8 && |b| >= 4 && IsContinuation(b[1]) && IsContinuation(b[2]) && IsContinuation(b[3]) then
      var v := (b0 - 0xF0) * 262144 + (b[1] as int - 0x80) * 4096 + (b[2] as int - 0x80) * 64 + (b[3] as int - 0x80);
      if 0x10000 <= v && IsScalar(v) then (v as char, 4) else (Replacement, 1)
    else (Replacement, 1)
  }

  /** `buf.toString('utf-8')`: never fails, whatever the bytes. */
  function Decode(b: seq<Byte>): (s: string)
    ensures |s| <= |b|
    decreases |b|
  {
    if b == [] then []
    else
      var (c, n) := DecodeFirst(b);
      [c] + Decode(b[n..])
  }

  /** The bits of a two-byte character add back up to its value. */
  lemma Split2(v: int)
    requires 0 <= v
    ensures (v / 64) * 64 + v % 64 == v
  {
  }

  lemma Split3(v: int)
    requires 0 <= v
    ensures (v / 4096) * 4096 + ((v / 64) % 64) * 64 + v % 64 == v
  {
    assert v / 64 == (v / 4096) * 64 + (v / 64) % 64;
  }

  lemma Split4(v: int)
    requires 0 <= v
    ensures (v / 262144) * 262144 + ((v / 4096) % 64) * 4096 + ((v / 64) % 64) * 64 + v % 64 == v
  {
    assert v / 4096 == (v / 262144) * 64 + (v / 4096) % 64;
    Split3(v);
  }

  /** A character's bytes, whatever follows them, read back as that character. */
  lemma DecodeFirstEncodeChar(c: char, rest: seq<Byte>)
    ensures DecodeFirst(EncodeChar(c) + rest) == (c, |EncodeChar(c)|)
  {
    var v := c as int;
    var b := EncodeChar(c) + rest;
    if v < 0x80 {
    } else if v < 0x800 {
      Split2(v);
      assert (b[0] as int - 0xC0) * 64 + (b[1] as int - 0x80) == v;
    } else if v < 0x10000 {
      Split3(v);
      assert (b[0] as int - 0xE0) * 4096 + (b[1] as int - 0x80) * 64 + (b[2] as int - 0x80) == v;
    } else {
      Split4(v);
      assert (b[0] as int - 0xF0) * 262144 + (b[1] as int - 0x80) * 4096 + (b[2] as int - 0x80) * 64 + (b[3] as int - 0x80) == v;
    }
  }

  /** Reading back what was written gives the string back:
      `Buffer.from(s).toString('utf-8') == s` for every string of scalar values. */
  lemma {:induction false} DecodeEncode(s: string)
    ensures Decode(Encode(s)) == s
  {
    if s != [] {
      var e := EncodeChar(s[0]);
      DecodeFirstEncodeChar(s[0], Encode(s[1..]));
      assert (e + Encode(s[1..]))[|e|..] == Encode(s[1..]);
      DecodeEncode(s[1..]);
    }
  }

  /** Writing is injective: two different strings never have the same bytes. */
  lemma EncodeInjective(s: string, t: string)
    requires Encode(s) == Encode(t)
    ensures s == t
  {
    DecodeEncode(s);
    DecodeEncode(t);
  }
}
