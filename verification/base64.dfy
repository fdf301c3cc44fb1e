/** The "base64" Buffer encoding that the vault routes use as their reversible stand-in
    for encryption: the standard alphabet of section 4 of RFC 4648 with `=` padding when
    encoding, and Node's lenient reading when decoding (the URL-safe characters `-` and
    `_` are read as `+` and `/`, characters outside the alphabet are skipped, decoding
    stops at the first `=`, and a trailing group of one character yields nothing). */
module Base64 {
  import opened Common

  type Sextet = x: int | 0 <= x < 64

  /** The character of the alphabet of section 4 of RFC 4648 for a 6-bit value. */
  function CharOf(v: Sextet): (c: char)
    ensures c != '='
  {
    if v < 26 then ('A' as int + v) as char
    else if v < 52 then ('a' as int + (v - 26)) as char
    else if v < 62 then ('0' as int + (v - 52)) as char
    else if v == 62 then '+'
    else '/'
  }

  /** The 6-bit value the decoder reads for a character; None for a character it skips. */
  function ValueOf(c: char): (r: Option<Sextet>)
    ensures c == '=' ==> r.None?
  {
    if 'A' <= c <= 'Z' then Some(c as int - 'A' as int)
    else if 'a' <= c <= 'z' then Some(c as int - 'a' as int + 26)
    else if '0' <= c <= '9' then Some(c as int - '0' as int + 52)
    else if c == '+' || c == '-' then Some(62)
    else if c == '/' || c == '_' then Some(63)
    else None
  }

  /** Every character of the alphabet reads back as its own value. */
  lemma ValueOfCharOf(v: Sextet)
    ensures ValueOf(CharOf(v)) == Some(v)
  {
  }

  predicate IsAlphabet(c: char)
  {
    ('A' <= c <= 'Z') || ('a' <= c <= 'z') || ('0' <= c <= '9') || c == '+' || c == '/'
  }

  /** Four characters for three bytes. */
  function Quad(x: Byte, y: Byte, z: Byte): (q: string)
    ensures |q| == 4
  {
    [CharOf(x / 4), CharOf((x % 4) * 16 + y / 16), CharOf((y % 16) * 4 + z / 64), CharOf(z % 64)]
  }

  /** `Buffer.from(bytes).toString('base64')`: padded standard base64. */
  function Encode(b: seq<Byte>): (s: string)
    ensures |s| == 4 * ((|b| + 2) / 3)
    ensures forall i :: 0 <= i < |s| ==> IsAlphabet(s[i]) || s[i] == '='
    decreases |b|
  {
    if |b| == 0 then ""
    else if |b| == 1 then [CharOf(b[0] / 4), CharOf((b[0] % 4) * 16), '=', '=']
    else if |b| == 2 then [CharOf(b[0] / 4), CharOf((b[0] % 4) * 16 + b[1] / 16), CharOf((b[1] % 16) * 4), '=']
    else Quad(b[0], b[1], b[2]) + Encode(b[3..])
  }

  /** The 6-bit values the decoder reads, up to the first `=`. */
  function Sextets(s: string): seq<Sextet>
  {
    if s == [] || s[0] == '=' then []
    else
      match ValueOf(s[0])
      case Some(v) => [v] + Sextets(s[1..])
      case None => Sextets(s[1..])
  }

  function First(a: Sextet, b: Sextet): Byte { (a as int) * 4 + (b as int) / 16 }
  function Second(b: Sextet, c: Sextet): Byte { ((b as int) % 16) * 16 + (c as int) / 4 }
  function Third(c: Sextet, d: Sextet): Byte { ((c as int) % 4) * 64 + d as int }

  /** Regroups 6-bit values into bytes: four values give three bytes, a trailing three
      give two, a trailing two give one, a trailing one gives nothing. */
  function Assemble(v: seq<Sextet>): seq<Byte>
  {
    if |v| < 2 then []
    else if |v| == 2 then [First(v[0], v[1])]
    else if |v| == 3 then [First(v[0], v[1]), Second(v[1], v[2])]
    else [First(v[0], v[1]), Second(v[1], v[2]), Third(v[2], v[3])] + Assemble(v[4..])
  }

  /** `Buffer.from(s, 'base64')`. */
  function Decode(s: string): seq<Byte>
  {
    Assemble(Sextets(s))
  }

  lemma SplitMiddle(x: Byte, y: Byte)
    ensures ((x % 4) * 16 + y / 16) / 16 == x % 4
    ensures ((x % 4) * 16 + y / 16) % 16 == y / 16
  {
  }

  lemma SplitLast(y: Byte, z: Byte)
    ensures ((y % 16) * 4 + z / 64) / 4 == y % 16
    ensures ((y % 16) * 4 + z / 64) % 4 == z / 64
  {
  }

  /** The sextets of a string that starts with an alphabet character. */
  lemma SextetsCons(c: char, v: Sextet, rest: string)
    requires c == CharOf(v)
    ensures Sextets([c] + rest) == [v] + Sextets(rest)
  {
    ValueOfCharOf(v);
    assert ([c] + rest)[1..] == rest;
  }

  /** The three bytes behind a group of four characters come back out of it. */
  lemma {:induction false} QuadRoundTrip(x: Byte, y: Byte, z: Byte, rest: string)
    ensures Assemble(Sextets(Quad(x, y, z) + rest)) == [x, y, z] + Assemble(Sextets(rest))
  {
    var v0, v1, v2, v3 := x / 4, (x % 4) * 16 + y / 16, (y % 16) * 4 + z / 64, z % 64;
    QuadSextets(x, y, z, rest);
    QuadBytes(x, y, z);
    var v := [v0, v1, v2, v3] + Sextets(rest);
    assert v[4..] == Sextets(rest);
  }

  /** The decoder reads a group of four characters as the four values they encode. */
  lemma QuadSextets(x: Byte, y: Byte, z: Byte, rest: string)
    ensures Sextets(Quad(x, y, z) + rest) == [x / 4, (x % 4) * 16 + y / 16, (y % 16) * 4 + z / 64, z % 64] + Sextets(rest)
  {
    var v0, v1, v2, v3 := x / 4, (x % 4) * 16 + y / 16, (y % 16) * 4 + z / 64, z % 64;
    var c0, c1, c2, c3 := CharOf(v0), CharOf(v1), CharOf(v2), CharOf(v3);
    assert Quad(x, y, z) + rest == [c0] + ([c1] + ([c2] + ([c3] + rest)));
    SextetsCons(c3, v3, rest);
    SextetsCons(c2, v2, [c3] + rest);
    SextetsCons(c1, v1, [c2] + ([c3] + rest));
    SextetsCons(c0, v0, [c1] + ([c2] + ([c3] + rest)));
  }

  /** The four values of three bytes regroup into those bytes. */
  lemma QuadBytes(x: Byte, y: Byte, z: Byte)
    ensures First(x / 4, (x % 4) * 16 + y / 16) == x
    ensures Second((x % 4) * 16 + y / 16, (y % 16) * 4 + z / 64) == y
    ensures Third((y % 16) * 4 + z / 64, z % 64) == z
  {
    SplitMiddle(x, y);
    SplitLast(y, z);
  }

  /** A final group of one byte comes back out of its two characters and padding. */
  lemma OneByteRoundTrip(x: Byte)
    ensures Decode(Encode([x])) == [x]
  {
    var c0, c1 := CharOf(x / 4), CharOf((x % 4) * 16);
    assert Encode([x]) == [c0] + ([c1] + "==");
    SextetsCons(c1, (x % 4) * 16, "==");
    SextetsCons(c0, x / 4, [c1] + "==");
    assert Sextets(Encode([x])) == [x / 4, (x % 4) * 16];
  }

  /** A final group of two bytes comes back out of its three characters and padding. */
  lemma TwoBytesRoundTrip(x: Byte, y: Byte)
    ensures Decode(Encode([x, y])) == [x, y]
  {
    var v0, v1, v2 := x / 4, (x % 4) * 16 + y / 16, (y % 16) * 4;
    var c0, c1, c2 := CharOf(v0), CharOf(v1), CharOf(v2);
    assert Encode([x, y]) == [c0] + ([c1] + ([c2] + "="));
    SextetsCons(c2, v2, "=");
    SextetsCons(c1, v1, [c2] + "=");
    SextetsCons(c0, v0, [c1] + ([c2] + "="));
    assert Sextets(Encode([x, y])) == [v0, v1, v2];
    SplitMiddle(x, y);
    assert First(v0, v1) == x;
    assert Second(v1, v2) == y;
  }

  /** Decoding undoes encoding: `Buffer.from(Buffer.from(b).toString('base64'), 'base64')`
      gives back `b`. */
  lemma {:induction false} DecodeEncode(b: seq<Byte>)
    ensures Decode(Encode(b)) == b
    decreases |b|
  {
    if |b| == 1 {
      assert b == [b[0]];
      OneByteRoundTrip(b[0]);
    } else if |b| == 2 {
      assert b == [b[0], b[1]];
      TwoBytesRoundTrip(b[0], b[1]);
    } else if |b| > 2 {
      QuadRoundTrip(b[0], b[1], b[2], Encode(b[3..]));
      DecodeEncode(b[3..]);
      assert b == [b[0], b[1], b[2]] + b[3..];
    }
  }

  /** Encoding is injective: two different byte strings never share an encoding. */
  lemma EncodeInjective(a: seq<Byte>, b: seq<Byte>)
    requires Encode(a) == Encode(b)
    ensures a == b
  {
    DecodeEncode(a);
    DecodeEncode(b);
  }
}
