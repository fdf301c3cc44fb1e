/** String operations the handlers rely on: the case-insensitive substring match of a
    search filter and the whitespace trimming of the registration validator. */
module Text {

  /** Folds the ASCII capitals to lower case; every other character is left alone. */
  function LowerChar(c: char): (d: char)
    ensures 'A' <= c <= 'Z' ==> d as int == c as int + 32
    ensures !('A' <= c <= 'Z') ==> d == c
  {
    if 'A' <= c <= 'Z' then (c as int + 32) as char else c
  }

  function Lower(s: string): (r: string)
    ensures |r| == |s|
    ensures forall i :: 0 <= i < |s| ==> r[i] == LowerChar(s[i])
  {
    if s == [] then [] else [LowerChar(s[0])] + Lower(s[1..])
  }

  /** `sub` occurs in `s` at position `i`. */
  ghost predicate OccursAt(s: string, sub: string, i: int)
  {
    0 <= i && i + |sub| <= |s| && s[i..i + |sub|] == sub
  }

  /** Dropping a first character that does not start an occurrence keeps every
      occurrence, shifted by one. */
  lemma ShiftOccurrences(s: string, sub: string)
    requires |s| >= 1 && !OccursAt(s, sub, 0)
    ensures (exists i :: OccursAt(s, sub, i)) <==> (exists i :: OccursAt(s[1..], sub, i))
  {
    var t := s[1..];
    forall i | OccursAt(t, sub, i)
      ensures OccursAt(s, sub, i + 1)
    {
      assert s[i + 1..i + 1 + |sub|] == t[i..i + |sub|];
    }
    forall i | OccursAt(s, sub, i)
      ensures OccursAt(t, sub, i - 1)
    {
      assert t[i - 1..i - 1 + |sub|] == s[i..i + |sub|];
    }
  }

  /** Whether `sub` is a substring of `s`, searched left to right. */
  function HasSubstring(s: string, sub: string): (b: bool)
    ensures b <==> exists i :: OccursAt(s, sub, i)
    decreases |s|
  {
    if |sub| > |s| then
      false
    else if s[..|sub|] == sub then
      assert OccursAt(s, sub, 0);
      true
    else
      ShiftOccurrences(s, sub);
      HasSubstring(s[1..], sub)
  }

  /** `needle` matches `hay` at position `i`, character by character, up to case. */
  ghost predicate MatchesAt(hay: string, needle: string, i: int)
  {
    0 <= i && i + |needle| <= |hay| && forall k :: 0 <= k < |needle| ==> LowerChar(hay[i + k]) == LowerChar(needle[k])
  }

  /** The `contains` filter in `insensitive` mode: true exactly when `needle` matches
      some stretch of `hay` with case ignored. */
  function ContainsInsensitive(hay: string, needle: string): (b: bool)
    ensures b <==> exists i :: MatchesAt(hay, needle, i)
  {
    var h, n := Lower(hay), Lower(needle);
    forall i
      ensures OccursAt(h, n, i) <==> MatchesAt(hay, needle, i)
    {
      if OccursAt(h, n, i) {
        forall k | 0 <= k < |needle|
          ensures LowerChar(hay[i + k]) == LowerChar(needle[k])
        {
          assert h[i..i + |n|][k] == n[k];
        }
      }
      if MatchesAt(hay, needle, i) {
        assert h[i..i + |n|] == n;
      }
    }
    HasSubstring(h, n)
  }

  /** Folding twice is folding once. */
  lemma LowerIdempotent(s: string)
    ensures Lower(Lower(s)) == Lower(s)
  {
    var l := Lower(s);
    forall i | 0 <= i < |s|
      ensures Lower(l)[i] == l[i]
    {
      assert l[i] == LowerChar(s[i]);
    }
  }

  /** The insensitive match ignores the case of both sides: case-folding the text or the
      search string first changes no answer, and the empty search matches every text. */
  lemma ContainsInsensitiveIgnoresCase(hay: string, needle: string)
    ensures ContainsInsensitive(Lower(hay), needle) == ContainsInsensitive(hay, needle)
    ensures ContainsInsensitive(hay, Lower(needle)) == ContainsInsensitive(hay, needle)
    ensures ContainsInsensitive(hay, "")
  {
    LowerIdempotent(hay);
    LowerIdempotent(needle);
    assert OccursAt(Lower(hay), Lower(""), 0);
  }

  /** The characters JavaScript's `\s` class matches, which the validator's `trim` strips. */
  predicate IsSpace(c: char)
  {
    || c == ' ' || c == '\t' || c == '\n' || c == '\r' || c == '\U{B}' || c == '\U{C}'
    || c == '\U{A0}' || c == '\U{1680}' || ('\U{2000}' <= c <= '\U{200A}')
    || c == '\U{2028}' || c == '\U{2029}' || c == '\U{202F}' || c == '\U{205F}'
    || c == '\U{3000}' || c == '\U{FEFF}'
  }

  function TrimStart(s: string): (r: string)
    ensures |r| <= |s| && r == s[|s| - |r|..]
    ensures forall j :: 0 <= j < |s| - |r| ==> IsSpace(s[j])
    ensures r != [] ==> !IsSpace(r[0])
  {
    if s != [] && IsSpace(s[0]) then TrimStart(s[1..]) else s
  }

  function TrimEnd(s: string): (r: string)
    ensures |r| <= |s| && r == s[..|r|]
    ensures forall j :: |r| <= j < |s| ==> IsSpace(s[j])
    ensures r != [] ==> !IsSpace(r[|r| - 1])
  {
    if s != [] && IsSpace(s[|s| - 1]) then TrimEnd(s[..|s| - 1]) else s
  }

  /** Strips leading and trailing white space: the result is a slice of `s` that neither
      starts nor ends with a space. */
  function Trim(s: string): (r: string)
    ensures |r| <= |s|
    ensures exists i :: OccursAt(s, r, i) && (forall j :: 0 <= j < i ==> IsSpace(s[j])) && (forall j :: i + |r| <= j < |s| ==> IsSpace(s[j]))
    ensures r != [] ==> !IsSpace(r[0]) && !IsSpace(r[|r| - 1])
  {
    var t := TrimStart(s);
    var r := TrimEnd(t);
    assert OccursAt(s, r, |s| - |t|);
    r
  }

  function DigitChar(d: nat): (c: char)
    requires d < 10
    ensures '0' <= c <= '9'
  {
    ('0' as int + d) as char
  }

  /** A natural number in decimal, as `String(n)` writes it. */
  function NatText(n: nat): (s: string)
    ensures |s| >= 1 && forall i :: 0 <= i < |s| ==> '0' <= s[i] <= '9'
  {
    if n < 10 then [DigitChar(n)] else NatText(n / 10) + [DigitChar(n % 10)]
  }

  /** An integer in decimal, with a leading `-` when negative. */
  function IntText(n: int): (s: string)
    ensures |s| >= 1
  {
    if n < 0 then "-" + NatText(-n) else NatText(n)
  }

  /** A boolean as `String(b)` writes it. */
  function BoolText(b: bool): string
  {
    if b then "true" else "false"
  }
}
