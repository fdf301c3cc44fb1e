/** The reversible text encoding the vault routes store secrets with: the text's UTF-8
    bytes in padded base64 (`Buffer.from(text).toString('base64')`), read back with
    `Buffer.from(encoded, 'base64').toString('utf-8')`. It hides nothing; it only keeps
    the stored value from being plain text. */
module Codec {
  import Base64
  import Utf8

  function Encode(text: string): (e: string)
    ensures |e| % 4 == 0
    ensures |e| >= |text| * 4 / 3
    ensures forall i :: 0 <= i < |e| ==> Base64.IsAlphabet(e[i]) || e[i] == '='
  {
    Base64.Encode(Utf8.Encode(text))
  }

  /** Reads a stored value back: for a value some text was stored as, that text. */
  function Decode(encoded: string): (text: string)
    ensures forall t :: Encode(t) == encoded ==> text == t
  {
    assert forall t :: Encode(t) == encoded ==> Utf8.Decode(Base64.Decode(encoded)) == t by {
      forall t | Encode(t) == encoded
        ensures Utf8.Decode(Base64.Decode(encoded)) == t
      {
        ReadsBack(t);
      }
    }
    Utf8.Decode(Base64.Decode(encoded))
  }

  lemma ReadsBack(text: string)
    ensures Utf8.Decode(Base64.Decode(Encode(text))) == text
  {
    Base64.DecodeEncode(Utf8.Encode(text));
    Utf8.DecodeEncode(text);
  }

  /** Decoding gives back every text that was encoded. */
  lemma DecodeEncode(text: string)
    ensures Decode(Encode(text)) == text
  {
    ReadsBack(text);
  }

  /** Two different texts are never stored alike. */
  lemma EncodeInjective(a: string, b: string)
    requires Encode(a) == Encode(b)
    ensures a == b
  {
    DecodeEncode(a);
    DecodeEncode(b);
  }
}
