/** Bytes and the ASCII codec (`bytes.decode("ascii")`, `str.encode("ascii")`)
    that the request wrapper uses to turn raw request fields into text. */
module Ascii {
  import opened Results

  newtype byte = x: int | 0 <= x < 256

  type Bytes = seq<byte>

  /** The error `bytes.decode("ascii")` raises: the index of the first byte
      outside the 7-bit range. */
  datatype DecodeError = NonAsciiByte(position: nat)

  predicate IsAscii(b: Bytes) {
    forall i :: 0 <= i < |b| ==> b[i] < 128
  }

  predicate IsAsciiText(s: string) {
    forall i :: 0 <= i < |s| ==> s[i] as int < 128
  }

  /** Decodes bytes as ASCII, failing at the first byte of 128 or more. */
  function Decode(b: Bytes): (r: Result<string, DecodeError>)
    ensures r.Ok? <==> IsAscii(b)
    ensures r.Ok? ==> |r.value| == |b| && forall i :: 0 <= i < |b| ==> r.value[i] as int == b[i] as int
    ensures r.Err? ==> r.error.position < |b| && b[r.error.position] >= 128 && IsAscii(b[..r.error.position])
  {
    if b == [] then Ok([])
    else if b[0] >= 128 then Err(NonAsciiByte(0))
    else
      match Decode(b[1..])
      case Ok(rest) => Ok([b[0] as int as char] + rest)
      case Err(NonAsciiByte(p)) => Err(NonAsciiByte(p + 1))
  }

  /** Encodes text made of ASCII characters only, one byte per character. */
  function Encode(s: string): (b: Bytes)
    requires IsAsciiText(s)
    ensures |b| == |s| && IsAscii(b)
  {
    seq(|s|, i requires 0 <= i < |s| => s[i] as int as byte)
  }

  /** Encoding then decoding gives the text back. */
  lemma DecodeEncode(s: string)
    requires IsAsciiText(s)
    ensures Decode(Encode(s)) == Ok(s)
  {
    var r := Decode(Encode(s));
    assert r.value == s by {
      forall i | 0 <= i < |s| ensures r.value[i] == s[i] {
        assert r.value[i] as int == Encode(s)[i] as int == s[i] as int;
      }
    }
  }

  /** Decoding then encoding gives the bytes back, so decoding is injective. */
  lemma EncodeDecode(b: Bytes)
    requires Decode(b).Ok?
    ensures IsAsciiText(Decode(b).value) && Encode(Decode(b).value) == b
  {
  }

  /** ASCII lower-casing of one byte, the folding used for header names. */
  function LowerByte(x: byte): (y: byte)
    ensures 65 <= x <= 90 ==> y as int == x as int + 32
    ensures !(65 <= x <= 90) ==> y == x
  {
    if 65 <= x <= 90 then x + 32 else x
  }

  function Lower(b: Bytes): (l: Bytes)
    ensures |l| == |b|
    ensures forall i :: 0 <= i < |b| ==> l[i] == LowerByte(b[i])
  {
    seq(|b|, i requires 0 <= i < |b| => LowerByte(b[i]))
  }

  /** Lower-casing twice is lower-casing once. */
  lemma LowerIdempotent(b: Bytes)
    ensures Lower(Lower(b)) == Lower(b)
  {
  }
}
