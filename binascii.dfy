/** `binascii.hexlify`, which turns the random bytes of a new session into
    its identifier, and its inverse `binascii.unhexlify`. */
module Binascii {
  import opened Results
  import opened Ascii

  /** The lower-case hexadecimal digit for a value below 16. */
  function HexDigit(n: nat): (d: byte)
    requires n < 16
    ensures IsHexDigit(d)
  {
    if n < 10 then (48 + n) as byte else (87 + n) as byte
  }

  predicate IsHexDigit(d: byte) {
    48 <= d <= 57 || 97 <= d <= 102
  }

  predicate IsHex(h: Bytes) {
    forall i :: 0 <= i < |h| ==> IsHexDigit(h[i])
  }

  /** The value of a hexadecimal digit of either case. */
  function HexValue(d: byte): (v: Option<nat>)
    ensures v.Some? ==> v.value < 16
    ensures v.Some? <==> (48 <= d <= 57 || 65 <= d <= 70 || 97 <= d <= 102)
  {
    if 48 <= d <= 57 then Some(d as nat - 48)
    else if 97 <= d <= 102 then Some(d as nat - 87)
    else if 65 <= d <= 70 then Some(d as nat - 55)
    else None
  }

  /** Two lower-case hexadecimal digits per byte, high nibble first. */
  function Hexlify(b: Bytes): (h: Bytes)
    ensures |h| == 2 * |b|
    ensures IsHex(h)
  {
    if b == [] then []
    else [HexDigit(b[0] as nat / 16), HexDigit(b[0] as nat % 16)] + Hexlify(b[1..])
  }

  /** Fails on an odd length or on a byte that is not a hexadecimal digit. */
  function Unhexlify(h: Bytes): (r: Option<Bytes>)
    ensures r.Some? ==> 2 * |r.value| == |h|
  {
    if h == [] then Some([])
    else if |h| == 1 then None
    else
      match (HexValue(h[0]), HexValue(h[1]), Unhexlify(h[2..]))
      case (Some(hi), Some(lo), Some(rest)) => Some([(16 * hi + lo) as byte] + rest)
      case _ => None
  }

  lemma DigitRoundTrip(n: nat)
    requires n < 16
    ensures HexValue(HexDigit(n)) == Some(n)
  {
  }

  /** Unhexlify undoes Hexlify. */
  lemma {:induction false} UnhexlifyHexlify(b: Bytes)
    ensures Unhexlify(Hexlify(b)) == Some(b)
  {
    if b != [] {
      var x := b[0] as nat;
      DigitRoundTrip(x / 16);
      DigitRoundTrip(x % 16);
      UnhexlifyHexlify(b[1..]);
      var h := Hexlify(b);
      assert h[2..] == Hexlify(b[1..]);
      assert [b[0]] + b[1..] == b;
    }
  }

  /** Distinct random bytes give distinct identifiers. */
  lemma HexlifyInjective(a: Bytes, b: Bytes)
    requires Hexlify(a) == Hexlify(b)
    ensures a == b
  {
    UnhexlifyHexlify(a);
    UnhexlifyHexlify(b);
  }
}
