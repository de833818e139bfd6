/** The hexadecimal codec around the login challenge (util.cpp), for buffers of any size. */
module Hex {
  import opened Octets
  import opened Options

  /** The value of a hexadecimal digit; the source throws on anything else. */
  function DigitValue(digit: bv8): Option<bv8> {
    if 0x30 <= digit <= 0x39 then Some(digit - 0x30)
    else
      var upper := digit & !0x20;
      if 0x41 <= upper <= 0x46 then Some(upper - 0x41 + 10) else None
  }

  predicate IsHex(digit: bv8) {
    0x30 <= digit <= 0x39 || 0x41 <= digit <= 0x46 || 0x61 <= digit <= 0x66
  }

  predicate AllHex(s: Octets) {
    forall b <- s :: IsHex(b)
  }

  lemma DigitValueIff(digit: bv8)
    ensures DigitValue(digit).Some? <==> IsHex(digit)
    ensures IsHex(digit) ==> DigitValue(digit).value < 16
  {
  }

  const HEX_CHARS: Octets := [0x30, 0x31, 0x32, 0x33, 0x34, 0x35, 0x36, 0x37,
                              0x38, 0x39, 0x61, 0x62, 0x63, 0x64, 0x65, 0x66]

  function HexChar(n: bv8): bv8
    requires n < 16
  {
    HEX_CHARS[n as int]
  }

  function Lower(digit: bv8): bv8 {
    if 0x41 <= digit <= 0x46 then digit | 0x20 else digit
  }

  function PairValue(high: bv8, low: bv8): bv8
    requires IsHex(high) && IsHex(low)
  {
    DigitValueIff(high);
    DigitValueIff(low);
    (DigitValue(high).value << 4) | DigitValue(low).value
  }

  /** The two characters a byte is written as. */
  function HighChar(b: bv8): bv8 {
    HexChar((b & 0xF0) >> 4)
  }

  function LowChar(b: bv8): bv8 {
    HexChar(b & 0x0F)
  }

  lemma CharValue(n: bv8)
    requires n < 16
    ensures IsHex(HexChar(n)) && DigitValue(HexChar(n)) == Some(n)
  {
  }

  lemma PairOfByte(b: bv8)
    ensures IsHex(HighChar(b)) && IsHex(LowChar(b))
    ensures PairValue(HighChar(b), LowChar(b)) == b
  {
    CharValue((b & 0xF0) >> 4);
    CharValue(b & 0x0F);
  }

  lemma CharOfDigit(digit: bv8)
    requires IsHex(digit)
    ensures DigitValue(digit).Some? && DigitValue(digit).value < 16
    ensures HexChar(DigitValue(digit).value) == Lower(digit)
  {
  }

  lemma ByteOfPair(high: bv8, low: bv8)
    requires IsHex(high) && IsHex(low)
    ensures var b := PairValue(high, low);
      HighChar(b) == Lower(high) && LowChar(b) == Lower(low)
  {
    CharOfDigit(high);
    CharOfDigit(low);
    var b := PairValue(high, low);
    assert (b & 0xF0) >> 4 == DigitValue(high).value && b & 0x0F == DigitValue(low).value;
  }

  function DecodeHex(hex: Octets): (buf: Octets)
    requires |hex| % 2 == 0 && AllHex(hex)
  {
    seq(|hex| / 2, i requires 0 <= i < |hex| / 2 => PairValue(hex[2 * i], hex[2 * i + 1]))
  }

  function EncodeHex(buf: Octets): (hex: Octets) {
    seq(2 * |buf|, i requires 0 <= i < 2 * |buf| => if i % 2 == 0 then HighChar(buf[i / 2]) else LowChar(buf[i / 2]))
  }

  function Lowercase(hex: Octets): Octets {
    seq(|hex|, i requires 0 <= i < |hex| => Lower(hex[i]))
  }

  lemma EncodedIsHex(buf: Octets)
    ensures AllHex(EncodeHex(buf))
  {
    var hex := EncodeHex(buf);
    forall i | 0 <= i < |hex| ensures IsHex(hex[i]) {
      PairOfByte(buf[i / 2]);
    }
  }

  lemma EncodedPair(buf: Octets, k: nat)
    requires k < |buf|
    ensures EncodeHex(buf)[2 * k] == HighChar(buf[k]) && EncodeHex(buf)[2 * k + 1] == LowChar(buf[k])
  {
  }

  /** Decoding an encoded buffer of any size returns it. */
  lemma DecodeOfEncode(buf: Octets)
    ensures AllHex(EncodeHex(buf))
    ensures DecodeHex(EncodeHex(buf)) == buf
  {
    EncodedIsHex(buf);
    var back := DecodeHex(EncodeHex(buf));
    forall k | 0 <= k < |buf| ensures back[k] == buf[k] {
      EncodedPair(buf, k);
      PairOfByte(buf[k]);
    }
  }

  /** Encoding a decoded string returns it in lower case. */
  lemma EncodeOfDecode(hex: Octets)
    requires |hex| % 2 == 0 && AllHex(hex)
    ensures EncodeHex(DecodeHex(hex)) == Lowercase(hex)
  {
    var buf := DecodeHex(hex);
    forall i | 0 <= i < |hex| ensures EncodeHex(buf)[i] == Lower(hex[i]) {
      var k := i / 2;
      ByteOfPair(hex[2 * k], hex[2 * k + 1]);
      assert buf[k] == PairValue(hex[2 * k], hex[2 * k + 1]);
    }
  }

  datatype HexResult = Decoded | TooShort | BadDigit(pair: nat)

  /** decode_hex_string; a thrown digit error leaves the pairs before it written. */
  method DecodeHexString(hex: Octets, outbuf: array<bv8>) returns (r: HexResult)
    modifies outbuf
    ensures r == TooShort <==> |hex| < 2 * outbuf.Length
    ensures r == TooShort ==> outbuf[..] == old(outbuf[..])
    ensures r == Decoded ==> AllHex(hex[..2 * outbuf.Length])
    ensures r == Decoded ==> outbuf[..] == DecodeHex(hex[..2 * outbuf.Length])
    ensures r.BadDigit? ==> r.pair < outbuf.Length
    ensures r.BadDigit? ==> !(IsHex(hex[2 * r.pair]) && IsHex(hex[2 * r.pair + 1])) && AllHex(hex[..2 * r.pair])
    ensures r.BadDigit? ==> outbuf[..] == DecodeHex(hex[..2 * r.pair]) + old(outbuf[..])[r.pair..]
  {
    if |hex| < outbuf.Length * 2 {
      return TooShort;
    }
    for i := 0 to outbuf.Length
      invariant AllHex(hex[..2 * i])
      invariant forall k | 0 <= k < i :: outbuf[k] == PairValue(hex[2 * k], hex[2 * k + 1])
      invariant forall k | i <= k < outbuf.Length :: outbuf[k] == old(outbuf[k])
    {
      DigitValueIff(hex[2 * i]);
      DigitValueIff(hex[2 * i + 1]);
      var high, low := DigitValue(hex[2 * i]), DigitValue(hex[2 * i + 1]);
      if high.None? || low.None? {
        return BadDigit(i);
      }
      OneMorePair(hex, i);
      outbuf[i] := (high.value << 4) | low.value;
    }
    return Decoded;
  }

  lemma OneMorePair(hex: Octets, i: nat)
    requires 2 * i + 1 < |hex| && AllHex(hex[..2 * i]) && IsHex(hex[2 * i]) && IsHex(hex[2 * i + 1])
    ensures AllHex(hex[..2 * (i + 1)])
  {
    assert hex[..2 * (i + 1)] == hex[..2 * i] + [hex[2 * i], hex[2 * i + 1]];
  }

  /** encode_hex_string. */
  method EncodeHexString(buf: array<bv8>) returns (outstr: array<bv8>)
    ensures fresh(outstr) && outstr[..] == EncodeHex(buf[..])
  {
    outstr := new bv8[2 * buf.Length];
    for i := 0 to buf.Length
      invariant forall k | 0 <= k < i :: outstr[2 * k] == HighChar(buf[k]) && outstr[2 * k + 1] == LowChar(buf[k])
    {
      outstr[2 * i] := HexChar((buf[i] & 0xF0) >> 4);
      outstr[2 * i + 1] := HexChar(buf[i] & 0x0F);
    }
    forall i | 0 <= i < 2 * buf.Length ensures outstr[i] == EncodeHex(buf[..])[i] {
      var k := i / 2;
      assert outstr[2 * k] == HighChar(buf[k]) && outstr[2 * k + 1] == LowChar(buf[k]);
    }
  }
}
