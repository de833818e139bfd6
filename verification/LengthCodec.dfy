/**
 The length prefix of a RouterOS API word: the encoder in sentence.cpp and the
 decoding steps in api.cpp, on 64-bit lengths with the source's bit operations.
 */
module LengthCodec {
  import opened Octets

  /** Octet k of a value, octet 0 being the least significant one. */
  function OctetAt(val: bv64, k: nat): bv8
    requires k < 4
  {
    match k
    case 0 => (val & 0xFF) as bv8
    case 1 => ((val >> 8) & 0xFF) as bv8
    case 2 => ((val >> 16) & 0xFF) as bv8
    case 3 => ((val >> 24) & 0xFF) as bv8
  }

  function BigEndian(val: bv64, size: nat): (s: Octets)
    requires 1 <= size <= 4
    ensures |s| == size
    ensures forall i :: 0 <= i < size ==> s[i] == OctetAt(val, size - 1 - i)
  {
    [OctetAt(val, size - 1)] + if size == 1 then [] else BigEndian(val, size - 1)
  }

  /** The octets that encode_length emits. */
  function LengthOctets(len: bv64): (s: Octets)
    ensures 1 <= |s| <= 5
  {
    if len < 0x80 then BigEndian(len, 1)
    else if len < 0x4000 then BigEndian(len | 0x8000, 2)
    else if len < 0x20_0000 then BigEndian(len | 0xC0_0000, 3)
    else if len < 0x1000_0000 then BigEndian(len | 0xE000_0000, 4)
    else [0xF0] + BigEndian(len, 4)
  }

  method AppendUint(val: bv64, size: nat, buf: ByteVector)
    requires 1 <= size <= 4
    modifies buf
    ensures buf.data == old(buf.data) + BigEndian(val, size)
    decreases size
  {
    buf.PushBack(OctetAt(val, size - 1));
    if size - 1 > 0 {
      AppendUint(val, size - 1, buf);
    }
  }

  method EncodeLength(len: bv64, buf: ByteVector)
    modifies buf
    ensures buf.data == old(buf.data) + LengthOctets(len)
  {
    if len < 0x80 {
      AppendUint(len, 1, buf);
    } else if len < 0x4000 {
      AppendUint(len | 0x8000, 2, buf);
    } else if len < 0x20_0000 {
      AppendUint(len | 0xC0_0000, 3, buf);
    } else if len < 0x1000_0000 {
      AppendUint(len | 0xE000_0000, 4, buf);
    } else {
      buf.PushBack(0xF0);
      AppendUint(len, 4, buf);
    }
  }

  /** What the first octet of a prefix says: its value bits, and how many octets follow. */
  datatype Form = Form(bits: bv8, more: nat) | BadForm

  function Classify(fbyte: bv8): (f: Form)
    ensures f.Form? ==> f.more <= 4
  {
    if fbyte & 0x80 == 0 then Form(fbyte, 0)
    else if fbyte & 0xC0 == 0x80 then Form(fbyte & !0xC0, 1)
    else if fbyte & 0xE0 == 0xC0 then Form(fbyte & !0xE0, 2)
    else if fbyte & 0xF0 == 0xE0 then Form(fbyte & !0xF0, 3)
    else if fbyte == 0xF0 then Form(fbyte, 4)
    else BadForm
  }

  /** The word length after the continuation octets have been shifted in, left to right. */
  function Accumulate(bits: bv8, more: Octets): bv64
  {
    if more == [] then bits as bv64
    else (Accumulate(bits, more[..|more| - 1]) << 8) | (more[|more| - 1] as bv64 & 0xFF)
  }

  datatype LengthScan = NeedMore | Malformed | Length(value: bv64, used: nat)

  /** A whole-buffer reading of the prefix at the front of s. */
  function DecodeLength(s: Octets): (r: LengthScan)
    ensures r.Length? ==> 1 <= r.used <= |s|
  {
    if s == [] then NeedMore else
    match Classify(s[0])
    case BadForm => Malformed
    case Form(bits, more) =>
      if |s| < 1 + more then NeedMore
      else Length(Accumulate(bits, s[1..1 + more]), 1 + more)
  }

  const SHORT_LIMIT: bv64 := 0x1000_0000

  /** The length a receiver computes from the octets emitted for len. */
  function Received(len: bv64): bv64
  {
    if len < SHORT_LIMIT then len else 0xF0_0000_0000 | (len & 0xFFFF_FFFF)
  }

  lemma Accumulate1(bits: bv8, a: bv8)
    ensures Accumulate(bits, [a]) == ((bits as bv64) << 8) | a as bv64
  {
    assert [a][..0] == [];
  }

  lemma Accumulate2(bits: bv8, a: bv8, b: bv8)
    ensures Accumulate(bits, [a, b]) == ((((bits as bv64) << 8) | a as bv64) << 8) | b as bv64
  {
    Accumulate1(bits, a);
    assert [a, b][..1] == [a];
  }

  lemma Accumulate3(bits: bv8, a: bv8, b: bv8, c: bv8)
    ensures Accumulate(bits, [a, b, c])
         == ((((((bits as bv64) << 8) | a as bv64) << 8) | b as bv64) << 8) | c as bv64
  {
    Accumulate2(bits, a, b);
    assert [a, b, c][..2] == [a, b];
  }

  lemma Accumulate4(bits: bv8, a: bv8, b: bv8, c: bv8, d: bv8)
    ensures Accumulate(bits, [a, b, c, d])
         == ((((((((bits as bv64) << 8) | a as bv64) << 8) | b as bv64) << 8) | c as bv64) << 8) | d as bv64
  {
    Accumulate3(bits, a, b, c);
    assert [a, b, c, d][..3] == [a, b, c];
  }

  lemma DecodeEncode1(len: bv64, tail: Octets)
    requires len < 0x80
    ensures DecodeLength(BigEndian(len, 1) + tail) == Length(len, 1)
  {
    var s := BigEndian(len, 1) + tail;
    assert s[0] == OctetAt(len, 0) && s[1..1] == [];
  }

  lemma Bits2(len: bv64)
    requires len < 0x4000
    ensures Classify(OctetAt(len | 0x8000, 1)) == Form(OctetAt(len, 1), 1)
    ensures ((OctetAt(len, 1) as bv64) << 8) | OctetAt(len | 0x8000, 0) as bv64 == len
  {
  }

  lemma DecodeEncode2(len: bv64, tail: Octets)
    requires len < 0x4000
    ensures DecodeLength(BigEndian(len | 0x8000, 2) + tail) == Length(len, 2)
  {
    var v := len | 0x8000;
    var s := BigEndian(v, 2) + tail;
    Bits2(len);
    Accumulate1(OctetAt(len, 1), OctetAt(v, 0));
    assert s[0] == OctetAt(v, 1) && s[1..2] == [OctetAt(v, 0)];
  }

  lemma Bits3(len: bv64)
    requires len < 0x20_0000
    ensures Classify(OctetAt(len | 0xC0_0000, 2)) == Form(OctetAt(len, 2), 2)
    ensures var v := len | 0xC0_0000;
      ((((OctetAt(len, 2) as bv64) << 8) | OctetAt(v, 1) as bv64) << 8) | OctetAt(v, 0) as bv64 == len
  {
  }

  lemma DecodeEncode3(len: bv64, tail: Octets)
    requires len < 0x20_0000
    ensures DecodeLength(BigEndian(len | 0xC0_0000, 3) + tail) == Length(len, 3)
  {
    var v := len | 0xC0_0000;
    var s := BigEndian(v, 3) + tail;
    Bits3(len);
    Accumulate2(OctetAt(len, 2), OctetAt(v, 1), OctetAt(v, 0));
    assert s[0] == OctetAt(v, 2) && s[1..3] == [OctetAt(v, 1), OctetAt(v, 0)];
  }

  lemma Bits4(len: bv64)
    requires len < 0x1000_0000
    ensures Classify(OctetAt(len | 0xE000_0000, 3)) == Form(OctetAt(len, 3), 3)
    ensures var v := len | 0xE000_0000;
      ((((((OctetAt(len, 3) as bv64) << 8) | OctetAt(v, 2) as bv64) << 8) | OctetAt(v, 1) as bv64) << 8)
        | OctetAt(v, 0) as bv64 == len
  {
  }

  lemma DecodeEncode4(len: bv64, tail: Octets)
    requires len < 0x1000_0000
    ensures DecodeLength(BigEndian(len | 0xE000_0000, 4) + tail) == Length(len, 4)
  {
    var v := len | 0xE000_0000;
    var s := BigEndian(v, 4) + tail;
    Bits4(len);
    Accumulate3(OctetAt(len, 3), OctetAt(v, 2), OctetAt(v, 1), OctetAt(v, 0));
    assert s[0] == OctetAt(v, 3) && s[1..4] == [OctetAt(v, 2), OctetAt(v, 1), OctetAt(v, 0)];
  }

  lemma DecodeEncode5(len: bv64, tail: Octets)
    requires SHORT_LIMIT <= len
    ensures DecodeLength([0xF0] + BigEndian(len, 4) + tail) == Length(Received(len), 5)
  {
    var s := [0xF0] + BigEndian(len, 4) + tail;
    var more := [OctetAt(len, 3), OctetAt(len, 2), OctetAt(len, 1), OctetAt(len, 0)];
    assert s[0] == 0xF0 && s[1..5] == more;
    Accumulate4(0xF0, more[0], more[1], more[2], more[3]);
  }

  /** Decoding what was encoded, whatever follows it on the wire. */
  lemma DecodeEncode(len: bv64, tail: Octets)
    ensures DecodeLength(LengthOctets(len) + tail) == Length(Received(len), |LengthOctets(len)|)
  {
    if len < 0x80 {
      DecodeEncode1(len, tail);
    } else if len < 0x4000 {
      DecodeEncode2(len, tail);
    } else if len < 0x20_0000 {
      DecodeEncode3(len, tail);
    } else if len < SHORT_LIMIT {
      DecodeEncode4(len, tail);
    } else {
      DecodeEncode5(len, tail);
    }
  }

  /**
   The exact domain on which a length survives the wire: every length below 2^28, and
   those lengths whose upper half happens to be the unmasked 0xF0 octet itself.
   */
  lemma LengthSurvivesIff(len: bv64)
    ensures DecodeLength(LengthOctets(len)) == Length(len, |LengthOctets(len)|)
       <==> len < SHORT_LIMIT || len >> 32 == 0xF0
  {
    DecodeEncode(len, []);
    assert LengthOctets(len) + [] == LengthOctets(len);
  }

  lemma ReceivedFacts(len: bv64)
    requires len < 0x1_0000_0000
    ensures Received(len) == if len < SHORT_LIMIT then len else 0xF0_0000_0000 + len
  {
  }

  lemma ReceivedInjective(a: bv64, b: bv64)
    requires a < 0x1_0000_0000 && b < 0x1_0000_0000 && Received(a) == Received(b)
    ensures a == b
  {
  }

  lemma UpperHalf(len: bv64)
    requires len < 0x1_0000_0000
    ensures (0xF0_0000_0000 + len) as int == 0xF0 * 0x1_0000_0000 + len as int
  {
  }

  /** For a 32-bit length the receiver computes either len or 0xF0 * 2^32 + len. */
  lemma LengthBelow32Bits(len: bv64)
    requires len < 0x1_0000_0000
    ensures DecodeLength(LengthOctets(len)).Length?
    ensures DecodeLength(LengthOctets(len)).value as int
         == if len < SHORT_LIMIT then len as int else 0xF0 * 0x1_0000_0000 + len as int
  {
    DecodeEncode(len, []);
    assert LengthOctets(len) + [] == LengthOctets(len);
    ReceivedFacts(len);
    UpperHalf(len);
  }

  /** No encoded length is a prefix of another one below 2^32. */
  lemma PrefixFree(a: bv64, b: bv64)
    requires a < 0x1_0000_0000 && b < 0x1_0000_0000
    requires LengthOctets(a) <= LengthOctets(b)
    ensures a == b
  {
    var tail := LengthOctets(b)[|LengthOctets(a)|..];
    assert LengthOctets(b) == LengthOctets(a) + tail;
    assert LengthOctets(b) + [] == LengthOctets(b);
    DecodeEncode(a, tail);
    DecodeEncode(b, []);
    ReceivedInjective(a, b);
  }

  lemma AccumulateBound(bits: bv8, more: Octets)
    requires |more| <= 3 && Classify(bits) == Form(bits, 0)
    ensures |more| == 0 ==> Accumulate(bits, more) < 0x80
    ensures |more| == 1 && bits < 0x40 ==> Accumulate(bits, more) < 0x4000
    ensures |more| == 2 && bits < 0x20 ==> Accumulate(bits, more) < 0x20_0000
  {
    match |more|
    case 0 =>
    case 1 =>
      assert more == [more[0]];
      Accumulate1(bits, more[0]);
    case 2 =>
      assert more == [more[0], more[1]];
      Accumulate2(bits, more[0], more[1]);
    case 3 =>
  }

  /** Nothing the decoder accepts spells a length below 2^28 in fewer octets than the encoder. */
  lemma EncodingIsMinimal(s: Octets)
    requires DecodeLength(s).Length? && DecodeLength(s).value < SHORT_LIMIT
    ensures |LengthOctets(DecodeLength(s).value)| <= DecodeLength(s).used
  {
    var Form(bits, more) := Classify(s[0]);
    if more <= 3 {
      assert more == 0 || (more == 1 && bits < 0x40) || (more == 2 && bits < 0x20) || (more == 3 && bits < 0x10);
      AccumulateBound(bits, s[1..1 + more]);
    }
  }
}
