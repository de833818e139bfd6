/**
 The formats spelled out: words as characters, numbers and headers octet by octet. The codecs
 undo each other whatever they agree on; here is what they agree on.
 */
module Spellings {
  import opened Octets
  import opened Options
  import opened Lexing
  import opened Grouping
  import LengthCodec
  import SentenceCodec
  import R = Responses
  import Hex
  import Tags
  import M = Multiplexer
  import Frames

  /** The octets are the characters of the text. */
  predicate Spells(w: Octets, text: string) {
    |w| == |text| && forall i | 0 <= i < |w| :: w[i] as nat == text[i] as nat
  }

  // ----- words of sentences -----

  /** Type words, the name of the challenge, and the fixed parts of tag and parameter words. */
  lemma WordsAreSpelled(key: R.Word, value: R.Word, tag: nat)
    ensures Spells(R.DONE, "!done") && Spells(R.RE, "!re") && Spells(R.TRAP, "!trap")
    ensures R.KindWord(R.Normal) == R.DONE && R.KindWord(R.Data) == R.RE && R.KindWord(R.Trap) == R.TRAP
    ensures Spells(M.RET, "ret") && M.CHALLENGE_SIZE == 32
    ensures Spells(R.TagWord(tag)[..5], ".tag=") && R.TagWord(tag)[5..] == R.Decimal(tag)
    ensures Spells(R.ParamWord(key, value)[..1], "=") && Spells(R.ParamWord(key, value)[1 + |key|..][..1], "=")
    ensures R.ParamWord(key, value)[1..1 + |key|] == key && R.ParamWord(key, value)[2 + |key|..] == value
  {
  }

  /** The digits of numbers, as they are printed and as they are read. */
  lemma DigitsAreSpelled(d: nat)
    requires d < 10
    ensures R.Decimal(d) == [R.DigitOf(d)] && R.DigitOf(d) as nat == '0' as nat + d
  {
  }

  /** The last digit stands for the remainder, and comes last. */
  lemma NumbersAreSpelled(n: nat)
    requires n >= 10
    ensures R.Decimal(n) == R.Decimal(n / 10) + R.Decimal(n % 10)
  {
  }

  /** How digits are read, leading zeros or not. */
  lemma NumbersAreRead(w: R.Word, b: bv8)
    ensures R.IsDigit(b) <==> '0' as nat <= b as nat <= '9' as nat
    ensures R.ReadDecimal([]) == 0
    ensures R.IsDigit(b) ==> R.ReadDecimal(w + [b]) == 10 * R.ReadDecimal(w) + (b as nat - '0' as nat)
  {
    if R.IsDigit(b) {
      DigitIsRead(b);
    }
    assert (w + [b])[..|w|] == w;
  }

  lemma DigitIsRead(b: bv8)
    requires R.IsDigit(b)
    ensures R.ValueOf(b) == b as nat - '0' as nat
  {
  }

  /** The pattern of parameters: an equals sign, a key without any, another one, and a value without NUL. */
  lemma ParametersAreSpelled(w: R.Word, key: R.Word, value: R.Word)
    ensures R.MatchParam(w) == Some((key, value)) <==>
      w == [0x3D] + key + [0x3D] + value && key != [] && 0x3D !in key && 0x00 !in value
  {
    R.MatchParamIff(w, key, value);
  }

  /** The pattern of tags: the prefix, and digits. */
  lemma TagWordsAreSpelled(w: R.Word, digits: R.Word)
    ensures R.MatchTag(w) == Some(digits) <==>
      w == [0x2E, 0x74, 0x61, 0x67, 0x3D] + digits && digits != [] && forall b <- digits :: 0x30 <= b <= 0x39
  {
    R.MatchTagIff(w, digits);
  }

  // ----- hexadecimal -----

  /** The values of digits, of either case. */
  lemma HexDigitsAreSpelled(b: bv8)
    ensures Hex.DigitValue(b) ==
      if 0x30 <= b <= 0x39 then Some(b - 0x30)
      else if 0x41 <= b <= 0x46 then Some(b - 0x41 + 10)
      else if 0x61 <= b <= 0x66 then Some(b - 0x61 + 10)
      else None
  {
  }

  lemma HexCharsAreSpelled(n: bv8)
    requires n < 16
    ensures Hex.HexChar(n) as nat == if n < 10 then '0' as nat + n as nat else 'a' as nat + (n as nat - 10)
  {
  }

  /** Each octet is written as two characters in its place, the one for its upper half first. */
  lemma HexIsSpelled(buf: Octets, k: nat)
    requires k < |buf|
    ensures |Hex.EncodeHex(buf)| == 2 * |buf|
    ensures Hex.EncodeHex(buf)[2 * k] == Hex.HexChar(buf[k] >> 4)
    ensures Hex.EncodeHex(buf)[2 * k + 1] == Hex.HexChar(buf[k] & 0x0F)
  {
    Hex.EncodedPair(buf, k);
    UpperHalf(buf[k]);
  }

  lemma UpperHalf(b: bv8)
    ensures b >> 4 < 16 && (b & 0xF0) >> 4 == b >> 4
  {
  }

  // ----- lengths -----

  /** The octets as one big-endian number. */
  function Joined(s: Octets): bv64 {
    if s == [] then 0 else Join(Joined(s[..|s| - 1]), s[|s| - 1])
  }

  lemma JoinedLast(s: Octets, b: bv8)
    ensures Joined(s + [b]) == Join(Joined(s), b)
  {
    assert (s + [b])[..|s|] == s;
  }

  lemma LastOctet1(val: bv64)
    ensures Join(0, LengthCodec.OctetAt(val, 0)) == val & 0xFF
  {
  }

  lemma LastOctet2(val: bv64)
    ensures Join((val >> 8) & 0xFF, LengthCodec.OctetAt(val, 0)) == val & 0xFFFF
  {
  }

  lemma LastOctet3(val: bv64)
    ensures Join((val >> 8) & 0xFFFF, LengthCodec.OctetAt(val, 0)) == val & 0xFF_FFFF
  {
  }

  lemma LastOctet4(val: bv64)
    ensures Join((val >> 8) & 0xFF_FFFF, LengthCodec.OctetAt(val, 0)) == val & 0xFFFF_FFFF
  {
  }

  lemma ShiftedOctets(val: bv64)
    ensures LengthCodec.OctetAt(val, 1) == LengthCodec.OctetAt(val >> 8, 0)
    ensures LengthCodec.OctetAt(val, 2) == LengthCodec.OctetAt(val >> 8, 1)
    ensures LengthCodec.OctetAt(val, 3) == LengthCodec.OctetAt(val >> 8, 2)
  {
  }

  lemma BigEndianLast(val: bv64, size: nat)
    requires 2 <= size <= 4
    ensures LengthCodec.BigEndian(val, size)
         == LengthCodec.BigEndian(val >> 8, size - 1) + [LengthCodec.OctetAt(val, 0)]
  {
    ShiftedOctets(val);
  }

  lemma Joined1(val: bv64)
    ensures Joined(LengthCodec.BigEndian(val, 1)) == val & 0xFF
  {
    JoinedLast([], LengthCodec.OctetAt(val, 0));
    LastOctet1(val);
    assert [] + [LengthCodec.OctetAt(val, 0)] == LengthCodec.BigEndian(val, 1);
  }

  lemma JoinedStep(val: bv64, size: nat)
    requires 2 <= size <= 4
    ensures Joined(LengthCodec.BigEndian(val, size))
         == Join(Joined(LengthCodec.BigEndian(val >> 8, size - 1)), LengthCodec.OctetAt(val, 0))
  {
    BigEndianLast(val, size);
    JoinedLast(LengthCodec.BigEndian(val >> 8, size - 1), LengthCodec.OctetAt(val, 0));
  }

  lemma Joined2(val: bv64)
    ensures Joined(LengthCodec.BigEndian(val, 2)) == val & 0xFFFF
  {
    JoinedStep(val, 2);
    Joined1(val >> 8);
    LastOctet2(val);
  }

  lemma Joined3(val: bv64)
    ensures Joined(LengthCodec.BigEndian(val, 3)) == val & 0xFF_FFFF
  {
    JoinedStep(val, 3);
    Joined2(val >> 8);
    LastOctet3(val);
  }

  lemma Joined4(val: bv64)
    ensures Joined(LengthCodec.BigEndian(val, 4)) == val & 0xFFFF_FFFF
  {
    JoinedStep(val, 4);
    Joined3(val >> 8);
    LastOctet4(val);
  }

  lemma Marked1(len: bv64)
    requires len < 0x80
    ensures len & 0xFF == len
  {
  }

  lemma Marked2(len: bv64)
    requires len < 0x4000
    ensures (len | 0x8000) & 0xFFFF == len | 0x8000
  {
  }

  lemma Marked3(len: bv64)
    requires len < 0x20_0000
    ensures (len | 0xC0_0000) & 0xFF_FFFF == len | 0xC0_0000
  {
  }

  lemma Marked4(len: bv64)
    requires len < 0x1000_0000
    ensures (len | 0xE000_0000) & 0xFFFF_FFFF == len | 0xE000_0000
  {
  }

  lemma Form2(len: bv64)
    requires 0x80 <= len < 0x4000
    ensures LengthCodec.LengthOctets(len) == LengthCodec.BigEndian(len | 0x8000, 2)
  {
  }

  lemma MarkedOctets2(len: bv64)
    requires len < 0x4000
    ensures Joined(LengthCodec.BigEndian(len | 0x8000, 2)) == len | 0x8000
  {
    Marked2(len);
    Joined2(len | 0x8000);
  }

  lemma Form3(len: bv64)
    requires 0x4000 <= len < 0x20_0000
    ensures LengthCodec.LengthOctets(len) == LengthCodec.BigEndian(len | 0xC0_0000, 3)
  {
  }

  lemma MarkedOctets3(len: bv64)
    requires len < 0x20_0000
    ensures Joined(LengthCodec.BigEndian(len | 0xC0_0000, 3)) == len | 0xC0_0000
  {
    Marked3(len);
    Joined3(len | 0xC0_0000);
  }

  lemma Form4(len: bv64)
    requires 0x20_0000 <= len < 0x1000_0000
    ensures LengthCodec.LengthOctets(len) == LengthCodec.BigEndian(len | 0xE000_0000, 4)
  {
  }

  lemma MarkedOctets4(len: bv64)
    requires len < 0x1000_0000
    ensures Joined(LengthCodec.BigEndian(len | 0xE000_0000, 4)) == len | 0xE000_0000
  {
    Marked4(len);
    Joined4(len | 0xE000_0000);
  }

  /** The prefix of one octet is the length. */
  lemma LengthIsSpelled1(len: bv64)
    requires len < 0x80
    ensures var s := LengthCodec.LengthOctets(len); |s| == 1 && Joined(s) == len
  {
    Marked1(len);
    Joined1(len);
  }

  /** The longer ones are the length as a big-endian number, with the marker of their form. */
  lemma LengthIsSpelled2(len: bv64)
    requires 0x80 <= len < 0x4000
    ensures var s := LengthCodec.LengthOctets(len); |s| == 2 && Joined(s) == len | 0x8000
  {
    Form2(len);
    MarkedOctets2(len);
  }

  lemma LengthIsSpelled3(len: bv64)
    requires 0x4000 <= len < 0x20_0000
    ensures var s := LengthCodec.LengthOctets(len); |s| == 3 && Joined(s) == len | 0xC0_0000
  {
    Form3(len);
    MarkedOctets3(len);
  }

  lemma LengthIsSpelled4(len: bv64)
    requires 0x20_0000 <= len < 0x1000_0000
    ensures var s := LengthCodec.LengthOctets(len); |s| == 4 && Joined(s) == len | 0xE000_0000
  {
    Form4(len);
    MarkedOctets4(len);
  }

  /** The longest one is a marker, and then the low 32 bits of the length. */
  lemma LengthIsSpelled5(len: bv64)
    requires 0x1000_0000 <= len
    ensures var s := LengthCodec.LengthOctets(len);
      |s| == 5 && s[0] == 0xF0 && Joined(s[1..]) == len & 0xFFFF_FFFF
  {
    Joined4(len);
    assert LengthCodec.LengthOctets(len)[1..] == LengthCodec.BigEndian(len, 4);
  }

  /** What the first octet of a prefix says, by its value: no length starts with an octet above 0xF0. */
  lemma FirstOctetsAreSpelled(fbyte: bv8)
    ensures LengthCodec.Classify(fbyte) ==
      if fbyte < 0x80 then LengthCodec.Form(fbyte, 0)
      else if fbyte < 0xC0 then LengthCodec.Form(fbyte - 0x80, 1)
      else if fbyte < 0xE0 then LengthCodec.Form(fbyte - 0xC0, 2)
      else if fbyte < 0xF0 then LengthCodec.Form(fbyte - 0xE0, 3)
      else if fbyte == 0xF0 then LengthCodec.Form(0xF0, 4)
      else LengthCodec.BadForm
  {
  }

  lemma ShiftedIn(w: bv64, b: bv8)
    ensures (w << 8) | (b as bv64 & 0xFF) == Join(w, b)
  {
  }

  lemma OneMoreOctet(bits: bv8, init: Octets, last: bv8)
    requires SentenceCodec.WordLength(bits, init) < 0x100_0000_0000_0000
    ensures SentenceCodec.WordLength(bits, init + [last]) == 256 * SentenceCodec.WordLength(bits, init) + last as nat
  {
    assert (init + [last])[..|init|] == init;
    ShiftedIn(LengthCodec.Accumulate(bits, init), last);
    ToNatJoin(LengthCodec.Accumulate(bits, init), last);
  }

  lemma ReadOneMore(s: Octets, last: bv8)
    ensures Frames.Read(s + [last]) == 256 * Frames.Read(s) + last as nat
  {
    assert (s + [last])[..|s|] == s;
  }

  /** A length of at most five octets is the number they spell, the first one without its marker. */
  lemma {:induction false} LengthIsRead(bits: bv8, more: Octets)
    requires |more| <= 4
    ensures SentenceCodec.WordLength(bits, more) == Frames.Read([bits] + more) < Frames.Power(|more| + 1)
  {
    Frames.ReadBound([bits] + more);
    if more == [] {
      SentenceCodec.LowBits(bits);
      ReadOneMore([], bits);
      assert [bits] + more == [] + [bits];
    } else {
      var init, last := more[..|more| - 1], more[|more| - 1];
      LengthIsRead(bits, init);
      FiveOctets(|more|);
      OneMoreOctet(bits, init, last);
      ReadOneMore([bits] + init, last);
      assert more == init + [last] && [bits] + more == [bits] + init + [last];
    }
  }

  lemma FiveOctets(size: nat)
    requires size <= 4
    ensures Frames.Power(size) <= 0x1_0000_0000
  {
    Frames.PowerOf4();
    assert Frames.Power(1) == 0x100 && Frames.Power(2) == 0x1_0000 && Frames.Power(3) == 0x100_0000;
  }

  lemma Kinds(fbyte: bv8)
    ensures var f := LengthCodec.Classify(fbyte);
      && (f.BadForm? <==> fbyte > 0xF0)
      && (f.Form? ==> (f.bits == 0 && f.more == 0 <==> fbyte == 0))
      && (f.Form? ==> (f.more > 1 <==> fbyte >= 0xC0))
  {
    FirstOctetsAreSpelled(fbyte);
  }

  /** What the reader makes of the octets at the front of a stream, by the value of the first. */
  lemma ReadingIsSpelled(mode: SentenceCodec.Delivery, s: Octets)
    requires s != []
    ensures var i := SentenceCodec.NextPiece(mode, s);
      if s[0] == 0 then i == Take(Terminator, 1)
      else if s[0] > 0xF0 then i == Stuck(Rejected)
      else if mode.Clipped? && s[0] >= 0xC0 then i == if |s| < 2 then Short else Stuck(Broken)
      else
        var Form(bits, more) := LengthCodec.Classify(s[0]);
        if |s| < 1 + more then i == Short
        else
          var n := Frames.Read([bits] + s[1..1 + more]);
          i == if n == 0 then Stuck(Broken)
               else if |s| < 1 + more + n then Short
               else Take(Text(s[1 + more..1 + more + n]), 1 + more + n)
  {
    Kinds(s[0]);
    match LengthCodec.Classify(s[0])
    case BadForm =>
    case Form(bits, more) =>
      if 1 + more <= |s| {
        LengthIsRead(bits, s[1..1 + more]);
      }
  }

  /** A sentence is its words, each after its length, and then a zero octet. */
  lemma SentencesAreSpelled(s: SentenceCodec.Sentence, w: SentenceCodec.Word)
    ensures SentenceCodec.EncodeSentence([]) == [0]
    ensures SentenceCodec.EncodeSentence([w] + s)
         == LengthCodec.LengthOctets(SizeT(|w|)) + w + SentenceCodec.EncodeSentence(s)
  {
    assert ([w] + s)[0] == w && ([w] + s)[1..] == s;
  }

  // ----- frames and tags -----

  /** Where the four fields are in the octets of a header, and how their octets weigh. */
  lemma HeadersAreSpelled(s: Octets)
    requires |s| == 16
    ensures var h := Frames.HeaderOf(s);
      && h.code == 0x100_0000 * s[0] as nat + 0x1_0000 * s[1] as nat + 0x100 * s[2] as nat + s[3] as nat
      && h.flags == 0x100_0000 * s[4] as nat + 0x1_0000 * s[5] as nat + 0x100 * s[6] as nat + s[7] as nat
      && h.tag == 0x100_0000 * s[8] as nat + 0x1_0000 * s[9] as nat + 0x100 * s[10] as nat + s[11] as nat
      && h.bodySize == 0x100_0000 * s[12] as nat + 0x1_0000 * s[13] as nat + 0x100 * s[14] as nat + s[15] as nat
  {
    NumberIsSpelled(s[..4]);
    NumberIsSpelled(s[4..8]);
    NumberIsSpelled(s[8..12]);
    NumberIsSpelled(s[12..]);
  }

  lemma NumberIsSpelled(w: Octets)
    requires |w| == 4
    ensures Frames.Word(w) == 0x100_0000 * w[0] as nat + 0x1_0000 * w[1] as nat + 0x100 * w[2] as nat + w[3] as nat
  {
    assert w[..3][..2] == w[..2] && w[..2][..1] == w[..1] && w[..1][..0] == [];
    assert Frames.Read(w[..1]) == w[0] as nat;
    assert Frames.Read(w[..2]) == 256 * Frames.Read(w[..1]) + w[1] as nat;
    assert Frames.Read(w[..3]) == 256 * Frames.Read(w[..2]) + w[2] as nat;
  }

  /**
   What a reader makes of the octets of messages: a header of 16 octets, and as many octets as its
   last field says, which must not be more than 0x4000. If it says none, the body is the header.
   */
  lemma MessagesAreSpelled(s: Octets)
    ensures var i := Frames.NextMessage(s);
      if |s| < 16 then i == Short
      else
        var h := Frames.HeaderOf(s[..16]);
        var n := h.bodySize;
        if n > 0x4000 then i == Stuck(TooLong)
        else if n == 0 then i == Take(Frames.Message(h, s[..16]), 16)
        else i == if |s| < 16 + n then Short else Take(Frames.Message(h, s[16..16 + n]), 16 + n)
  {
  }

  /** Tags are 32 bits wide. */
  lemma TagsAreSpelled(serial: nat)
    ensures Tags.Tag(serial) == serial % 0x1_0000_0000
  {
    Tags.TagIsRemainder(serial);
  }
}
