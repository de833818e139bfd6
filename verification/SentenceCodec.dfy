/**
 Sentences on the wire: sentence::encode, and a whole-buffer reading that says what the
 incremental reader in api.cpp has to make of every stream.
 */
module SentenceCodec {
  import opened Octets
  import opened LengthCodec
  import opened Lexing
  import opened Grouping

  type Word = Octets
  type Sentence = seq<Word>

  function EncodeWord(w: Word): Octets {
    LengthOctets(SizeT(|w|)) + w
  }

  ghost function EncodeSentence(s: Sentence): Octets {
    Emit(EncodeWord, s) + [0]
  }

  ghost function EncodeAll(ss: seq<Sentence>): Octets {
    Emit(EncodeSentence, ss)
  }

  method WriteWord(w: Word, buf: ByteVector)
    modifies buf
    ensures buf.data == old(buf.data) + EncodeWord(w)
  {
    EncodeLength(SizeT(|w|), buf);
    ghost var start := buf.data;
    for i := 0 to |w|
      invariant buf.data == start + w[..i]
    {
      buf.PushBack(w[i]);
    }
  }

  /** sentence::encode appends every word and then the terminator. */
  method Encode(s: Sentence, buf: ByteVector)
    modifies buf
    ensures buf.data == old(buf.data) + EncodeSentence(s)
  {
    ghost var start := buf.data;
    for i := 0 to |s|
      invariant buf.data == start + Emit(EncodeWord, s[..i])
    {
      WriteWord(s[i], buf);
      EmitUpTo(EncodeWord, start, s, i);
    }
    assert s[..|s|] == s;
    buf.PushBack(0);
  }

  // ----- reading -----

  /**
   How many octets a continuation read of a length delivers. The source asserts that all
   of them arrive (Whole); its buffer is one octet long, so only one does (Clipped).
   */
  datatype Delivery = Whole | Clipped

  function NextPiece(mode: Delivery, s: Octets): (i: Item<Piece<bv8>>)
    ensures i.Take? ==> 0 < i.used <= |s|
  {
    if s == [] then Short else
    match Classify(s[0])
    case BadForm => Stuck(Rejected)
    case Form(bits, more) =>
      if bits == 0 && more == 0 then Take(Terminator, 1)
      else if mode.Clipped? && more > 1 then (if |s| < 2 then Short else Stuck(Broken))
      else if |s| < 1 + more then Short
      else WordAt(s, 1 + more, WordLength(bits, s[1..1 + more]))
  }

  function WordLength(bits: bv8, more: Octets): nat {
    ToNat(Accumulate(bits, more))
  }

  function WordAt(s: Octets, start: nat, len: nat): (i: Item<Piece<bv8>>)
    requires 0 < start <= |s|
    ensures i.Take? ==> i.item.Text? && 0 < i.used <= |s|
  {
    if len == 0 then Stuck(Broken)
    else if |s| < start + len then Short
    else Take(Text(s[start..start + len]), start + len)
  }

  ghost function PieceReader(mode: Delivery): Reader<Piece<bv8>> {
    s => NextPiece(mode, s)
  }

  lemma WordAtStable(s: Octets, t: Octets, start: nat, len: nat)
    requires 0 < start <= |s| && !WordAt(s, start, len).Short?
    ensures WordAt(s + t, start, len) == WordAt(s, start, len)
  {
    if len != 0 {
      assert (s + t)[start..start + len] == s[start..start + len];
    }
  }

  lemma NextPieceStable(mode: Delivery, s: Octets, t: Octets)
    requires !NextPiece(mode, s).Short?
    ensures NextPiece(mode, s + t) == NextPiece(mode, s)
  {
    assert (s + t)[0] == s[0];
    match Classify(s[0])
    case BadForm =>
    case Form(bits, more) =>
      if 1 + more <= |s| {
        assert (s + t)[1..1 + more] == s[1..1 + more];
        if WordAt(s, 1 + more, WordLength(bits, s[1..1 + more])) == NextPiece(mode, s) {
          WordAtStable(s, t, 1 + more, WordLength(bits, s[1..1 + more]));
        }
      }
  }

  lemma PieceReaderFacts(mode: Delivery)
    ensures Advances(PieceReader(mode)) && Stable(PieceReader(mode))
  {
    forall s, t | !NextPiece(mode, s).Short?
      ensures NextPiece(mode, s + t) == NextPiece(mode, s)
    {
      NextPieceStable(mode, s, t);
    }
  }

  /** What a reader makes of a whole buffer. */
  datatype Scan = Scan(done: seq<Sentence>, words: seq<Word>, rest: Octets, stopped: bool, why: Reason)

  ghost function Parse(mode: Delivery, s: Octets): Scan {
    PieceReaderFacts(mode);
    var p := Lex(PieceReader(mode), s);
    var g := Group(p.items);
    Scan(g.done, g.words, p.rest, p.stopped, p.why)
  }

  // ----- one read at a time -----

  lemma ParseGrows(mode: Delivery, s: Octets, more: Octets)
    ensures Parse(mode, s).done <= Parse(mode, s + more).done
    ensures Parse(mode, s).stopped ==> Parse(mode, s + more) == Parse(mode, s).(rest := Parse(mode, s).rest + more)
  {
    PieceReaderFacts(mode);
    ItemsGrow(PieceReader(mode), s, more);
    LexResumes(PieceReader(mode), s, more);
    var a, b := Lex(PieceReader(mode), s).items, Lex(PieceReader(mode), s + more).items;
    assert b == a + b[|a|..];
    GroupGrows(a, b[|a|..]);
  }

  lemma ParseMore(mode: Delivery, s: Octets, data: Octets)
    requires !Parse(mode, s).stopped
    ensures var p := Parse(mode, s);
      var front := p.rest + data;
      match NextPiece(mode, front)
      case Short => Parse(mode, s + data) == p.(rest := front)
      case Stuck(why) => Parse(mode, s + data) == p.(rest := front, stopped := true, why := why)
      case Take(Text(w), used) => used == |front| ==>
        Parse(mode, s + data) == p.(words := p.words + [w], rest := [], why := Nothing)
      case Take(Terminator, used) => used == |front| ==>
        Parse(mode, s + data) == p.(done := p.done + [p.words], words := [], rest := [], why := Nothing)
  {
    PieceReaderFacts(mode);
    LexOne(PieceReader(mode), s, data);
    var items := Lex(PieceReader(mode), s).items;
    var front := Parse(mode, s).rest + data;
    if NextPiece(mode, front).Take? {
      GroupSnoc(items, NextPiece(mode, front).item);
    }
  }

  lemma ParseNothing(mode: Delivery)
    ensures Parse(mode, []) == Scan([], [], [], false, Nothing)
  {
    PieceReaderFacts(mode);
  }

  lemma LowBits(b: bv8)
    ensures WordLength(b, []) == b as int
  {
    ToNatIsAsInt(b as bv64);
  }

  /** A whole length prefix has been read, and n octets of text are to follow. */
  ghost predicate HeaderRead(mode: Delivery, p: Scan, n: nat) {
    && p.rest != []
    && Classify(p.rest[0]).Form?
    && var bits, more := Classify(p.rest[0]).bits, Classify(p.rest[0]).more;
    && |p.rest| == 1 + more && !(bits == 0 && more == 0) && (mode.Clipped? ==> more <= 1)
    && n == WordLength(bits, p.rest[1..])
    && (n == 0 <==> p.stopped)
    && (p.stopped ==> p.why == Broken)
  }

  /** The first octet of a prefix has been read, and there are more to come. */
  ghost predicate PrefixBegun(p: Scan, bits: bv8, more: nat) {
    !p.stopped && |p.rest| == 1 && 0 < more && Classify(p.rest[0]) == Form(bits, more)
  }

  /** What reading the first octet of an item does. */
  lemma FirstOctet(mode: Delivery, s: Octets, b: bv8)
    requires var p := Parse(mode, s); !p.stopped && p.rest == []
    ensures var p, q := Parse(mode, s), Parse(mode, s + [b]);
      match Classify(b)
      case BadForm => q == p.(rest := [b], stopped := true, why := Rejected)
      case Form(bits, more) =>
        if bits == 0 && more == 0 then
          q == p.(done := p.done + [p.words], words := [], rest := [], why := Nothing)
        else
          q.done == p.done && q.words == p.words
          && (if more == 0 then HeaderRead(mode, q, bits as int) && bits != 0 else PrefixBegun(q, bits, more))
  {
    ParseMore(mode, s, [b]);
    assert [] + [b] == [b];
    if Classify(b).Form? && Classify(b).more == 0 {
      assert [b][1..1] == [];
      LowBits(Classify(b).bits);
      OctetAsInt(Classify(b).bits, 0);
    }
  }

  /** What reading the rest of a length prefix does. */
  lemma MoreOctets(mode: Delivery, s: Octets, bits: bv8, more: nat, data: Octets)
    requires PrefixBegun(Parse(mode, s), bits, more) && |data| == more && (mode.Clipped? ==> more == 1)
    ensures var p, q := Parse(mode, s), Parse(mode, s + data);
      q.done == p.done && q.words == p.words && HeaderRead(mode, q, WordLength(bits, data))
  {
    ParseMore(mode, s, data);
    var front := Parse(mode, s).rest + data;
    assert front[1..1 + more] == data == front[1..];
  }

  /** A clipped continuation read stops the reader. */
  lemma ClippedOctet(mode: Delivery, s: Octets, bits: bv8, more: nat, data: Octets)
    requires PrefixBegun(Parse(mode, s), bits, more) && mode.Clipped? && 1 < more && |data| == 1
    ensures var p, q := Parse(mode, s), Parse(mode, s + data);
      q == p.(rest := p.rest + data, stopped := true, why := Broken)
  {
    ParseMore(mode, s, data);
  }

  lemma HeaderText(mode: Delivery, header: Octets, data: Octets)
    requires header != [] && Classify(header[0]).Form? && |header| == 1 + Classify(header[0]).more
    requires Classify(header[0]) != Form(0, 0) && (mode.Clipped? ==> Classify(header[0]).more <= 1)
    requires WordLength(Classify(header[0]).bits, header[1..]) == |data| > 0
    ensures NextPiece(mode, header + data) == Take(Text(data), |header + data|)
  {
    var front, n := header + data, |header|;
    assert front[1..n] == header[1..] && front[n..n + |data|] == data;
  }

  /** What reading the text of a word does. */
  lemma TextOctets(mode: Delivery, s: Octets, data: Octets)
    requires HeaderRead(mode, Parse(mode, s), |data|) && data != []
    ensures var p, q := Parse(mode, s), Parse(mode, s + data);
      q == p.(words := p.words + [data], rest := [], why := Nothing)
  {
    HeaderText(mode, Parse(mode, s).rest, data);
    ParseMore(mode, s, data);
  }

  // ----- round trip -----

  /** The words that survive the wire, by their size. */
  ghost predicate Travels(mode: Delivery, w: Word) {
    && 0 < |w|
    && match mode
       case Clipped => |w| < 0x4000
       case Whole => |w| < 0x1000_0000 || 0xF0 * 0x1_0000_0000 <= |w| < 0xF1 * 0x1_0000_0000
  }

  lemma PrefixForms(len: bv64)
    ensures |LengthOctets(len)| > 2 <==> len >= 0x4000
    ensures len == 0 <==> Received(len) == 0
    ensures Received(len) == len <==> len < SHORT_LIMIT || 0xF0_0000_0000 <= len < 0xF1_0000_0000
  {
  }

  lemma ZeroForm(bits: bv8, more: nat, fbyte: bv8)
    requires Classify(fbyte) == Form(bits, more)
    ensures more == 0 ==> Accumulate(bits, []) == bits as bv64
  {
  }

  /** The first item read from an emitted length and whatever follows. */
  lemma PieceOfLength(mode: Delivery, len: bv64, tail: Octets)
    ensures var s := LengthOctets(len) + tail;
            NextPiece(mode, s) ==
            if len == 0 then Take(Terminator, 1)
            else if mode.Clipped? && len >= 0x4000 then Stuck(Broken)
            else WordAt(s, |LengthOctets(len)|, ToNat(Received(len)))
  {
    var s := LengthOctets(len) + tail;
    DecodeEncode(len, tail);
    PrefixForms(len);
    var Form(bits, more) := Classify(s[0]);
    ZeroForm(bits, more, s[0]);
    if bits == 0 && more == 0 {
      assert s[1..1 + more] == [];
    }
  }

  lemma ClippedBound(len: bv64)
    ensures len < 0x4000 <==> ToNat(len) < 0x4000
  {
    ToNatIsAsInt(len);
  }

  lemma ShortBound(len: bv64)
    ensures len < SHORT_LIMIT <==> ToNat(len) < 0x1000_0000
  {
    ToNatIsAsInt(len);
  }

  lemma UnmaskedBound(len: bv64)
    ensures 0xF0_0000_0000 <= len <==> 0xF0 * 0x1_0000_0000 <= ToNat(len)
  {
    ToNatIsAsInt(len);
  }

  lemma UnmaskedUpperBound(len: bv64)
    ensures len < 0xF1_0000_0000 <==> ToNat(len) < 0xF1 * 0x1_0000_0000
  {
    ToNatIsAsInt(len);
  }

  lemma SizeBound(len: bv64)
    ensures ToNat(len) < 0x1_0000_0000_0000_0000
  {
    ToNatIsAsInt(len);
  }

  /** Which sizes the length prefix carries over unchanged. */
  lemma SizeSurvives(len: bv64, n: nat)
    requires n < 0x1_0000_0000_0000_0000 ==> ToNat(len) == n
    ensures ToNat(Received(len)) == n
       <==> n < 0x1000_0000 || 0xF0 * 0x1_0000_0000 <= n < 0xF1 * 0x1_0000_0000
    ensures n < 0x1_0000_0000_0000_0000 ==> (len == 0 <==> n == 0) && (len < 0x4000 <==> n < 0x4000)
  {
    SizeBound(Received(len));
    ValueSurvives(len);
  }

  lemma ValueSurvives(len: bv64)
    ensures (len == 0 <==> ToNat(len) == 0) && (len < 0x4000 <==> ToNat(len) < 0x4000)
    ensures ToNat(Received(len)) == ToNat(len)
       <==> ToNat(len) < 0x1000_0000 || 0xF0 * 0x1_0000_0000 <= ToNat(len) < 0xF1 * 0x1_0000_0000
  {
    PrefixForms(len);
    ToNatZero(len);
    ClippedBound(len);
    ShortBound(len);
    UnmaskedBound(len);
    UnmaskedUpperBound(len);
    if ToNat(Received(len)) == ToNat(len) {
      ToNatInjective(Received(len), len);
    }
  }

  function WritePiece(p: Piece<bv8>): Octets {
    match p
    case Text(w) => EncodeWord(w)
    case Terminator => [0]
  }

  ghost predicate PieceTravels(mode: Delivery, p: Piece<bv8>) {
    p.Text? ==> Travels(mode, p.word)
  }

  ghost function GoodPiece(mode: Delivery): Piece<bv8> -> bool {
    p => PieceTravels(mode, p)
  }

  lemma WordAtText(e: Octets, w: Word, tail: Octets, len: nat)
    requires e != []
    ensures var i := WordAt(e + (w + tail), |e|, len);
      if len == |w| > 0 then i == Take(Text(w), |e + w|)
      else !(i.Take? && i.item == Text(w))
  {
    var s := e + (w + tail);
    if 0 < len <= |w + tail| {
      assert |s[|e|..|e| + len]| == len;
    }
    if len == |w| {
      assert s[|e|..|e| + len] == w;
    }
  }

  lemma PieceOfSized(mode: Delivery, len: bv64, w: Word, tail: Octets)
    requires |w| < 0x1_0000_0000_0000_0000 ==> ToNat(len) == |w|
    ensures var e := LengthOctets(len);
            var i := NextPiece(mode, e + (w + tail));
            if Travels(mode, w) then i == Take(Text(w), |e + w|)
            else !(i.Take? && i.item == Text(w))
  {
    SizeSurvives(len, |w|);
    PieceOfLength(mode, len, w + tail);
    WordAtText(LengthOctets(len), w, tail, ToNat(Received(len)));
  }

  /** Reading back an encoded word gives the word exactly when its size travels. */
  lemma PieceOfWord(mode: Delivery, w: Word, tail: Octets)
    ensures var i := NextPiece(mode, EncodeWord(w) + tail);
            if Travels(mode, w) then i == Take(Text(w), |EncodeWord(w)|)
            else !(i.Take? && i.item == Text(w))
  {
    if |w| < 0x1_0000_0000_0000_0000 {
      SizeTValue(|w|);
    }
    PieceOfSized(mode, SizeT(|w|), w, tail);
    assert LengthOctets(SizeT(|w|)) + (w + tail) == EncodeWord(w) + tail;
  }

  lemma PieceOfTerminator(mode: Delivery, tail: Octets)
    ensures NextPiece(mode, [0] + tail) == Take(Terminator, 1)
  {
    assert ([0] + tail)[0] == 0;
  }

  lemma PiecesReadBack(mode: Delivery)
    ensures ReadsBack(PieceReader(mode), WritePiece, GoodPiece(mode))
  {
    forall p: Piece<bv8>, t
      ensures var i := NextPiece(mode, WritePiece(p) + t);
        if PieceTravels(mode, p) then i == Take(p, |WritePiece(p)|) else !(i.Take? && i.item == p)
    {
      match p
      case Text(w) => PieceOfWord(mode, w, t);
      case Terminator => PieceOfTerminator(mode, t);
    }
  }

  lemma {:induction false} EmitTexts(ws: seq<Word>)
    ensures Emit(WritePiece, Texts(ws)) == Emit(EncodeWord, ws)
  {
    if ws != [] {
      var init, last := ws[..|ws| - 1], ws[|ws| - 1];
      EmitTexts(init);
      EmitAppend(WritePiece, Texts(init), [Text(last)]);
      EmitOne(WritePiece, Text(last));
      EmitAppend(EncodeWord, init, [last]);
      EmitOne(EncodeWord, last);
      assert init + [last] == ws;
    }
  }

  /** The encoding of sentences is the encoding of their pieces. */
  lemma {:induction false} EncodeAllIsPieces(ss: seq<Sentence>)
    ensures EncodeAll(ss) == Emit(WritePiece, Pieces(ss))
  {
    if ss != [] {
      var init, last := ss[..|ss| - 1], ss[|ss| - 1];
      EncodeAllIsPieces(init);
      EmitTexts(last);
      EmitAppend(WritePiece, Pieces(init) + Texts(last), [Terminator]);
      EmitAppend(WritePiece, Pieces(init), Texts(last));
      EmitOne(WritePiece, Terminator);
      EmitAppend(EncodeSentence, init, [last]);
      EmitOne(EncodeSentence, last);
      assert init + [last] == ss;
      Reassociate(Emit(WritePiece, Pieces(init)), Emit(EncodeWord, last), [0]);
    }
  }

  lemma AllPiecesTravel(mode: Delivery, ss: seq<Sentence>)
    ensures All(GoodPiece(mode), Pieces(ss)) <==> forall s <- ss, w <- s :: Travels(mode, w)
  {
    forall w ensures Text(w) in Pieces(ss) <==> exists s <- ss :: w in s {
      TextsInPieces(ss, w);
    }
    if All(GoodPiece(mode), Pieces(ss)) {
      forall s <- ss, w <- s ensures Travels(mode, w) {
        assert Text(w) in Pieces(ss);
        assert GoodPiece(mode)(Text(w));
      }
    } else {
      var p :| p in Pieces(ss) && !GoodPiece(mode)(p);
      assert p.Text? && p == Text(p.word);
      var s :| s in ss && p.word in s;
    }
  }

  /**
   A reader that gets the encoding of a list of sentences ends with exactly that list, an
   empty partial sentence and nothing unread, if and only if every word's size travels.
   */
  lemma RoundTripIff(mode: Delivery, ss: seq<Sentence>)
    ensures Parse(mode, EncodeAll(ss)) == Scan(ss, [], [], false, Nothing)
       <==> forall s <- ss, w <- s :: Travels(mode, w)
  {
    var next := PieceReader(mode);
    PieceReaderFacts(mode);
    PiecesReadBack(mode);
    EncodeAllIsPieces(ss);
    AllPiecesTravel(mode, ss);
    var s := EncodeAll(ss);
    if All(GoodPiece(mode), Pieces(ss)) {
      ReadEmitted(next, WritePiece, GoodPiece(mode), Pieces(ss), []);
      assert s + [] == s;
      assert Lex(next, []).After(Pieces(ss)).items == Pieces(ss);
      GroupPieces(ss);
    } else {
      ReadMisses(next, WritePiece, GoodPiece(mode), Pieces(ss));
      UngroupGroup(Lex(next, s).items);
      assert Texts<bv8>([]) == [];
    }
  }

  // ----- unique decodability -----

  ghost predicate Fits32(p: Piece<bv8>) {
    p.Text? ==> 0 < |p.word| < 0x1_0000_0000
  }

  lemma SizeFits(n: nat)
    requires n < 0x1_0000_0000
    ensures SizeT(n) < 0x1_0000_0000
  {
    SizeTValue(n);
    ToNatIsAsInt(SizeT(n));
  }

  lemma SameSize(v: Word, w: Word)
    requires |v| < 0x1_0000_0000 && |w| < 0x1_0000_0000
    requires LengthOctets(SizeT(|v|)) <= LengthOctets(SizeT(|w|))
    ensures |v| == |w|
  {
    SizeFits(|v|);
    SizeFits(|w|);
    PrefixFree(SizeT(|v|), SizeT(|w|));
    SizeTValue(|v|);
    SizeTValue(|w|);
  }

  lemma Comparable(a: Octets, b: Octets, x: Octets, y: Octets)
    requires a + x == b + y && |a| <= |b|
    ensures a <= b
    ensures |a| == |b| ==> x == y
  {
    assert a == (a + x)[..|a|] == (b + y)[..|a|] == b[..|a|];
    if |a| == |b| {
      assert x == (a + x)[|a|..] && y == (b + y)[|a|..];
    }
  }

  lemma SizesAgree(v: Word, x: Octets, w: Word, y: Octets)
    requires |v| < 0x1_0000_0000 && |w| < 0x1_0000_0000
    requires LengthOctets(SizeT(|v|)) + x == LengthOctets(SizeT(|w|)) + y
    ensures |v| == |w| && x == y
  {
    var a, b := LengthOctets(SizeT(|v|)), LengthOctets(SizeT(|w|));
    if |a| <= |b| {
      Comparable(a, b, x, y);
      SameSize(v, w);
    } else {
      Comparable(b, a, y, x);
      SameSize(w, v);
    }
  }

  lemma WordsDiffer(v: Word, t: Octets, w: Word, u: Octets)
    requires |v| < 0x1_0000_0000 && |w| < 0x1_0000_0000
    requires EncodeWord(v) + t == EncodeWord(w) + u
    ensures v == w
  {
    Reassociate(LengthOctets(SizeT(|v|)), v, t);
    Reassociate(LengthOctets(SizeT(|w|)), w, u);
    SizesAgree(v, v + t, w, w + u);
    Comparable(v, w, t, u);
  }

  lemma PiecesDiffer()
    ensures Distinguishes(WritePiece, Fits32)
  {
    forall p: Piece<bv8>, t, q: Piece<bv8>, u
      | Fits32(p) && Fits32(q) && WritePiece(p) + t == WritePiece(q) + u
      ensures p == q
    {
      assert EncodeWord([]) == [0] by {
        assert BigEndian(0, 1) == [0];
      }
      WordsDiffer(if p.Text? then p.word else [], t, if q.Text? then q.word else [], u);
    }
  }

  lemma AllPiecesFit(ss: seq<Sentence>)
    requires forall s <- ss, w <- s :: 0 < |w| < 0x1_0000_0000
    ensures All(Fits32, Pieces(ss))
  {
    forall p | p in Pieces(ss) ensures Fits32(p) {
      if p.Text? {
        assert p == Text(p.word);
        TextsInPieces(ss, p.word);
      }
    }
  }

  /** Different lists of sentences never have the same encoding. */
  lemma EncodingInjective(a: seq<Sentence>, b: seq<Sentence>)
    requires forall s <- a, w <- s :: 0 < |w| < 0x1_0000_0000
    requires forall s <- b, w <- s :: 0 < |w| < 0x1_0000_0000
    requires EncodeAll(a) == EncodeAll(b)
    ensures a == b
  {
    PiecesDiffer();
    AllPiecesFit(a);
    AllPiecesFit(b);
    EncodeAllIsPieces(a);
    EncodeAllIsPieces(b);
    EmitInjective(WritePiece, Fits32, Pieces(a), Pieces(b));
    GroupPieces(a);
    GroupPieces(b);
  }
}
