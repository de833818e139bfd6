/**
 The text inside sentences: how requests print their tag and parameters, and how the
 response_sentence constructor reads a type, a tag and a parameter map back.
 */
module Responses {
  import opened Octets
  import opened Options
  import opened Tags

  type Word = Octets
  type Sentence = seq<Word>

  const BANG: bv8 := 0x21
  const EQUALS: bv8 := 0x3D
  const ZERO: bv8 := 0x30
  const NINE: bv8 := 0x39
  const NUL: bv8 := 0x00

  const DONE: Word := [0x21, 0x64, 0x6F, 0x6E, 0x65]         // !done
  const RE: Word := [0x21, 0x72, 0x65]                       // !re
  const TRAP: Word := [0x21, 0x74, 0x72, 0x61, 0x70]         // !trap
  const FATAL: Word := [0x21, 0x66, 0x61, 0x74, 0x61, 0x6C]  // !fatal
  const TAG_PREFIX: Word := [0x2E, 0x74, 0x61, 0x67, 0x3D]   // .tag=

  // ----- decimal numbers -----

  predicate IsDigit(b: bv8) {
    ZERO <= b <= NINE
  }

  predicate AllDigits(w: Word) {
    forall b <- w :: IsDigit(b)
  }

  function DigitOf(d: nat): bv8
    requires d < 10
  {
    [0x30, 0x31, 0x32, 0x33, 0x34, 0x35, 0x36, 0x37, 0x38, 0x39][d]
  }

  function ValueOf(b: bv8): nat {
    if b == 0x30 then 0 else if b == 0x31 then 1 else if b == 0x32 then 2 else if b == 0x33 then 3
    else if b == 0x34 then 4 else if b == 0x35 then 5 else if b == 0x36 then 6 else if b == 0x37 then 7
    else if b == 0x38 then 8 else 9
  }

  lemma DigitValue(d: nat)
    requires d < 10
    ensures IsDigit(DigitOf(d)) && ValueOf(DigitOf(d)) == d
  {
  }

  function Decimal(n: nat): (w: Word)
    ensures w != []
  {
    if n < 10 then [DigitOf(n)] else Decimal(n / 10) + [DigitOf(n % 10)]
  }

  function ReadDecimal(w: Word): nat {
    if w == [] then 0 else 10 * ReadDecimal(w[..|w| - 1]) + ValueOf(w[|w| - 1])
  }

  lemma {:induction false} ReadPrinted(n: nat)
    ensures AllDigits(Decimal(n)) && ReadDecimal(Decimal(n)) == n
  {
    var w := Decimal(n);
    DigitValue(n % 10);
    if n < 10 {
      assert w[..0] == [];
    } else {
      ReadPrinted(n / 10);
      assert w[..|w| - 1] == Decimal(n / 10);
    }
  }

  // ----- the two word patterns -----

  function ParamWord(key: Word, value: Word): Word {
    [EQUALS] + key + [EQUALS] + value
  }

  function TagWord(tag: nat): Word {
    TAG_PREFIX + Decimal(tag)
  }

  /** The words that request_sentence starts with. */
  function RequestWords(command: Word, tag: nat): Sentence {
    [command, TagWord(tag)]
  }

  /** What can be printed as a parameter and recognised again. */
  predicate Printable(key: Word, value: Word) {
    key != [] && EQUALS !in key && NUL !in value
  }

  function FindEquals(w: Word, from: nat): (i: nat)
    requires from <= |w|
    ensures from <= i <= |w|
    ensures EQUALS !in w[from..i]
    ensures i < |w| ==> w[i] == EQUALS
    decreases |w| - from
  {
    if from == |w| || w[from] == EQUALS then from
    else
      var i := FindEquals(w, from + 1);
      assert w[from..i] == [w[from]] + w[from + 1..i];
      i
  }

  /** The match of =([^=]+)=(.*), where the dot is anything but NUL. */
  function MatchParam(w: Word): Option<(Word, Word)> {
    if w == [] || w[0] != EQUALS then None
    else
      var i := FindEquals(w, 1);
      if i == 1 || i == |w| || NUL in w[i + 1..] then None
      else Some((w[1..i], w[i + 1..]))
  }

  /** The pattern is met by exactly the printed forms of printable parameters. */
  lemma MatchParamIff(w: Word, key: Word, value: Word)
    ensures MatchParam(w) == Some((key, value)) <==> w == ParamWord(key, value) && Printable(key, value)
  {
    if w == ParamWord(key, value) && Printable(key, value) {
      FoundEquals(w, key, value);
    }
  }

  lemma FoundEquals(w: Word, key: Word, value: Word)
    requires w == ParamWord(key, value) && Printable(key, value)
    ensures FindEquals(w, 1) == 1 + |key|
    ensures w[1..1 + |key|] == key && w[1 + |key| + 1..] == value && w[0] == EQUALS
  {
    var i, n := FindEquals(w, 1), 1 + |key|;
    assert w[n] == EQUALS && w[1..n] == key;
  }

  /** The match of \.tag=([0-9]+): the digits. */
  function MatchTag(w: Word): Option<Word> {
    if |TAG_PREFIX| < |w| && w[..|TAG_PREFIX|] == TAG_PREFIX && AllDigits(w[|TAG_PREFIX|..])
    then Some(w[|TAG_PREFIX|..]) else None
  }

  lemma MatchPrintedTag(tag: nat)
    ensures MatchTag(TagWord(tag)) == Some(Decimal(tag)) && MatchParam(TagWord(tag)) == None
    ensures ReadDecimal(Decimal(tag)) == tag
  {
    ReadPrinted(tag);
    var w := TagWord(tag);
    assert w[..5] == TAG_PREFIX && w[5..] == Decimal(tag);
  }

  // ----- response_sentence -----

  datatype ResponseType = Normal | Data | Trap

  datatype Response = Response(kind: ResponseType, params: map<Word, Word>, tagged: bool, tag: nat)

  /** The constructor finishes, throws, or fails its assertion that there is one tag. */
  datatype Reading = Parsed(resp: Response) | Throws | AssertionFails

  predicate IsValidResponse(s: Sentence) {
    |s| > 0 && s[0] != [] && s[0][0] == BANG
  }

  function KindOf(w: Word): Option<ResponseType> {
    if w == DONE then Some(Normal)
    else if w == RE then Some(Data)
    else if w == TRAP then Some(Trap)
    else None
  }

  function KindWord(k: ResponseType): Word {
    match k
    case Normal => DONE
    case Data => RE
    case Trap => TRAP
  }

  /** One word more: parameters never replace an earlier one, a tag must fit 32 bits. */
  function ReadWord(r: Reading, w: Word): Reading {
    if !r.Parsed? then r
    else if MatchParam(w).Some? then
      var (key, value) := MatchParam(w).value;
      if key in r.resp.params then r else Parsed(r.resp.(params := r.resp.params[key := value]))
    else if MatchTag(w).Some? then
      if r.resp.tagged then AssertionFails
      else if ReadDecimal(MatchTag(w).value) >= TAG_LIMIT then Throws
      else Parsed(r.resp.(tagged := true, tag := ReadDecimal(MatchTag(w).value)))
    else r
  }

  function ReadWords(r: Reading, ws: seq<Word>): Reading {
    if ws == [] then r else ReadWord(ReadWords(r, ws[..|ws| - 1]), ws[|ws| - 1])
  }

  function ResponseOf(s: Sentence): Reading
    requires IsValidResponse(s)
  {
    match KindOf(s[0])
    case None => Throws
    case Some(kind) => ReadWords(Parsed(Response(kind, map[], false, 0)), s)
  }

  /** The response_sentence constructor. */
  method ParseResponse(s: Sentence) returns (r: Reading)
    requires IsValidResponse(s)
    ensures r == ResponseOf(s)
  {
    if s[0] == FATAL {
      return Throws;
    }
    var kind;
    if s[0] == DONE {
      kind := Normal;
    } else if s[0] == RE {
      kind := Data;
    } else if s[0] == TRAP {
      kind := Trap;
    } else {
      return Throws;
    }
    var params: map<Word, Word>, tagged, tag := map[], false, 0;
    ghost var start := Parsed(Response(kind, map[], false, 0));
    for i := 0 to |s|
      invariant ReadWords(start, s[..i]) == Parsed(Response(kind, params, tagged, tag))
    {
      assert s[..i + 1][..i] == s[..i];
      var p, t := MatchParam(s[i]), MatchTag(s[i]);
      if p.Some? {
        if p.value.0 !in params {
          params := params[p.value.0 := p.value.1];
        }
      } else if t.Some? {
        if tagged || ReadDecimal(t.value) >= TAG_LIMIT {
          StaysFailed(start, s, i + 1);
          return if tagged then AssertionFails else Throws;
        }
        tag := ReadDecimal(t.value);
        tagged := true;
      }
    }
    assert s[..|s|] == s;
    r := Parsed(Response(kind, params, tagged, tag));
  }

  lemma {:induction false} ReadWordsAppend(r: Reading, a: seq<Word>, b: seq<Word>)
    ensures ReadWords(r, a + b) == ReadWords(ReadWords(r, a), b)
  {
    if b == [] {
      assert a + b == a;
    } else {
      var init := b[..|b| - 1];
      ReadWordsAppend(r, a, init);
      assert (a + b)[..|a + b| - 1] == a + init;
    }
  }

  lemma {:induction false} FailedReading(r: Reading, ws: seq<Word>)
    requires !r.Parsed?
    ensures ReadWords(r, ws) == r
  {
    if ws != [] {
      FailedReading(r, ws[..|ws| - 1]);
    }
  }

  lemma StaysFailed(r: Reading, ws: seq<Word>, i: nat)
    requires i <= |ws| && !ReadWords(r, ws[..i]).Parsed?
    ensures ReadWords(r, ws) == ReadWords(r, ws[..i])
  {
    assert ws == ws[..i] + ws[i..];
    ReadWordsAppend(r, ws[..i], ws[i..]);
    FailedReading(ReadWords(r, ws[..i]), ws[i..]);
  }

  // ----- printing and reading back -----

  function ParamWords(ps: seq<(Word, Word)>): seq<Word> {
    if ps == [] then [] else ParamWords(ps[..|ps| - 1]) + [ParamWord(ps[|ps| - 1].0, ps[|ps| - 1].1)]
  }

  /** Each parameter has its word, and is read from it if it is printable. */
  lemma {:induction false} ParamWordsAt(ps: seq<(Word, Word)>)
    ensures |ParamWords(ps)| == |ps|
    ensures forall i | 0 <= i < |ps| :: ParamWords(ps)[i] == [0x3D] + ps[i].0 + [0x3D] + ps[i].1
    ensures forall i | 0 <= i < |ps| && Printable(ps[i].0, ps[i].1) :: MatchParam(ParamWords(ps)[i]) == Some(ps[i])
  {
    if ps != [] {
      var (key, value) := ps[|ps| - 1];
      ParamWordsAt(ps[..|ps| - 1]);
      MatchParamIff(ParamWord(key, value), key, value);
    }
  }

  predicate AllPrintable(ps: seq<(Word, Word)>) {
    forall p <- ps :: Printable(p.0, p.1)
  }

  /** Adding parameters to a map, where an earlier entry for a key stays. */
  function FirstWins(m: map<Word, Word>, ps: seq<(Word, Word)>): map<Word, Word> {
    if ps == [] then m
    else
      var n := FirstWins(m, ps[..|ps| - 1]);
      var (key, value) := ps[|ps| - 1];
      if key in n then n else n[key := value]
  }

  /** FirstWins holds exactly the given keys, each with the first of its values. */
  lemma {:induction false} FirstWinsMeaning(m: map<Word, Word>, ps: seq<(Word, Word)>, key: Word)
    ensures key in FirstWins(m, ps) <==> key in m || exists i | 0 <= i < |ps| :: ps[i].0 == key
    ensures key in m ==> FirstWins(m, ps)[key] == m[key]
    ensures forall i | 0 <= i < |ps| && ps[i].0 == key ::
      key !in m && (forall j | 0 <= j < i :: ps[j].0 != key) ==> FirstWins(m, ps)[key] == ps[i].1
  {
    if ps != [] {
      var init := ps[..|ps| - 1];
      FirstWinsMeaning(m, init, key);
      assert forall i | 0 <= i < |init| :: init[i] == ps[i];
    }
  }

  lemma {:induction false} ReadParams(r: Response, ps: seq<(Word, Word)>)
    requires AllPrintable(ps)
    ensures ReadWords(Parsed(r), ParamWords(ps)) == Parsed(r.(params := FirstWins(r.params, ps)))
  {
    if ps != [] {
      var init, last := ps[..|ps| - 1], ps[|ps| - 1];
      ReadParams(r, init);
      MatchParamIff(ParamWord(last.0, last.1), last.0, last.1);
      assert ParamWords(ps)[..|ParamWords(ps)| - 1] == ParamWords(init);
    }
  }

  /**
   A sentence of a type word, printed parameters and a printed tag anywhere among them
   reads back as that type, that tag and those parameters, the first value of a key winning.
   */
  lemma PrintReadBack(kind: ResponseType, before: seq<(Word, Word)>, tag: nat, after: seq<(Word, Word)>)
    requires AllPrintable(before) && AllPrintable(after)
    ensures var s := [KindWord(kind)] + ParamWords(before) + [TagWord(tag)] + ParamWords(after);
      && IsValidResponse(s)
      && ResponseOf(s) == if tag < TAG_LIMIT
           then Parsed(Response(kind, FirstWins(map[], before + after), true, tag)) else Throws
  {
    var head, mid := [KindWord(kind)] + ParamWords(before), [TagWord(tag)];
    var r0 := Response(kind, map[], false, 0);
    assert ReadWords(Parsed(r0), [KindWord(kind)]) == Parsed(r0) by {
      assert [KindWord(kind)][..0] == [];
      assert MatchParam(KindWord(kind)) == None && MatchTag(KindWord(kind)) == None;
    }
    ReadWordsAppend(Parsed(r0), [KindWord(kind)], ParamWords(before));
    ReadParams(r0, before);
    var r1 := r0.(params := FirstWins(map[], before));
    ReadWordsAppend(Parsed(r0), head, mid);
    MatchPrintedTag(tag);
    assert mid[..0] == [];
    var r2 := ReadWord(Parsed(r1), TagWord(tag));
    assert ReadWords(Parsed(r1), mid) == r2;
    ReadWordsAppend(Parsed(r0), head + mid, ParamWords(after));
    if tag < TAG_LIMIT {
      ReadParams(r2.resp, after);
      FirstWinsAppend(map[], before, after);
    } else {
      FailedReading(r2, ParamWords(after));
    }
  }

  lemma {:induction false} FirstWinsAppend(m: map<Word, Word>, a: seq<(Word, Word)>, b: seq<(Word, Word)>)
    ensures FirstWins(m, a + b) == FirstWins(FirstWins(m, a), b)
  {
    if b == [] {
      assert a + b == a;
    } else {
      FirstWinsAppend(m, a, b[..|b| - 1]);
      assert (a + b)[..|a + b| - 1] == a + b[..|b| - 1];
    }
  }

  // ----- what else there is in a sentence -----

  /** A type word is one of three. */
  lemma KindOfIff(w: Word)
    ensures KindOf(w).Some? <==> w == DONE || w == RE || w == TRAP
    ensures KindOf(DONE) == Some(Normal) && KindOf(RE) == Some(Data) && KindOf(TRAP) == Some(Trap)
  {
    assert DONE[1] != RE[1] && DONE[1] != TRAP[1] && RE[1] != TRAP[1];
  }

  /** A sentence of any other type, fatal ones among them, throws, whatever its words are. */
  lemma OtherKindsThrow(s: Sentence)
    requires IsValidResponse(s) && s[0] != DONE && s[0] != RE && s[0] != TRAP
    ensures ResponseOf(s) == Throws
  {
    KindOfIff(s[0]);
  }

  /** A word is a tag word exactly if it is the prefix and then digits, at least one. */
  lemma MatchTagIff(w: Word, digits: Word)
    ensures MatchTag(w) == Some(digits) <==> w == TAG_PREFIX + digits && digits != [] && AllDigits(digits)
  {
    if w == TAG_PREFIX + digits {
      assert w[..|TAG_PREFIX|] == TAG_PREFIX && w[|TAG_PREFIX|..] == digits;
    }
    if MatchTag(w) == Some(digits) {
      assert w == w[..|TAG_PREFIX|] + w[|TAG_PREFIX|..];
    }
  }

  /** A word that is neither parameter nor tag makes no difference, wherever it stands. */
  lemma OtherWordsDoNotMatter(r: Reading, before: seq<Word>, w: Word, after: seq<Word>)
    requires MatchParam(w).None? && MatchTag(w).None?
    ensures ReadWords(r, before + [w] + after) == ReadWords(r, before + after)
  {
    ReadWordsAppend(r, before + [w], after);
    ReadWordsAppend(r, before, [w]);
    ReadWordsAppend(r, before, after);
    assert [w][..0] == [];
    assert ReadWords(ReadWords(r, before), [w]) == ReadWord(ReadWords(r, before), w);
  }

  /** A second tag word fails the assertion. */
  lemma SecondTagFails(kind: ResponseType, before: seq<(Word, Word)>, tag: nat, after: seq<(Word, Word)>,
      second: Word, rest: seq<Word>)
    requires AllPrintable(before) && AllPrintable(after) && tag < TAG_LIMIT
    requires MatchParam(second).None? && MatchTag(second).Some?
    ensures var s := [KindWord(kind)] + ParamWords(before) + [TagWord(tag)] + ParamWords(after);
      ResponseOf(s + ([second] + rest)) == AssertionFails
  {
    var s := [KindWord(kind)] + ParamWords(before) + [TagWord(tag)] + ParamWords(after);
    var start := Parsed(Response(kind, map[], false, 0));
    PrintReadBack(kind, before, tag, after);
    ReadWordsAppend(start, s, [second] + rest);
    ReadWordsAppend(ReadWords(start, s), [second], rest);
    assert [second][..0] == [];
    FailedReading(AssertionFails, rest);
    assert KindOf((s + ([second] + rest))[0]) == Some(kind);
  }
}
