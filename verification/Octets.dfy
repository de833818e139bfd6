/** Bytes, and the 64-bit size type the wire code computes with. */
module Octets {

  type Octets = seq<bv8>

  // ----- size_t values and the numbers they stand for -----

  function Low(a: bv64): bv8 {
    (a & 0xFF) as bv8
  }

  function High(a: bv64): bv64 {
    a >> 8
  }

  function Join(w: bv64, b: bv8): bv64 {
    (w << 8) | (b as bv64)
  }

  /** The number a size_t stands for, read an octet at a time. */
  function ToNat(a: bv64): nat
    decreases a
  {
    if a == 0 then 0 else HighIsLess(a); 256 * ToNat(High(a)) + Low(a) as nat
  }

  lemma HighIsLess(a: bv64)
    requires a != 0
    ensures High(a) < a
  {
  }

  lemma PartsJoin(a: bv64)
    ensures Join(High(a), Low(a)) == a && High(a) < 0x100_0000_0000_0000
  {
  }

  lemma JoinParts(w: bv64, b: bv8)
    ensures Low(Join(w, b)) == b
    ensures w < 0x100_0000_0000_0000 ==> High(Join(w, b)) == w
  {
  }

  lemma JoinAsInt(w: bv64, b: bv8)
    requires w < 0x100_0000_0000_0000
    ensures ((w << 8) | (b as bv64)) as int == 256 * (w as int) + b as int
  {
  }

  lemma SplitAsInt(a: bv64)
    ensures a as int == 256 * (High(a) as int) + Low(a) as int
  {
    PartsJoin(a);
    JoinAsInt(High(a), Low(a));
  }

  /** ToNat is Dafny's own reading of a bit vector. */
  lemma {:induction false} ToNatIsAsInt(a: bv64)
    ensures ToNat(a) == a as int
    decreases a
  {
    if a != 0 {
      HighIsLess(a);
      ToNatIsAsInt(High(a));
      SplitAsInt(a);
    }
  }

  lemma OctetAsInt(a: bv8, b: bv8)
    ensures a as int == b as int <==> a == b
  {
  }

  lemma {:induction false} ToNatZero(a: bv64)
    ensures ToNat(a) == 0 <==> a == 0
    decreases a
  {
    if a != 0 {
      HighIsLess(a);
      ToNatZero(High(a));
      OctetAsInt(Low(a), 0);
      PartsJoin(a);
      assert High(a) == 0 && Low(a) == 0 ==> a == 0;
    }
  }

  lemma {:induction false} ToNatInjective(a: bv64, b: bv64)
    requires ToNat(a) == ToNat(b)
    ensures a == b
    decreases a
  {
    ToNatZero(a);
    ToNatZero(b);
    if a != 0 {
      HighIsLess(a);
      assert ToNat(High(a)) == ToNat(High(b)) && Low(a) as int == Low(b) as int;
      ToNatInjective(High(a), High(b));
      OctetAsInt(Low(a), Low(b));
      PartsJoin(a);
      PartsJoin(b);
    }
  }

  lemma Successor(b: bv8)
    requires b as int < 255
    ensures (b + 1) as int == b as int + 1
  {
  }

  /** The octet with value n. */
  function Octet(n: nat): bv8 {
    if n == 0 then 0 else Octet(n - 1) + 1
  }

  lemma {:induction false} OctetValue(n: nat)
    requires n < 256
    ensures Octet(n) as int == n
  {
    if n != 0 {
      OctetValue(n - 1);
      Successor(Octet(n - 1));
    }
  }

  lemma BelowTwo56(w: bv64)
    requires ToNat(w) < 0x100_0000_0000_0000
    ensures w < 0x100_0000_0000_0000
  {
    ToNatIsAsInt(w);
  }

  lemma ToNatJoin(w: bv64, b: bv8)
    requires ToNat(w) < 0x100_0000_0000_0000
    ensures ToNat(Join(w, b)) == 256 * ToNat(w) + b as int
  {
    BelowTwo56(w);
    JoinParts(w, b);
    if Join(w, b) == 0 {
      assert w == 0 && b == 0;
    }
  }

  /** The size_t that a length n is stored in, built an octet at a time. */
  function SizeT(n: nat): bv64 {
    if n == 0 then 0 else Join(SizeT(n / 256), Octet(n % 256))
  }

  lemma {:induction false} SizeTValue(n: nat)
    requires n < 0x1_0000_0000_0000_0000
    ensures ToNat(SizeT(n)) == n
  {
    if n != 0 {
      SizeTValue(n / 256);
      OctetValue(n % 256);
      ToNatJoin(SizeT(n / 256), Octet(n % 256));
    }
  }

  /** The std::vector<std::uint8_t> that encoders append to. */
  class ByteVector {
    var data: Octets

    constructor ()
      ensures data == []
    {
      data := [];
    }

    method PushBack(b: bv8)
      modifies this
      ensures data == old(data) + [b]
    {
      data := data + [b];
    }
  }
}
