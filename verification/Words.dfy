/** Machine words of 32 bits and their bits, least significant first. */
module Words {

  type Word = bv32

  function Mask(i: nat): Word { if i == 0 then 1 else Mask(i - 1) << 1 }

  function Bit(x: Word, i: nat): bool { x & Mask(i) != 0 }

  function Bits(x: Word, width: nat): (b: seq<bool>)
    ensures |b| == width
  {
    seq(width, i requires 0 <= i < width => Bit(x, i))
  }

  // ---------------------------------------------------------------- masks

  lemma MaskValues()
    ensures Mask(0) == 0x1 && Mask(1) == 0x2 && Mask(2) == 0x4 && Mask(3) == 0x8 && Mask(4) == 0x10 && Mask(5) == 0x20 && Mask(6) == 0x40 && Mask(7) == 0x80
    ensures Mask(8) == 0x100 && Mask(9) == 0x200 && Mask(10) == 0x400 && Mask(11) == 0x800 && Mask(12) == 0x1000 && Mask(13) == 0x2000 && Mask(14) == 0x4000 && Mask(15) == 0x8000
    ensures Mask(16) == 0x10000 && Mask(17) == 0x20000 && Mask(18) == 0x40000 && Mask(19) == 0x80000 && Mask(20) == 0x100000 && Mask(21) == 0x200000 && Mask(22) == 0x400000 && Mask(23) == 0x800000
    ensures Mask(24) == 0x1000000 && Mask(25) == 0x2000000 && Mask(26) == 0x4000000 && Mask(27) == 0x8000000 && Mask(28) == 0x10000000 && Mask(29) == 0x20000000 && Mask(30) == 0x40000000 && Mask(31) == 0x80000000
  {
    assert Mask(0) == 0x1 && Mask(1) == 0x2 && Mask(2) == 0x4 && Mask(3) == 0x8;
    assert Mask(4) == 0x10 && Mask(5) == 0x20 && Mask(6) == 0x40 && Mask(7) == 0x80;
    assert Mask(8) == 0x100 && Mask(9) == 0x200 && Mask(10) == 0x400 && Mask(11) == 0x800;
    assert Mask(12) == 0x1000 && Mask(13) == 0x2000 && Mask(14) == 0x4000 && Mask(15) == 0x8000;
    assert Mask(16) == 0x10000 && Mask(17) == 0x20000 && Mask(18) == 0x40000 && Mask(19) == 0x80000;
    assert Mask(20) == 0x100000 && Mask(21) == 0x200000 && Mask(22) == 0x400000 && Mask(23) == 0x800000;
    assert Mask(24) == 0x1000000 && Mask(25) == 0x2000000 && Mask(26) == 0x4000000 && Mask(27) == 0x8000000;
    assert Mask(28) == 0x10000000 && Mask(29) == 0x20000000 && Mask(30) == 0x40000000 && Mask(31) == 0x80000000;
  }

  lemma ShiftKeepsOneBit(m: Word)
    requires m & (m - 1) == 0
    ensures (m << 1) & ((m << 1) - 1) == 0
  {
  }

  lemma {:induction false} MaskHasOneBit(i: nat)
    ensures Mask(i) & (Mask(i) - 1) == 0
  {
    if i > 0 {
      MaskHasOneBit(i - 1);
      ShiftKeepsOneBit(Mask(i - 1));
    }
  }

  lemma {:induction false} MaskIsNotZero(i: nat)
    requires i < 32
    ensures Mask(i) != 0
    decreases 32 - i
  {
    if i == 31 {
      MaskValues();
    } else {
      MaskIsNotZero(i + 1);
      assert Mask(i + 1) == Mask(i) << 1;
    }
  }

  lemma {:induction false} MaskIsHigh(i: nat)
    requires i >= 8
    ensures Mask(i) & 0xFF == 0
  {
    if i == 8 {
      MaskValues();
    } else {
      MaskIsHigh(i - 1);
      assert (Mask(i - 1) << 1) & 0xFF == 0;
    }
  }

  // ---------------------------------------------------------------- operations on words, bit by bit

  lemma BitAtZero(x: Word)
    ensures Bit(x, 0) <==> x & 1 != 0
  {
  }

  lemma XorThroughMask(x: Word, y: Word, m: Word)
    requires m & (m - 1) == 0
    ensures (x ^ y) & m != 0 <==> ((x & m != 0) != (y & m != 0))
  {
  }

  lemma XorAt(x: Word, y: Word, i: nat)
    ensures Bit(x ^ y, i) == (Bit(x, i) != Bit(y, i))
  {
    MaskHasOneBit(i);
    XorThroughMask(x, y, Mask(i));
  }

  lemma LowBit(m: Word)
    requires m & (m - 1) == 0 && m << 1 != 0
    ensures m < 0x8000_0000
  {
  }

  lemma ShiftThroughLowMask(x: Word, m: Word, n: Word)
    requires m < 0x8000_0000 && n == m << 1
    ensures (x >> 1) & m != 0 <==> x & n != 0
  {
  }

  lemma ShiftThroughMask(x: Word, m: Word, n: Word)
    requires m & (m - 1) == 0 && n == m << 1 && n != 0
    ensures (x >> 1) & m != 0 <==> x & n != 0
  {
    LowBit(m);
    ShiftThroughLowMask(x, m, n);
  }

  lemma ShiftAt(x: Word, i: nat)
    requires i < 31
    ensures Bit(x >> 1, i) == Bit(x, i + 1)
  {
    MaskHasOneBit(i);
    MaskIsNotZero(i + 1);
    ShiftThroughMask(x, Mask(i), Mask(i + 1));
  }

  lemma ShiftAtTop(x: Word)
    ensures !Bit(x >> 1, 31)
  {
    assert (x >> 1) & 0x8000_0000 == 0;
    MaskValues();
  }

  lemma SmallThroughMask(x: Word, m: Word)
    requires x < 0x100 && m & 0xFF == 0
    ensures x & m == 0
  {
  }

  lemma SmallAt(x: Word, i: nat)
    requires x < 0x100 && i >= 8
    ensures !Bit(x, i)
  {
    MaskIsHigh(i);
    SmallThroughMask(x, Mask(i));
  }

  lemma OnesThroughMask(m: Word)
    ensures 0xFFFF_FFFF & m == m
  {
  }

  lemma OnesAt(i: nat)
    requires i < 32
    ensures Bit(0xFFFF_FFFF, i)
  {
    MaskIsNotZero(i);
    OnesThroughMask(Mask(i));
  }
}
