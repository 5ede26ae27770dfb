/** The chunked checksum: buffers longer than INT_MAX are fed to the checksum function in pieces.

The chunking argument is about any checksum that takes up one byte at a time. The two checksums
used are the reflected CRCs of section 8 of RFC 1952 and section 12.1 of RFC 3720, given bit by bit;
what they leave in the register is the remainder of the message modulo the generator polynomial.
*/
module Checksums {
  import opened Polynomials
  import opened Words

  const INT_MAX: nat := 0x7fff_ffff

  // ---------------------------------------------------------------- taking a checksum in pieces

  /** The register after `bytes`, where `feed` takes up one byte. */
  function Update<R, B>(feed: (R, B) -> R, c: R, bytes: seq<B>): R
    decreases |bytes|
  {
    if bytes == [] then c else Update(feed, feed(c, bytes[0]), bytes[1..])
  }

  /** A checksum call: the register is complemented on the way in and on the way out. */
  function Checksum<R, B>(feed: (R, B) -> R, complement: R -> R, bytes: seq<B>, previous: R): R {
    complement(Update(feed, complement(previous), bytes))
  }

  ghost predicate Involution<R(!new)>(f: R -> R) { forall x :: f(f(x)) == x }

  lemma {:induction false} UpdateConcat<R, B>(feed: (R, B) -> R, c: R, first: seq<B>, second: seq<B>)
    ensures Update(feed, c, first + second) == Update(feed, Update(feed, c, first), second)
    decreases |first|
  {
    if first == [] {
      assert first + second == second;
    } else {
      assert (first + second)[0] == first[0];
      assert (first + second)[1..] == first[1..] + second;
      UpdateConcat(feed, feed(c, first[0]), first[1..], second);
    }
  }

  /** The checksum of a whole is the checksum of its second part started from that of the first. */
  lemma ChecksumConcat<R(!new), B>(feed: (R, B) -> R, complement: R -> R, first: seq<B>, second: seq<B>, previous: R)
    requires Involution(complement)
    ensures Checksum(feed, complement, first + second, previous)
         == Checksum(feed, complement, second, Checksum(feed, complement, first, previous))
  {
    UpdateConcat(feed, complement(previous), first, second);
  }

  /** checksum_fn, whose length parameter is an int. */
  function ChecksumFn<R, B>(feed: (R, B) -> R, complement: R -> R, bytes: seq<B>, previous: R): R
    requires |bytes| <= INT_MAX
  {
    Checksum(feed, complement, bytes, previous)
  }

  /** crc_common: cuts off INT_MAX bytes at a time and gives the rest in a last call. */
  method CrcCommon<R(!new), B>(feed: (R, B) -> R, complement: R -> R, buffer: seq<B>, previous: R) returns (val: R)
    requires Involution(complement)
    ensures val == Checksum(feed, complement, buffer, previous)
  {
    val := previous;
    var offset, length := 0, |buffer|;
    assert buffer[0..] == buffer;
    while length > INT_MAX
      invariant 0 <= offset <= |buffer| && offset + length == |buffer|
      invariant Checksum(feed, complement, buffer[offset..], val) == Checksum(feed, complement, buffer, previous)
    {
      var piece, rest := buffer[offset..offset + INT_MAX], buffer[offset + INT_MAX..];
      ChecksumConcat(feed, complement, piece, rest, val);
      assert buffer[offset..] == piece + rest;
      val := ChecksumFn(feed, complement, piece, val);
      offset := offset + INT_MAX;
      length := length - INT_MAX;
    }
    val := ChecksumFn(feed, complement, buffer[offset..], val);
  }

  // ---------------------------------------------------------------- the two algorithms

  /** A 32-bit register and a byte, least significant bit first. */
  type Register = r: seq<bool> | |r| == 32 witness Zeros(32)
  type Byte = b: seq<bool> | |b| == 8 witness Zeros(8)

  function Zeros(n: nat): (z: seq<bool>)
    ensures |z| == n && forall i :: 0 <= i < n ==> !z[i]
  {
    seq(n, i => false)
  }

  function InRegister(x: Word): Register { Bits(x, 32) }
  function InByte(x: bv8): Byte { Bits(x as Word, 8) }

  /** The generator polynomials with their bits reversed. */
  const CRC32_POLYNOMIAL: Register := InRegister(0xEDB8_8320)
  const CRC32C_POLYNOMIAL: Register := InRegister(0x82F6_3B78)

  function Complement(x: Register): Register { seq(32, i requires 0 <= i < 32 => !x[i]) }

  function Xor(x: Register, y: Register): Register { seq(32, i requires 0 <= i < 32 => x[i] != y[i]) }

  function Half(c: Register): Register { c[1..] + [false] }

  /** One shift of the register: the bit that falls out decides whether the polynomial is added. */
  function ShiftOne(polynomial: Register, c: Register): Register {
    if c[0] then Xor(Half(c), polynomial) else Half(c)
  }

  function Shift(polynomial: Register): Register -> Register { (c: Register) => ShiftOne(polynomial, c) }

  function Iterate<R>(f: R -> R, n: nat, x: R): R { if n == 0 then x else Iterate(f, n - 1, f(x)) }

  function Widen(b: Byte): Register { b + Zeros(24) }

  /** Bit by bit: the byte is added to the low end of the register, which is then shifted eight times. */
  function FeedBits(polynomial: Register, c: Register, b: Byte): Register {
    Iterate(Shift(polynomial), 8, Xor(c, Widen(b)))
  }

  function BitFeed(polynomial: Register): (Register, Byte) -> Register {
    (c: Register, b: Byte) => FeedBits(polynomial, c, b)
  }

  function Crc32(bytes: seq<Byte>, previous: Register): Register {
    Checksum(BitFeed(CRC32_POLYNOMIAL), Complement, bytes, previous)
  }

  function Crc32c(bytes: seq<Byte>, previous: Register): Register {
    Checksum(BitFeed(CRC32C_POLYNOMIAL), Complement, bytes, previous)
  }

  lemma ComplementIsInvolution()
    ensures Involution(Complement)
  {
    forall x: Register ensures Complement(Complement(x)) == x {
      assert forall i :: 0 <= i < 32 ==> Complement(Complement(x))[i] == x[i];
    }
  }

  /** aws_napi_checksums_crc32 and aws_napi_checksums_crc32c: one-shot results for every buffer. */
  method ChunkedCrc32(buffer: seq<Byte>, previous: Register) returns (crc32: Register, crc32c: Register)
    ensures crc32 == Crc32(buffer, previous)
    ensures crc32c == Crc32c(buffer, previous)
  {
    ComplementIsInvolution();
    crc32 := CrcCommon(BitFeed(CRC32_POLYNOMIAL), Complement, buffer, previous);
    crc32c := CrcCommon(BitFeed(CRC32C_POLYNOMIAL), Complement, buffer, previous);
  }

  // ---------------------------------------------------------------- the register is a remainder

  const CRC32_GENERATOR: Poly := {32, 26, 23, 22, 16, 12, 11, 10, 8, 7, 5, 4, 2, 1, 0}
  const CRC32C_GENERATOR: Poly := {32, 28, 27, 26, 25, 23, 22, 20, 19, 18, 14, 13, 11, 10, 9, 8, 6, 0}

  /** Bits are given with the highest power first. */
  function PolyOf(bits: seq<bool>): Poly { set i | 0 <= i < |bits| && bits[i] :: |bits| - 1 - i }

  /** The bytes of a message in order, each with its least significant bit first. */
  function Message(bytes: seq<Byte>): Poly {
    if bytes == [] then {} else Add(Times(PolyOf(bytes[0]), 8 * (|bytes| - 1)), Message(bytes[1..]))
  }

  /** The constant holds the coefficients of the generator below its highest. */
  ghost predicate Reflects(polynomial: Register, g: Poly) {
    HasDegree(g, 32) && PolyOf(polynomial) == g - {32}
  }

  lemma InPolyOf(bits: seq<bool>, i: nat)
    ensures i in PolyOf(bits) <==> i < |bits| && bits[|bits| - 1 - i]
  {
    if i < |bits| && bits[|bits| - 1 - i] {
      assert i == |bits| - 1 - (|bits| - 1 - i);
    }
  }

  /** One shift multiplies by x, and takes the generator away if the result has its degree. */
  lemma ShiftIsTimesX(polynomial: Register, g: Poly, c: Register)
    requires Reflects(polynomial, g)
    ensures PolyOf(ShiftOne(polynomial, c)) == if c[0] then Add(Times(PolyOf(c), 1), g) else Times(PolyOf(c), 1)
  {
    var shifted, target := ShiftOne(polynomial, c), if c[0] then Add(Times(PolyOf(c), 1), g) else Times(PolyOf(c), 1);
    forall i: nat ensures i in PolyOf(shifted) <==> i in target {
      InPolyOf(shifted, i);
      InTimes(PolyOf(c), 1, i);
      InPolyOf(polynomial, i);
      if i > 0 {
        InPolyOf(c, i - 1);
      }
    }
  }

  lemma ShiftIsCongruent(polynomial: Register, g: Poly, c: Register)
    requires Reflects(polynomial, g)
    ensures Congruent(Times(PolyOf(c), 1), PolyOf(ShiftOne(polynomial, c)), g)
  {
    ShiftIsTimesX(polynomial, g, c);
    if c[0] {
      CongruentGenerator(Times(PolyOf(c), 1), g);
    } else {
      CongruentToItself(Times(PolyOf(c), 1), g);
    }
  }

  lemma {:induction false} ShiftsAreTimes(polynomial: Register, g: Poly, n: nat, c: Register)
    requires Reflects(polynomial, g)
    ensures Congruent(Times(PolyOf(c), n), PolyOf(Iterate(Shift(polynomial), n, c)), g)
    decreases n
  {
    var p := PolyOf(c);
    if n == 0 {
      TimesZero(p);
      CongruentToItself(p, g);
    } else {
      var d := ShiftOne(polynomial, c);
      ShiftIsCongruent(polynomial, g, c);
      CongruentTimes(Times(p, 1), PolyOf(d), g, n - 1);
      TimesTimes(p, 1, n - 1);
      ShiftsAreTimes(polynomial, g, n - 1, d);
      CongruentTransitive(Times(p, n), Times(PolyOf(d), n - 1), PolyOf(Iterate(Shift(polynomial), n, c)), g);
    }
  }

  /** A byte is added at the high powers of the register. */
  lemma AddByte(c: Register, b: Byte)
    ensures PolyOf(Xor(c, Widen(b))) == Add(PolyOf(c), Times(PolyOf(b), 24))
  {
    var x := Xor(c, Widen(b));
    forall i: nat ensures i in PolyOf(x) <==> i in Add(PolyOf(c), Times(PolyOf(b), 24)) {
      InPolyOf(x, i);
      InPolyOf(c, i);
      InTimes(PolyOf(b), 24, i);
      if i >= 24 {
        InPolyOf(b, i - 24);
      }
    }
  }

  lemma FeedIsRemainder(polynomial: Register, g: Poly, c: Register, b: Byte)
    requires Reflects(polynomial, g)
    ensures Congruent(Add(Times(PolyOf(c), 8), Times(PolyOf(b), 32)), PolyOf(FeedBits(polynomial, c, b)), g)
  {
    AddByte(c, b);
    TimesAdd(PolyOf(c), Times(PolyOf(b), 24), 8);
    TimesTimes(PolyOf(b), 24, 8);
    ShiftsAreTimes(polynomial, g, 8, Xor(c, Widen(b)));
  }

  /** The register started at c stands for x^8n times c plus x^32 times the message. */
  function Dividend(c: Register, bytes: seq<Byte>): Poly {
    Add(Times(PolyOf(c), 8 * |bytes|), Times(Message(bytes), 32))
  }

  lemma DividendStep(c: Register, bytes: seq<Byte>)
    requires bytes != []
    ensures var n := 8 * (|bytes| - 1);
            Dividend(c, bytes) ==
            Add(Times(Add(Times(PolyOf(c), 8), Times(PolyOf(bytes[0]), 32)), n), Times(Message(bytes[1..]), 32))
  {
    var n := 8 * (|bytes| - 1);
    var r, b, m := PolyOf(c), PolyOf(bytes[0]), Message(bytes[1..]);
    TimesAdd(Times(r, 8), Times(b, 32), n);
    TimesTimes(r, 8, n);
    TimesTimes(b, 32, n);
    TimesTimes(b, n, 32);
    TimesAdd(Times(b, n), m, 32);
    AddAssociative(Times(r, 8 + n), Times(b, 32 + n), Times(m, 32));
  }

  lemma {:induction false} RegisterIsCongruent(polynomial: Register, g: Poly, c: Register, bytes: seq<Byte>)
    requires Reflects(polynomial, g)
    ensures Congruent(Dividend(c, bytes), PolyOf(Update(BitFeed(polynomial), c, bytes)), g)
    decreases |bytes|
  {
    if bytes == [] {
      TimesZero(PolyOf(c));
      assert Times({}, 32) == {};
      assert Add(PolyOf(c), {}) == PolyOf(c);
      CongruentToItself(PolyOf(c), g);
    } else {
      var n := 8 * (|bytes| - 1);
      var d := FeedBits(polynomial, c, bytes[0]);
      var before, rest := Add(Times(PolyOf(c), 8), Times(PolyOf(bytes[0]), 32)), Times(Message(bytes[1..]), 32);
      FeedIsRemainder(polynomial, g, c, bytes[0]);
      CongruentTimes(before, PolyOf(d), g, n);
      CongruentAdd(Times(before, n), Times(PolyOf(d), n), rest, g);
      DividendStep(c, bytes);
      RegisterIsCongruent(polynomial, g, d, bytes[1..]);
      CongruentTransitive(Dividend(c, bytes), Dividend(d, bytes[1..]), PolyOf(Update(BitFeed(polynomial), d, bytes[1..])), g);
    }
  }

  /** After any bytes the register is the remainder of its start and the message modulo the generator. */
  lemma RegisterIsRemainder(polynomial: Register, g: Poly, c: Register, bytes: seq<Byte>)
    requires Reflects(polynomial, g)
    ensures IsRemainder(PolyOf(Update(BitFeed(polynomial), c, bytes)), Dividend(c, bytes), g, 32)
  {
    RegisterIsCongruent(polynomial, g, c, bytes);
  }

  /** Complementing flips each of the 32 coefficients. */
  lemma ComplementMeaning(c: Register)
    ensures forall i: nat :: i in PolyOf(Complement(c)) <==> i < 32 && i !in PolyOf(c)
  {
    forall i: nat ensures i in PolyOf(Complement(c)) <==> i < 32 && i !in PolyOf(c) {
      InPolyOf(Complement(c), i);
      InPolyOf(c, i);
    }
  }

  lemma InReflected(polynomial: Register, g: Poly)
    requires HasDegree(g, 32) && forall i: nat :: i < 32 ==> (polynomial[31 - i] <==> i in g)
    ensures Reflects(polynomial, g)
  {
    forall i: nat ensures i in PolyOf(polynomial) <==> i in g - {32} {
      InPolyOf(polynomial, i);
    }
  }

  /** The two constants are the generators. */
  lemma ConstantsAreGenerators()
    ensures Reflects(CRC32_POLYNOMIAL, CRC32_GENERATOR) && Reflects(CRC32C_POLYNOMIAL, CRC32C_GENERATOR)
  {
    Crc32Coefficients();
    Crc32cCoefficients();
    InReflected(CRC32_POLYNOMIAL, CRC32_GENERATOR);
    InReflected(CRC32C_POLYNOMIAL, CRC32C_GENERATOR);
  }

  lemma Crc32Coefficients()
    ensures forall i: nat :: i < 32 ==> (CRC32_POLYNOMIAL[31 - i] <==> i in CRC32_GENERATOR)
  {
    MaskValues();
  }

  lemma Crc32cCoefficients()
    ensures forall i: nat :: i < 32 ==> (CRC32C_POLYNOMIAL[31 - i] <==> i in CRC32C_GENERATOR)
  {
    MaskValues();
  }

  /** CRC-32 and CRC-32C of any bytes, complemented, are the remainders of x^8n times the complemented
      previous value plus x^32 times the message, modulo the generator. */
  lemma ChecksumsAreRemainders(bytes: seq<Byte>, previous: Register)
    ensures IsRemainder(PolyOf(Complement(Crc32(bytes, previous))), Dividend(Complement(previous), bytes), CRC32_GENERATOR, 32)
    ensures IsRemainder(PolyOf(Complement(Crc32c(bytes, previous))), Dividend(Complement(previous), bytes), CRC32C_GENERATOR, 32)
  {
    ConstantsAreGenerators();
    ComplementIsInvolution();
    RegisterIsRemainder(CRC32_POLYNOMIAL, CRC32_GENERATOR, Complement(previous), bytes);
    RegisterIsRemainder(CRC32C_POLYNOMIAL, CRC32C_GENERATOR, Complement(previous), bytes);
  }

  // ---------------------------------------------------------------- the published check values

  /** The same steps on machine words. */
  function ShiftWord(p: Word, x: Word): Word { if x & 1 != 0 then (x >> 1) ^ p else x >> 1 }

  function ShiftWords(p: Word, n: nat, x: Word): Word {
    if n == 0 then x else ShiftWords(p, n - 1, ShiftWord(p, x))
  }

  function FeedWord(p: Word, c: Word, b: bv8): Word { ShiftWords(p, 8, c ^ (b as Word)) }

  function UpdateWord(p: Word, c: Word, bytes: seq<bv8>): Word
    decreases |bytes|
  {
    if bytes == [] then c else UpdateWord(p, FeedWord(p, c, bytes[0]), bytes[1..])
  }

  lemma XorIsXor(x: Word, y: Word)
    ensures Xor(InRegister(x), InRegister(y)) == InRegister(x ^ y)
  {
    forall i | 0 <= i < 32 ensures Xor(InRegister(x), InRegister(y))[i] == InRegister(x ^ y)[i] {
      XorAt(x, y, i);
    }
  }

  lemma HalfIsShift(x: Word)
    ensures Half(InRegister(x)) == InRegister(x >> 1)
  {
    forall i | 0 <= i < 32 ensures Half(InRegister(x))[i] == InRegister(x >> 1)[i] {
      if i < 31 {
        ShiftAt(x, i);
      } else {
        ShiftAtTop(x);
      }
    }
  }

  lemma LowestBit(x: Word)
    ensures InRegister(x)[0] <==> x & 1 != 0
  {
    BitAtZero(x);
  }

  lemma ShiftIsShiftWord(p: Word, x: Word)
    ensures ShiftOne(InRegister(p), InRegister(x)) == InRegister(ShiftWord(p, x))
  {
    LowestBit(x);
    HalfIsShift(x);
    var half := x >> 1;
    if InRegister(x)[0] {
      XorIsXor(half, p);
      assert ShiftWord(p, x) == half ^ p;
    } else {
      assert ShiftWord(p, x) == half;
    }
  }

  lemma {:induction false} ShiftsAreShiftWords(p: Word, n: nat, x: Word)
    ensures Iterate(Shift(InRegister(p)), n, InRegister(x)) == Bits(ShiftWords(p, n, x), 32)
    decreases n
  {
    if n > 0 {
      ShiftIsShiftWord(p, x);
      ShiftsAreShiftWords(p, n - 1, ShiftWord(p, x));
    }
  }

  lemma ByteIsSmall(b: bv8)
    ensures (b as Word) < 0x100
  {
  }

  lemma WidenIsSmall(b: bv8)
    ensures Widen(InByte(b)) == InRegister(b as Word)
  {
    var w := b as Word;
    ByteIsSmall(b);
    forall i | 8 <= i < 32 ensures !Bit(w, i) {
      SmallAt(w, i);
    }
  }

  lemma FeedIsFeedWord(p: Word, c: Word, b: bv8)
    ensures FeedBits(InRegister(p), InRegister(c), InByte(b)) == Bits(FeedWord(p, c, b), 32)
  {
    WidenIsSmall(b);
    XorIsXor(c, b as Word);
    ShiftsAreShiftWords(p, 8, c ^ (b as Word));
  }

  function BytesOf(ws: seq<bv8>): seq<Byte> { seq(|ws|, i requires 0 <= i < |ws| => InByte(ws[i])) }

  lemma {:induction false} UpdateIsUpdateWord(p: Word, c: Word, ws: seq<bv8>)
    ensures Update(BitFeed(InRegister(p)), InRegister(c), BytesOf(ws)) == Bits(UpdateWord(p, c, ws), 32)
    decreases |ws|
  {
    if ws != [] {
      FeedIsFeedWord(p, c, ws[0]);
      assert BytesOf(ws)[1..] == BytesOf(ws[1..]);
      UpdateIsUpdateWord(p, FeedWord(p, c, ws[0]), ws[1..]);
    }
  }

  lemma ComplementIsXor(x: Word)
    ensures Complement(InRegister(x)) == InRegister(x ^ 0xFFFF_FFFF)
  {
    forall i | 0 <= i < 32 ensures Complement(InRegister(x))[i] == InRegister(x ^ 0xFFFF_FFFF)[i] {
      XorAt(x, 0xFFFF_FFFF, i);
      OnesAt(i);
    }
  }

  /** The nine characters "123456789". */
  const CHECK: seq<bv8> := [0x31, 0x32, 0x33, 0x34, 0x35, 0x36, 0x37, 0x38, 0x39]

  lemma CheckFeeds32()
    ensures UpdateWord(0xEDB8_8320, 0xFFFF_FFFF, CHECK) == 0x340B_C6D9
  {
    var p: Word := 0xEDB8_8320;
    assert ShiftWords(p, 8, 0xFFFFFFCE) == 0x7C231048 && FeedWord(p, 0xFFFFFFFF, 0x31) == 0x7C231048;
    assert ShiftWords(p, 8, 0x7C23107A) == 0xB0ACBB32 && FeedWord(p, 0x7C231048, 0x32) == 0xB0ACBB32;
    assert ShiftWords(p, 8, 0xB0ACBB01) == 0x77B79C2D && FeedWord(p, 0xB0ACBB32, 0x33) == 0x77B79C2D;
    assert ShiftWords(p, 8, 0x77B79C19) == 0x641C1F5C && FeedWord(p, 0x77B79C2D, 0x34) == 0x641C1F5C;
    assert ShiftWords(p, 8, 0x641C1F69) == 0x340AC5E3 && FeedWord(p, 0x641C1F5C, 0x35) == 0x340AC5E3;
    assert ShiftWords(p, 8, 0x340AC5D5) == 0xF68D2C9E && FeedWord(p, 0x340AC5E3, 0x36) == 0xF68D2C9E;
    assert ShiftWords(p, 8, 0xF68D2CA9) == 0xAFFC9660 && FeedWord(p, 0xF68D2C9E, 0x37) == 0xAFFC9660;
    assert ShiftWords(p, 8, 0xAFFC9658) == 0x651F2550 && FeedWord(p, 0xAFFC9660, 0x38) == 0x651F2550;
    assert ShiftWords(p, 8, 0x651F2569) == 0x340BC6D9 && FeedWord(p, 0x651F2550, 0x39) == 0x340BC6D9;
  }

  lemma CheckFeeds32c()
    ensures UpdateWord(0x82F6_3B78, 0xFFFF_FFFF, CHECK) == 0x1CF9_6D7C
  {
    var p: Word := 0x82F6_3B78;
    assert ShiftWords(p, 8, 0xFFFFFFCE) == 0x6F0A661C && FeedWord(p, 0xFFFFFFFF, 0x31) == 0x6F0A661C;
    assert ShiftWords(p, 8, 0x6F0A662E) == 0x8CAA3B9F && FeedWord(p, 0x6F0A661C, 0x32) == 0x8CAA3B9F;
    assert ShiftWords(p, 8, 0x8CAA3BAC) == 0xEF84D04D && FeedWord(p, 0x8CAA3B9F, 0x33) == 0xEF84D04D;
    assert ShiftWords(p, 8, 0xEF84D079) == 0x09C50B11 && FeedWord(p, 0xEF84D04D, 0x34) == 0x09C50B11;
    assert ShiftWords(p, 8, 0x09C50B24) == 0xE72EDCCA && FeedWord(p, 0x09C50B11, 0x35) == 0xE72EDCCA;
    assert ShiftWords(p, 8, 0xE72EDCFC) == 0xBECA8E79 && FeedWord(p, 0xE72EDCCA, 0x36) == 0xBECA8E79;
    assert ShiftWords(p, 8, 0xBECA8E4E) == 0xEDBD6815 && FeedWord(p, 0xBECA8E79, 0x37) == 0xEDBD6815;
    assert ShiftWords(p, 8, 0xEDBD682D) == 0x9F787F65 && FeedWord(p, 0xEDBD6815, 0x38) == 0x9F787F65;
    assert ShiftWords(p, 8, 0x9F787F5C) == 0x1CF96D7C && FeedWord(p, 0x9F787F65, 0x39) == 0x1CF96D7C;
  }

  lemma ChecksumOfWords(p: Word, ws: seq<bv8>, register: Word, answer: Word)
    requires UpdateWord(p, 0xFFFF_FFFF, ws) == register && answer == register ^ 0xFFFF_FFFF
    ensures Checksum(BitFeed(InRegister(p)), Complement, BytesOf(ws), InRegister(0)) == InRegister(answer)
  {
    ComplementIsXor(0);
    assert Complement(InRegister(0)) == InRegister(0xFFFF_FFFF);
    UpdateIsUpdateWord(p, 0xFFFF_FFFF, ws);
    ComplementIsXor(register);
  }

  /** CRC-32 of "123456789". */
  lemma CheckValue32()
    ensures Crc32(BytesOf(CHECK), InRegister(0)) == InRegister(0xCBF4_3926)
  {
    CheckFeeds32();
    ChecksumOfWords(0xEDB8_8320, CHECK, 0x340B_C6D9, 0xCBF4_3926);
  }

  /** CRC-32C of "123456789". */
  lemma CheckValue32c()
    ensures Crc32c(BytesOf(CHECK), InRegister(0)) == InRegister(0xE306_9283)
  {
    CheckFeeds32c();
    ChecksumOfWords(0x82F6_3B78, CHECK, 0x1CF9_6D7C, 0xE306_9283);
  }
}
