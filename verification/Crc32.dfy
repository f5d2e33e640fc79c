/** The block checksum: CRC-32/ISO-HDLC (section 8 of RFC 1952), four bits at a time. */
module Crc32 {
  import opened Basics

  /** A 32-bit register, wrapped so that proofs reason about whole registers rather than bits. */
  datatype Word = Word(bits: bv32)

  const POLYNOMIAL: bv32 := 0xEDB8_8320
  const INIT := Word(0xFFFF_FFFF)

  /** What the register holds after a frame with an intact checksum has gone through it. */
  const RESIDUE := Word(0xDEBB_20E3)

  // The bit operations have names of their own, so that a proof about registers need not look at bits.

  function Xor32(a: bv32, b: bv32): bv32 {
    a ^ b
  }

  function Or32(a: bv32, b: bv32): bv32 {
    a | b
  }

  function Up1(x: bv32): bv32 {
    x << 1
  }

  function Down1(x: bv32): bv32 {
    x >> 1
  }

  function Low1(x: bv32): bv32 {
    x & 1
  }

  function Up4(x: bv32): bv32 {
    x << 4
  }

  function Up8(x: bv32): bv32 {
    x << 8
  }

  function Down4(x: bv32): bv32 {
    x >> 4
  }

  function Down8(x: bv32): bv32 {
    x >> 8
  }

  function Down16(x: bv32): bv32 {
    x >> 16
  }

  function Down24(x: bv32): bv32 {
    x >> 24
  }

  function Low4(x: bv32): bv32 {
    x & 0xF
  }

  function Low8(x: bv32): bv32 {
    x & 0xFF
  }

  // Bytes are integers elsewhere; here they are widened into bit vectors a hexadecimal digit at a time.

  function DigitBits(i: int): bv32 {
    if i == 0 then 0 else if i == 1 then 1 else if i == 2 then 2 else if i == 3 then 3
    else if i == 4 then 4 else if i == 5 then 5 else if i == 6 then 6 else if i == 7 then 7
    else if i == 8 then 8 else if i == 9 then 9 else if i == 10 then 10 else if i == 11 then 11
    else if i == 12 then 12 else if i == 13 then 13 else if i == 14 then 14 else 15
  }

  function BitsDigit(c: bv32): (i: int)
    ensures 0 <= i < 16
  {
    if c == 0 then 0 else if c == 1 then 1 else if c == 2 then 2 else if c == 3 then 3
    else if c == 4 then 4 else if c == 5 then 5 else if c == 6 then 6 else if c == 7 then 7
    else if c == 8 then 8 else if c == 9 then 9 else if c == 10 then 10 else if c == 11 then 11
    else if c == 12 then 12 else if c == 13 then 13 else if c == 14 then 14 else 15
  }

  /** The byte `b` as a register value. */
  function Bits(b: u8): bv32 {
    Or32(Up4(DigitBits(b / 16)), DigitBits(b % 16))
  }

  /** The low byte of a register. */
  function Octet(c: bv32): u8 {
    16 * BitsDigit(Low4(Down4(c))) + BitsDigit(Low4(c))
  }

  function Xor(a: Word, b: bv32): Word {
    Word(Xor32(a.bits, b))
  }

  /** The reflected remainder of the four-bit value `i`, as tabulated in the source. */
  function NibbleTable(i: bv32): bv32 {
    if i == 0 then 0x0000_0000 else if i == 1 then 0x1DB7_1064
    else if i == 2 then 0x3B6E_20C8 else if i == 3 then 0x26D9_30AC
    else if i == 4 then 0x76DC_4190 else if i == 5 then 0x6B6B_51F4
    else if i == 6 then 0x4DB2_6158 else if i == 7 then 0x5005_713C
    else if i == 8 then 0xEDB8_8320 else if i == 9 then 0xF00F_9344
    else if i == 10 then 0xD6D6_A3E8 else if i == 11 then 0xCB61_B38C
    else if i == 12 then 0x9B64_C2B0 else if i == 13 then 0x86D3_D2D4
    else if i == 14 then 0xA00A_E278 else 0xBDBD_F21C
  }

  function Nibble(c: Word): Word {
    Lookup(NibbleTable, c)
  }

  function Lookup(table: bv32 -> bv32, c: Word): Word {
    Word(Xor32(Down4(c.bits), table(Low4(c.bits))))
  }

  function Step8(c: Word): Word {
    Nibble(Nibble(c))
  }

  function UpdateByte(c: Word, b: u8): Word {
    Step8(Xor(c, Bits(b)))
  }

  /** A checksum loop: the register after each byte of `data` has gone through `f`. */
  function Fold<S>(f: (S, u8) -> S, c: S, data: Bytes): S {
    if data == [] then c else f(Fold(f, c, data[..|data| - 1]), data[|data| - 1])
  }

  function Update(c: Word, data: Bytes): Word {
    Fold(UpdateByte, c, data)
  }

  function Final(c: Word): Word {
    Xor(c, 0xFFFF_FFFF)
  }

  function Crc(data: Bytes): Word {
    Final(Update(INIT, data))
  }

  method UpdateLoop(crc: Word, data: Bytes) returns (r: Word)
    ensures r == Update(crc, data)
  {
    r := crc;
    for i := 0 to |data|
      invariant r == Update(crc, data[..i])
    {
      assert data[..i + 1][..i] == data[..i];
      r := Xor(r, Bits(data[i]));
      r := Nibble(r);
      r := Nibble(r);
    }
    assert data[..|data|] == data;
  }

  lemma {:induction false} FoldConcat<S>(f: (S, u8) -> S, c: S, a: Bytes, b: Bytes)
    ensures Fold(f, c, a + b) == Fold(f, Fold(f, c, a), b)
    decreases |b|
  {
    if b == [] {
      assert a + b == a;
    } else {
      var front := b[..|b| - 1];
      assert (a + b)[..|a + b| - 1] == a + front;
      FoldConcat(f, c, a, front);
    }
  }

  /** Feeding a message in pieces gives the checksum of the whole. */
  lemma UpdateConcat(c: Word, a: Bytes, b: Bytes)
    ensures Update(c, a + b) == Update(Update(c, a), b)
  {
    FoldConcat(UpdateByte, c, a, b);
  }

  lemma FeedOne(c: Word, s: Bytes, b: u8)
    ensures Update(c, s + [b]) == UpdateByte(Update(c, s), b)
  {
    assert (s + [b])[..|s|] == s;
  }

  lemma FeedNone(c: Word)
    ensures Update(c, []) == c
  {
  }

  /** One byte, by what the register holds before, between and after the two table steps. */
  lemma OneDigit(c: bv32, digit: u8, x: bv32, y: bv32, z: bv32)
    requires 0x31 <= digit <= 0x39 && x == Xor32(c, Xor32(0x30, DigitBits(digit - 0x30)))
    requires Nibble(Word(x)) == Word(y) && Nibble(Word(y)) == Word(z)
    ensures UpdateByte(Word(c), digit) == Word(z)
  {
    hide Nibble;
    assert digit / 16 == 3 && digit % 16 == digit - 0x30;
    var d := DigitBits(digit - 0x30);
    assert d < 16;
    assert Up4(3) == 0x30;
    assert d < 16 ==> 0x30 | d == 0x30 ^ d;
  }

  lemma Digits1To3()
    ensures UpdateByte(Word(0xFFFF_FFFF), 0x31) == Word(0x7C23_1048)
    ensures UpdateByte(Word(0x7C23_1048), 0x32) == Word(0xB0AC_BB32)
    ensures UpdateByte(Word(0xB0AC_BB32), 0x33) == Word(0x77B7_9C2D)
  {
    OneDigit(0xFFFF_FFFF, 0x31, 0xFFFF_FFCE, 0xAFF5_1D84, 0x7C23_1048);
    OneDigit(0x7C23_1048, 0x32, 0x7C23_107A, 0xD114_92EF, 0xB0AC_BB32);
    OneDigit(0xB0AC_BB32, 0x33, 0xB0AC_BB01, 0x16BD_DBD4, 0x77B7_9C2D);
  }

  lemma Digits4To6()
    ensures UpdateByte(Word(0x77B7_9C2D), 0x34) == Word(0x641C_1F5C)
    ensures UpdateByte(Word(0x641C_1F5C), 0x35) == Word(0x340A_C5E3)
    ensures UpdateByte(Word(0x340A_C5E3), 0x36) == Word(0xF68D_2C9E)
  {
    OneDigit(0x77B7_9C2D, 0x34, 0x77B7_9C19, 0xF774_EA85, 0x641C_1F5C);
    OneDigit(0x641C_1F5C, 0x35, 0x641C_1F69, 0xF64E_52B2, 0x340A_C5E3);
    OneDigit(0x340A_C5E3, 0x36, 0x340A_C5D5, 0x682B_FDA9, 0xF68D_2C9E);
  }

  lemma Digits7To9()
    ensures UpdateByte(Word(0xF68D_2C9E), 0x37) == Word(0xAFFC_9660)
    ensures UpdateByte(Word(0xAFFC_9660), 0x38) == Word(0x651F_2550)
    ensures UpdateByte(Word(0x651F_2550), 0x39) == Word(0x340B_C6D9)
  {
    OneDigit(0xF68D_2C9E, 0x37, 0xF68D_2CA9, 0xFF67_418E, 0xAFFC_9660);
    OneDigit(0xAFFC_9660, 0x38, 0xAFFC_9658, 0xE747_4A45, 0x651F_2550);
    OneDigit(0x651F_2550, 0x39, 0x651F_2569, 0xF65E_6112, 0x340B_C6D9);
  }

  /** The value this checksum is known by: that of the nine digits from 1 to 9. */
  lemma CheckValue()
    ensures Crc([0x31, 0x32, 0x33, 0x34, 0x35, 0x36, 0x37, 0x38, 0x39]) == Word(0xCBF4_3926)
  {
    Digits1To3();
    Digits4To6();
    Digits7To9();
    hide Update, UpdateByte;
    FeedNone(INIT);
    var s: Bytes := [0x31, 0x32, 0x33, 0x34, 0x35, 0x36, 0x37, 0x38, 0x39];
    assert s[..0] == [] && s[..9] == s;
    Prefix(s, 0);
    assert Update(INIT, s[..1]) == Word(0x7C23_1048);
    Prefix(s, 1);
    assert Update(INIT, s[..2]) == Word(0xB0AC_BB32);
    Prefix(s, 2);
    assert Update(INIT, s[..3]) == Word(0x77B7_9C2D);
    Prefix(s, 3);
    assert Update(INIT, s[..4]) == Word(0x641C_1F5C);
    Prefix(s, 4);
    assert Update(INIT, s[..5]) == Word(0x340A_C5E3);
    Prefix(s, 5);
    assert Update(INIT, s[..6]) == Word(0xF68D_2C9E);
    Prefix(s, 6);
    assert Update(INIT, s[..7]) == Word(0xAFFC_9660);
    Prefix(s, 7);
    assert Update(INIT, s[..8]) == Word(0x651F_2550);
    Prefix(s, 8);
    assert Update(INIT, s[..9]) == Word(0x340B_C6D9);
  }

  lemma Prefix(s: Bytes, k: nat)
    requires k < |s|
    ensures Update(INIT, s[..k + 1]) == UpdateByte(Update(INIT, s[..k]), s[k])
  {
    assert s[..k + 1] == s[..k] + [s[k]];
    FeedOne(INIT, s[..k], s[k]);
  }

  // ----- the algorithm of RFC 1952

  /** One bit of division by the reflected polynomial. */
  function DivideBit(c: bv32): bv32 {
    if Low1(c) == 1 then Xor32(POLYNOMIAL, Down1(c)) else Down1(c)
  }

  function Divide4(c: Word): Word {
    Word(DivideBit(DivideBit(DivideBit(DivideBit(c.bits)))))
  }

  function Divide8(c: Word): Word {
    Divide4(Divide4(c))
  }

  function LowByte(c: Word): Word {
    Word(Low8(c.bits))
  }

  /** The byte-wise update of section 8 of RFC 1952, with the table entry computed on the spot. */
  function RfcUpdateByte(c: Word, b: u8): Word {
    Xor(Divide8(LowByte(Xor(c, Bits(b)))), Down8(c.bits))
  }

  function RfcUpdate(c: Word, data: Bytes): Word {
    Fold(RfcUpdateByte, c, data)
  }

  lemma SameIndex(c: bv32, x: bv32)
    ensures Low4(Xor32(c, Up4(x))) == Low4(c)
  {
  }

  lemma AbsorbBits(c: bv32, x: bv32, t: bv32)
    requires x < 0x1000_0000
    ensures Xor32(Down4(Xor32(c, Up4(x))), t) == Xor32(Xor32(Down4(c), t), x)
  {
    ShiftBack(c, x);
    hide Down4, Up4;
    XorSwap(Down4(c), x, t);
  }

  lemma ShiftBack(c: bv32, x: bv32)
    requires x < 0x1000_0000
    ensures Down4(Xor32(c, Up4(x))) == Xor32(Down4(c), x)
  {
  }

  lemma XorSwap(a: bv32, x: bv32, t: bv32)
    ensures Xor32(Xor32(a, x), t) == Xor32(Xor32(a, t), x)
  {
    hide Xor32;
    XorAssociates(a, x, t);
    XorAssociates(a, t, x);
    XorCommutes(x, t);
  }

  lemma XorCommutes(a: bv32, b: bv32)
    ensures Xor32(a, b) == Xor32(b, a)
  {
  }

  lemma AbsorbLookup(table: bv32 -> bv32, c: Word, x: bv32)
    requires x < 0x1000_0000
    ensures Lookup(table, Xor(c, Up4(x))) == Xor(Lookup(table, c), x)
  {
    hide Xor32, Or32, Up4, Up8, Down4, Down8, Down16, Down24, Low4, Low8;
    SameIndex(c.bits, x);
    AbsorbBits(c.bits, x, table(Low4(c.bits)));
  }

  lemma AbsorbNibble(c: Word, x: bv32)
    requires x < 0x1000_0000
    ensures Nibble(Xor(c, Up4(x))) == Xor(Nibble(c), x)
  {
    hide Up4, Xor, Lookup, NibbleTable;
    AbsorbLookup(NibbleTable, c, x);
  }

  lemma ShiftOneBack(c: bv32, x: bv32)
    requires x < 0x8000_0000
    ensures Low1(Xor32(c, Up1(x))) == Low1(c) && Down1(Xor32(c, Up1(x))) == Xor32(Down1(c), x)
  {
  }

  lemma DivideBitAbsorbs(c: bv32, x: bv32)
    requires x < 0x8000_0000
    ensures DivideBit(Xor32(c, Up1(x))) == Xor32(DivideBit(c), x)
  {
    hide Xor32, Up1, Down1, Low1;
    ShiftOneBack(c, x);
    XorAssociates(POLYNOMIAL, Down1(c), x);
  }

  lemma UpByOnes(x: bv32)
    requires x < 0x1000_0000
    ensures Up4(x) == Up1(Up1(Up1(Up1(x))))
    ensures x < 0x8000_0000 && Up1(x) < 0x8000_0000 && Up1(Up1(x)) < 0x8000_0000 && Up1(Up1(Up1(x))) < 0x8000_0000
  {
  }

  lemma Divide4Absorbs(c: Word, x: bv32)
    requires x < 0x1000_0000
    ensures Divide4(Xor(c, Up4(x))) == Xor(Divide4(c), x)
  {
    hide Xor32, Up1, Up4, DivideBit;
    UpByOnes(x);
    var b := c.bits;
    DivideBitAbsorbs(b, Up1(Up1(Up1(x))));
    DivideBitAbsorbs(DivideBit(b), Up1(Up1(x)));
    DivideBitAbsorbs(DivideBit(DivideBit(b)), Up1(x));
    DivideBitAbsorbs(DivideBit(DivideBit(DivideBit(b))), x);
  }

  /** The table holds what four steps of division make of each four-bit value. */
  lemma TableIsDivision(lo: bv32)
    requires lo < 16
    ensures Nibble(Word(lo)) == Divide4(Word(lo))
  {
  }

  lemma SplitNibble(c: bv32)
    ensures c == Xor32(Low4(c), Up4(Down4(c))) && Low4(c) < 16 && Down4(c) < 0x1000_0000
  {
  }

  lemma NibbleIsDivision(c: Word)
    ensures Nibble(c) == Divide4(c)
  {
    hide Xor32, Low4, Up4, Down4, Nibble, Divide4;
    SplitNibble(c.bits);
    var lo, x := Word(Low4(c.bits)), Down4(c.bits);
    assert c == Xor(lo, Up4(x));
    TableIsDivision(Low4(c.bits));
    AbsorbNibble(lo, x);
    Divide4Absorbs(lo, x);
  }

  lemma ShiftTwice(x: bv32)
    requires x < 0x100_0000
    ensures Up4(Up4(x)) == Up8(x) && Up4(x) < 0x1000_0000
  {
  }

  /** Division is linear, and eight steps bring the upper three bytes down by one byte. */
  lemma Absorb(c: Word, x: bv32)
    requires x < 0x100_0000
    ensures Step8(Xor(c, Up8(x))) == Xor(Step8(c), x)
  {
    hide Up4, Up8, Xor, Nibble;
    ShiftTwice(x);
    AbsorbNibble(c, Up4(x));
    AbsorbNibble(Nibble(c), x);
  }

  lemma AbsorbAt(c: Word, x: bv32, w: Word)
    requires x < 0x100_0000 && w == Xor(c, Up8(x))
    ensures Step8(w) == Xor(Step8(c), x)
  {
    hide Up8, Xor, Step8;
    Absorb(c, x);
  }

  lemma Step8IsDivision(c: Word)
    ensures Step8(c) == Divide8(c)
  {
    hide Nibble, Divide4;
    NibbleIsDivision(c);
    NibbleIsDivision(Nibble(c));
    assert Divide8(c) == Divide4(Divide4(c));
  }

  lemma SplitLowByte(c: bv32)
    ensures Xor32(Low8(c), Up8(Down8(c))) == c && Down8(c) < 0x100_0000
  {
  }

  lemma Step8IsRfcStep(c: Word)
    ensures Step8(c) == Xor(Divide8(LowByte(c)), Down8(c.bits))
  {
    hide Xor32, Or32, Up4, Up8, Down4, Down8, Down16, Down24, Low4, Low8;
    hide Step8, Divide8;
    SplitLowByte(c.bits);
    assert c == Word(c.bits);
    AbsorbAt(LowByte(c), Down8(c.bits), c);
    Step8IsDivision(LowByte(c));
  }

  lemma UpperBits(c: bv32, b: bv32)
    requires b < 0x100
    ensures Down8(Xor32(c, b)) == Down8(c)
  {
  }

  lemma ByteIsRfcByte(c: Word, b: u8)
    ensures UpdateByte(c, b) == RfcUpdateByte(c, b)
  {
    hide Xor32, Or32, Up4, Up8, Down4, Down8, Down16, Down24, Low4, Low8;
    hide Step8, Divide8, Bits;
    BitsBound(b);
    UpperBits(c.bits, Bits(b));
    Step8IsRfcStep(Xor(c, Bits(b)));
  }

  lemma {:induction false} FoldSame<S(!new)>(f: (S, u8) -> S, g: (S, u8) -> S, c: S, data: Bytes)
    requires forall s, b :: f(s, b) == g(s, b)
    ensures Fold(f, c, data) == Fold(g, c, data)
  {
    if data != [] {
      FoldSame(f, g, c, data[..|data| - 1]);
    }
  }

  /** The two-nibble table loop computes the checksum RFC 1952 defines. */
  lemma UpdateIsRfc1952(c: Word, data: Bytes)
    ensures Update(c, data) == RfcUpdate(c, data)
  {
    forall s: Word, b: u8
      ensures UpdateByte(s, b) == RfcUpdateByte(s, b)
    {
      ByteIsRfcByte(s, b);
    }
    FoldSame(UpdateByte, RfcUpdateByte, c, data);
  }

  // ----- the register determines its past

  lemma NibbleInjective(c: Word, d: Word)
    requires Nibble(c) == Nibble(d)
    ensures c == d
  {
    hide Nibble, Divide4;
    NibbleIsDivision(c);
    NibbleIsDivision(d);
    Divide4Injective(c.bits, d.bits);
  }

  lemma Divide4Injective(c: bv32, d: bv32)
    requires Divide4(Word(c)) == Divide4(Word(d))
    ensures c == d
  {
  }

  lemma XorCancel(c: Word, d: Word, x: bv32)
    requires Xor(c, x) == Xor(d, x)
    ensures c == d
  {
    assert Xor32(c.bits, x) == Xor32(d.bits, x);
    CancelBits(c.bits, d.bits, x);
  }

  lemma CancelBits(c: bv32, d: bv32, x: bv32)
    ensures Xor32(c, x) == Xor32(d, x) ==> c == d
  {
  }

  lemma UpdateByteInjective(c: Word, d: Word, b: u8)
    requires UpdateByte(c, b) == UpdateByte(d, b)
    ensures c == d
  {
    hide Step8, Xor, Bits;
    Step8Injective(Xor(c, Bits(b)), Xor(d, Bits(b)));
    XorCancel(c, d, Bits(b));
  }

  lemma Step8Injective(c: Word, d: Word)
    requires Step8(c) == Step8(d)
    ensures c == d
  {
    hide Nibble;
    NibbleInjective(Nibble(c), Nibble(d));
    NibbleInjective(c, d);
  }

  // ----- four bytes at a time

  function PutWord(c: Word): (s: Bytes)
    ensures |s| == 4
  {
    PutWith(Octet, c.bits)
  }

  function PutWith(octet: bv32 -> u8, c: bv32): (s: Bytes)
    ensures |s| == 4
  {
    [octet(c), octet(Down8(c)), octet(Down16(c)), octet(Down24(c))]
  }

  function GetWord(s: Bytes): Word
    requires |s| >= 4
  {
    Join(Bits(s[0]), Bits(s[1]), Bits(s[2]), Bits(s[3]))
  }

  function Join(a: bv32, b: bv32, c: bv32, d: bv32): Word {
    Word(a | (b << 8) | (c << 16) | (d << 24))
  }

  lemma GetPutWord(c: Word)
    ensures GetWord(PutWord(c)) == c
  {
    hide Bits, Octet, Low8, PutWith, GetWord;
    forall x: bv32
      ensures Bits(Octet(x)) == Low8(x)
    {
      OctetBits(x);
    }
    GetPutWith(Octet, c.bits);
  }

  lemma GetPutWith(octet: bv32 -> u8, c: bv32)
    requires forall x :: Bits(octet(x)) == Low8(x)
    ensures GetWord(PutWith(octet, c)) == Word(c)
  {
    hide Xor32, Or32, Up4, Up8, Down4, Down8, Down16, Down24, Low4, Low8;
    hide Bits, Join;
    var s := PutWith(octet, c);
    Reassemble(c, Bits(s[0]), Bits(s[1]), Bits(s[2]), Bits(s[3]));
  }

  lemma OctetBits(c: bv32)
    ensures Bits(Octet(c)) == Low8(c)
  {
    hide Xor32, Or32, Up4, Up8, Down4, Down8, Down16, Down24, Low4, Low8;
    hide DigitBits, BitsDigit;
    JoinDigits(c);
    DigitRoundTrip(Low4(c));
    DigitRoundTrip(Low4(Down4(c)));
  }

  lemma DigitRoundTrip(c: bv32)
    requires c < 16
    ensures DigitBits(BitsDigit(c)) == c
  {
  }

  lemma JoinDigits(c: bv32)
    ensures Or32(Up4(Low4(Down4(c))), Low4(c)) == Low8(c)
    ensures Low4(c) < 16 && Low4(Down4(c)) < 16
  {
  }

  lemma Reassemble(c: bv32, s0: bv32, s1: bv32, s2: bv32, s3: bv32)
    requires s0 == Low8(c) && s1 == Low8(Down8(c)) && s2 == Low8(Down16(c)) && s3 == Low8(Down24(c))
    ensures Join(s0, s1, s2, s3) == Word(c)
  {
  }

  lemma BitsInjective(a: u8, b: u8)
    requires Bits(a) == Bits(b)
    ensures a == b
  {
    hide Xor32, Or32, Up4, Up8, Down4, Down8, Down16, Down24, Low4, Low8;
    hide DigitBits, BitsDigit;
    DigitBitsInverse(a / 16);
    DigitBitsInverse(a % 16);
    DigitBitsInverse(b / 16);
    DigitBitsInverse(b % 16);
    DigitsInjective(DigitBits(a / 16), DigitBits(a % 16), DigitBits(b / 16), DigitBits(b % 16));
  }

  lemma DigitBitsInverse(i: int)
    requires 0 <= i < 16
    ensures BitsDigit(DigitBits(i)) == i && DigitBits(i) < 16
  {
  }

  lemma DigitsInjective(x: bv32, y: bv32, x': bv32, y': bv32)
    requires x < 16 && y < 16 && x' < 16 && y' < 16
    requires Or32(Up4(x), y) == Or32(Up4(x'), y')
    ensures x == x' && y == y'
  {
  }

  lemma BitsBound(a: u8)
    ensures Bits(a) < 0x100
  {
    hide Xor32, Or32, Up4, Up8, Down4, Down8, Down16, Down24, Low4, Low8;
    hide DigitBits, BitsDigit;
    DigitBitsInverse(a / 16);
    DigitBitsInverse(a % 16);
    DigitsBound(DigitBits(a / 16), DigitBits(a % 16));
  }

  lemma DigitsBound(x: bv32, y: bv32)
    requires x < 16 && y < 16
    ensures Or32(Up4(x), y) < 0x100
  {
  }

  lemma JoinInjective(a: bv32, b: bv32, c: bv32, d: bv32, a': bv32, b': bv32, c': bv32, d': bv32)
    requires a < 0x100 && b < 0x100 && c < 0x100 && d < 0x100
    requires a' < 0x100 && b' < 0x100 && c' < 0x100 && d' < 0x100
    requires Join(a, b, c, d) == Join(a', b', c', d')
    ensures a == a' && b == b' && c == c' && d == d'
  {
  }

  lemma GetWordInjective(s: Bytes, t: Bytes)
    requires |s| == |t| == 4 && GetWord(s) == GetWord(t)
    ensures s == t
  {
    hide Bits, Join;
    forall i | 0 <= i < 4
      ensures Bits(s[i]) < 0x100 && Bits(t[i]) < 0x100
    {
      BitsBound(s[i]);
      BitsBound(t[i]);
    }
    JoinInjective(Bits(s[0]), Bits(s[1]), Bits(s[2]), Bits(s[3]), Bits(t[0]), Bits(t[1]), Bits(t[2]), Bits(t[3]));
    BitsInjective(s[0], t[0]);
    BitsInjective(s[1], t[1]);
    BitsInjective(s[2], t[2]);
    BitsInjective(s[3], t[3]);
  }

  lemma JoinStep(a: bv32, b: bv32, c: bv32, d: bv32)
    requires a < 0x100 && b < 0x100 && c < 0x100 && d < 0x100
    ensures Join(a, b, c, d).bits == Xor32(a, Up8(Join(b, c, d, 0).bits))
    ensures Join(b, c, d, 0).bits < 0x100_0000
  {
    hide Xor32, Or32, Up4, Up8, Down4, Down8, Down16, Down24, Low4, Low8;
    hide Join;
    JoinTail(a, b, c, d);
    OrIsXor(a, Join(b, c, d, 0).bits);
  }

  lemma XorPrefix(r: Word, a: bv32, z: bv32, w: bv32)
    requires w == Xor32(a, z)
    ensures Xor(r, w) == Xor(Xor(r, a), z)
  {
    hide Xor32;
    XorAssociates(r.bits, a, z);
  }

  lemma JoinTail(a: bv32, b: bv32, c: bv32, d: bv32)
    requires a < 0x100 && b < 0x100 && c < 0x100 && d < 0x100
    ensures Join(a, b, c, d).bits == Or32(a, Up8(Join(b, c, d, 0).bits))
    ensures Join(b, c, d, 0).bits < 0x100_0000
  {
  }

  lemma OrIsXor(a: bv32, y: bv32)
    requires a < 0x100
    ensures Or32(a, Up8(y)) == Xor32(a, Up8(y))
  {
  }

  lemma XorAssociates(r: bv32, a: bv32, z: bv32)
    ensures Xor32(r, Xor32(a, z)) == Xor32(Xor32(r, a), z)
  {
  }

  function Divide32(c: Word): Word {
    Step8(Step8(Step8(Step8(c))))
  }

  lemma Divide32Injective(c: Word, d: Word)
    requires Divide32(c) == Divide32(d)
    ensures c == d
  {
    hide Step8;
    var c1, d1 := Step8(c), Step8(d);
    var c2, d2 := Step8(c1), Step8(d1);
    Step8Injective(Step8(c2), Step8(d2));
    Step8Injective(c2, d2);
    Step8Injective(c1, d1);
    Step8Injective(c, d);
  }

  lemma FoldFour<S>(f: (S, u8) -> S, r: S, s: Bytes)
    requires |s| == 4
    ensures Fold(f, r, s) == f(f(f(f(r, s[0]), s[1]), s[2]), s[3])
  {
    var t3, t2, t1 := s[..3], s[..2], s[..1];
    assert t3[..2] == t2 && t2[..1] == t1 && t1[..0] == [];
    assert Fold(f, r, t1) == f(r, s[0]);
    assert Fold(f, r, t2) == f(Fold(f, r, t1), s[1]);
    assert Fold(f, r, t3) == f(Fold(f, r, t2), s[2]);
  }

  /** Four bytes act as one 32-bit word. */
  lemma FourBytes(r: Word, s: Bytes)
    requires |s| == 4
    ensures Update(r, s) == Divide32(Xor(r, GetWord(s).bits))
  {
    hide Bits, Join, Xor, Step8, Fold;
    var a, b, c, d := Bits(s[0]), Bits(s[1]), Bits(s[2]), Bits(s[3]);
    BitsBound(s[0]);
    BitsBound(s[1]);
    BitsBound(s[2]);
    BitsBound(s[3]);
    FoldFour(UpdateByte, r, s);
    var r1 := UpdateByte(r, s[0]);
    var r2 := UpdateByte(r1, s[1]);
    var r3 := UpdateByte(r2, s[2]);
    ConsumeJoin(r, a, b, c, d);
    ConsumeJoin(r1, b, c, d, 0);
    ConsumeJoin(r2, c, d, 0, 0);
    JoinOne(d);
    assert Divide32(Xor(r, Join(a, b, c, d).bits)) == Step8(Xor(r3, d));
  }

  lemma ConsumeJoin(r: Word, a: bv32, b: bv32, c: bv32, d: bv32)
    requires a < 0x100 && b < 0x100 && c < 0x100 && d < 0x100
    ensures Step8(Xor(r, Join(a, b, c, d).bits)) == Xor(Step8(Xor(r, a)), Join(b, c, d, 0).bits)
  {
    hide Join, Xor, Step8, Xor32, Up8;
    JoinStep(a, b, c, d);
    ConsumeByte(r, a, Join(b, c, d, 0).bits, Join(a, b, c, d).bits);
  }

  lemma ConsumeByte(r: Word, a: bv32, x: bv32, w: bv32)
    requires x < 0x100_0000 && w == Xor32(a, Up8(x))
    ensures Step8(Xor(r, w)) == Xor(Step8(Xor(r, a)), x)
  {
    hide Xor, Step8, Xor32, Up8;
    XorPrefix(r, a, Up8(x), w);
    AbsorbAt(Xor(r, a), x, Xor(r, w));
  }

  lemma JoinOne(d: bv32)
    ensures Join(d, 0, 0, 0) == Word(d)
  {
  }

  /** Two different four-byte strings never leave the same register. */
  lemma FourBytesInjective(r: Word, s: Bytes, t: Bytes)
    requires |s| == |t| == 4 && Update(r, s) == Update(r, t)
    ensures s == t
  {
    hide Update, Divide32, Xor, GetWord;
    FourBytes(r, s);
    FourBytes(r, t);
    Divide32Injective(Xor(r, GetWord(s).bits), Xor(r, GetWord(t).bits));
    XorSame(r, GetWord(s), GetWord(t));
    GetWordInjective(s, t);
  }

  lemma XorSame(r: Word, s: Word, t: Word)
    requires Xor(r, s.bits) == Xor(r, t.bits)
    ensures s == t
  {
    hide Xor32;
    XorTwice(r.bits, s.bits);
    XorTwice(r.bits, t.bits);
    assert s == Word(s.bits) && t == Word(t.bits);
  }

  /** The register as a number. */
  function Value(c: Word): u32 {
    GetU32(PutWord(c))
  }

  /** The checksum is stored and loaded like every other word of the format. */
  lemma StoredLikeAnyWord(c: Word, s: Bytes)
    requires |s| == 4
    ensures PutWord(c) == PutU32(Value(c)) && Value(GetWord(s)) == GetU32(s)
  {
    hide PutWord, GetWord, GetU32, PutU32;
    PutGetU32(PutWord(c));
    GetPutWord(GetWord(s));
    GetWordInjective(PutWord(GetWord(s)), s);
  }

  // ----- what the checksum detects

  /** The test the reader makes: the last four bytes are the checksum of all before them. */
  predicate Intact(frame: Bytes) {
    |frame| >= 4 && GetWord(frame[|frame| - 4..]) == Crc(frame[..|frame| - 4])
  }

  lemma ResidueOfInit()
    ensures Divide32(INIT) == RESIDUE
  {
    assert Nibble(Word(0xFFFF_FFFF)) == Word(0xB242_0DE3);
    assert Nibble(Word(0xB242_0DE3)) == Word(0x2DFD_1072);
    assert Nibble(Word(0x2DFD_1072)) == Word(0x39B1_F1CF);
    assert Nibble(Word(0x39B1_F1CF)) == Word(0xBE26_ED00);
    assert Nibble(Word(0xBE26_ED00)) == Word(0x0BE2_6ED0);
    assert Nibble(Word(0x0BE2_6ED0)) == Word(0x00BE_26ED);
    assert Nibble(Word(0x00BE_26ED)) == Word(0x86D8_30BA);
    assert Nibble(Word(0x86D8_30BA)) == Word(0xDEBB_20E3);
  }

  /** A frame is intact exactly if the register ends on the fixed residue. */
  lemma IntactResidue(frame: Bytes)
    requires |frame| >= 4
    ensures Intact(frame) <==> Update(INIT, frame) == RESIDUE
  {
    hide Update, Divide32, Xor, GetWord, Final;
    ResidueOfInit();
    var data, word := frame[..|frame| - 4], frame[|frame| - 4..];
    assert data + word == frame;
    UpdateConcat(INIT, data, word);
    var r := Update(INIT, data);
    FourBytes(r, word);
    ResidueBits(r, GetWord(word));
    if Update(INIT, frame) == RESIDUE {
      Divide32Injective(Xor(r, GetWord(word).bits), INIT);
    }
  }

  lemma ResidueBits(r: Word, w: Word)
    ensures w == Final(r) ==> Xor(r, w.bits) == INIT
    ensures Xor(r, w.bits) == INIT ==> w == Final(r)
  {
    hide Xor32;
    if w == Final(r) {
      XorTwice(r.bits, 0xFFFF_FFFF);
    } else if Xor(r, w.bits) == INIT {
      XorTwice(r.bits, w.bits);
    }
  }

  lemma XorTwice(r: bv32, x: bv32)
    ensures Xor32(r, Xor32(r, x)) == x
  {
  }

  /** `b` differs from `a` only inside the four bytes starting at `k`. */
  predicate BurstAt(a: Bytes, b: Bytes, k: nat) {
    |a| == |b| && k + 4 <= |a| && a[..k] == b[..k] && a[k + 4..] == b[k + 4..]
  }

  /** A register function that loses nothing, neither its own content nor four bytes of input. */
  ghost predicate Reversible<S(!new)>(f: (S, u8) -> S) {
    && (forall c, d, b {:trigger f(c, b), f(d, b)} :: f(c, b) == f(d, b) ==> c == d)
    && (forall c, s, t {:trigger Fold(f, c, s), Fold(f, c, t)} ::
          |s| == |t| == 4 && Fold(f, c, s) == Fold(f, c, t) ==> s == t)
  }

  lemma {:induction false} FoldInjective<S(!new)>(f: (S, u8) -> S, c: S, d: S, data: Bytes)
    requires Reversible(f) && Fold(f, c, data) == Fold(f, d, data)
    ensures c == d
    decreases |data|
  {
    if data != [] {
      FoldInjective(f, c, d, data[..|data| - 1]);
    }
  }

  lemma BurstChangesFold<S(!new)>(f: (S, u8) -> S, c: S, a: Bytes, b: Bytes, k: nat)
    requires Reversible(f) && BurstAt(a, b, k) && Fold(f, c, a) == Fold(f, c, b)
    ensures a == b
  {
    FoldSplit(f, c, a, k);
    FoldSplit(f, c, b, k);
    var r := Fold(f, c, a[..k]);
    FoldInjective(f, Fold(f, r, a[k..k + 4]), Fold(f, r, b[k..k + 4]), a[k + 4..]);
    assert a[k..k + 4] == b[k..k + 4];
    assert a == a[..k] + a[k..k + 4] + a[k + 4..];
  }

  lemma FoldSplit<S>(f: (S, u8) -> S, c: S, a: Bytes, k: nat)
    requires k + 4 <= |a|
    ensures Fold(f, c, a) == Fold(f, Fold(f, Fold(f, c, a[..k]), a[k..k + 4]), a[k + 4..])
  {
    var p, m, q := a[..k], a[k..k + 4], a[k + 4..];
    FoldConcat(f, c, p + m, q);
    FoldConcat(f, c, p, m);
    assert a == (p + m) + q;
  }

  lemma UpdateReversible()
    ensures Reversible(UpdateByte)
  {
    forall c: Word, d: Word, b: u8 | UpdateByte(c, b) == UpdateByte(d, b)
      ensures c == d
    {
      UpdateByteInjective(c, d, b);
    }
    forall c: Word, s: Bytes, t: Bytes | |s| == |t| == 4 && Fold(UpdateByte, c, s) == Fold(UpdateByte, c, t)
      ensures s == t
    {
      FourBytesInjective(c, s, t);
    }
  }

  /** Different registers stay different, whatever bytes follow. */
  lemma UpdateInjective(c: Word, d: Word, data: Bytes)
    requires Update(c, data) == Update(d, data)
    ensures c == d
  {
    UpdateReversible();
    FoldInjective(UpdateByte, c, d, data);
  }

  /** Any damage confined to four consecutive bytes of a frame, its checksum included, shows. */
  lemma BurstDetected(a: Bytes, b: Bytes, k: nat)
    requires BurstAt(a, b, k) && a != b && Intact(a)
    ensures !Intact(b)
  {
    if Intact(b) {
      IntactResidue(a);
      IntactResidue(b);
      UpdateReversible();
      BurstChangesFold(UpdateByte, INIT, a, b, k);
    }
  }
}
