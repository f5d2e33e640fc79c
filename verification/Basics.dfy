/** Integer widths of the source and little-endian byte access. */
module Basics {

  const TWO_32: int := 0x1_0000_0000
  const TWO_64: int := 0x1_0000_0000_0000_0000

  type u8 = x: int | 0 <= x < 0x100
  type u16 = x: int | 0 <= x < 0x1_0000
  type u32 = x: int | 0 <= x < 0x1_0000_0000
  type u64 = x: int | 0 <= x < 0x1_0000_0000_0000_0000
  type i64 = x: int | -0x8000_0000_0000_0000 <= x < 0x8000_0000_0000_0000

  type Bytes = seq<u8>

  datatype Option<+T> = None | Some(value: T)

  function Min(a: int, b: int): int {
    if a < b then a else b
  }

  /** Two to the power of `k`. */
  function Pow2(k: nat): (p: nat)
    ensures p >= 1
  {
    if k == 0 then 1 else 2 * Pow2(k - 1)
  }

  function PutU16(v: u16): (s: Bytes)
    ensures |s| == 2 && GetU16(s) == v
  {
    [v % 0x100, v / 0x100]
  }

  function PutU32(v: u32): (s: Bytes)
    ensures |s| == 4 && GetU32(s) == v
  {
    var v1 := v / 0x100;
    var v2 := v1 / 0x100;
    [v % 0x100, v1 % 0x100, v2 % 0x100, v2 / 0x100]
  }

  function PutU64(v: u64): (s: Bytes)
    ensures |s| == 8 && GetU64(s) == v
  {
    var s := PutU32(v % TWO_32) + PutU32(v / TWO_32);
    assert s[..4] == PutU32(v % TWO_32) && s[4..8] == PutU32(v / TWO_32);
    s
  }

  function GetU16(s: Bytes): u16
    requires |s| >= 2
  {
    s[0] as int + 0x100 * (s[1] as int)
  }

  function GetU32(s: Bytes): u32
    requires |s| >= 4
  {
    s[0] as int + 0x100 * (s[1] as int) + 0x1_0000 * (s[2] as int) + 0x100_0000 * (s[3] as int)
  }

  function GetU64(s: Bytes): u64
    requires |s| >= 8
  {
    GetU32(s[..4]) + TWO_32 * GetU32(s[4..8])
  }

  /** Storing a word over four bytes and loading it back are inverse in this direction too. */
  lemma PutGetU32(s: Bytes)
    requires |s| == 4
    ensures PutU32(GetU32(s)) == s
  {
    var v := GetU32(s);
    var a: int, b: int, c: int, d: int := s[0], s[1], s[2], s[3];
    assert v / 0x100 == b + 0x100 * c + 0x1_0000 * d;
    assert v / 0x100 / 0x100 == c + 0x100 * d;
  }

  /** A word read at the front of a buffer does not depend on what follows it. */
  lemma GetU32Prefix(s: Bytes, rest: Bytes)
    requires |s| >= 4
    ensures GetU32(s + rest) == GetU32(s)
  {
  }

  /** The number a string of bytes stands for, least significant first. */
  function LittleEndian(s: Bytes): nat {
    if s == [] then 0 else s[0] + 0x100 * LittleEndian(s[1..])
  }

  /** Words of all three widths are stored least significant byte first. */
  lemma LittleEndianWords(s: Bytes)
    ensures |s| >= 2 ==> GetU16(s) == LittleEndian(s[..2])
    ensures |s| >= 4 ==> GetU32(s) == LittleEndian(s[..4])
    ensures |s| >= 8 ==> GetU64(s) == LittleEndian(s[..8])
  {
    if |s| >= 2 {
      assert s[..2] == [s[0], s[1]];
      FewBytes(s[0], s[1], []);
    }
    if |s| >= 4 {
      FourBytes(s);
    }
    if |s| >= 8 {
      FourBytes(s[..4]);
      FourBytes(s[4..8]);
      TwoWords(s[..4], s[4..8]);
      assert s[..8] == s[..4] + s[4..8] && s[..4][..4] == s[..4] && s[4..8][..4] == s[4..8];
    }
  }

  lemma FewBytes(a: u8, b: u8, rest: Bytes)
    ensures LittleEndian([a, b] + rest) == a + 0x100 * b + 0x1_0000 * LittleEndian(rest)
    ensures LittleEndian([a, b]) == a + 0x100 * b
  {
    assert ([a, b] + rest)[1..] == [b] + rest && ([b] + rest)[1..] == rest;
    assert [a, b][1..] == [b] && [b][1..] == [];
    assert LittleEndian([b]) == b;
  }

  lemma FourBytes(s: Bytes)
    requires |s| >= 4
    ensures GetU32(s) == LittleEndian(s[..4])
  {
    assert s[..4] == [s[0], s[1]] + [s[2], s[3]];
    FewBytes(s[0], s[1], [s[2], s[3]]);
    FewBytes(s[2], s[3], []);
  }

  lemma TwoWords(a: Bytes, b: Bytes)
    requires |a| == 4
    ensures LittleEndian(a + b) == LittleEndian(a) + TWO_32 * LittleEndian(b)
  {
    assert a == [a[0], a[1]] + [a[2], a[3]] && a + b == [a[0], a[1]] + ([a[2], a[3]] + b);
    FewBytes(a[0], a[1], [a[2], a[3]]);
    FewBytes(a[0], a[1], [a[2], a[3]] + b);
    FewBytes(a[2], a[3], b);
    FewBytes(a[2], a[3], []);
  }

  /** There is one way to divide with remainder. */
  lemma DivisionUnique(x: int, m: nat, q: int, r: int)
    requires m > 0 && x == q * m + r && 0 <= r < m
    ensures x % m == r
  {
    var k := x / m - q;
    assert k * m == r - x % m by {
      assert x == (x / m) * m + x % m;
      assert (x / m - q) * m == (x / m) * m - q * m;
    }
    MulBound(k, m);
  }

  lemma MulBound(k: int, m: nat)
    ensures k >= 1 ==> k * m >= m
    ensures k <= -1 ==> k * m <= 0 - m
  {
  }

  /** The buffer `s` with `t` written over it at `off`. */
  function Overwrite(s: Bytes, off: nat, t: Bytes): (r: Bytes)
    requires off + |t| <= |s|
    ensures |r| == |s|
  {
    s[..off] + t + s[off + |t|..]
  }

  /** A counter of the source's 32-bit type after `n` increments. */
  function Wrap32(n: nat): u32 {
    n % TWO_32
  }

  function Wrap64(n: nat): u64 {
    n % TWO_64
  }

  lemma WrapAdd32(n: nat, t: nat)
    ensures Wrap32(Wrap32(n) + t) == Wrap32(n + t)
  {
  }

  lemma WrapAdd64(n: nat, t: nat)
    ensures Wrap64(Wrap64(n) + t) == Wrap64(n + t)
  {
  }

  lemma OverwritePrefix(s: Bytes, off: nat, t: Bytes)
    requires off + |t| <= |s|
    ensures Overwrite(s, off, t)[..off + |t|] == s[..off] + t
    ensures Overwrite(s, off, t)[off..off + |t|] == t
  {
  }

  lemma OverwriteSnoc(s: Bytes, off: nat, t: Bytes, b: u8)
    requires off + |t| < |s|
    ensures Overwrite(s, off, t)[off + |t| := b] == Overwrite(s, off, t + [b])
  {
  }

  method PutU32Le(p: array<u8>, off: nat, v: u32)
    requires off + 4 <= p.Length
    modifies p
    ensures p[..] == Overwrite(old(p[..]), off, PutU32(v))
  {
    p[off] := v % 0x100;
    p[off + 1] := v / 0x100 % 0x100;
    p[off + 2] := v / 0x100 / 0x100 % 0x100;
    p[off + 3] := v / 0x100 / 0x100 / 0x100;
  }

  method CopyBytes(dst: array<u8>, off: nat, src: Bytes)
    requires off + |src| <= dst.Length
    modifies dst
    ensures dst[..] == Overwrite(old(dst[..]), off, src)
  {
    ghost var start := dst[..];
    for i := 0 to |src|
      invariant dst[..] == Overwrite(start, off, src[..i])
    {
      OverwriteSnoc(start, off, src[..i], src[i]);
      assert src[..i + 1] == src[..i] + [src[i]];
      dst[off + i] := src[i];
    }
    assert src[..|src|] == src;
  }
}
