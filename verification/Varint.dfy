/** Unsigned LEB128 (section 7.6 of DWARF version 5) and the ZigZag map in front of it. */
module Varint {
  import opened Basics

  const MAX_BYTES := 10

  // ----- what an encoding means

  /** The shortest encoding of `v`. */
  function Encode(v: nat): (s: Bytes)
    ensures |s| >= 1
    decreases v
  {
    if v < 0x80 then [v] else [v % 0x80 + 0x80] + Encode(v / 0x80)
  }

  /** The number a byte string stands for: seven bits a byte, least significant first. */
  function Value(s: Bytes): nat {
    if s == [] then 0 else s[0] % 0x80 + 0x80 * Value(s[1..])
  }

  /** The length of the encoding at the front of `s`, or 0 if no byte ends it. */
  function Terminator(s: Bytes): (n: nat)
    ensures n <= |s|
  {
    if s == [] then 0
    else if s[0] < 0x80 then 1
    else if Terminator(s[1..]) == 0 then 0
    else 1 + Terminator(s[1..])
  }

  datatype Decoded = Malformed | Decoded(value: u64, size: nat)

  /** What the decoder promises: a terminated encoding of at most ten bytes that fits 64 bits. */
  function Decode(s: Bytes): (r: Decoded) {
    var n := Terminator(s);
    if 1 <= n <= MAX_BYTES && Value(s[..n]) < TWO_64 then Decoded(Value(s[..n]), n) else Malformed
  }

  function Pow128(k: nat): (p: nat)
    ensures p >= 1
  {
    if k == 0 then 1 else 0x80 * Pow128(k - 1)
  }

  lemma Pow128Ten()
    ensures 2 * Pow128(9) == TWO_64
  {
    assert Pow128(3) == 0x80 * 0x80 * 0x80;
    assert Pow128(6) == Pow128(3) * Pow128(3) by {
      assert Pow128(6) == 0x80 * (0x80 * (0x80 * Pow128(3)));
    }
    assert Pow128(9) == 0x80 * (0x80 * (0x80 * Pow128(6)));
  }

  // ----- properties of the encoding

  /** Values below 128^k take at most k bytes. */
  lemma {:induction false} EncodeSize(v: nat, k: nat)
    requires 1 <= k && v < Pow128(k)
    ensures |Encode(v)| <= k
    decreases k
  {
    if v >= 0x80 {
      assert Pow128(k) == 0x80 * Pow128(k - 1);
      EncodeSize(v / 0x80, k - 1);
    }
  }

  lemma EncodeSizes(v: u64)
    ensures |Encode(v)| <= MAX_BYTES
    ensures v < TWO_32 ==> |Encode(v)| <= 5
    ensures v < 2 * TWO_32 ==> |Encode(v)| <= 5
  {
    Pow128Ten();
    EncodeSize(v, 10);
    if v < 2 * TWO_32 {
      assert Pow128(5) == 0x80 * (0x80 * (0x80 * (0x80 * 0x80)));
      EncodeSize(v, 5);
    }
  }

  /** Decoding an encoding gives the value back and consumes exactly its bytes, whatever follows. */
  lemma {:induction false} EncodeTerminates(v: nat, rest: Bytes)
    ensures Terminator(Encode(v) + rest) == |Encode(v)|
    ensures Value(Encode(v)) == v
    decreases v
  {
    var s := Encode(v) + rest;
    if v < 0x80 {
      assert s[0] == v;
    } else {
      EncodeTerminates(v / 0x80, rest);
      assert s[1..] == Encode(v / 0x80) + rest;
      assert Encode(v)[1..] == Encode(v / 0x80);
    }
  }

  lemma RoundTrip(v: u64, rest: Bytes)
    ensures Decode(Encode(v) + rest) == Decoded(v, |Encode(v)|)
  {
    EncodeTerminates(v, rest);
    EncodeSizes(v);
    assert (Encode(v) + rest)[..|Encode(v)|] == Encode(v);
  }

  /** No terminated encoding of a value is shorter than the one the encoder picks. */
  lemma {:induction false} Shortest(s: Bytes)
    requires |s| >= 1 && Terminator(s) == |s|
    ensures |Encode(Value(s))| <= |s|
  {
    if |s| > 1 {
      assert s[0] >= 0x80;
      Shortest(s[1..]);
      var v, w := Value(s), Value(s[1..]);
      assert v / 0x80 == w;
    } else {
      assert s[1..] == [];
    }
  }

  // ----- the loops

  lemma {:induction false} ValueSnoc(s: Bytes, b: u8)
    ensures Value(s + [b]) == Value(s) + (b % 0x80) * Pow128(|s|)
  {
    if s == [] {
      assert (s + [b])[1..] == [];
    } else {
      ValueSnoc(s[1..], b);
      assert (s + [b])[1..] == s[1..] + [b];
      MulStep(b % 0x80, Pow128(|s| - 1));
    }
  }

  lemma MulStep(x: nat, p: nat)
    ensures 0x80 * (x * p) == x * (0x80 * p)
  {
  }

  lemma {:induction false} TerminatorAt(s: Bytes, i: nat)
    requires i < |s| && (forall j :: 0 <= j < i ==> s[j] >= 0x80)
    ensures s[i] < 0x80 ==> Terminator(s) == i + 1
    ensures s[i] >= 0x80 ==> Terminator(s) == 0 || Terminator(s) > i + 1
  {
    if i > 0 {
      TerminatorAt(s[1..], i - 1);
    }
  }

  lemma {:induction false} NoTerminator(s: Bytes)
    requires forall j :: 0 <= j < |s| ==> s[j] >= 0x80
    ensures Terminator(s) == 0
  {
    if s != [] {
      NoTerminator(s[1..]);
    }
  }

  lemma {:induction false} ValueGrows(s: Bytes, i: nat)
    requires i <= |s|
    ensures Value(s[..i]) <= Value(s)
  {
    if i > 0 {
      ValueGrows(s[1..], i - 1);
      assert s[..i][1..] == s[1..][..i - 1];
    }
  }

  /** Writes the encoding of `v` at `off` and returns its length. */
  method EncodeInto(v: u64, out: array<u8>, off: nat) returns (n: nat)
    requires off + MAX_BYTES <= out.Length
    modifies out
    ensures n == |Encode(v)| <= MAX_BYTES
    ensures out[..] == Overwrite(old(out[..]), off, Encode(v))
  {
    EncodeSizes(v);
    n := 0;
    var rest: nat := v;
    ghost var start := out[..];
    ghost var done: Bytes := [];
    while rest >= 0x80
      invariant n == |done| && done + Encode(rest) == Encode(v)
      invariant out[..] == Overwrite(start, off, done)
      decreases rest
    {
      var b: u8 := rest % 0x80 + 0x80;
      OverwriteSnoc(start, off, done, b);
      assert done + Encode(rest) == (done + [b]) + Encode(rest / 0x80);
      out[off + n] := b;
      done := done + [b];
      n := n + 1;
      rest := rest / 0x80;
    }
    OverwriteSnoc(start, off, done, rest);
    out[off + n] := rest;
    n := n + 1;
  }

  method Size(v: u64) returns (n: nat)
    ensures n == |Encode(v)|
  {
    n := 1;
    var rest: nat := v;
    while rest >= 0x80
      invariant n - 1 + |Encode(rest)| == |Encode(v)|
      decreases rest
    {
      rest := rest / 0x80;
      n := n + 1;
    }
  }

  /** Returns 0 for a malformed encoding, otherwise its length. */
  method DecodeFrom(s: Bytes) returns (n: nat, value: u64)
    ensures n == 0 <==> Decode(s) == Malformed
    ensures n != 0 ==> Decode(s) == Decoded(value, n)
  {
    var result: nat, power: nat := 0, 1;
    var limit := if |s| < MAX_BYTES then |s| else MAX_BYTES;
    for i := 0 to limit
      invariant forall j :: 0 <= j < i ==> s[j] >= 0x80
      invariant result == Value(s[..i]) && power == Pow128(i)
      invariant result < power
    {
      var payload: nat := s[i] % 0x80;
      Step(s, i, payload, power, result);
      if i == 9 && payload > 1 {
        return 0, 0;
      }
      result := result + payload * power;
      if s[i] < 0x80 {
        return i + 1, result;
      }
      power := 0x80 * power;
    }
    if |s| <= MAX_BYTES {
      NoTerminator(s);
    } else {
      TerminatorAt(s, 9);
    }
    return 0, 0;
  }

  /** What one more byte tells the decoder. */
  lemma Step(s: Bytes, i: nat, payload: nat, power: nat, result: nat)
    requires i < |s| && i < MAX_BYTES && (forall j :: 0 <= j < i ==> s[j] >= 0x80)
    requires result == Value(s[..i]) < power == Pow128(i) && payload == s[i] % 0x80
    ensures i == 9 && payload > 1 ==> Decode(s) == Malformed
    ensures !(i == 9 && payload > 1) ==> result + payload * power < 0x80 * power
    ensures !(i == 9 && payload > 1) ==> result + payload * power < TWO_64
    ensures Value(s[..i + 1]) == result + payload * power
    ensures !(i == 9 && payload > 1) && s[i] < 0x80 ==> Decode(s) == Decoded(result + payload * power, i + 1)
    ensures s[i] >= 0x80 && i == 9 ==> Decode(s) == Malformed
  {
    TerminatorAt(s, i);
    ValueSnoc(s[..i], s[i]);
    assert s[..i + 1] == s[..i] + [s[i]];
    if i == 9 && payload > 1 {
      TooLarge(s, payload, power);
    } else {
      Fits(i, payload, power, result);
    }
  }

  lemma TooLarge(s: Bytes, payload: nat, power: nat)
    requires |s| >= 10 && payload > 1 && power == Pow128(9)
    requires Value(s[..10]) >= payload * power
    ensures 10 <= Terminator(s) ==> Value(s[..Terminator(s)]) >= TWO_64
  {
    Pow128Ten();
    assert payload * power >= 2 * power;
    if 10 <= Terminator(s) {
      var t := s[..Terminator(s)];
      ValueGrows(t, 10);
      assert t[..10] == s[..10];
    }
  }

  lemma Fits(i: nat, payload: nat, power: nat, result: nat)
    requires i <= 9 && payload < 0x80 && power == Pow128(i) && result < power
    requires i == 9 ==> payload <= 1
    ensures result + payload * power < 0x80 * power
    ensures result + payload * power < TWO_64
  {
    Pow128Ten();
    assert payload * power <= 0x7F * power;
    if i == 9 {
      assert payload * power <= power;
    } else {
      PowMonotone(i + 1, 9);
    }
  }

  lemma {:induction false} PowMonotone(i: nat, k: nat)
    requires i <= k
    ensures Pow128(i) <= Pow128(k)
    decreases k
  {
    if i < k {
      PowMonotone(i, k - 1);
    }
  }

  // ----- ZigZag

  /** Maps 0, -1, 1, -2, ... onto 0, 1, 2, 3, ... */
  function Zigzag(v: i64): (u: u64)
    ensures Unzigzag(u) == v
  {
    if v < 0 then 2 * (-(v + 1)) + 1 else 2 * v
  }

  function Unzigzag(u: u64): i64 {
    if u % 2 == 1 then -(u / 2) - 1 else u / 2
  }

  /** Together with the postcondition of `Zigzag`: the map is a bijection. */
  lemma ZigzagOnto(u: u64)
    ensures Zigzag(Unzigzag(u)) == u
  {
  }

  function Magnitude(v: i64): nat {
    var n: int := v;
    if n < 0 then -n else n
  }

  /** Small numbers stay small, whatever their sign: the map goes by magnitude, and of two opposites takes the negative first. */
  lemma ZigzagByMagnitude(a: i64, b: i64)
    ensures Zigzag(a) < Zigzag(b) <==> Magnitude(a) < Magnitude(b) || (Magnitude(a) == Magnitude(b) && a < b)
  {
  }
}
