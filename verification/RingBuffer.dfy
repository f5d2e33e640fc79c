/** The byte queue between recording and transmitting: free-running 32-bit counters over a fixed store. */
module Ring {
  import opened Basics

  const MAX_CAPACITY := 0x8000_0000

  predicate PowerOfTwo(n: nat)
    decreases n
  {
    n == 1 || (n > 1 && n % 2 == 0 && PowerOfTwo(n / 2))
  }

  lemma OneOrEven(k: nat)
    ensures Pow2(k) == 1 || (Pow2(k) % 2 == 0 && Pow2(k) >= 2)
  {
  }

  /** The powers of two are what it says, and no other numbers. */
  lemma {:induction false} PowersOfTwo(n: nat)
    ensures PowerOfTwo(n) <==> exists k: nat :: n == Pow2(k)
  {
    if n % 2 == 0 && n > 1 {
      PowersOfTwo(n / 2);
      if PowerOfTwo(n / 2) {
        var k: nat :| n / 2 == Pow2(k);
        assert n == 2 * Pow2(k) == Pow2(k + 1);
      }
      if exists k: nat :: n == Pow2(k) {
        var k: nat :| n == Pow2(k);
        assert k > 0 && n == 2 * Pow2(k - 1);
        assert n / 2 == Pow2(k - 1);
      }
    } else {
      assert Pow2(0) == 1;
      if k: nat :| n == Pow2(k) {
        OneOrEven(k);
      }
    }
  }

  /** Bitwise and. */
  function And(a: nat, b: nat): nat {
    if a == 0 || b == 0 then 0 else (if a % 2 == 1 && b % 2 == 1 then 1 else 0) + 2 * And(a / 2, b / 2)
  }

  lemma {:induction false} AndSelf(a: nat)
    ensures And(a, a) == a
  {
    if a > 0 {
      AndSelf(a / 2);
    }
  }

  /** The test of one bit being set: the number and the one before it have none in common. */
  lemma {:induction false} BitTest(n: nat)
    requires n > 0
    ensures And(n, n - 1) == 0 <==> PowerOfTwo(n)
  {
    if n % 2 == 1 {
      AndSelf(n / 2);
    } else {
      BitTest(n / 2);
      assert (n - 1) / 2 == n / 2 - 1;
    }
  }

  /** Masking with one less than a power of two is the remainder. */
  lemma {:induction false} MaskIsRemainder(x: nat, cap: nat)
    requires PowerOfTwo(cap)
    ensures And(x, cap - 1) == x % cap
  {
    if cap > 1 {
      MaskIsRemainder(x / 2, cap / 2);
      assert (cap - 1) / 2 == cap / 2 - 1;
      DoubleRemainder(x, cap / 2);
    }
  }

  lemma DoubleRemainder(x: nat, half: nat)
    requires half > 0
    ensures x % (2 * half) == x % 2 + 2 * (x / 2 % half)
  {
    var q, r := x / 2 / half, x / 2 % half;
    assert x / 2 == q * half + r;
    assert q * (2 * half) == 2 * (q * half);
    DivisionUnique(x, 2 * half, q, x % 2 + 2 * r);
  }

  /** Where the byte with index `n` lies, as masking the wrapped counter finds it. */
  lemma SlotByMask(n: nat, cap: nat)
    requires PowerOfTwo(cap) && cap <= TWO_32
    ensures And(Wrap32(n), cap - 1) == n % cap
  {
    hide PowerOfTwo, And, Wrap32;
    WrapSlot(n, cap);
    MaskIsRemainder(Wrap32(n), cap);
  }

  /** The capacities the ring takes are 2, 4, 8 and so on up to 2^31. */
  lemma Capacities(n: u32)
    ensures 2 <= n <= MAX_CAPACITY && PowerOfTwo(n) <==> exists k :: 1 <= k <= 31 && n == Pow2(k)
  {
    PowersOfTwo(n);
    PowBounds();
    if PowerOfTwo(n) && 2 <= n <= MAX_CAPACITY {
      var k: nat :| n == Pow2(k);
      if k > 31 {
        PowMonotone(32, k);
      }
      assert k != 0;
    }
    if k :| 1 <= k <= 31 && n == Pow2(k) {
      PowMonotone(1, k);
      PowMonotone(k, 31);
    }
  }

  lemma PowBounds()
    ensures Pow2(0) == 1 && Pow2(1) == 2 && Pow2(31) == MAX_CAPACITY && Pow2(32) == TWO_32
  {
    assert Pow2(4) == 16;
    assert Pow2(8) == 0x100;
    assert Pow2(16) == 0x1_0000 by {
      assert Pow2(12) == 0x1000;
    }
    assert Pow2(24) == 0x100_0000 by {
      assert Pow2(20) == 0x10_0000;
    }
    assert Pow2(28) == 0x1000_0000;
  }

  lemma {:induction false} PowMonotone(a: nat, b: nat)
    requires a <= b
    ensures Pow2(a) <= Pow2(b)
    decreases b
  {
    if a < b {
      PowMonotone(a, b - 1);
    }
  }

  // ----- slots

  /** How the slot of a byte moves as its index grows. */
  lemma SlotStep(n: nat, d: nat, cap: nat)
    requires cap > 0 && d <= cap
    ensures (n + d) % cap == (if n % cap + d < cap then n % cap + d else n % cap + d - cap)
  {
    var q, r := n / cap, n % cap;
    assert n == q * cap + r;
    if r + d < cap {
      DivisionUnique(n + d, cap, q, r + d);
    } else {
      assert (q + 1) * cap == q * cap + cap;
      DivisionUnique(n + d, cap, q + 1, r + d - cap);
    }
  }

  lemma {:induction false} PowerDivides(cap: nat, top: nat) returns (q: nat)
    requires PowerOfTwo(cap) && PowerOfTwo(top) && cap <= top
    ensures q * cap == top
    decreases top
  {
    if cap == 1 {
      q := top;
    } else {
      q := PowerDivides(cap / 2, top / 2);
      assert q * cap == 2 * (q * (cap / 2));
    }
  }

  lemma PowerOfTwo32()
    ensures PowerOfTwo(TWO_32)
  {
    PowBounds();
    hide PowerOfTwo, Pow2;
    PowersOfTwo(TWO_32);
    assert TWO_32 == Pow2(32);
  }

  lemma Collect(a: nat, q: nat, b: nat, m: nat)
    ensures a * (q * m) + b * m == (a * q + b) * m
  {
    assert a * (q * m) == (a * q) * m;
  }

  /** The counters may wrap: a power-of-two capacity finds the same slot. */
  lemma WrapSlot(n: nat, cap: nat)
    requires PowerOfTwo(cap) && cap <= TWO_32
    ensures Wrap32(n) % cap == n % cap
  {
    hide PowerOfTwo;
    PowerOfTwo32();
    var q := PowerDivides(cap, TWO_32);
    var w := Wrap32(n);
    assert n == (n / TWO_32) * TWO_32 + w;
    hide Wrap32;
    DivMod(w, cap);
    SameRemainder(n, n / TWO_32, q, w / cap, w % cap, cap, w);
  }

  lemma DivMod(x: nat, m: nat)
    requires m > 0
    ensures x == (x / m) * m + x % m && x / m >= 0
  {
  }

  lemma SameRemainder(n: nat, a: nat, q: nat, b: nat, r: nat, cap: nat, w: nat)
    requires cap > 0 && q * cap == TWO_32 && r < cap
    requires n == a * TWO_32 + w && w == b * cap + r
    ensures n % cap == r
  {
    Collect(a, q, b, cap);
    DivisionUnique(n, cap, a * q + b, r);
  }

  /** The difference of two wrapped counters, as unsigned 32-bit subtraction computes it. */
  function Distance(head: u32, tail: u32): u32 {
    (head - tail) % TWO_32
  }

  lemma DistanceOfWrapped(h: nat, t: nat)
    requires t <= h < t + TWO_32
    ensures Distance(Wrap32(h), Wrap32(t)) == h - t
  {
  }

  /** How much can be read in one piece before the store wraps. */
  function Contiguous(t: nat, used: nat, cap: nat): nat
    requires cap > 0
  {
    Min(cap - t % cap, used)
  }

  /** Two reads of contiguous pieces always empty the queue. */
  lemma TwoPeeksSuffice(t: nat, used: nat, cap: nat)
    requires cap > 0 && used <= cap
    ensures var n := Contiguous(t, used, cap);
            (used > 0 ==> n > 0) && n + Contiguous(t + n, used - n, cap) == used
  {
    SlotStep(t, Contiguous(t, used, cap), cap);
  }

  // ----- contents of the store

  /** The live bytes `t .. |pushed|` of the history lie in their slots. */
  ghost predicate Holds(store: Bytes, cap: nat, pushed: Bytes, t: nat) {
    && 0 < cap <= |store| && t <= |pushed| <= t + cap
    && forall i :: t <= i < |pushed| ==> store[i % cap] == pushed[i]
  }

  /** Where a contiguous copy of `data` into the ring puts its bytes. */
  function Place(store: Bytes, cap: nat, at: nat, data: Bytes): (s: Bytes)
    requires 0 < cap <= |store| && at < cap && |data| <= cap
    ensures |s| == |store|
  {
    var first := Min(cap - at, |data|);
    Overwrite(Overwrite(store, at, data[..first]), 0, data[first..])
  }

  lemma PlaceAt(store: Bytes, cap: nat, at: nat, data: Bytes, slot: nat)
    requires 0 < cap <= |store| && at < cap && |data| <= cap && slot < cap
    ensures Place(store, cap, at, data)[slot] ==
            (if at <= slot < at + |data| then data[slot - at]
             else if slot + cap < at + |data| then data[slot + cap - at] else store[slot])
  {
  }

  /** A push of at most the free space keeps every unread byte and adds the new ones. */
  lemma HoldsPush(store: Bytes, cap: nat, pushed: Bytes, t: nat, data: Bytes)
    requires Holds(store, cap, pushed, t) && |pushed| + |data| <= t + cap
    ensures Holds(Place(store, cap, |pushed| % cap, data), cap, pushed + data, t)
  {
    var s := Place(store, cap, |pushed| % cap, data);
    forall i | t <= i < |pushed| + |data|
      ensures s[i % cap] == (pushed + data)[i]
    {
      PlaceAt(store, cap, |pushed| % cap, data, i % cap);
      if i < |pushed| {
        SlotStep(i, |pushed| - i, cap);
      } else {
        SlotStep(|pushed|, i - |pushed|, cap);
      }
    }
  }

  /** A contiguous piece of the store is the front of the live bytes. */
  lemma HoldsPeek(store: Bytes, cap: nat, pushed: Bytes, t: nat)
    requires Holds(store, cap, pushed, t)
    ensures var n := Contiguous(t, |pushed| - t, cap);
            0 < cap <= |store| && t % cap + n <= cap && store[t % cap..t % cap + n] == pushed[t..t + n]
  {
    var n := Contiguous(t, |pushed| - t, cap);
    var region := store[t % cap..t % cap + n];
    forall k | 0 <= k < n
      ensures region[k] == pushed[t..t + n][k]
    {
      SlotStep(t, k, cap);
    }
  }

  lemma TwoParts(all: Bytes, first: Bytes, second: Bytes)
    requires first <= all && second <= all[|first|..] && |first| + |second| == |all|
    ensures first + second == all && all[|first|..][|second|..] == []
  {
  }

  class RingBuffer {
    var store: array?<u8>
    var cap: nat
    var head: u32
    var tail: u32
    var drops: u32
    var bytesDropped: u64
    var highWater: nat

    /** All bytes accepted since the last reset, and how many of them have been released. */
    ghost var pushed: Bytes
    ghost var popped: nat

    ghost predicate Valid()
      reads this, store
    {
      && popped <= |pushed| <= popped + MAX_CAPACITY
      && head == Wrap32(|pushed|) && tail == Wrap32(popped)
      && (store != null ==> 2 <= cap <= MAX_CAPACITY && PowerOfTwo(cap) && Holds(store[..], cap, pushed, popped))
    }

    ghost function Contents(): Bytes
      reads this
      requires popped <= |pushed|
    {
      pushed[popped..]
    }

    constructor ()
      ensures Valid() && store == null && pushed == [] && popped == 0
    {
      store, cap, head, tail := null, 0, 0, 0;
      drops, bytesDropped, highWater := 0, 0, 0;
      pushed, popped := [], 0;
    }

    method Init(storage: array?<u8>, capacity: u32) returns (ok: bool)
      requires Valid() && (storage != null ==> capacity <= storage.Length)
      modifies this
      ensures Valid()
      ensures ok <==> storage != null && exists k :: 1 <= k <= 31 && capacity == Pow2(k)
      ensures ok ==> store == storage && cap == capacity && Contents() == [] && drops == 0 && highWater == 0
      ensures if ok then pushed == [] && popped == 0 else store == null && pushed == old(pushed) && popped == old(popped)
    {
      hide PowerOfTwo, And, Pow2;
      Capacities(capacity);
      if capacity > 0 {
        BitTest(capacity);
      }
      if storage == null || capacity < 2 || capacity > MAX_CAPACITY || And(capacity, capacity - 1) != 0 {
        store, cap := null, 0;
        return false;
      }
      store, cap, head, tail := storage, capacity, 0, 0;
      drops, bytesDropped, highWater := 0, 0, 0;
      pushed, popped := [], 0;
      return true;
    }

    function Used(): u32
      reads this
    {
      Distance(head, tail)
    }

    lemma UsedIsLength()
      requires Valid()
      ensures Used() == |Contents()| && (store != null ==> Used() <= cap)
    {
      DistanceOfWrapped(|pushed|, popped);
    }

    /** Appends the first `len` bytes of `data`, or none of them. */
    method Push(data: Option<Bytes>, len: u32) returns (ok: bool)
      requires Valid() && (data.Some? ==> len <= |data.value|)
      modifies this, store
      ensures Valid() && store == old(store) && cap == old(cap)
      ensures ok <==> store != null && (len == 0 || (data.Some? && |old(Contents())| + len <= cap))
      ensures Contents() == old(Contents()) + (if ok && len > 0 then data.value[..len] else [])
      ensures pushed == old(pushed) + (if ok && len > 0 then data.value[..len] else []) && popped == old(popped)
      ensures highWater == (if ok && len > 0 && |Contents()| > old(highWater) then |Contents()| else old(highWater))
      ensures drops == (if !ok && store != null && data.Some? then Wrap32(old(drops) + 1) else old(drops))
      ensures bytesDropped == (if !ok && store != null && data.Some? then Wrap64(old(bytesDropped) + len) else old(bytesDropped))
    {
      if store == null {
        return false;
      }
      if len == 0 {
        return true;
      }
      if data.None? {
        return false;
      }
      hide Place, Wrap32, Wrap64, PowerOfTwo, Distance, Holds, And;
      UsedIsLength();
      if len > cap - Used() {
        drops := Wrap32(drops + 1);
        bytesDropped := Wrap64(bytesDropped + len);
        return false;
      }
      var bytes := data.value[..len];
      SlotByMask(|pushed|, cap);
      HoldsPush(store[..], cap, pushed, popped, bytes);
      var offset := And(head, cap - 1);
      CopyIn(store, cap, offset, bytes);
      Publish(bytes);
      return true;
    }

    /** Moves `head` past bytes already copied; until then the consumer sees none of them. */
    method Publish(bytes: Bytes)
      requires store != null && popped <= |pushed| && head == Wrap32(|pushed|) && tail == Wrap32(popped)
      requires 2 <= cap <= MAX_CAPACITY && PowerOfTwo(cap) && Holds(store[..], cap, pushed + bytes, popped)
      modifies this`head, this`highWater, this`pushed
      ensures Valid() && Contents() == old(Contents()) + bytes
      ensures pushed == old(pushed) + bytes
      ensures highWater == (if |Contents()| > old(highWater) then |Contents()| else old(highWater))
    {
      hide Wrap32, PowerOfTwo, Distance;
      WrapAdd32(|pushed|, |bytes|);
      pushed := pushed + bytes;
      head := Wrap32(head + |bytes|);
      UsedIsLength();
      if Used() > highWater {
        highWater := Used();
      }
    }

    /** At most two straight copies: up to the end of the store, then from its start. */
    static method CopyIn(dst: array<u8>, cap: nat, offset: nat, src: Bytes)
      requires 0 < cap <= dst.Length && offset < cap && |src| <= cap
      modifies dst
      ensures dst[..] == Place(old(dst[..]), cap, offset, src)
    {
      var first := if cap - offset > |src| then |src| else cap - offset;
      CopyBytes(dst, offset, src[..first]);
      CopyBytes(dst, 0, src[first..]);
    }

    /** The readable region at the front, capped where the store wraps. */
    method Peek() returns (region: Bytes)
      requires Valid()
      ensures region <= Contents() && (store != null && Contents() != [] ==> region != [])
      ensures store == null ==> region == []
      ensures store != null ==> |region| == Contiguous(popped, |Contents()|, cap)
    {
      hide PowerOfTwo, Wrap32, Wrap64, And, Holds, Distance;
      UsedIsLength();
      if store == null || Used() == 0 {
        return [];
      }
      HoldsPeek(store[..], cap, pushed, popped);
      SlotByMask(popped, cap);
      region := Region(And(tail, cap - 1), Used());
    }

    /** What lies in the store from `offset` on, up to its end. */
    method Region(offset: nat, filled: nat) returns (region: Bytes)
      requires store != null && offset <= cap <= store.Length
      ensures region == store[..][offset..offset + Min(cap - offset, filled)]
    {
      var n := if cap - offset > filled then filled else cap - offset;
      region := store[..][offset..offset + n];
    }

    /** Releases `len` bytes from the front, or does nothing if there are fewer. */
    method Consume(len: u32) returns (ok: bool)
      requires Valid()
      modifies this`tail, this`popped
      ensures Valid() && (ok <==> len <= |old(Contents())|)
      ensures Contents() == (if ok then old(Contents())[len..] else old(Contents()))
      ensures popped == old(popped) + (if ok then len else 0)
    {
      UsedIsLength();
      if len > Used() {
        return false;
      }
      WrapAdd32(popped, len);
      tail := Wrap32(tail + len);
      popped := popped + len;
      return true;
    }

    /** Two rounds of peek and consume take out everything, in order. */
    method TakeAll() returns (first: Bytes, second: Bytes)
      requires Valid() && store != null
      modifies this`tail, this`popped
      ensures Valid() && Contents() == [] && first + second == old(Contents())
    {
      hide Holds, PowerOfTwo, Wrap32, Distance, Contiguous;
      UsedIsLength();
      ghost var all := Contents();
      TwoPeeksSuffice(popped, |all|, cap);
      first := Peek();
      var released := Consume(|first|);
      UsedIsLength();
      second := Peek();
      TwoParts(all, first, second);
      released := Consume(|second|);
    }

    method Reset()
      requires Valid()
      modifies this
      ensures Valid() && store == old(store) && cap == old(cap) && Contents() == []
      ensures drops == 0 && bytesDropped == 0 && highWater == 0
    {
      head, tail, drops, bytesDropped, highWater := 0, 0, 0, 0, 0;
      pushed, popped := [], 0;
    }
  }

  // ----- a run of operations

  datatype Op = Put(bytes: Bytes) | Get(count: u32)

  /** How full a ring that started empty is after `ops`. */
  function FillAfter(cap: nat, ops: seq<Op>): nat {
    if ops == [] then 0
    else
      var n := FillAfter(cap, ops[..|ops| - 1]);
      match ops[|ops| - 1]
      case Put(bytes) => if n + |bytes| <= cap then n + |bytes| else n
      case Get(count) => if count <= n then n - count else n
  }

  /** The fullest the ring ever was: it was that full at some point, and never fuller. */
  ghost predicate IsPeak(cap: nat, ops: seq<Op>, peak: nat) {
    && (forall i :: 0 <= i <= |ops| ==> FillAfter(cap, ops[..i]) <= peak)
    && (exists i :: 0 <= i <= |ops| && FillAfter(cap, ops[..i]) == peak)
  }

  lemma PeakSnoc(cap: nat, ops: seq<Op>, op: Op, peak: nat)
    requires IsPeak(cap, ops, peak)
    ensures var n := FillAfter(cap, ops + [op]);
            IsPeak(cap, ops + [op], if n > peak then n else peak)
  {
    hide FillAfter;
    var all := ops + [op];
    forall i | 0 <= i <= |ops|
      ensures all[..i] == ops[..i]
    {
    }
    assert all[..|all|] == all;
    var i :| 0 <= i <= |ops| && FillAfter(cap, ops[..i]) == peak;
    assert FillAfter(cap, all[..i]) == peak;
  }

  lemma FillSnoc(cap: nat, ops: seq<Op>, op: Op)
    ensures var n := FillAfter(cap, ops);
            FillAfter(cap, ops + [op]) == match op
              case Put(bytes) => if n + |bytes| <= cap then n + |bytes| else n
              case Get(count) => if count <= n then n - count else n
  {
    assert (ops + [op])[..|ops|] == ops;
  }

  /** Over any run of pushes and releases, `highWater` is the fullest the ring ever was. */
  method Exercise(ring: RingBuffer, ops: seq<Op>)
    requires ring.Valid() && ring.store != null && ring.Contents() == [] && ring.highWater == 0
    requires forall op | op in ops :: op.Put? ==> |op.bytes| < TWO_32
    modifies ring, ring.store
    ensures ring.Valid() && ring.store == old(ring.store) && ring.cap == old(ring.cap)
    ensures |ring.Contents()| == FillAfter(ring.cap, ops) && IsPeak(ring.cap, ops, ring.highWater)
  {
    hide FillAfter, IsPeak, Holds, PowerOfTwo, Wrap32, Wrap64;
    NoOps(ring.cap);
    for i := 0 to |ops|
      invariant ring.Valid() && ring.store == old(ring.store) && ring.cap == old(ring.cap)
      invariant |ring.Contents()| == FillAfter(ring.cap, ops[..i]) && IsPeak(ring.cap, ops[..i], ring.highWater)
      invariant |ring.Contents()| <= ring.highWater
    {
      FillSnoc(ring.cap, ops[..i], ops[i]);
      PeakSnoc(ring.cap, ops[..i], ops[i], ring.highWater);
      assert ops[..i + 1] == ops[..i] + [ops[i]];
      match ops[i]
      case Put(bytes) => var ok := ring.Push(Some(bytes), |bytes|);
      case Get(count) => var ok := ring.Consume(count);
    }
    assert ops[..|ops|] == ops;
  }

  lemma NoOps(cap: nat)
    ensures FillAfter(cap, []) == 0 && IsPeak(cap, [], 0)
  {
    var none: seq<Op> := [];
    assert none[..0] == none;
  }
}
