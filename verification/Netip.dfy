/**
 Addresses and prefixes as Go's net/netip presents them to internal/china/index.go, and the two byte
 loops of that file, `lastAddr` and `nextAddr`.  An address is a number in one of two families; the
 16-byte form appears only inside the two loops, and each loop is tied back to the number it computes.
 */
module Netip {

  const TWO_32: nat := 0x1_0000_0000
  const TWO_128: nat := 0x1_0000_0000_0000_0000_0000_0000_0000_0000
  /** The number of ::ffff:0:0, where the IPv4-mapped block of IPv6 starts. */
  const MAPPED_BASE: nat := 0xFFFF_0000_0000

  type U128 = n: nat | n < TWO_128
  type Byte = n: nat | n < 256

  datatype RawAddr = V4(v: nat) | V6(v: nat)
  type Addr = a: RawAddr | a.v < (if a.V4? then TWO_32 else TWO_128) witness V4(0)

  function BitLen(a: Addr): nat {
    if a.V4? then 32 else 128
  }

  /** True for the numbers of ::ffff:0:0/96. */
  predicate InMappedBlock(n: nat) {
    MAPPED_BASE <= n < MAPPED_BASE + TWO_32
  }

  /** `As16`, read as one big-endian number. */
  function Number16(a: Addr): U128 {
    if a.V4? then MAPPED_BASE + a.v else a.v
  }

  function Unmap(a: Addr): Addr {
    if a.V6? && InMappedBlock(a.v) then V4(a.v - MAPPED_BASE) else a
  }

  /** `Addr.Compare`: the shorter family first, then the number. */
  function Compare(a: Addr, b: Addr): (r: int)
    ensures r < 0 <==> Rank(a) < Rank(b)
    ensures r > 0 <==> Rank(a) > Rank(b)
    ensures r == 0 <==> a == b
  {
    if BitLen(a) != BitLen(b) then BitLen(a) - BitLen(b)
    else if a.v < b.v then -1
    else if a.v > b.v then 1
    else 0
  }

  /** A position of every address on one line; `Compare` is the order of these positions. */
  function Rank(a: Addr): nat {
    if a.V4? then a.v else TWO_32 + a.v
  }

  /** A prefix length over an address; `Masked` says that no bit is set below it, as `ParsePrefixLine` ensures. */
  datatype RawPrefix = Prefix(addr: Addr, bits: nat) {
    function HostBits(): int { BitLen(addr) - bits }

    predicate Masked()
      requires bits <= BitLen(addr)
    {
      addr.v == Shr(addr.v, HostBits()) * Pow2(HostBits())
    }

    /** `netip.Prefix.Contains`: the same family, and agreement on the leading `bits` bits. */
    predicate Contains(ip: Addr)
      requires bits <= BitLen(addr)
    {
      BitLen(ip) == BitLen(addr) && Shr(ip.v, HostBits()) == Shr(addr.v, HostBits())
    }
  }
  type Prefix = p: RawPrefix | p.bits <= BitLen(p.addr) witness Prefix(V4(0), 32)

  // ----- bits of a number

  function Pow2(n: nat): (r: nat)
    ensures r > 0
  {
    if n == 0 then 1 else 2 * Pow2(n - 1)
  }

  /** The number shifted right by `h` bits. */
  function Shr(v: nat, h: nat): nat {
    if h == 0 then v else Shr(v / 2, h - 1)
  }

  /** The number with its low `h` bits set. */
  function FillLow(v: nat, h: nat): nat {
    if h == 0 then v else 2 * FillLow(v / 2, h - 1) + 1
  }

  /** Bitwise or of two numbers below 2^n. */
  function Or(x: nat, y: nat, n: nat): nat {
    if n == 0 then 0 else 2 * Or(x / 2, y / 2, n - 1) + (if x % 2 == 1 || y % 2 == 1 then 1 else 0)
  }

  lemma Pow2Of8()
    ensures Pow2(8) == 256
  {
    Pow2Plus8(0);
  }

  lemma Pow2Of32()
    ensures Pow2(32) == TWO_32
  {
    var n := 8;
    Pow2Of8();
    Pow2Plus8(n);
    Pow2Plus8(n + 8);
    Pow2Plus8(n + 16);
  }

  lemma Pow2Of64()
    ensures Pow2(48) == 0x1_0000_0000_0000 && Pow2(64) == 0x1_0000_0000_0000_0000
  {
    var n := 32;
    Pow2Of32();
    Pow2Plus8(n);
    Pow2Plus8(n + 8);
    Pow2Plus8(n + 16);
    Pow2Plus8(n + 24);
  }

  lemma Pow2Of128()
    ensures Pow2(128) == TWO_128
  {
    var n := 64;
    Pow2Of64();
    Pow2Plus8(n);
    Pow2Plus8(n + 8);
    Pow2Plus8(n + 16);
    Pow2Plus8(n + 24);
    Pow2Plus8(n + 32);
    Pow2Plus8(n + 40);
    Pow2Plus8(n + 48);
    Pow2Plus8(n + 56);
  }

  lemma Pow2Plus8(n: nat)
    ensures Pow2(n + 8) == 256 * Pow2(n)
  {
    assert Pow2(n + 4) == 16 * Pow2(n) by {
      assert Pow2(n + 2) == 4 * Pow2(n);
    }
    assert Pow2(n + 6) == 4 * Pow2(n + 4);
  }

  lemma HalfOfShifted(w: nat, l: nat, k: nat)
    requires k > 0
    ensures w * Pow2(k) == 2 * (w * Pow2(k - 1))
    ensures (w * Pow2(k) + l) / 2 == w * Pow2(k - 1) + l / 2
  {
    assert w * (2 * Pow2(k - 1)) == 2 * (w * Pow2(k - 1));
  }

  /** Shifting keeps the block of 2^h numbers that a number lies in; filling goes to the end of that block. */
  lemma {:induction false} BlockOf(v: nat, h: nat)
    ensures Shr(v, h) * Pow2(h) <= v < Shr(v, h) * Pow2(h) + Pow2(h)
    ensures FillLow(v, h) == Shr(v, h) * Pow2(h) + Pow2(h) - 1
  {
    if h == 0 {
    } else {
      BlockOf(v / 2, h - 1);
      HalfOfShifted(Shr(v, h), 0, h);
    }
  }

  /** Two numbers lie in the same block exactly when they agree above bit `h`. */
  lemma {:induction false} SameBlock(x: nat, v: nat, h: nat)
    ensures Shr(x, h) == Shr(v, h) <==> Shr(v, h) * Pow2(h) <= x < Shr(v, h) * Pow2(h) + Pow2(h)
  {
    if h == 0 {
    } else {
      SameBlock(x / 2, v / 2, h - 1);
      HalfOfShifted(Shr(v, h), 0, h);
    }
  }

  lemma {:induction false} FillLowBound(v: nat, h: nat, n: nat)
    requires h <= n && v < Pow2(n)
    ensures FillLow(v, h) < Pow2(n)
  {
    if h > 0 {
      FillLowBound(v / 2, h - 1, n - 1);
    }
  }

  /** Below bit `k` and above it, filling works independently. */
  lemma {:induction false} FillLowBelow(w: nat, l: nat, k: nat, h: nat)
    requires l < Pow2(k) && h <= k
    ensures FillLow(w * Pow2(k) + l, h) == w * Pow2(k) + FillLow(l, h)
  {
    if h > 0 {
      FillLowBelow(w, l / 2, k - 1, h - 1);
      HalfOfShifted(w, l, k);
    }
  }

  lemma {:induction false} FillLowAbove(w: nat, l: nat, k: nat, h: nat)
    requires l < Pow2(k) && k <= h
    ensures FillLow(w * Pow2(k) + l, h) == FillLow(w, h - k) * Pow2(k) + Pow2(k) - 1
  {
    if k > 0 {
      FillLowAbove(w, l / 2, k - 1, h - 1);
      HalfOfShifted(w, l, k);
      HalfOfShifted(FillLow(w, h - k), 0, k);
    }
  }

  /** Or-ing with k ones sets the low k bits. */
  lemma {:induction false} OrOnes(x: nat, k: nat, n: nat)
    requires k <= n && x < Pow2(n)
    ensures Or(x, Pow2(k) - 1, n) == FillLow(x, k)
  {
    if n == 0 {
    } else if k == 0 {
      assert Or(x, 0, n) == 2 * Or(x / 2, 0, n - 1) + x % 2;
      OrOnes(x / 2, 0, n - 1);
    } else {
      assert (Pow2(k) - 1) / 2 == Pow2(k - 1) - 1;
      OrOnes(x / 2, k - 1, n - 1);
    }
  }

  // ----- the 16-byte form

  /** Big-endian value of a byte string. */
  function Number(b: seq<Byte>): nat {
    if b == [] then 0 else Number(b[..|b| - 1]) * 256 + b[|b| - 1]
  }

  function Bytes(v: nat, n: nat): (b: seq<Byte>)
    ensures |b| == n
  {
    if n == 0 then [] else Bytes(v / 256, n - 1) + [v % 256]
  }

  const WIDTH: nat := 16

  function As16(a: Addr): (b: seq<Byte>)
    ensures |b| == WIDTH
  {
    Bytes(Number16(a), WIDTH)
  }

  lemma {:induction false} BytesRoundTrip(v: nat, n: nat)
    requires v < Pow2(8 * n)
    ensures Number(Bytes(v, n)) == v
  {
    if n == 0 {
    } else {
      Pow2Plus8(8 * (n - 1));
      BytesRoundTrip(v / 256, n - 1);
      assert Bytes(v, n)[..n - 1] == Bytes(v / 256, n - 1);
    }
  }

  lemma {:induction false} NumberBound(b: seq<Byte>)
    ensures Number(b) < Pow2(8 * |b|)
  {
    if b == [] {
    } else {
      Pow2Plus8(8 * (|b| - 1));
      NumberBound(b[..|b| - 1]);
    }
  }

  // ----- nextAddr

  /** What the carry loop leaves of a byte string. */
  function Increment(b: seq<Byte>): (r: seq<Byte>)
    ensures |r| == |b|
  {
    if b == [] then []
    else if b[|b| - 1] == 255 then Increment(b[..|b| - 1]) + [0]
    else b[..|b| - 1] + [b[|b| - 1] + 1]
  }

  /** The carry loop adds one, and wraps from all ones to zero. */
  lemma {:induction false} IncrementIsSuccessor(b: seq<Byte>)
    ensures Number(Increment(b)) == if Number(b) + 1 == Pow2(8 * |b|) then 0 else Number(b) + 1
  {
    if b == [] {
    } else {
      var init, last := b[..|b| - 1], b[|b| - 1];
      var r := Increment(b);
      assert r[..|b| - 1] == if last == 255 then Increment(init) else init;
      Pow2Plus8(8 * |init|);
      NumberBound(init);
      IncrementIsSuccessor(init);
    }
  }

  /** The address after `a` as the index computes it: one more on the 16-byte form, modulo 2^128, then unmapped. */
  function NextOf(a: Addr): Addr {
    Unmap(V6(if Number16(a) + 1 == TWO_128 then 0 else Number16(a) + 1))
  }

  /** The loop of `nextAddr`, on the 16-byte buffer. */
  method IncrementInPlace(b: array<Byte>)
    modifies b
    ensures b[..] == Increment(old(b[..]))
  {
    ghost var orig := b[..];
    var i := b.Length - 1;
    while i >= 0
      invariant -1 <= i < b.Length
      invariant forall j :: 0 <= j <= i ==> b[j] == orig[j]
      invariant forall j :: i < j < b.Length ==> orig[j] == 255 && b[j] == 0
      decreases i
    {
      b[i] := if b[i] == 255 then 0 else b[i] + 1;
      if b[i] != 0 {
        break;
      }
      i := i - 1;
    }
    IncrementOfRun(orig, b[..], i);
  }

  method NextAddr(a: Addr) returns (r: Addr)
    ensures r == NextOf(a)
  {
    hide Increment, Number, Bytes;
    var b := new Byte[WIDTH](i requires 0 <= i < WIDTH => As16(a)[i]);
    assert b[..] == As16(a);
    IncrementInPlace(b);
    Pow2Of128();
    BytesRoundTrip(Number16(a), WIDTH);
    IncrementIsSuccessor(As16(a));
    r := Unmap(V6(Number(b[..])));
  }

  lemma {:induction false} IncrementOfRun(orig: seq<Byte>, r: seq<Byte>, i: int)
    requires |r| == |orig| && -1 <= i < |orig|
    requires forall j :: 0 <= j < i ==> r[j] == orig[j]
    requires i >= 0 ==> orig[i] != 255 && r[i] == orig[i] + 1
    requires forall j :: i < j < |orig| ==> orig[j] == 255 && r[j] == 0
    ensures r == Increment(orig)
  {
    if i < |orig| - 1 {
      IncrementOfRun(orig[..|orig| - 1], r[..|orig| - 1], i);
      assert r == r[..|orig| - 1] + [0];
    }
  }

  /** Where a family ends. */
  function FamilySize(a: Addr): nat {
    if a.V4? then TWO_32 else TWO_128
  }

  /**
   `nextAddr` is the successor within the family exactly when there is one and it is not an IPv6
   address of ::ffff:0:0/96; it never returns its argument.
   */
  lemma NextOfExactly(a: Addr)
    ensures NextOf(a) == a.(v := a.v + 1) <==> a.v + 1 < FamilySize(a) && (a.V6? ==> !InMappedBlock(a.v + 1))
    ensures NextOf(a) != a
  {
  }

  /** What happens on overflow: the top of IPv6 wraps to ::, and the top of IPv4 is followed by ::1:0:0:0. */
  lemma NextOfAtTheTop()
    ensures NextOf(V6(TWO_128 - 1)) == V6(0)
    ensures NextOf(V4(TWO_32 - 1)) == V6(MAPPED_BASE + TWO_32)
  {
  }

  /**
   Two addresses of one family: `nextAddr(x)` is `y` exactly for true neighbours whose upper one is not in
   ::ffff:0:0/96, and for the wrap from the top of IPv6 to ::.
   */
  lemma NextOfSeesNeighbours(x: Addr, y: Addr)
    requires BitLen(x) == BitLen(y)
    ensures NextOf(x) == y <==>
            || (y.v == x.v + 1 && (y.V6? ==> !InMappedBlock(y.v)))
            || (x == V6(TWO_128 - 1) && y == V6(0))
  {
  }

  // ----- lastAddr

  /** What the host-bit loop leaves of a byte string. */
  function SetHostBits(b: seq<Byte>, h: int): (r: seq<Byte>)
    ensures |r| == |b|
  {
    if b == [] || h <= 0 then b
    else SetHostBits(b[..|b| - 1], h - 8) + [OrMask(b[|b| - 1], if h > 8 then 8 else h)]
  }

  /** `b | byte(0xFF >> (8 - bits))` */
  function OrMask(b: Byte, bits: nat): Byte
    requires 1 <= bits <= 8
  {
    Pow2Of8();
    MaskOf(bits);
    OrOnes(b, bits, 8);
    FillLowBound(b, bits, 8);
    Or(b, Shr(0xFF, 8 - bits), 8)
  }

  lemma MaskOf(bits: nat)
    requires 1 <= bits <= 8
    ensures Shr(0xFF, 8 - bits) == Pow2(bits) - 1
  {
    assert Pow2(4) == 16;
    if bits == 1 { assert Shr(15, 3) == 1; }
    else if bits == 2 { assert Shr(63, 4) == 3; }
    else if bits == 3 { assert Shr(63, 3) == 7; }
    else if bits == 4 { assert Shr(63, 2) == 15; }
    else if bits == 8 { assert Pow2(8) == 16 * Pow2(4); }
  }

  lemma OrMaskFillsLow(b: Byte, bits: nat)
    requires 1 <= bits <= 8
    ensures OrMask(b, bits) == FillLow(b, bits)
    ensures bits == 8 ==> OrMask(b, bits) == 255
  {
    Pow2Of8();
    MaskOf(bits);
    OrOnes(b, bits, 8);
    FillLowAbove(0, b, 8, 8);
  }

  lemma FillLowByte(w: nat, l: Byte, h: nat)
    ensures FillLow(w * 256 + l, h) == if h > 8 then FillLow(w, h - 8) * 256 + 255 else w * 256 + FillLow(l, h)
  {
    Pow2Of8();
    if h > 8 {
      FillLowAbove(w, l, 8, h);
    } else {
      FillLowBelow(w, l, 8, h);
    }
  }

  lemma {:induction false} SetHostBitsFillsLow(b: seq<Byte>, h: nat)
    requires h <= 8 * |b|
    ensures Number(SetHostBits(b, h)) == FillLow(Number(b), h)
  {
    hide OrMask;
    if h == 0 {
    } else {
      var init, last := b[..|b| - 1], b[|b| - 1];
      assert SetHostBits(b, h)[..|b| - 1] == SetHostBits(init, h - 8);
      OrMaskFillsLow(last, if h > 8 then 8 else h);
      FillLowByte(Number(init), last, h);
      if h > 8 {
        SetHostBitsFillsLow(init, h - 8);
      }
    }
  }

  /** The last address of a prefix as the index computes it. */
  function LastOf(p: Prefix): Addr {
    if p.HostBits() == 0 then p.addr
    else
      Pow2Of128();
      FillLowBound(Number16(p.addr), p.HostBits(), 128);
      Unmap(V6(FillLow(Number16(p.addr), p.HostBits())))
  }

  /** The loop of `lastAddr`, on the 16-byte buffer. */
  method FillHostBits(b: array<Byte>, h: nat)
    modifies b
    ensures b[..] == SetHostBits(old(b[..]), h)
  {
    ghost var orig := b[..];
    var hostBits: int := h;
    var i := b.Length - 1;
    assert orig[..i + 1] == orig && b[i + 1..] == [];
    while i >= 0 && hostBits > 0
      invariant -1 <= i < b.Length
      invariant b[..i + 1] == orig[..i + 1]
      invariant SetHostBits(orig, h) == SetHostBits(orig[..i + 1], hostBits) + b[i + 1..]
      decreases i
    {
      ghost var tail := b[i + 1..];
      var bits := hostBits;
      if bits > 8 {
        bits := 8;
      }
      b[i] := OrMask(b[i], bits);
      SetHostBitsSplit(orig, i, hostBits, tail);
      assert b[i..] == [b[i]] + tail;
      hostBits := hostBits - 8;
      i := i - 1;
    }
    assert b[..] == b[..i + 1] + b[i + 1..];
  }

  method LastAddr(p: Prefix) returns (r: Addr)
    ensures r == LastOf(p)
  {
    hide FillLow, SetHostBits, Number, Bytes, Pow2;
    var a := p.addr;
    if p.bits == BitLen(a) {
      return a;
    }
    var b := new Byte[WIDTH](i requires 0 <= i < WIDTH => As16(a)[i]);
    assert b[..] == As16(a);
    FillHostBits(b, BitLen(a) - p.bits);
    FilledBytes(p);
    r := Unmap(V6(Number(b[..])));
  }

  lemma FilledBytes(p: Prefix)
    ensures Number(SetHostBits(As16(p.addr), p.HostBits())) == FillLow(Number16(p.addr), p.HostBits())
    ensures FillLow(Number16(p.addr), p.HostBits()) < TWO_128
  {
    Pow2Of128();
    BytesRoundTrip(Number16(p.addr), WIDTH);
    SetHostBitsFillsLow(As16(p.addr), p.HostBits());
    FillLowBound(Number16(p.addr), p.HostBits(), 128);
  }

  lemma SetHostBitsSplit(orig: seq<Byte>, i: nat, h: int, tail: seq<Byte>)
    requires i < |orig| && h > 0
    ensures SetHostBits(orig[..i + 1], h) + tail
         == SetHostBits(orig[..i], h - 8) + ([OrMask(orig[i], if h > 8 then 8 else h)] + tail)
  {
    assert orig[..i + 1][..i] == orig[..i];
  }

  /** For a masked prefix, filling the host bits adds 2^hostBits - 1, in both families. */
  lemma LastOfMasked(p: Prefix)
    requires p.Masked()
    ensures p.addr.V4? ==> p.addr.v + Pow2(p.HostBits()) - 1 < TWO_32
                           && LastOf(p) == V4(p.addr.v + Pow2(p.HostBits()) - 1)
    ensures p.addr.V6? ==> p.addr.v + Pow2(p.HostBits()) - 1 < TWO_128
    ensures p.addr.V6? && p.HostBits() > 0 ==> LastOf(p) == Unmap(V6(p.addr.v + Pow2(p.HostBits()) - 1))
  {
    var v, h := p.addr.v, p.HostBits();
    BlockOf(v, h);
    if p.addr.V4? {
      Pow2Of32();
      FillLowBound(v, h, 32);
      FillLowBelow(0xFFFF, v, 32, h);
    } else {
      Pow2Of128();
      FillLowBound(v, h, 128);
    }
  }
}
