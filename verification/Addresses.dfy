/** IP addresses as byte strings of four or sixteen bytes, and address prefixes. */
module Addresses {
  import opened Bytes

  type Addr = seq<byte>

  datatype Prefix = Prefix(addr: Addr, bits: nat)

  /** `x` shifted right by `n` bits. */
  function Shifted(x: nat, n: nat): nat { if n == 0 then x else Shifted(x, n - 1) / 2 }

  /** Bit `i` of a byte, the most significant one being 0. */
  predicate ByteBit(x: byte, i: nat)
    requires i < 8
  {
    Shifted(x, 7 - i) % 2 == 1
  }

  /** Whether bit `i`, counted from the most significant one, is set. */
  predicate BitSet(a: Addr, i: nat)
    requires i < 8 * |a|
  {
    ByteBit(a[i / 8], i % 8)
  }

  /** The address is of the prefix's family and starts with its bits. */
  predicate Contains(p: Prefix, a: Addr) {
    |p.addr| == |a| && p.bits <= 8 * |a| && forall i | 0 <= i < p.bits :: BitSet(a, i) == BitSet(p.addr, i)
  }

  /** Some prefix contains the address: what a longest-prefix lookup that finds an entry means. */
  predicate Covered(prefixes: set<Prefix>, a: Addr) { exists p | p in prefixes :: Contains(p, a) }

  datatype Endpoint = Endpoint(addr: Addr, port: u16, proto: byte)

  const TCP: byte := 6
  const UDP: byte := 17

  // ---------------------------------------------------------------- prefixes byte by byte

  predicate TopAgree(x: byte, y: byte, r: nat)
    requires r <= 8
  {
    forall i | 0 <= i < r :: ByteBit(x, i) == ByteBit(y, i)
  }

  lemma OneMoreBit(u: nat, v: nat)
    ensures u == v <==> u / 2 == v / 2 && (u % 2 == 1) == (v % 2 == 1)
  {
  }

  lemma TopAgreeStep(x: byte, y: byte, r: nat)
    requires 0 < r <= 8
    ensures TopAgree(x, y, r) <==> TopAgree(x, y, r - 1) && ByteBit(x, r - 1) == ByteBit(y, r - 1)
  {
  }

  lemma NothingLeft(x: byte)
    ensures Shifted(x, 8) == 0
  {
    assert Shifted(x, 0) == x;
    assert Shifted(x, 1) < 128;
    assert Shifted(x, 2) < 64;
    assert Shifted(x, 3) < 32;
    assert Shifted(x, 4) < 16;
    assert Shifted(x, 5) < 8;
    assert Shifted(x, 6) < 4;
    assert Shifted(x, 7) < 2;
  }

  /** The first `r` bits of a byte are what is left when the others are shifted out. */
  lemma {:induction false} TopBits(x: byte, y: byte, r: nat)
    requires r <= 8
    ensures TopAgree(x, y, r) <==> Shifted(x, 8 - r) == Shifted(y, 8 - r)
  {
    if r == 0 {
      NothingLeft(x);
      NothingLeft(y);
    } else {
      TopBits(x, y, r - 1);
      TopAgreeStep(x, y, r);
      OneMoreBit(Shifted(x, 8 - r), Shifted(y, 8 - r));
      assert Shifted(x, 9 - r) == Shifted(x, 8 - r) / 2 && Shifted(y, 9 - r) == Shifted(y, 8 - r) / 2;
    }
  }

  /** The whole bytes of a prefix agree, and so does what is left of the byte it ends in. */
  predicate SameFront(p: Addr, a: Addr, bits: nat)
    requires |p| == |a| && bits <= 8 * |a|
  {
    && (forall k | 0 <= k < bits / 8 :: a[k] == p[k])
    && (bits % 8 != 0 ==> Shifted(a[bits / 8], 8 - bits % 8) == Shifted(p[bits / 8], 8 - bits % 8))
  }

  /** The first `r` bits of byte `k` agree. */
  predicate SameBits(p: Addr, a: Addr, k: nat, r: nat)
    requires |p| == |a| && k < |a| && r <= 8
  {
    forall i | 8 * k <= i < 8 * k + r :: BitSet(a, i) == BitSet(p, i)
  }

  lemma SameByte(p: Addr, a: Addr, k: nat, r: nat)
    requires |p| == |a| && k < |a| && r <= 8
    ensures SameBits(p, a, k, r) <==> TopAgree(a[k], p[k], r)
  {
    if SameBits(p, a, k, r) {
      forall i | 0 <= i < r ensures ByteBit(a[k], i) == ByteBit(p[k], i) {
        var j := 8 * k + i;
        assert j / 8 == k && j % 8 == i && BitSet(a, j) == BitSet(p, j);
      }
    }
    if TopAgree(a[k], p[k], r) {
      forall i | 8 * k <= i < 8 * k + r ensures BitSet(a, i) == BitSet(p, i) {
        assert i / 8 == k && i % 8 == i - 8 * k;
      }
    }
  }

  /** Containment as routers compute it: whole bytes, then a shifted one. */
  lemma ContainsMeaning(p: Prefix, a: Addr)
    ensures Contains(p, a) <==> |p.addr| == |a| && p.bits <= 8 * |a| && SameFront(p.addr, a, p.bits)
  {
    if |p.addr| == |a| && p.bits <= 8 * |a| {
      var whole, part := p.bits / 8, p.bits % 8;
      if part > 0 {
        SameByte(p.addr, a, whole, part);
        TopBits(a[whole], p.addr[whole], part);
      }
      forall k | 0 <= k < whole ensures SameBits(p.addr, a, k, 8) <==> a[k] == p.addr[k] {
        SameByte(p.addr, a, k, 8);
        TopBits(a[k], p.addr[k], 8);
      }
      if SameFront(p.addr, a, p.bits) {
        forall i | 0 <= i < p.bits ensures BitSet(a, i) == BitSet(p.addr, i) {
          assert 8 * (i / 8) <= i < 8 * (i / 8) + 8;
          assert SameBits(p.addr, a, i / 8, if i / 8 < whole then 8 else part);
        }
      }
    }
  }

  /** A prefix over all bits contains one address only. */
  lemma FullPrefix(addr: Addr, a: Addr)
    ensures Contains(Prefix(addr, 8 * |addr|), a) <==> a == addr
  {
    ContainsMeaning(Prefix(addr, 8 * |addr|), a);
  }
}
