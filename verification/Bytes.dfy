/** Bytes, fixed-width words and ASCII text, as both halves of the filter see them. */
module Bytes {
  type byte = b: int | 0 <= b < 0x100
  type u16 = w: int | 0 <= w < 0x1_0000
  type u32 = w: int | 0 <= w < 0x1_0000_0000
  type u64 = w: int | 0 <= w < 0x1_0000_0000_0000_0000

  /** Text is a byte string; every ASCII character is its own byte. */
  type Text = seq<byte>

  datatype Option<+T> = None | Some(value: T) {
    predicate IsFailure() { None? }

    function PropagateFailure<U>(): Option<U>
      requires None?
    {
      None
    }

    function Extract(): T
      requires Some?
    {
      value
    }
  }

  /** The bytes of an ASCII literal. */
  function Ascii(s: string): (t: Text)
    requires forall i | 0 <= i < |s| :: s[i] < 128 as char
    ensures |t| == |s| && forall i | 0 <= i < |s| :: t[i] == s[i] as int
  {
    seq(|s|, i requires 0 <= i < |s| => s[i] as int)
  }

  /** Network byte order: the high byte comes first. */
  function Be16(hi: byte, lo: byte): u16 { hi * 256 + lo }

  function Be16At(s: seq<byte>, i: nat): u16
    requires i + 1 < |s|
  {
    Be16(s[i], s[i + 1])
  }

  function Encode16(w: u16): seq<byte> { [w / 256, w % 256] }

  function LowerByte(b: byte): byte { if 65 <= b <= 90 then b + 32 else b }

  function Lower(s: Text): (r: Text)
    ensures |r| == |s| && forall i | 0 <= i < |s| :: r[i] == LowerByte(s[i])
  {
    seq(|s|, i requires 0 <= i < |s| => LowerByte(s[i]))
  }

  function Zeros(n: nat): (z: seq<byte>)
    ensures |z| == n && forall i | 0 <= i < n :: z[i] == 0
  {
    seq(n, _ => 0)
  }

  /** A 64-bit counter wraps around, as the atomic adds of both engines do. */
  function Inc64(x: u64): u64 { if x == 0xffff_ffff_ffff_ffff then 0 else x + 1 }

  /** `p` carries `s` at position `at`. */
  ghost predicate Has(p: seq<byte>, at: nat, s: seq<byte>) {
    at + |s| <= |p| && forall i {:trigger s[i]} | 0 <= i < |s| :: p[at + i] == s[i]
  }

  lemma HasSplit(p: seq<byte>, at: nat, a: seq<byte>, b: seq<byte>)
    requires Has(p, at, a + b)
    ensures Has(p, at, a) && Has(p, at + |a|, b)
  {
    var s := a + b;
    forall i | 0 <= i < |a| ensures p[at + i] == a[i] {
      assert s[i] == a[i];
    }
    forall i | 0 <= i < |b| ensures p[at + |a| + i] == b[i] {
      assert s[|a| + i] == b[i];
    }
  }

  /** The capital letters become the small ones, and no other character changes. */
  lemma LowerLetters(c: char)
    requires c < 128 as char
    ensures 'A' <= c <= 'Z' ==> LowerByte(c as int) - ('a' as int) == c as int - ('A' as int)
    ensures !('A' <= c <= 'Z') ==> LowerByte(c as int) == c as int
  {
  }
}
