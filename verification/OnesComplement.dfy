/** The Internet checksum (RFC 1071) and its incremental update (RFC 1624). */
module OnesComplement {
  import opened Bytes

  /** Sixteen-bit one's-complement addition: the carry comes back in at the low end. */
  function EndAroundAdd(a: u16, b: u16): u16 {
    if a + b > 0xffff then a + b - 0xffff else a + b
  }

  /** The one's-complement sum of big-endian words, an odd last byte padded with zero. */
  function OnesSum(s: seq<byte>): u16 {
    if |s| == 0 then 0
    else if |s| == 1 then Be16(s[0], 0)
    else EndAroundAdd(Be16(s[0], s[1]), OnesSum(s[2..]))
  }

  /** What a receiver checks: the sum over all covered bytes, checksum included, is all ones. */
  predicate Verifies(s: seq<byte>) { OnesSum(s) == 0xffff }

  /** The plain integer sum of the same words. */
  function WordSum(s: seq<byte>): nat {
    if |s| == 0 then 0
    else if |s| == 1 then Be16(s[0], 0)
    else Be16(s[0], s[1]) + WordSum(s[2..])
  }

  /** The two sums differ by a multiple of 0xffff, and only an all-zero string sums to zero. */
  lemma {:induction false} OnesSumIsWordSum(s: seq<byte>) returns (k: int)
    ensures WordSum(s) == OnesSum(s) + k * 0xffff
    ensures OnesSum(s) == 0 <==> WordSum(s) == 0
  {
    k := 0;
    if |s| >= 2 {
      k := OnesSumIsWordSum(s[2..]);
      if Be16(s[0], s[1]) + OnesSum(s[2..]) > 0xffff {
        k := k + 1;
      }
    }
  }

  /** Verifying is divisibility by 0xffff of a non-zero integer sum. */
  lemma VerifiesIffDivisible(s: seq<byte>)
    ensures Verifies(s) <==> WordSum(s) > 0 && WordSum(s) % 0xffff == 0
  {
    var k := OnesSumIsWordSum(s);
    var n := WordSum(s);
    if OnesSum(s) == 0xffff {
      assert n == (k + 1) * 0xffff;
    } else if n % 0xffff == 0 {
      assert OnesSum(s) == (n / 0xffff - k) * 0xffff;
    }
  }

  lemma {:induction false} WordSumConcat(a: seq<byte>, b: seq<byte>)
    requires |a| % 2 == 0
    ensures WordSum(a + b) == WordSum(a) + WordSum(b)
  {
    if a == [] {
      assert a + b == b;
    } else {
      assert (a + b)[2..] == a[2..] + b;
      WordSumConcat(a[2..], b);
    }
  }

  function Complement(w: u16): u16 { 0xffff - w }

  /** One carry fold of a 32-bit accumulator. */
  function FoldOnce(sum: u32): u32 { sum % 0x1_0000 + sum / 0x1_0000 }

  /**
    `csum_replace16`: equation 3 of RFC 1624, section 3, with a zero result stored as all ones.
    Words are the values the packet's bytes spell in network order, so the byte swaps of the
    source at every load and store do not appear.
   */
  function CsumReplace16(check: u16, old16: u16, new16: u16): u16 {
    var sum: u32 := Complement(check) + Complement(old16) + new16;
    var out: u16 := Complement(FoldOnce(FoldOnce(sum)) % 0x1_0000);
    if out == 0 then 0xffff else out
  }

  /** Two folds leave nothing above sixteen bits, for every three-term accumulator. */
  lemma TwoFoldsSuffice(sum: u32) returns (k: int)
    requires sum <= 3 * 0xffff
    ensures FoldOnce(FoldOnce(sum)) <= 0xffff
    ensures sum == FoldOnce(FoldOnce(sum)) + k * 0xffff
  {
    k := sum / 0x1_0000 + FoldOnce(sum) / 0x1_0000;
  }

  /** The update moves the checksum by exactly `old - new` modulo 0xffff and never stores zero. */
  lemma CsumReplaceAdjusts(check: u16, old16: u16, new16: u16) returns (k: int)
    ensures CsumReplace16(check, old16, new16) != 0
    ensures CsumReplace16(check, old16, new16) + new16 == check + old16 + k * 0xffff
  {
    var sum: u32 := Complement(check) + Complement(old16) + new16;
    k := TwoFoldsSuffice(sum);
    k := k - (if FoldOnce(FoldOnce(sum)) == 0xffff then 0 else 1);
  }
}
