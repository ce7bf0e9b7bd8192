/**
  The in-place rewrite of a DNS query into its NXDOMAIN answer.  Header layouts:
  Ethernet at 0, IPv4 or IPv6 at 14, UDP at 34 or 54, DNS right behind UDP.
 */
module NxDomain {
  import opened Bytes
  import opened OnesComplement

  const DNS4_END := 54
  const DNS6_END := 74

  // ---------------------------------------------------------------- what the answer is

  /** Where each byte of the IPv6 answer comes from: MACs, addresses and ports are exchanged. */
  function Mirror6(i: nat): nat {
    if i < 6 then i + 6 else if i < 12 then i - 6
    else if 22 <= i < 38 then i + 16 else if 38 <= i < 54 then i - 16
    else if 54 <= i < 56 then i + 2 else if 56 <= i < 58 then i - 2
    else i
  }

  /** The same for IPv4 without options. */
  function Mirror4(i: nat): nat {
    if i < 6 then i + 6 else if i < 12 then i - 6
    else if 26 <= i < 30 then i + 4 else if 30 <= i < 34 then i - 4
    else if 34 <= i < 36 then i + 2 else if 36 <= i < 38 then i - 2
    else i
  }

  /** The UDP checksum after the four chained updates of the DNS header words. */
  function ChainedCheck(check: u16, flags: u16, an: u16, ns: u16, ar: u16): u16 {
    CsumReplace16(CsumReplace16(CsumReplace16(CsumReplace16(check, flags, 0x8183), an, 0), ns, 0), ar, 0)
  }

  function AnswerCheck6(p: seq<byte>): u16
    requires |p| >= DNS6_END
  {
    ChainedCheck(Be16At(p, 60), Be16At(p, 64), Be16At(p, 68), Be16At(p, 70), Be16At(p, 72))
  }

  /** Byte `i` of the answer: NXDOMAIN flags, no records, new checksum, the rest mirrored. */
  function AnswerByte(dns: nat, check: u16, mirrored: byte, i: nat): byte {
    if i == dns - 2 then check / 256
    else if i == dns - 1 then check % 256
    else if i == dns + 2 then 0x81
    else if i == dns + 3 then 0x83
    else if dns + 6 <= i < dns + 12 then 0
    else mirrored
  }

  function Answered6(p: seq<byte>, check: u16): (r: seq<byte>)
    requires |p| >= DNS6_END
    ensures |r| == |p|
  {
    seq(|p|, i requires 0 <= i < |p| => AnswerByte(62, check, p[Mirror6(i)], i))
  }

  function Answer6(p: seq<byte>): (r: seq<byte>)
    requires |p| >= DNS6_END
    ensures |r| == |p|
  {
    Answered6(p, AnswerCheck6(p))
  }

  /** In IPv4 the UDP checksum is optional and the answer switches it off. */
  function Answer4(p: seq<byte>): (r: seq<byte>)
    requires |p| >= DNS4_END
    ensures |r| == |p|
  {
    seq(|p|, i requires 0 <= i < |p| => AnswerByte(42, 0, p[Mirror4(i)], i))
  }

  // ---------------------------------------------------------------- the answer field by field

  /** The `n` bytes that `p` has at `from` are those that `q` has at `to`. */
  predicate Moved(p: seq<byte>, from: nat, q: seq<byte>, to: nat, n: nat)
    requires from + n <= |p| && to + n <= |q|
  {
    forall j | to <= j < to + n :: q[j] == p[from - to + j]
  }

  predicate Word(q: seq<byte>, at: nat, hi: byte, lo: byte)
    requires at + 2 <= |q|
  {
    q[at] == hi && q[at + 1] == lo
  }

  /**
    `q` answers the IPv4 query `p`: MACs at 0 and 6, addresses at 26 and 30 and ports at 34 and 36
    are exchanged, the UDP checksum at 40 is off, the DNS header at 42 says NXDOMAIN and announces
    no records, and every other byte is the query's.
   */
  predicate Reply4(p: seq<byte>, q: seq<byte>)
    requires |p| >= 54
  {
    && |q| == |p|
    && Moved(p, 6, q, 0, 6) && Moved(p, 0, q, 6, 6)
    && Moved(p, 12, q, 12, 14)
    && Moved(p, 30, q, 26, 4) && Moved(p, 26, q, 30, 4)
    && Moved(p, 36, q, 34, 2) && Moved(p, 34, q, 36, 2)
    && Moved(p, 38, q, 38, 2) && Word(q, 40, 0, 0)
    && Moved(p, 42, q, 42, 2) && Word(q, 44, 0x81, 0x83) && Moved(p, 46, q, 46, 2)
    && Word(q, 48, 0, 0) && Word(q, 50, 0, 0) && Word(q, 52, 0, 0)
    && Moved(p, 54, q, 54, |p| - 54)
  }

  /**
    `q` answers the IPv6 query `p`: MACs at 0 and 6, addresses at 22 and 38 and ports at 54 and 56
    are exchanged, the DNS header at 62 says NXDOMAIN and announces no records, and every other
    byte but the UDP checksum at 60 is the query's.
   */
  predicate Reply6(p: seq<byte>, q: seq<byte>)
    requires |p| >= 74
  {
    && |q| == |p|
    && Moved(p, 6, q, 0, 6) && Moved(p, 0, q, 6, 6)
    && Moved(p, 12, q, 12, 10)
    && Moved(p, 38, q, 22, 16) && Moved(p, 22, q, 38, 16)
    && Moved(p, 56, q, 54, 2) && Moved(p, 54, q, 56, 2)
    && Moved(p, 58, q, 58, 2)
    && Moved(p, 62, q, 62, 2) && Word(q, 64, 0x81, 0x83) && Moved(p, 66, q, 66, 2)
    && Word(q, 68, 0, 0) && Word(q, 70, 0, 0) && Word(q, 72, 0, 0)
    && Moved(p, 74, q, 74, |p| - 74)
  }

  lemma Answer4Replies(p: seq<byte>)
    requires |p| >= DNS4_END
    ensures Reply4(p, Answer4(p))
  {
  }

  lemma Answer6Replies(p: seq<byte>, check: u16)
    requires |p| >= DNS6_END
    ensures Reply6(p, Answered6(p, check))
  {
  }

  /** The fields leave no byte of an IPv4 reply open. */
  lemma OneReply4(p: seq<byte>, q: seq<byte>, r: seq<byte>)
    requires |p| >= 54 && Reply4(p, q) && Reply4(p, r)
    ensures q == r
  {
    forall j | 0 <= j < |p| ensures q[j] == r[j] {
    }
  }

  /** The fields and the checksum leave no byte of an IPv6 reply open. */
  lemma OneReply6(p: seq<byte>, q: seq<byte>, r: seq<byte>)
    requires |p| >= 74 && Reply6(p, q) && Reply6(p, r) && Moved(q, 60, r, 60, 2)
    ensures q == r
  {
    forall j | 0 <= j < |p| ensures q[j] == r[j] {
    }
  }

  /** The IPv4 answer is the one reply to the query. */
  lemma Answer4IsReply(p: seq<byte>, q: seq<byte>)
    requires |p| >= DNS4_END
    ensures q == Answer4(p) <==> Reply4(p, q)
  {
    Answer4Replies(p);
    if Reply4(p, q) {
      OneReply4(p, q, Answer4(p));
    }
  }

  /** The IPv6 answer is the one reply to the query with the updated checksum. */
  lemma Answer6IsReply(p: seq<byte>, q: seq<byte>, check: u16)
    requires |p| >= DNS6_END
    ensures q == Answered6(p, check) <==> Reply6(p, q) && Be16At(q, 60) == check
  {
    Answer6Replies(p, check);
    if Reply6(p, q) && Be16At(q, 60) == check {
      OneReply6(p, q, Answered6(p, check));
    }
  }

  // ---------------------------------------------------------------- the in-place programs

  /** Exchange two disjoint runs byte by byte, as the swap loops do. */
  method SwapRuns(pkt: array<byte>, a: nat, b: nat, n: nat)
    requires a + n <= b && b + n <= pkt.Length
    modifies pkt
    ensures forall j | 0 <= j < pkt.Length ::
        pkt[j] == if a <= j < a + n then old(pkt[b - a + j])
                  else if b <= j < b + n then old(pkt[a - b + j])
                  else old(pkt[j])
  {
    for i := 0 to n
      invariant forall j | 0 <= j < pkt.Length ::
          pkt[j] == if a <= j < a + i then old(pkt[b - a + j])
                    else if b <= j < b + i then old(pkt[a - b + j])
                    else old(pkt[j])
    {
      var tmp := pkt[b + i];
      pkt[b + i] := pkt[a + i];
      pkt[a + i] := tmp;
    }
  }

  /** Answer the DNS header at `dns` in place. */
  method AnswerHeader(pkt: array<byte>, dns: nat)
    requires dns + 12 <= pkt.Length
    modifies pkt
    ensures forall j | 0 <= j < pkt.Length ::
        pkt[j] == if j == dns + 2 then 0x81 else if j == dns + 3 then 0x83
                  else if dns + 6 <= j < dns + 12 then 0 else old(pkt[j])
  {
    pkt[dns + 2], pkt[dns + 3] := 0x81, 0x83;
    pkt[dns + 6], pkt[dns + 7] := 0, 0;
    pkt[dns + 8], pkt[dns + 9] := 0, 0;
    pkt[dns + 10], pkt[dns + 11] := 0, 0;
  }

  /** Exchange the MACs, addresses and ports of an IPv6 frame. */
  method Turn6(pkt: array<byte>)
    requires pkt.Length >= DNS6_END
    modifies pkt
    ensures forall j | 0 <= j < pkt.Length :: pkt[j] == old(pkt[..])[Mirror6(j)]
  {
    SwapRuns(pkt, 0, 6, 6);
    SwapRuns(pkt, 22, 38, 16);
    SwapRuns(pkt, 54, 56, 2);
  }

  /** The four calls of `csum_replace16`, in order. */
  method UpdateCheck(check: u16, flags: u16, an: u16, ns: u16, ar: u16) returns (c: u16)
    ensures c == ChainedCheck(check, flags, an, ns, ar)
  {
    c := CsumReplace16(check, flags, 0x8183);
    c := CsumReplace16(c, an, 0);
    c := CsumReplace16(c, ns, 0);
    c := CsumReplace16(c, ar, 0);
  }

  /** Everything but the checksum, which is handed back with the four words it depends on. */
  method Rewrite6(pkt: array<byte>) returns (check: u16, flags: u16, an: u16, ns: u16, ar: u16)
    requires pkt.Length >= DNS6_END
    modifies pkt
    ensures pkt[..] == Answered6(old(pkt[..]), check)
    ensures check == Be16At(old(pkt[..]), 60) && flags == Be16At(old(pkt[..]), 64)
    ensures an == Be16At(old(pkt[..]), 68) && ns == Be16At(old(pkt[..]), 70) && ar == Be16At(old(pkt[..]), 72)
  {
    ghost var p := pkt[..];
    Turn6(pkt);
    flags, an, ns, ar := Be16(pkt[64], pkt[65]), Be16(pkt[68], pkt[69]), Be16(pkt[70], pkt[71]), Be16(pkt[72], pkt[73]);
    check := Be16(pkt[60], pkt[61]);
    Be16Splits(pkt[60], pkt[61]);
    AnswerHeader(pkt, 62);
    assert forall j | 0 <= j < pkt.Length :: pkt[j] == Answered6(p, check)[j];
  }

  lemma Be16Splits(hi: byte, lo: byte)
    ensures Be16(hi, lo) / 256 == hi && Be16(hi, lo) % 256 == lo
  {
  }

  method StoreCheck6(pkt: array<byte>, ghost p: seq<byte>, ghost was: u16, check: u16)
    requires pkt.Length == |p| >= DNS6_END && pkt[..] == Answered6(p, was)
    modifies pkt
    ensures pkt[..] == Answered6(p, check)
  {
    pkt[60], pkt[61] := check / 256, check % 256;
  }

  /** `poison_dns_nxdomain_v6` */
  method Poison6(pkt: array<byte>)
    requires pkt.Length >= DNS6_END
    modifies pkt
    ensures pkt[..] == Answer6(old(pkt[..])) && Reply6(old(pkt[..]), pkt[..])
  {
    var check, flags, an, ns, ar := Rewrite6(pkt);
    var updated := UpdateCheck(check, flags, an, ns, ar);
    StoreCheck6(pkt, old(pkt[..]), check, updated);
    Answer6Replies(old(pkt[..]), updated);
  }

  /** `poison_dns_nxdomain_v4` */
  method Poison4(pkt: array<byte>)
    requires pkt.Length >= DNS4_END
    modifies pkt
    ensures pkt[..] == Answer4(old(pkt[..])) && Reply4(old(pkt[..]), pkt[..])
  {
    ghost var p := pkt[..];
    SwapRuns(pkt, 0, 6, 6);
    SwapRuns(pkt, 26, 30, 4);
    SwapRuns(pkt, 34, 36, 2);
    assert forall j | 0 <= j < pkt.Length :: pkt[j] == p[Mirror4(j)];
    AnswerHeader(pkt, 42);
    pkt[40], pkt[41] := 0, 0;
    Answer4Replies(p);
  }

  // ---------------------------------------------------------------- checksums of the answer

  function UdpLength6(p: seq<byte>): u16
    requires |p| >= DNS6_END
  {
    Be16At(p, 58)
  }

  /** The UDP length field covers at least a DNS header and stays inside the packet. */
  predicate HasDatagram6(p: seq<byte>) {
    |p| >= DNS6_END && UdpLength6(p) >= 20 && 54 + UdpLength6(p) <= |p|
  }

  /** Pseudo-header of section 8.1 of RFC 8200, then the datagram. */
  function Covered6(p: seq<byte>): seq<byte>
    requires HasDatagram6(p)
  {
    p[22..38] + (p[38..54] + ([0, 0, p[58], p[59], 0, 0, 0, 17] + p[54..54 + UdpLength6(p)]))
  }

  lemma TwoWords(s: seq<byte>, at: nat, to: nat)
    requires at + 4 <= to <= |s|
    ensures WordSum(s[at..to]) == Be16At(s, at) + Be16At(s, at + 2) + WordSum(s[at + 4..to])
  {
    assert s[at..to][2..] == s[at + 2..to];
    assert s[at + 2..to][2..] == s[at + 4..to];
  }

  lemma DatagramSum(p: seq<byte>, to: nat)
    requires 74 <= to <= |p|
    ensures WordSum(p[54..to]) == Be16At(p, 54) + Be16At(p, 56) + Be16At(p, 58) + Be16At(p, 60) + Be16At(p, 62) +
                                  Be16At(p, 64) + Be16At(p, 66) + Be16At(p, 68) + Be16At(p, 70) + Be16At(p, 72) +
                                  WordSum(p[74..to])
  {
    TwoWords(p, 54, to);
    TwoWords(p, 58, to);
    TwoWords(p, 62, to);
    TwoWords(p, 66, to);
    TwoWords(p, 70, to);
  }

  lemma PseudoTail(a: byte, b: byte)
    ensures WordSum([0, 0, a, b, 0, 0, 0, 17]) == Be16(a, b) + 17
  {
    var s := [0, 0, a, b, 0, 0, 0, 17];
    TwoWords(s, 0, 8);
    TwoWords(s, 4, 8);
    assert s[0..8] == s && s[8..8] == [];
  }

  lemma Covered6Sum(p: seq<byte>)
    requires HasDatagram6(p)
    ensures WordSum(Covered6(p)) == WordSum(p[22..38]) + WordSum(p[38..54]) + UdpLength6(p) + 17 +
                                    WordSum(p[54..54 + UdpLength6(p)])
  {
    var datagram := p[54..54 + UdpLength6(p)];
    var tail := [0, 0, p[58], p[59], 0, 0, 0, 17];
    WordSumConcat(tail, datagram);
    PseudoTail(p[58], p[59]);
    WordSumConcat(p[38..54], tail + datagram);
    WordSumConcat(p[22..38], p[38..54] + (tail + datagram));
  }

  /** The chain adjusts the checksum by the change of the four words, modulo 0xffff. */
  lemma ChainedCheckAdjusts(check: u16, flags: u16, an: u16, ns: u16, ar: u16) returns (k: int)
    ensures ChainedCheck(check, flags, an, ns, ar) != 0
    ensures ChainedCheck(check, flags, an, ns, ar) + 0x8183 == check + flags + an + ns + ar + k * 0xffff
  {
    var k2 := TwoUpdatesAdjust(check, flags, 0x8183, an, 0);
    var k4 := TwoUpdatesAdjust(CsumReplace16(CsumReplace16(check, flags, 0x8183), an, 0), ns, 0, ar, 0);
    k := k2 + k4;
  }

  lemma TwoUpdatesAdjust(check: u16, o1: u16, n1: u16, o2: u16, n2: u16) returns (k: int)
    ensures CsumReplace16(CsumReplace16(check, o1, n1), o2, n2) != 0
    ensures CsumReplace16(CsumReplace16(check, o1, n1), o2, n2) + n1 + n2 == check + o1 + o2 + k * 0xffff
  {
    var k1 := CsumReplaceAdjusts(check, o1, n1);
    var k2 := CsumReplaceAdjusts(CsumReplace16(check, o1, n1), o2, n2);
    k := k1 + k2;
  }

  /** The five words of the answered headers that only move, and the five that are rewritten. */
  lemma AnsweredWords(p: seq<byte>, check: u16)
    requires |p| >= DNS6_END
    ensures var q := Answered6(p, check);
            Be16At(q, 54) == Be16At(p, 56) && Be16At(q, 56) == Be16At(p, 54) && Be16At(q, 58) == Be16At(p, 58) &&
            Be16At(q, 62) == Be16At(p, 62) && Be16At(q, 66) == Be16At(p, 66)
    ensures var q := Answered6(p, check);
            Be16At(q, 60) == check && Be16At(q, 64) == 0x8183 &&
            Be16At(q, 68) == 0 && Be16At(q, 70) == 0 && Be16At(q, 72) == 0
  {
    var q := Answered6(p, check);
    assert q[60] == check / 256 && q[61] == check % 256;
  }

  lemma AnsweredRuns(p: seq<byte>, check: u16, to: nat)
    requires DNS6_END <= to <= |p|
    ensures var q := Answered6(p, check); q[22..38] == p[38..54] && q[38..54] == p[22..38] && q[74..to] == p[74..to]
  {
  }

  /** The covered sum spelled out: both addresses, pseudo-header tail, ten header words, payload. */
  ghost function Spelled6(p: seq<byte>, to: nat): nat
    requires DNS6_END <= to <= |p|
  {
    WordSum(p[22..38]) + WordSum(p[38..54]) + (Be16At(p, 58) + 17) +
    (Be16At(p, 54) + Be16At(p, 56) + Be16At(p, 58) + Be16At(p, 60) + Be16At(p, 62) +
     Be16At(p, 64) + Be16At(p, 66) + Be16At(p, 68) + Be16At(p, 70) + Be16At(p, 72)) + WordSum(p[74..to])
  }

  lemma CoveredIsSpelled(p: seq<byte>)
    requires HasDatagram6(p)
    ensures WordSum(Covered6(p)) == Spelled6(p, 54 + UdpLength6(p))
  {
    Covered6Sum(p);
    DatagramSum(p, 54 + UdpLength6(p));
  }

  lemma SpelledChange(p: seq<byte>, check: u16, to: nat)
    requires DNS6_END <= to <= |p|
    ensures Spelled6(Answered6(p, check), to) + Be16At(p, 60) + Be16At(p, 64) +
            Be16At(p, 68) + Be16At(p, 70) + Be16At(p, 72) == Spelled6(p, to) + check + 0x8183
  {
    AnsweredWords(p, check);
    AnsweredRuns(p, check, to);
  }

  lemma AnsweredDatagram(p: seq<byte>, check: u16)
    requires HasDatagram6(p)
    ensures HasDatagram6(Answered6(p, check)) && UdpLength6(Answered6(p, check)) == UdpLength6(p)
  {
    var q := Answered6(p, check);
    assert q[58] == p[58] && q[59] == p[59];
  }

  /** The exact change of the covered sum, whatever checksum is stored. */
  lemma AnsweredSum(p: seq<byte>, check: u16)
    requires HasDatagram6(p)
    ensures HasDatagram6(Answered6(p, check))
    ensures WordSum(Covered6(Answered6(p, check))) + Be16At(p, 60) + Be16At(p, 64) +
            Be16At(p, 68) + Be16At(p, 70) + Be16At(p, 72) == WordSum(Covered6(p)) + check + 0x8183
  {
    AnsweredDatagram(p, check);
    CoveredIsSpelled(p);
    CoveredIsSpelled(Answered6(p, check));
    SpelledChange(p, check, 54 + UdpLength6(p));
  }

  /**
    The IPv6 answer carries a valid UDP checksum exactly when the query did, and never the
    all-zero checksum that IPv6 forbids.
   */
  lemma Answer6KeepsChecksum(p: seq<byte>)
    requires HasDatagram6(p)
    ensures HasDatagram6(Answer6(p))
    ensures Verifies(Covered6(Answer6(p))) <==> Verifies(Covered6(p))
    ensures Be16At(Answer6(p), 60) != 0
  {
    AnsweredSum(p, AnswerCheck6(p));
    AnsweredWords(p, AnswerCheck6(p));
    var k := ChainedCheckAdjusts(Be16At(p, 60), Be16At(p, 64), Be16At(p, 68), Be16At(p, 70), Be16At(p, 72));
    Covered6Sum(p);
    Covered6Sum(Answer6(p));
    VerifiesIffDivisible(Covered6(p));
    VerifiesIffDivisible(Covered6(Answer6(p)));
    ShiftByMultiple(WordSum(Covered6(p)), WordSum(Covered6(Answer6(p))), k);
  }

  lemma ShiftByMultiple(a: nat, b: nat, k: int)
    requires b == a + k * 0xffff
    ensures a % 0xffff == 0 <==> b % 0xffff == 0
  {
  }

  /** Exchanging the IPv4 addresses leaves the header checksum as good as it was. */
  lemma Answer4KeepsHeaderChecksum(p: seq<byte>, q: seq<byte>)
    requires |p| >= DNS4_END && q == Answer4(p)
    ensures Verifies(q[14..34]) <==> Verifies(p[14..34])
    ensures Be16At(q, 40) == 0
  {
    assert q[14..34] == p[14..26] + (p[30..34] + p[26..30]);
    assert p[14..34] == p[14..26] + (p[26..30] + p[30..34]);
    ExchangedVerify(p[14..26], p[26..30], p[30..34]);
  }

  lemma ExchangedVerify(front: seq<byte>, a: seq<byte>, b: seq<byte>)
    requires |front| % 2 == 0 && |a| % 2 == 0 && |b| % 2 == 0
    ensures Verifies(front + (b + a)) <==> Verifies(front + (a + b))
  {
    WordSumConcat(front, b + a);
    WordSumConcat(b, a);
    WordSumConcat(front, a + b);
    WordSumConcat(a, b);
    VerifiesIffDivisible(front + (b + a));
    VerifiesIffDivisible(front + (a + b));
  }
}
