/** What single configuration entries stand for, in the terms they are written in. */
module RuleEntries {
  import opened Bytes
  import opened Addresses
  import opened DomainText
  import opened RuleSets

  /** The IPv6 form of an IPv4 address. */
  function Mapped(v4: Addr): Addr { Zeros(10) + ([255, 255] + v4) }

  /** A mapped address is taken for its IPv4 address, and every other one for itself. */
  lemma UnmapMeaning(a: Addr)
    ensures (|Unmap(a)| == 4 && a == Mapped(Unmap(a))) || ((forall v4 | |v4| == 4 :: a != Mapped(v4)) && Unmap(a) == a)
  {
    if |a| == 16 && a[..10] == Zeros(10) && a[10] == 255 && a[11] == 255 {
      assert a == a[..10] + ([a[10], a[11]] + a[12..]);
    } else {
      forall v4 | |v4| == 4 ensures a != Mapped(v4) {
        var m := Mapped(v4);
        assert m[..10] == Zeros(10) && m[10] == 255 && m[11] == 255;
      }
    }
  }

  /** An entry between blanks: `word` is what is written there. */
  ghost predicate Entry(raw: Text, word: Text) {
    !OuterSpace(word) && exists a, b :: AllBlank(a) && AllBlank(b) && raw == a + (word + b)
  }

  lemma EntryTrims(raw: Text, word: Text)
    requires Entry(raw, word)
    ensures TrimSpace(raw) == word
  {
    var a, b :| AllBlank(a) && AllBlank(b) && raw == a + (word + b);
    TrimSpaceOf(a, word, b);
  }

  /** Every text is such an entry. */
  lemma SomeEntry(raw: Text)
    ensures Entry(raw, TrimSpace(raw))
  {
    var a, m, b := TrimSplits(raw);
    TrimSpaceOf(a, m, b);
  }

  /** "tcp", in any case, or nothing is protocol 6, "udp" is 17, and nothing else is a protocol. */
  lemma ProtoMeaning(raw: Text, word: Text)
    requires Entry(raw, word)
    ensures ParseProto(raw) == Some(6) <==> word == [] || Lower(word) == Ascii("tcp")
    ensures ParseProto(raw) == Some(17) <==> Lower(word) == Ascii("udp")
    ensures ParseProto(raw).Some? ==> ParseProto(raw).value in {6, 17}
  {
    EntryTrims(raw, word);
    assert Ascii("tcp")[0] == 116 && Ascii("udp")[0] == 117;
  }

  /** An entry without a slash covers exactly the address it spells. */
  lemma AddressEntry(net: Netip, raw: Text, word: Text, a: Addr)
    requires Entry(raw, word) && 47 !in word
    ensures ParsePrefix(net, raw).Some? <==> word != [] && net.addr(word).Some? && |Unmap(net.addr(word).value)| in {4, 16}
    ensures ParsePrefix(net, raw).Some? ==> (Contains(ParsePrefix(net, raw).value, a) <==> a == Unmap(net.addr(word).value))
  {
    EntryTrims(raw, word);
    if word != [] && net.addr(word).Some? {
      FullPrefix(Unmap(net.addr(word).value), a);
    }
  }

  /** An entry with a slash covers the prefix it spells, which must not be one of mapped addresses. */
  lemma PrefixEntry(net: Netip, raw: Text, word: Text)
    requires Entry(raw, word) && 47 in word
    ensures ParsePrefix(net, raw).Some? <==>
            net.prefix(word).Some? && |net.prefix(word).value.addr| in {4, 16} &&
            forall v4 | |v4| == 4 :: net.prefix(word).value.addr != Mapped(v4)
    ensures ParsePrefix(net, raw).Some? ==> ParsePrefix(net, raw) == net.prefix(word)
  {
    EntryTrims(raw, word);
    if net.prefix(word).Some? {
      UnmapMeaning(net.prefix(word).value.addr);
      if Unmap(net.prefix(word).value.addr) != net.prefix(word).value.addr {
        assert net.prefix(word).value.addr == Mapped(Unmap(net.prefix(word).value.addr));
      }
    }
  }

  /** An endpoint entry stands for its address, its port, which must not be 0, and its protocol. */
  lemma EndpointEntry(net: Netip, rule: PortConfig, ip: Text, proto: Text, e: Endpoint)
    requires Entry(rule.ip, ip) && Entry(rule.proto, proto)
    ensures ParseEndpoint(net, rule) == Some(e) <==>
            && net.addr(ip).Some? && e.addr == Unmap(net.addr(ip).value) && |e.addr| in {4, 16}
            && e.port == rule.port != 0
            && ((e.proto == 6 && (proto == [] || Lower(proto) == Ascii("tcp"))) || (e.proto == 17 && Lower(proto) == Ascii("udp")))
  {
    EntryTrims(rule.ip, ip);
    ProtoMeaning(rule.proto, proto);
  }
}
