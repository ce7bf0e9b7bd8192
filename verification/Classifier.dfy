/** The packet classifier over decoded layers, and how its decisions depend on the configuration. */
module Classifier {
  import opened Bytes
  import opened Addresses
  import opened RuleSets
  import DomainText
  import HttpHost
  import ClientHello

  datatype Kind = Accept | Drop

  datatype Reason = NoReason | Http | Tls | DnsPoison | DnsDrop | Ip | IpPort | Malformed

  datatype Question = Question(name: Text, kind: u16, class_: u16)

  /** The header fields of a DNS message that an answer depends on, and its questions. */
  datatype DnsMessage = DnsMessage(id: u16, qr: bool, opcode: nat, rd: bool, ra: bool, rcode: nat, questions: seq<Question>)

  const NXDOMAIN := 3

  /** A decoded transport layer; `dns` is the message a UDP payload decodes to, if it does. */
  datatype Transport =
    | Tcp(sport: u16, dport: u16, payload: seq<byte>)
    | Udp(sport: u16, dport: u16, dns: Option<DnsMessage>)
    | NoTransport

  datatype IpLayer = IpLayer(src: Option<Addr>, dst: Option<Addr>, transport: Transport)

  /** A queued payload: its version nibble, unless it is empty, and the IP layer it decodes to. */
  datatype Packet = Packet(version: Option<nat>, ip: Option<IpLayer>)

  datatype Response = Response(message: DnsMessage, srcIp: Addr, dstIp: Addr, srcPort: u16, dstPort: u16)

  datatype Verdict = Verdict(kind: Kind, reason: Reason, response: Option<Response>)

  datatype DnsMode = AnswerNxDomain | DropQuery

  /** The rules, the DNS mode and whether the library can serialize a message. */
  datatype Classifier = Classifier(rules: RuleSet, mode: DnsMode, serializes: DnsMessage -> bool)

  const MALFORMED := Verdict(Accept, Malformed, None)
  const ACCEPTED := Verdict(Accept, NoReason, None)

  /** `dnsNXDomain` */
  function NxDomainOf(query: DnsMessage): DnsMessage {
    DnsMessage(query.id, true, query.opcode, query.rd, false, NXDOMAIN, query.questions)
  }

  /** `parseDNSQuery`: the first question's name of a message that is a query. */
  function QueryName(dns: Option<DnsMessage>): Option<Text> {
    var m :- dns;
    if m.qr || m.questions == [] then None else Some(m.questions[0].name)
  }

  function ClassifyTcp(c: Classifier, src: Addr, dst: Addr, t: Transport): Verdict
    requires t.Tcp?
  {
    if MatchPort(c.rules, src, t.sport, TCP) || MatchPort(c.rules, dst, t.dport, TCP) then Verdict(Drop, IpPort, None)
    else if t.dport == 80 then
      var host := HttpHost.HostOf(t.payload);
      if host != [] && MatchDomain(c.rules, host) then Verdict(Drop, Http, None) else ACCEPTED
    else if t.dport == 443 then
      var sni := ClientHello.Sni(t.payload);
      if sni != [] && MatchDomain(c.rules, sni) then Verdict(Drop, Tls, None) else ACCEPTED
    else ACCEPTED
  }

  function ClassifyUdp(c: Classifier, src: Addr, dst: Addr, t: Transport): Verdict
    requires t.Udp?
  {
    if MatchPort(c.rules, src, t.sport, UDP) || MatchPort(c.rules, dst, t.dport, UDP) then Verdict(Drop, IpPort, None)
    else if t.dport != 53 then ACCEPTED
    else
      var name := QueryName(t.dns);
      if name.None? || !MatchPoison(c.rules, name.value) then ACCEPTED
      else if c.mode == DropQuery || !c.serializes(NxDomainOf(t.dns.value)) then Verdict(Drop, DnsDrop, None)
      else Verdict(Drop, DnsPoison, Some(Response(NxDomainOf(t.dns.value), dst, src, t.dport, t.sport)))
  }

  /** `classifyIPv4` and `classifyIPv6` */
  function ClassifyIp(c: Classifier, ip: Option<IpLayer>): Verdict {
    if ip.None? || ip.value.src.None? || ip.value.dst.None? then MALFORMED
    else
      var src, dst := Unmap(ip.value.src.value), Unmap(ip.value.dst.value);
      if MatchIp(c.rules, src) || MatchIp(c.rules, dst) then Verdict(Drop, Ip, None)
      else match ip.value.transport
        case Tcp(_, _, _) => ClassifyTcp(c, src, dst, ip.value.transport)
        case Udp(_, _, _) => ClassifyUdp(c, src, dst, ip.value.transport)
        case NoTransport => ACCEPTED
  }

  function Classify(c: Classifier, p: Packet): Verdict {
    if p.version.Some? && (p.version.value == 4 || p.version.value == 6) then ClassifyIp(c, p.ip) else MALFORMED
  }

  // ---------------------------------------------------------------- how decisions pair up

  /** Kind and reason always fit together, and an answer is sent exactly for a poisoned name. */
  lemma KindMatchesReason(c: Classifier, p: Packet)
    ensures var v := Classify(c, p);
            (v.kind == Accept <==> v.reason in {NoReason, Malformed}) && (v.response.Some? <==> v.reason == DnsPoison)
  {
  }

  /** An answer goes back to the sender, for the sender's own query, with nothing but NXDOMAIN in it. */
  lemma AnswerIsForSender(c: Classifier, p: Packet)
    requires Classify(c, p).response.Some?
    ensures var ip, r := p.ip.value, Classify(c, p).response.value;
            p.ip.Some? && ip.transport.Udp? && ip.transport.dport == 53 && ip.transport.dns.Some? &&
            QueryName(ip.transport.dns).Some? && MatchPoison(c.rules, QueryName(ip.transport.dns).value) &&
            r.message.id == ip.transport.dns.value.id && r.message.questions == ip.transport.dns.value.questions &&
            r.message.qr && r.message.rcode == NXDOMAIN &&
            r.dstPort == ip.transport.sport && r.srcPort == 53 &&
            ip.src.Some? && r.dstIp == Unmap(ip.src.value) && ip.dst.Some? && r.srcIp == Unmap(ip.dst.value)
  {
  }

  // ---------------------------------------------------------------- monotone in the rules

  lemma MatchesGrow(r: RuleSet, q: RuleSet, a: Addr)
    requires Included(r, q) && MatchIp(r, a)
    ensures MatchIp(q, a)
  {
    var i :| 0 <= i < |r.prefixes| && Contains(r.prefixes[i], Unmap(a));
    assert r.prefixes[i] in r.prefixes;
    var j :| 0 <= j < |q.prefixes| && q.prefixes[j] == r.prefixes[i];
  }

  /** What larger rules drop contains what smaller rules drop, whatever the DNS modes are. */
  lemma DropsGrow(c: Classifier, d: Classifier, p: Packet)
    requires Included(c.rules, d.rules) && Classify(c, p).kind == Drop
    ensures Classify(d, p).kind == Drop
  {
    var src, dst := Unmap(p.ip.value.src.value), Unmap(p.ip.value.dst.value);
    if MatchIp(c.rules, src) {
      MatchesGrow(c.rules, d.rules, src);
    } else if MatchIp(c.rules, dst) {
      MatchesGrow(c.rules, d.rules, dst);
    }
  }

  /** Adding configuration entries never lets a dropped packet through. */
  lemma DropsGrowWithConfig(net: Netip, small: RuleConfig, large: RuleConfig, c: Classifier, d: Classifier, p: Packet)
    requires Within(small, large) && Means(net, small, c.rules) && Means(net, large, d.rules)
    requires Classify(c, p).kind == Drop
    ensures Classify(d, p).kind == Drop
  {
    CompiledGrows(net, small, large, c.rules, d.rules);
    DropsGrow(c, d, p);
  }

  /** Order and repetition of entries and the DNS mode never change what is dropped. */
  lemma SameListsSameDrops(net: Netip, one: RuleConfig, two: RuleConfig, c: Classifier, d: Classifier, p: Packet)
    requires Within(one, two) && Within(two, one) && Means(net, one, c.rules) && Means(net, two, d.rules)
    ensures Classify(c, p).kind == Classify(d, p).kind
  {
    if Classify(c, p).kind == Drop {
      DropsGrowWithConfig(net, one, two, c, d, p);
    }
    if Classify(d, p).kind == Drop {
      DropsGrowWithConfig(net, two, one, d, c, p);
    }
  }

  // ---------------------------------------------------------------- when each reason is given

  /** The payload decodes to an IP packet with both addresses. */
  predicate Readable(p: Packet) {
    p.version in {Some(4), Some(6)} && p.ip.Some? && p.ip.value.src.Some? && p.ip.value.dst.Some?
  }

  /** Some configured entry contains the address. */
  ghost predicate ByAddress(net: Netip, cfg: RuleConfig, a: Addr) {
    exists i | 0 <= i < |cfg.ips| ::
      !Blank(cfg.ips[i]) && ParsePrefix(net, cfg.ips[i]).Some? && Contains(ParsePrefix(net, cfg.ips[i]).value, Unmap(a))
  }

  /** Some configured entry is the endpoint. */
  ghost predicate ByEndpoint(net: Netip, cfg: RuleConfig, a: Addr, port: u16, proto: byte) {
    exists i | 0 <= i < |cfg.ipPorts| :: ParseEndpoint(net, cfg.ipPorts[i]) == Some(Endpoint(Unmap(a), port, proto))
  }

  /** The configuration lists the source or the destination address. */
  ghost predicate Addressed(net: Netip, cfg: RuleConfig, p: Packet)
    requires Readable(p)
  {
    ByAddress(net, cfg, Unmap(p.ip.value.src.value)) || ByAddress(net, cfg, Unmap(p.ip.value.dst.value))
  }

  /** The configuration lists the source endpoint or the destination endpoint, TCP being 6 and UDP 17. */
  ghost predicate Ported(net: Netip, cfg: RuleConfig, p: Packet)
    requires Readable(p)
  {
    var src, dst := Unmap(p.ip.value.src.value), Unmap(p.ip.value.dst.value);
    match p.ip.value.transport
    case Tcp(sport, dport, _) => ByEndpoint(net, cfg, src, sport, 6) || ByEndpoint(net, cfg, dst, dport, 6)
    case Udp(sport, dport, _) => ByEndpoint(net, cfg, src, sport, 17) || ByEndpoint(net, cfg, dst, dport, 17)
    case NoTransport => false
  }

  lemma AddressLookup(net: Netip, cfg: RuleConfig, r: RuleSet, a: Addr)
    requires Means(net, cfg, r)
    ensures MatchIp(r, a) <==> ByAddress(net, cfg, a)
  {
    LookupMeaning(net, cfg, r, [], a, 0, 0);
  }

  lemma PortLookup(net: Netip, cfg: RuleConfig, r: RuleSet, a: Addr, port: u16, proto: byte)
    requires Means(net, cfg, r)
    ensures MatchPort(r, a, port, proto) <==> ByEndpoint(net, cfg, a, port, proto)
  {
    LookupMeaning(net, cfg, r, [], a, port, proto);
  }

  lemma AddressedLookup(net: Netip, cfg: RuleConfig, c: Classifier, p: Packet)
    requires Means(net, cfg, c.rules) && Readable(p)
    ensures MatchIp(c.rules, Unmap(p.ip.value.src.value)) || MatchIp(c.rules, Unmap(p.ip.value.dst.value)) <==>
            Addressed(net, cfg, p)
  {
    AddressLookup(net, cfg, c.rules, Unmap(p.ip.value.src.value));
    AddressLookup(net, cfg, c.rules, Unmap(p.ip.value.dst.value));
  }

  lemma PortedLookup(net: Netip, cfg: RuleConfig, c: Classifier, p: Packet)
    requires Means(net, cfg, c.rules) && Readable(p)
    ensures var src, dst, t := Unmap(p.ip.value.src.value), Unmap(p.ip.value.dst.value), p.ip.value.transport;
            Ported(net, cfg, p) <==>
            || (t.Tcp? && (MatchPort(c.rules, src, t.sport, TCP) || MatchPort(c.rules, dst, t.dport, TCP)))
            || (t.Udp? && (MatchPort(c.rules, src, t.sport, UDP) || MatchPort(c.rules, dst, t.dport, UDP)))
  {
    var src, dst, t := Unmap(p.ip.value.src.value), Unmap(p.ip.value.dst.value), p.ip.value.transport;
    if t.Tcp? {
      PortLookup(net, cfg, c.rules, src, t.sport, 6);
      PortLookup(net, cfg, c.rules, dst, t.dport, 6);
    } else if t.Udp? {
      PortLookup(net, cfg, c.rules, src, t.sport, 17);
      PortLookup(net, cfg, c.rules, dst, t.dport, 17);
    }
  }

  /** Malformed, address and endpoint verdicts, each exactly when it is due and in this order. */
  lemma ReasonMeaning(net: Netip, cfg: RuleConfig, c: Classifier, p: Packet)
    requires Means(net, cfg, c.rules)
    ensures Classify(c, p).reason == Malformed <==> !Readable(p)
    ensures Classify(c, p).reason == Ip <==> Readable(p) && Addressed(net, cfg, p)
    ensures Classify(c, p).reason == IpPort <==> Readable(p) && !Addressed(net, cfg, p) && Ported(net, cfg, p)
  {
    if Readable(p) {
      AddressedLookup(net, cfg, c, p);
      PortedLookup(net, cfg, c, p);
    }
  }

  /** A packet that only the application layer can still stop. */
  ghost predicate Open(net: Netip, cfg: RuleConfig, p: Packet) {
    Readable(p) && !Addressed(net, cfg, p) && !Ported(net, cfg, p)
  }

  /** Only TCP to 80 and 443 and UDP to 53 are looked into. */
  lemma OtherPortsAccepted(net: Netip, cfg: RuleConfig, c: Classifier, p: Packet)
    requires Means(net, cfg, c.rules) && Open(net, cfg, p)
    requires match p.ip.value.transport
             case Tcp(_, dport, _) => dport != 80 && dport != 443
             case Udp(_, dport, _) => dport != 53
             case NoTransport => true
    ensures Classify(c, p) == Verdict(Accept, NoReason, None)
  {
    AddressedLookup(net, cfg, c, p);
    PortedLookup(net, cfg, c, p);
  }

  /** Over UDP to port 53, what is not a query with a question is accepted. */
  lemma NoQueryAccepted(net: Netip, cfg: RuleConfig, c: Classifier, p: Packet)
    requires Means(net, cfg, c.rules) && Open(net, cfg, p) && p.ip.value.transport.Udp?
    requires var dns := p.ip.value.transport.dns; dns == None || dns.value.qr || dns.value.questions == []
    ensures Classify(c, p) == Verdict(Accept, NoReason, None)
  {
    AddressedLookup(net, cfg, c, p);
    PortedLookup(net, cfg, c, p);
  }

  /**
    A query is accepted unless its first question is on the poison list; then it is dropped, silently
    in drop mode or when no answer can be written, and with an NXDOMAIN answer otherwise.
   */
  lemma QueryDropped(net: Netip, cfg: RuleConfig, c: Classifier, p: Packet, m: DnsMessage)
    requires Means(net, cfg, c.rules) && Open(net, cfg, p)
    requires p.ip.value.transport.Udp? && p.ip.value.transport.dport == 53 && p.ip.value.transport.dns == Some(m)
    requires !m.qr && m.questions != []
    ensures var answer := DnsMessage(m.id, true, m.opcode, m.rd, false, 3, m.questions);
            Classify(c, p) ==
            if !ListedName(cfg.poison, DomainText.Normalize(m.questions[0].name)) then Verdict(Accept, NoReason, None)
            else if c.mode == AnswerNxDomain && c.serializes(answer) then
              Verdict(Drop, DnsPoison, Some(Response(answer, Unmap(p.ip.value.dst.value), Unmap(p.ip.value.src.value),
                                                     53, p.ip.value.transport.sport)))
            else Verdict(Drop, DnsDrop, None)
  {
    AddressedLookup(net, cfg, c, p);
    PortedLookup(net, cfg, c, p);
    assert MatchPoison(c.rules, m.questions[0].name) <==> ListedName(cfg.poison, DomainText.Normalize(m.questions[0].name));
  }

  // ---------------------------------------------------------------- from configuration to verdict

  /** A TCP packet to `dport` that no address or IP+port rule stops. */
  ghost predicate OpenTcp(net: Netip, cfg: RuleConfig, p: Packet, dport: u16, payload: seq<byte>) {
    Open(net, cfg, p) && p.ip.value.transport.Tcp? &&
    p.ip.value.transport.dport == dport && p.ip.value.transport.payload == payload
  }

  lemma NamedHelloVerdict(net: Netip, cfg: RuleConfig, c: Classifier, p: Packet, payload: seq<byte>, name: Text)
    requires Means(net, cfg, c.rules) && OpenTcp(net, cfg, p, 443, payload) && ClientHello.Sni(payload) == name != []
    ensures Classify(c, p) == if MatchDomain(c.rules, name) then Verdict(Drop, Tls, None) else Verdict(Accept, NoReason, None)
  {
    AddressedLookup(net, cfg, c, p);
    PortedLookup(net, cfg, c, p);
  }

  /** A ClientHello is dropped exactly when some configured domain covers the name it carries. */
  lemma HelloDropped(net: Netip, cfg: RuleConfig, c: Classifier, p: Packet, h: ClientHello.Hello, payload: seq<byte>)
    requires Means(net, cfg, c.rules) && ClientHello.Valid(h) && payload == ClientHello.Encode(h) && OpenTcp(net, cfg, p, 443, payload)
    ensures Classify(c, p) ==
            if ListedName(cfg.domains, DomainText.Normalize(h.name)) then Verdict(Drop, Tls, None) else Verdict(Accept, NoReason, None)
  {
    ClientHello.SniOfEncoded(h);
    NamedHelloVerdict(net, cfg, c, p, payload, h.name);
  }

  lemma NamedRequestVerdict(net: Netip, cfg: RuleConfig, c: Classifier, p: Packet, payload: seq<byte>, host: Text)
    requires Means(net, cfg, c.rules) && OpenTcp(net, cfg, p, 80, payload) && HttpHost.HostOf(payload) == host != []
    ensures Classify(c, p) == if MatchDomain(c.rules, host) then Verdict(Drop, Http, None) else Verdict(Accept, NoReason, None)
  {
    AddressedLookup(net, cfg, c, p);
    PortedLookup(net, cfg, c, p);
  }

  /** A printed request is dropped exactly when some configured domain covers its Host. */
  lemma RequestDropped(net: Netip, cfg: RuleConfig, c: Classifier, p: Packet, lines: seq<Text>,
                       text: Text, token: Text, blanks: Text, host: Text, tail: Text)
    requires Means(net, cfg, c.rules) && OpenTcp(net, cfg, p, 80, HttpHost.Print(lines, text)) && host != []
    requires forall i | 0 <= i < |lines| :: HttpHost.OtherLine(lines[i])
    requires HttpHost.HostHeader(text, token, blanks, host, tail)
    ensures Classify(c, p) ==
            if ListedName(cfg.domains, DomainText.Normalize(host)) then Verdict(Drop, Http, None) else Verdict(Accept, NoReason, None)
  {
    HttpHost.PrintedHost(lines, text, token, blanks, host, tail);
    NamedRequestVerdict(net, cfg, c, p, HttpHost.Print(lines, text), host);
  }

  /** TCP payloads that carry no name are accepted. */
  lemma NoNameAccepted(net: Netip, cfg: RuleConfig, c: Classifier, p: Packet, payload: seq<byte>)
    requires Means(net, cfg, c.rules)
    requires (OpenTcp(net, cfg, p, 80, payload) && HttpHost.HostOf(payload) == []) ||
             (OpenTcp(net, cfg, p, 443, payload) && ClientHello.Sni(payload) == [])
    ensures Classify(c, p) == Verdict(Accept, NoReason, None)
  {
    AddressedLookup(net, cfg, c, p);
    PortedLookup(net, cfg, c, p);
  }
}
