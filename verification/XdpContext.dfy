/** The packet programs as they run: packet, scratch key and counters change in place. */
module XdpContext {
  import opened Bytes
  import opened Addresses
  import opened DomainTable
  import opened NxDomain
  import opened DnsName
  import opened BpfTls
  import opened BpfHttp
  import opened XdpProgram

  class Context {
    const maps: Maps
    const loaded: set<nat>
    const pkt: array<byte>
    const scratch: array<byte>
    var stats: Stats

    ghost predicate Valid()
      reads this
    {
      scratch.Length == KEY_LEN && pkt != scratch
    }

    constructor (maps: Maps, loaded: set<nat>, pkt: array<byte>, scratch: array<byte>, stats: Stats)
      requires scratch.Length == KEY_LEN && pkt != scratch
      ensures Valid() && this.maps == maps && this.loaded == loaded && this.pkt == pkt && this.scratch == scratch
      ensures this.stats == stats
    {
      this.maps, this.loaded, this.pkt, this.scratch, this.stats := maps, loaded, pkt, scratch, stats;
    }

    /** `inc_stat` */
    method IncStat(key: nat)
      modifies `stats
      ensures stats == Bumped(old(stats), Some(key))
    {
      if key < STAT_MAX {
        stats := stats[key := Inc64(stats[key])];
      }
    }

    /** End the stage, counting at most one thing. */
    method Finish(o: Outcome) returns (v: Verdict)
      modifies `stats
      ensures v == o.verdict && stats == Bumped(old(stats), o.stat)
    {
      if o.stat.Some? {
        IncStat(o.stat.value);
      }
      v := o.verdict;
    }

    /** `validate_ipv4` and `validate_ipv6` */
    method ValidateHeader(fam: Family) returns (step: Step)
      modifies `stats
      ensures step == Validate(pkt[..], RulesOf(maps), fam)
      ensures stats == if step.Exit? then Bumped(old(stats), step.outcome.stat) else old(stats)
    {
      var p := pkt[..];
      if |p| < 14 || |p| < HeaderEnd(fam) {
        IncStat(MALFORMED);
        return Exit(BAD);
      }
      var ihl: int := p[14] % 16;
      if p[14] / 16 != (if fam == V4 then 4 else 6) {
        IncStat(MALFORMED);
        return Exit(BAD);
      }
      var headerLen := if fam == V4 then ihl * 4 else 40;
      if fam == V4 && (ihl < 5 || ihl > 15) {
        IncStat(MALFORMED);
        return Exit(BAD);
      }
      if 14 + headerLen > |p| {
        IncStat(MALFORMED);
        return Exit(BAD);
      }
      if Covered(maps.cidr, Src(p, fam)) || Covered(maps.cidr, Dst(p, fam)) {
        IncStat(IP_BLOCKED);
        return Exit(Outcome(Drop, Some(IP_BLOCKED)));
      }
      if fam == V4 && Be16At(p, 20) % 0x4000 != 0 {
        IncStat(PASSED);
        return Exit(PASS_IT);
      }
      return Next(14 + headerLen);
    }

    /** `parse_tcp_ports` */
    method ParseTcp(l4: nat) returns (step: Step)
      modifies `stats
      ensures step == TcpPayload(pkt[..], l4)
      ensures stats == if step.Exit? then Bumped(old(stats), step.outcome.stat) else old(stats)
    {
      if l4 + 20 > pkt.Length {
        IncStat(MALFORMED);
        return Exit(BAD);
      }
      var doff: int := pkt[l4 + 12] / 16;
      if doff < 5 || doff > 15 {
        IncStat(MALFORMED);
        return Exit(BAD);
      }
      if l4 + doff * 4 > pkt.Length {
        IncStat(MALFORMED);
        return Exit(BAD);
      }
      return Next(l4 + doff * 4);
    }

    /** `parse_udp_ports` */
    method ParseUdp(l4: nat) returns (step: Step)
      modifies `stats
      ensures step == UdpPayload(pkt[..], l4)
      ensures stats == if step.Exit? then Bumped(old(stats), step.outcome.stat) else old(stats)
    {
      if l4 + 8 > pkt.Length {
        IncStat(MALFORMED);
        return Exit(BAD);
      }
      return Next(l4 + 8);
    }

    /** `tcp4_payload_for_port` and `tcp6_payload_for_port` */
    method FindPayload(fam: Family, port: u16) returns (step: Step)
      modifies `stats
      ensures step == PayloadFor(pkt[..], fam, port)
      ensures stats == if step.Exit? then Bumped(old(stats), step.outcome.stat) else old(stats)
    {
      var p := pkt[..];
      if |p| < 14 || |p| < HeaderEnd(fam) {
        IncStat(MALFORMED);
        return Exit(BAD);
      }
      if p[14] / 16 != (if fam == V4 then 4 else 6) || Proto(p, fam) != TCP {
        IncStat(PASSED);
        return Exit(PASS_IT);
      }
      var l4 := 54;
      if fam == V4 {
        var ihl: int := p[14] % 16;
        if ihl < 5 || ihl > 15 || 14 + ihl * 4 > |p| {
          IncStat(MALFORMED);
          return Exit(BAD);
        }
        if Be16At(p, 20) % 0x4000 != 0 {
          IncStat(PASSED);
          return Exit(PASS_IT);
        }
        l4 := 14 + ihl * 4;
      }
      step := ParseTcp(l4);
      if step.Exit? {
        return;
      }
      if Be16At(p, l4 + 2) != port {
        IncStat(PASSED);
        return Exit(PASS_IT);
      }
    }

    /** `xdp_http4` and `xdp_http6` */
    method RunHttp(fam: Family) returns (v: Verdict)
      requires Valid()
      modifies `stats, scratch
      ensures v == HttpStage(old(pkt[..]), RulesOf(maps), fam).verdict
      ensures stats == Bumped(old(stats), HttpStage(old(pkt[..]), RulesOf(maps), fam).stat)
    {
      var step := FindPayload(fam, 80);
      if step.Exit? {
        return step.outcome.verdict;
      }
      var drop := CheckHttpHost(maps.domains, pkt[..], step.at, scratch);
      v := Finish(if drop then Outcome(Drop, Some(HTTP_BLOCKED)) else PASS_IT);
    }

    /** `xdp_tls4` and `xdp_tls6` */
    method RunTls(fam: Family) returns (v: Verdict)
      requires Valid()
      modifies `stats, scratch
      ensures v == TlsStage(old(pkt[..]), RulesOf(maps), fam).verdict
      ensures stats == Bumped(old(stats), TlsStage(old(pkt[..]), RulesOf(maps), fam).stat)
    {
      var step := FindPayload(fam, 443);
      if step.Exit? {
        return step.outcome.verdict;
      }
      var drop := CheckTlsSni(maps.domains, pkt[..], step.at, scratch);
      v := Finish(if drop then Outcome(Drop, Some(TLS_BLOCKED)) else PASS_IT);
    }

    /** `check_dns_v4` and `check_dns_v6`, as far as the decision goes. */
    method DecideDns(fam: Family, l4: nat) returns (v: Verdict)
      requires Valid() && pkt.Length >= HeaderEnd(fam) && l4 + 8 <= pkt.Length
      modifies scratch
      ensures v == CheckDns(old(pkt[..]), RulesOf(maps), fam, l4).verdict
      ensures v == Tx ==> l4 + 20 <= pkt.Length
    {
      var len := Be16At(pkt[..], l4 + 4);
      if len < 20 {
        return Pass;
      }
      if fam == V6 && (l4 >= MAX_PACKET_READ || len > MAX_PACKET_READ - l4) {
        return Pass;
      }
      if l4 + 8 >= MAX_PACKET_READ {
        return Pass;
      }
      var hit := DnsDomainMatches(maps.domains, pkt[..], l4 + 8, len - 8, scratch);
      if !hit || l4 + 20 > pkt.Length {
        return Pass;
      }
      if fam == V4 && pkt[14] % 16 != 5 {
        return Drop;
      }
      return Tx;
    }

    /** The rewrite that follows a decision to answer. */
    method Rewrite(fam: Family)
      requires Valid() && pkt.Length >= (if fam == V4 then DNS4_END else DNS6_END)
      requires pkt[14] / 16 == if fam == V4 then 4 else 6
      modifies `stats, pkt
      ensures stats == Bumped(old(stats), Some(DNS_POISONED))
      ensures pkt[..] == Sent(old(pkt[..]), Tx)
    {
      if fam == V4 {
        Poison4(pkt);
      } else {
        Poison6(pkt);
      }
      IncStat(DNS_POISONED);
    }

    /** `check_dns_v4` and `check_dns_v6`: the decision, and the rewrite that goes with an answer. */
    method CheckDnsInPlace(fam: Family, l4: nat) returns (v: Verdict)
      requires Valid() && pkt.Length >= HeaderEnd(fam) && l4 + 8 <= pkt.Length
      requires Validate(pkt[..], RulesOf(maps), fam) == Next(l4)
      modifies `stats, scratch, pkt
      ensures v == CheckDns(old(pkt[..]), RulesOf(maps), fam, l4).verdict
      ensures stats == Bumped(old(stats), CheckDns(old(pkt[..]), RulesOf(maps), fam, l4).stat)
      ensures pkt[..] == Sent(old(pkt[..]), v)
    {
      v := DecideDns(fam, l4);
      if v == Tx {
        Rewrite(fam);
      }
    }

    /** `xdp_dns4` and `xdp_dns6` */
    method RunDns(fam: Family) returns (v: Verdict)
      requires Valid()
      modifies `stats, scratch, pkt
      ensures v == DnsStage(old(pkt[..]), RulesOf(maps), fam).verdict
      ensures stats == Bumped(old(stats), DnsStage(old(pkt[..]), RulesOf(maps), fam).stat)
      ensures pkt[..] == Sent(old(pkt[..]), v)
    {
      var step := ValidateHeader(fam);
      if step.Exit? {
        return step.outcome.verdict;
      }
      if Proto(pkt[..], fam) != UDP {
        v := Finish(PASS_IT);
        return;
      }
      var l4 := step.at;
      step := ParseUdp(l4);
      if step.Exit? {
        return step.outcome.verdict;
      }
      if Be16At(pkt[..], l4 + 2) != 53 {
        v := Finish(PASS_IT);
        return;
      }
      v := CheckDnsInPlace(fam, l4);
    }

    /** `xdp_tcp4` and `xdp_tcp6` */
    method RunTcp(fam: Family) returns (v: Verdict)
      requires Valid()
      modifies `stats, scratch
      ensures v == TcpStage(old(pkt[..]), RulesOf(maps), fam, loaded).verdict
      ensures stats == Bumped(old(stats), TcpStage(old(pkt[..]), RulesOf(maps), fam, loaded).stat)
    {
      var step := ValidateHeader(fam);
      if step.Exit? {
        return step.outcome.verdict;
      }
      if Proto(pkt[..], fam) != TCP {
        v := Finish(PASS_IT);
        return;
      }
      var l4 := step.at;
      step := ParseTcp(l4);
      if step.Exit? {
        return step.outcome.verdict;
      }
      if PortHit(pkt[..], RulesOf(maps), fam, l4, TCP) {
        v := Finish(Outcome(Drop, Some(IP_PORT_BLOCKED)));
        return;
      }
      var dport := Be16At(pkt[..], l4 + 2);
      if dport == 80 && Slot(fam, SLOT_HTTP4, SLOT_HTTP6) in loaded {
        v := RunHttp(fam);
      } else if dport == 443 && Slot(fam, SLOT_TLS4, SLOT_TLS6) in loaded {
        v := RunTls(fam);
      } else {
        v := Finish(PASS_IT);
      }
    }

    /** `xdp_udp4` and `xdp_udp6` */
    method RunUdp(fam: Family) returns (v: Verdict)
      requires Valid()
      modifies `stats, scratch, pkt
      ensures v == UdpStage(old(pkt[..]), RulesOf(maps), fam, loaded).verdict
      ensures stats == Bumped(old(stats), UdpStage(old(pkt[..]), RulesOf(maps), fam, loaded).stat)
      ensures pkt[..] == Sent(old(pkt[..]), v)
    {
      var step := ValidateHeader(fam);
      if step.Exit? {
        return step.outcome.verdict;
      }
      if Proto(pkt[..], fam) != UDP {
        v := Finish(PASS_IT);
        return;
      }
      var l4 := step.at;
      step := ParseUdp(l4);
      if step.Exit? {
        return step.outcome.verdict;
      }
      if PortHit(pkt[..], RulesOf(maps), fam, l4, UDP) {
        v := Finish(Outcome(Drop, Some(IP_PORT_BLOCKED)));
        return;
      }
      if Be16At(pkt[..], l4 + 2) == 53 && Slot(fam, SLOT_DNS4, SLOT_DNS6) in loaded {
        v := RunDns(fam);
      } else {
        v := Finish(PASS_IT);
      }
    }

    /** `xdp_ipv4` and `xdp_ipv6` */
    method RunIp(fam: Family) returns (v: Verdict)
      requires Valid()
      modifies `stats, scratch, pkt
      ensures v == IpStage(old(pkt[..]), RulesOf(maps), fam, loaded).verdict
      ensures stats == Bumped(old(stats), IpStage(old(pkt[..]), RulesOf(maps), fam, loaded).stat)
      ensures pkt[..] == Sent(old(pkt[..]), v)
    {
      var step := ValidateHeader(fam);
      if step.Exit? {
        return step.outcome.verdict;
      }
      var proto := Proto(pkt[..], fam);
      if proto == TCP && Slot(fam, SLOT_TCP4, SLOT_TCP6) in loaded {
        v := RunTcp(fam);
      } else if proto == UDP && Slot(fam, SLOT_UDP4, SLOT_UDP6) in loaded {
        v := RunUdp(fam);
      } else {
        v := Finish(PASS_IT);
      }
    }

    /** `xdp_filter`: one packet through the whole chain. */
    method Filter() returns (v: Verdict)
      requires Valid()
      modifies `stats, scratch, pkt
      ensures v == FilterStage(old(pkt[..]), RulesOf(maps), loaded).verdict
      ensures stats == Bumped(Bumped(old(stats), Some(TOTAL)), FilterStage(old(pkt[..]), RulesOf(maps), loaded).stat)
      ensures pkt[..] == Sent(old(pkt[..]), v)
    {
      IncStat(TOTAL);
      if pkt.Length < 14 {
        v := Finish(BAD);
        return;
      }
      var proto := Be16At(pkt[..], 12);
      if proto == 0x0800 && SLOT_IPV4 in loaded {
        v := RunIp(V4);
      } else if proto == 0x86dd && SLOT_IPV6 in loaded {
        v := RunIp(V6);
      } else {
        v := Finish(PASS_IT);
      }
    }
  }
}
