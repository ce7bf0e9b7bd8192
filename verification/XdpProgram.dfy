/**
  The tail-called packet programs.  The source writes each stage twice, once per IP version; here
  the version is a parameter.
 */
module XdpProgram {
  import opened Bytes
  import opened Addresses
  import opened DomainTable
  import opened NxDomain
  import opened DnsName
  import opened BpfTls
  import opened BpfHttp

  datatype Verdict = Pass | Drop | Tx

  datatype Family = V4 | V6

  // Slots of the program array.
  const SLOT_IPV4 := 0
  const SLOT_IPV6 := 1
  const SLOT_TCP4 := 2
  const SLOT_UDP4 := 3
  const SLOT_TCP6 := 4
  const SLOT_UDP6 := 5
  const SLOT_HTTP4 := 6
  const SLOT_TLS4 := 7
  const SLOT_HTTP6 := 8
  const SLOT_TLS6 := 9
  const SLOT_DNS4 := 10
  const SLOT_DNS6 := 11

  function Slot(fam: Family, four: nat, six: nat): nat { if fam == V4 then four else six }

  // Counters.
  const TOTAL := 0
  const PASSED := 1
  const HTTP_BLOCKED := 2
  const TLS_BLOCKED := 3
  const DNS_POISONED := 4
  const IP_BLOCKED := 5
  const IP_PORT_BLOCKED := 6
  const MALFORMED := 7
  const STAT_MAX := 8

  type Stats = s: seq<u64> | |s| == STAT_MAX witness Zeros(STAT_MAX)

  function Bumped(stats: Stats, key: Option<nat>): Stats {
    if key.Some? && key.value < STAT_MAX then stats[key.value := Inc64(stats[key.value])] else stats
  }

  /** The rule maps; addresses of both versions live in one set, told apart by their length. */
  datatype Maps = Maps(domains: Table, cidr: set<Prefix>, ports: set<Endpoint>)

  /**
    What the stages consult: address and endpoint rules, and whether a payload's Host, SNI or
    question name at an offset is listed.
   */
  datatype Rules = Rules(
    cidr: set<Prefix>, ports: set<Endpoint>,
    host: (seq<byte>, nat) -> bool, sni: (seq<byte>, nat) -> bool, query: (seq<byte>, nat, nat) -> bool)

  /** The rules that loaded maps give. */
  function RulesOf(maps: Maps): Rules {
    Rules(maps.cidr, maps.ports,
          (p: seq<byte>, off: nat) => HttpHit(maps.domains, p, off),
          (p: seq<byte>, off: nat) => SpanHit(maps.domains, p, SniSpan(p, off), Tls),
          (p: seq<byte>, off: nat, len: nat) => DnsHit(maps.domains, p, off, len))
  }

  /** How a stage ends: its verdict and the one counter it adds to, if any. */
  datatype Outcome = Outcome(verdict: Verdict, stat: Option<nat>)

  /** A check either ends the stage or hands on an offset. */
  datatype Step = Exit(outcome: Outcome) | Next(at: nat)

  const PASS_IT := Outcome(Pass, Some(PASSED))
  const BAD := Outcome(Pass, Some(MALFORMED))

  // ---------------------------------------------------------------- header fields

  function Src(p: seq<byte>, fam: Family): Addr
    requires |p| >= HeaderEnd(fam)
  {
    if fam == V4 then p[26..30] else p[22..38]
  }

  function Dst(p: seq<byte>, fam: Family): Addr
    requires |p| >= HeaderEnd(fam)
  {
    if fam == V4 then p[30..34] else p[38..54]
  }

  function Proto(p: seq<byte>, fam: Family): byte
    requires |p| >= HeaderEnd(fam)
  {
    if fam == V4 then p[23] else p[20]
  }

  function HeaderEnd(fam: Family): nat { if fam == V4 then 34 else 54 }

  /** More fragments, or a fragment offset. */
  predicate Fragment4(p: seq<byte>)
    requires |p| >= 34
  {
    Be16At(p, 20) % 0x4000 != 0
  }

  function Ihl(p: seq<byte>): nat
    requires |p| >= 34
  {
    p[14] % 16
  }

  // ---------------------------------------------------------------- what each stage decides

  function Validate(p: seq<byte>, rules: Rules, fam: Family): Step {
    if |p| < HeaderEnd(fam) then Exit(BAD)
    else if p[14] / 16 != (if fam == V4 then 4 else 6) then Exit(BAD)
    else if fam == V4 && (Ihl(p) < 5 || 14 + 4 * Ihl(p) > |p|) then Exit(BAD)
    else if Covered(rules.cidr, Src(p, fam)) || Covered(rules.cidr, Dst(p, fam)) then Exit(Outcome(Drop, Some(IP_BLOCKED)))
    else if fam == V4 && Fragment4(p) then Exit(PASS_IT)
    else Next(if fam == V4 then 14 + 4 * Ihl(p) else 54)
  }

  /** `parse_tcp_ports`: on to the payload. */
  function TcpPayload(p: seq<byte>, l4: nat): Step {
    if l4 + 20 > |p| || p[l4 + 12] / 16 < 5 || l4 + p[l4 + 12] / 16 * 4 > |p| then Exit(BAD)
    else Next(l4 + p[l4 + 12] / 16 * 4)
  }

  /** `parse_udp_ports`: on to the UDP payload. */
  function UdpPayload(p: seq<byte>, l4: nat): Step {
    if l4 + 8 > |p| then Exit(BAD) else Next(l4 + 8)
  }

  predicate PortHit(p: seq<byte>, rules: Rules, fam: Family, l4: nat, proto: byte)
    requires HeaderEnd(fam) <= |p| && l4 + 4 <= |p|
  {
    || Endpoint(Dst(p, fam), Be16At(p, l4 + 2), proto) in rules.ports
    || Endpoint(Src(p, fam), Be16At(p, l4), proto) in rules.ports
  }

  /** `tcp4_payload_for_port` and `tcp6_payload_for_port` */
  function PayloadFor(p: seq<byte>, fam: Family, port: u16): Step {
    if |p| < HeaderEnd(fam) then Exit(BAD)
    else if p[14] / 16 != (if fam == V4 then 4 else 6) || Proto(p, fam) != TCP then Exit(PASS_IT)
    else if fam == V4 && (Ihl(p) < 5 || 14 + 4 * Ihl(p) > |p|) then Exit(BAD)
    else if fam == V4 && Fragment4(p) then Exit(PASS_IT)
    else
      var l4 := if fam == V4 then 14 + 4 * Ihl(p) else 54;
      match TcpPayload(p, l4)
      case Exit(o) => Exit(o)
      case Next(off) => if Be16At(p, l4 + 2) != port then Exit(PASS_IT) else Next(off)
  }

  function HttpStage(p: seq<byte>, rules: Rules, fam: Family): Outcome {
    match PayloadFor(p, fam, 80)
    case Exit(o) => o
    case Next(off) =>
      if rules.host(p, off) then Outcome(Drop, Some(HTTP_BLOCKED)) else PASS_IT
  }

  function TlsStage(p: seq<byte>, rules: Rules, fam: Family): Outcome {
    match PayloadFor(p, fam, 443)
    case Exit(o) => o
    case Next(off) =>
      if rules.sni(p, off) then Outcome(Drop, Some(TLS_BLOCKED)) else PASS_IT
  }

  /** `check_dns_v4` and `check_dns_v6` */
  function CheckDns(p: seq<byte>, rules: Rules, fam: Family, l4: nat): Outcome
    requires |p| >= HeaderEnd(fam) && l4 + 8 <= |p|
  {
    var len := Be16At(p, l4 + 4);
    if len < 20 || (fam == V6 && len > MAX_PACKET_READ - l4) then Outcome(Pass, None)
    else if !rules.query(p, l4 + 8, len - 8) then Outcome(Pass, None)
    else if fam == V4 && Ihl(p) != 5 then Outcome(Drop, None)
    else Outcome(Tx, Some(DNS_POISONED))
  }

  /** The DNS stage behind its header check. */
  function DnsTail(p: seq<byte>, rules: Rules, fam: Family, l4: nat): Outcome
    requires |p| >= HeaderEnd(fam)
  {
    if Proto(p, fam) != UDP then PASS_IT
    else match UdpPayload(p, l4)
      case Exit(o) => o
      case Next(_) => if Be16At(p, l4 + 2) != 53 then PASS_IT else CheckDns(p, rules, fam, l4)
  }

  function DnsStage(p: seq<byte>, rules: Rules, fam: Family): Outcome {
    match Validate(p, rules, fam)
    case Exit(o) => o
    case Next(l4) => DnsTail(p, rules, fam, l4)
  }

  /** The TCP stage behind its header check; `http` and `tls` are how the tail-called stages end. */
  function TcpTail(p: seq<byte>, rules: Rules, fam: Family, l4: nat, http: Outcome, tls: Outcome): Outcome
    requires |p| >= HeaderEnd(fam)
  {
    if Proto(p, fam) != TCP then PASS_IT
    else match TcpPayload(p, l4)
      case Exit(o) => o
      case Next(_) =>
        if PortHit(p, rules, fam, l4, TCP) then Outcome(Drop, Some(IP_PORT_BLOCKED))
        else if Be16At(p, l4 + 2) == 80 then http
        else if Be16At(p, l4 + 2) == 443 then tls
        else PASS_IT
  }

  /** A tail call: into the slot's program, or on past the call when the slot is empty. */
  function TailCall(loaded: set<nat>, slot: nat, program: Outcome): Outcome {
    if slot in loaded then program else PASS_IT
  }

  function TcpStage(p: seq<byte>, rules: Rules, fam: Family, loaded: set<nat>): Outcome {
    match Validate(p, rules, fam)
    case Exit(o) => o
    case Next(l4) =>
      TcpTail(p, rules, fam, l4,
              TailCall(loaded, Slot(fam, SLOT_HTTP4, SLOT_HTTP6), HttpStage(p, rules, fam)),
              TailCall(loaded, Slot(fam, SLOT_TLS4, SLOT_TLS6), TlsStage(p, rules, fam)))
  }

  /** The UDP stage behind its header check; `dns` is how the tail-called stage ends. */
  function UdpTail(p: seq<byte>, rules: Rules, fam: Family, l4: nat, dns: Outcome): Outcome
    requires |p| >= HeaderEnd(fam)
  {
    if Proto(p, fam) != UDP then PASS_IT
    else match UdpPayload(p, l4)
      case Exit(o) => o
      case Next(_) =>
        if PortHit(p, rules, fam, l4, UDP) then Outcome(Drop, Some(IP_PORT_BLOCKED))
        else if Be16At(p, l4 + 2) == 53 then dns
        else PASS_IT
  }

  function UdpStage(p: seq<byte>, rules: Rules, fam: Family, loaded: set<nat>): Outcome {
    match Validate(p, rules, fam)
    case Exit(o) => o
    case Next(l4) =>
      UdpTail(p, rules, fam, l4, TailCall(loaded, Slot(fam, SLOT_DNS4, SLOT_DNS6), DnsStage(p, rules, fam)))
  }

  function IpStage(p: seq<byte>, rules: Rules, fam: Family, loaded: set<nat>): Outcome {
    match Validate(p, rules, fam)
    case Exit(o) => o
    case Next(_) =>
      if Proto(p, fam) == TCP then TailCall(loaded, Slot(fam, SLOT_TCP4, SLOT_TCP6), TcpStage(p, rules, fam, loaded))
      else if Proto(p, fam) == UDP then TailCall(loaded, Slot(fam, SLOT_UDP4, SLOT_UDP6), UdpStage(p, rules, fam, loaded))
      else PASS_IT
  }

  /** `xdp_filter`, behind its first action of counting the packet. */
  function FilterStage(p: seq<byte>, rules: Rules, loaded: set<nat>): Outcome {
    if |p| < 14 then BAD
    else if Be16At(p, 12) == 0x0800 then TailCall(loaded, SLOT_IPV4, IpStage(p, rules, V4, loaded))
    else if Be16At(p, 12) == 0x86dd then TailCall(loaded, SLOT_IPV6, IpStage(p, rules, V6, loaded))
    else PASS_IT
  }

  /** The packet as it leaves: rewritten only when it is sent back. */
  function Sent(p: seq<byte>, v: Verdict): seq<byte> {
    if v != Tx || |p| < DNS4_END then p
    else if p[14] / 16 == 4 then Answer4(p)
    else if |p| < DNS6_END then p
    else Answer6(p)
  }
}
