/** What the chain of packet programs amounts to: one pass over the packet, and its counters. */
module XdpPipeline {
  import opened Bytes
  import opened Addresses
  import opened OnesComplement
  import opened DomainTable
  import opened NxDomain
  import opened DnsName
  import opened BpfTls
  import opened BpfHttp
  import opened XdpProgram
  import opened XdpContext
  import CH = ClientHello
  import HttpHost

  // ---------------------------------------------------------------- a one-pass classifier

  /** A packet with a sound IP header. */
  datatype Ip = Ip(fam: Family, src: Addr, dst: Addr, proto: byte, l4: nat, fragment: bool, options: bool)

  /** The transport layer: ports and where the payload starts. */
  datatype Transport = TcpTo(sport: u16, dport: u16, payload: nat) | UdpTo(sport: u16, dport: u16, payload: nat)

  function ParseIp(p: seq<byte>): Option<Ip> {
    if |p| >= 34 && Be16At(p, 12) == 0x0800 then
      var words: nat := p[14] % 16;
      if p[14] / 16 == 4 && words >= 5 && 14 + 4 * words <= |p|
      then Some(Ip(V4, p[26..30], p[30..34], p[23], 14 + 4 * words, Be16At(p, 20) % 0x4000 != 0, words > 5))
      else None
    else if |p| >= 54 && Be16At(p, 12) == 0x86dd && p[14] / 16 == 6
    then Some(Ip(V6, p[22..38], p[38..54], p[20], 54, false, false))
    else None
  }

  function ParseTransport(p: seq<byte>, ip: Ip): Option<Transport> {
    var l4 := ip.l4;
    if ip.proto == 6 && l4 + 20 <= |p| && p[l4 + 12] / 16 >= 5 && l4 + 4 * (p[l4 + 12] / 16) <= |p|
    then Some(TcpTo(Be16At(p, l4), Be16At(p, l4 + 2), l4 + 4 * (p[l4 + 12] / 16)))
    else if ip.proto == 17 && l4 + 8 <= |p|
    then Some(UdpTo(Be16At(p, l4), Be16At(p, l4 + 2), l4 + 8))
    else None
  }

  /** A query for a poisoned name in a datagram whose length field is plausible. */
  predicate Poisoned(p: seq<byte>, rules: Rules, ip: Ip, payload: nat)
    requires 8 <= payload <= |p|
  {
    var len := Be16At(p, payload - 4);
    len >= 20 && (ip.fam == V6 ==> payload - 8 + len <= 1024) && rules.query(p, payload, len - 8)
  }

  predicate Blocked(rules: Rules, ip: Ip, t: Transport) {
    var proto: byte := if t.TcpTo? then 6 else 17;
    Endpoint(ip.dst, t.dport, proto) in rules.ports || Endpoint(ip.src, t.sport, proto) in rules.ports
  }

  /** The application-layer rules: Host on 80, SNI on 443, question name on 53. */
  function Application(p: seq<byte>, rules: Rules, ip: Ip, t: Transport): Verdict
    requires t.UdpTo? ==> 8 <= t.payload <= |p|
  {
    match t
    case TcpTo(_, 80, at) => if rules.host(p, at) then Drop else Pass
    case TcpTo(_, 443, at) => if rules.sni(p, at) then Drop else Pass
    case UdpTo(_, 53, at) => if !Poisoned(p, rules, ip, at) then Pass else if ip.options then Drop else Tx
    case _ => Pass
  }

  /** What is left of the pass once the addresses are clear and the packet is no fragment. */
  function BehindIp(p: seq<byte>, rules: Rules, ip: Ip): Verdict {
    match ParseTransport(p, ip)
    case None => Pass
    case Some(t) => if Blocked(rules, ip, t) then Drop else Application(p, rules, ip, t)
  }

  /** Address rules first, fragments pass, then IP+port rules, then the application layer. */
  function OnePass(p: seq<byte>, rules: Rules): Verdict {
    match ParseIp(p)
    case None => Pass
    case Some(ip) =>
      if Covered(rules.cidr, ip.src) || Covered(rules.cidr, ip.dst) then Drop
      else if ip.fragment then Pass
      else BehindIp(p, rules, ip)
  }

  // ---------------------------------------------------------------- the chain refines it

  predicate IsFamily(p: seq<byte>, fam: Family) { |p| >= 14 && Be16At(p, 12) == if fam == V4 then 0x0800 else 0x86dd }

  /** The header's fields are those of `ip`. */
  ghost predicate Reads(p: seq<byte>, fam: Family, ip: Ip) {
    && |p| >= HeaderEnd(fam) && ip.fam == fam && Proto(p, fam) == ip.proto && Src(p, fam) == ip.src && Dst(p, fam) == ip.dst
    && (ip.options <==> fam == V4 && Ihl(p) != 5) && (fam == V6 ==> ip.l4 == 54)
  }

  /** The header check of every stage is the one parse, with the address rules in between. */
  lemma ValidateIsParse(p: seq<byte>, rules: Rules, fam: Family)
    requires IsFamily(p, fam)
    ensures match Validate(p, rules, fam)
            case Exit(o) => o.verdict == OnePass(p, rules) && o.stat.Some? && !ReachesDns(p, rules)
            case Next(l4) =>
              ParseIp(p).Some? && ParseIp(p).value.l4 == l4 && Reads(p, fam, ParseIp(p).value) &&
              OnePass(p, rules) == BehindIp(p, rules, ParseIp(p).value) &&
              (ReachesDns(p, rules) <==> DnsBehindIp(p, rules, ParseIp(p).value))
  {
  }

  /** The port re-check of the HTTP and TLS stages never ends them once the TCP stage got there. */
  lemma PayloadRecheckContinues(p: seq<byte>, rules: Rules, fam: Family, port: u16)
    ensures match Validate(p, rules, fam)
            case Exit(_) => true
            case Next(l4) =>
              Proto(p, fam) == TCP && TcpPayload(p, l4).Next? && Be16At(p, l4 + 2) == port ==>
                PayloadFor(p, fam, port) == TcpPayload(p, l4)
  {
  }

  lemma TcpTailRefines(p: seq<byte>, rules: Rules, fam: Family, ip: Ip, http: Outcome, tls: Outcome)
    requires Reads(p, fam, ip) && ip.proto == TCP
    requires TcpPayload(p, ip.l4).Next? && Be16At(p, ip.l4 + 2) == 80 ==>
               http.verdict == if rules.host(p, TcpPayload(p, ip.l4).at) then Drop else Pass
    requires TcpPayload(p, ip.l4).Next? && Be16At(p, ip.l4 + 2) == 443 ==>
               tls.verdict == if rules.sni(p, TcpPayload(p, ip.l4).at) then Drop else Pass
    ensures TcpTail(p, rules, fam, ip.l4, http, tls).verdict == BehindIp(p, rules, ip)
  {
  }

  lemma HttpStageVerdict(p: seq<byte>, rules: Rules, fam: Family, l4: nat)
    requires Validate(p, rules, fam) == Next(l4) && Proto(p, fam) == TCP && TcpPayload(p, l4).Next?
    ensures Be16At(p, l4 + 2) == 80 ==>
              HttpStage(p, rules, fam).verdict == if rules.host(p, TcpPayload(p, l4).at) then Drop else Pass
    ensures Be16At(p, l4 + 2) == 443 ==>
              TlsStage(p, rules, fam).verdict == if rules.sni(p, TcpPayload(p, l4).at) then Drop else Pass
  {
    PayloadRecheckContinues(p, rules, fam, Be16At(p, l4 + 2));
  }

  lemma TcpStageRefines(p: seq<byte>, rules: Rules, fam: Family, loaded: set<nat>)
    requires IsFamily(p, fam) && Validate(p, rules, fam).Next? && Proto(p, fam) == TCP
    ensures TcpStage(p, rules, fam, loaded).verdict in {Pass, OnePass(p, rules)}
    ensures (forall s | 2 <= s < 12 :: s in loaded) ==> TcpStage(p, rules, fam, loaded).verdict == OnePass(p, rules)
  {
    ValidateIsParse(p, rules, fam);
    var l4 := Validate(p, rules, fam).at;
    var http, tls := HttpStage(p, rules, fam), TlsStage(p, rules, fam);
    if TcpPayload(p, l4).Next? {
      HttpStageVerdict(p, rules, fam, l4);
    }
    TcpTailRefines(p, rules, fam, ParseIp(p).value, http, tls);
    TailCallsOnlyPass(p, rules, fam, l4, loaded, http, tls);
  }

  lemma TailCallsOnlyPass(p: seq<byte>, rules: Rules, fam: Family, l4: nat, loaded: set<nat>, http: Outcome, tls: Outcome)
    requires |p| >= HeaderEnd(fam)
    ensures var h, t := TailCall(loaded, Slot(fam, SLOT_HTTP4, SLOT_HTTP6), http), TailCall(loaded, Slot(fam, SLOT_TLS4, SLOT_TLS6), tls);
            TcpTail(p, rules, fam, l4, h, t).verdict in {Pass, TcpTail(p, rules, fam, l4, http, tls).verdict} &&
            ((forall s | 2 <= s < 12 :: s in loaded) ==> h == http && t == tls)
  {
  }

  /** UDP to port 53 that no IP+port rule stops. */
  predicate DnsBehindIp(p: seq<byte>, rules: Rules, ip: Ip) {
    ParseTransport(p, ip).Some? &&
    var t := ParseTransport(p, ip).value; t.UdpTo? && t.dport == 53 && !Blocked(rules, ip, t)
  }

  /** The packet gets to the DNS rule: not blocked, not a fragment, UDP to port 53. */
  predicate ReachesDns(p: seq<byte>, rules: Rules) {
    ParseIp(p).Some? &&
    var ip := ParseIp(p).value;
    !Covered(rules.cidr, ip.src) && !Covered(rules.cidr, ip.dst) && !ip.fragment && DnsBehindIp(p, rules, ip)
  }

  lemma UdpTailRefines(p: seq<byte>, rules: Rules, fam: Family, ip: Ip, dns: Outcome)
    requires Reads(p, fam, ip) && ip.proto == UDP
    requires dns == DnsTail(p, rules, fam, ip.l4) || dns == PASS_IT
    ensures var o := UdpTail(p, rules, fam, ip.l4, dns);
            o.verdict in {Pass, BehindIp(p, rules, ip)} &&
            (dns == DnsTail(p, rules, fam, ip.l4) ==> o.verdict == BehindIp(p, rules, ip)) &&
            (o.stat.None? <==> dns != PASS_IT && DnsBehindIp(p, rules, ip) && BehindIp(p, rules, ip) != Tx)
  {
  }

  lemma UdpStageRefines(p: seq<byte>, rules: Rules, fam: Family, loaded: set<nat>)
    requires IsFamily(p, fam) && Validate(p, rules, fam).Next? && Proto(p, fam) == UDP
    ensures UdpStage(p, rules, fam, loaded).verdict in {Pass, OnePass(p, rules)}
    ensures Slot(fam, SLOT_DNS4, SLOT_DNS6) in loaded ==> UdpStage(p, rules, fam, loaded).verdict == OnePass(p, rules)
    ensures UdpStage(p, rules, fam, loaded).stat.None? <==>
            Slot(fam, SLOT_DNS4, SLOT_DNS6) in loaded && ReachesDns(p, rules) && OnePass(p, rules) != Tx
  {
    ValidateIsParse(p, rules, fam);
    UdpTailRefines(p, rules, fam, ParseIp(p).value,
                   TailCall(loaded, Slot(fam, SLOT_DNS4, SLOT_DNS6), DnsStage(p, rules, fam)));
  }

  lemma TcpStageCounts(p: seq<byte>, rules: Rules, fam: Family, loaded: set<nat>)
    ensures TcpStage(p, rules, fam, loaded).stat.Some?
  {
  }

  lemma IpStageRefines(p: seq<byte>, rules: Rules, fam: Family, loaded: set<nat>)
    requires IsFamily(p, fam)
    ensures IpStage(p, rules, fam, loaded).verdict in {Pass, OnePass(p, rules)}
    ensures (forall s | 2 <= s < 12 :: s in loaded) ==> IpStage(p, rules, fam, loaded).verdict == OnePass(p, rules)
    ensures IpStage(p, rules, fam, loaded).stat.None? <==>
            Slot(fam, SLOT_UDP4, SLOT_UDP6) in loaded && Slot(fam, SLOT_DNS4, SLOT_DNS6) in loaded &&
            ReachesDns(p, rules) && OnePass(p, rules) != Tx
  {
    ValidateIsParse(p, rules, fam);
    if Validate(p, rules, fam).Next? {
      if Proto(p, fam) == TCP {
        TcpStageRefines(p, rules, fam, loaded);
        TcpStageCounts(p, rules, fam, loaded);
      } else if Proto(p, fam) == UDP {
        UdpStageRefines(p, rules, fam, loaded);
      }
    }
  }

  /** Every slot of the program array is filled, as `populateDispatchRules` leaves it. */
  predicate AllLoaded(loaded: set<nat>) { forall s | 0 <= s < 12 :: s in loaded }

  /** The chain of tail calls decides exactly what one pass decides. */
  lemma ChainIsOnePass(p: seq<byte>, rules: Rules, loaded: set<nat>)
    requires AllLoaded(loaded)
    ensures FilterStage(p, rules, loaded).verdict == OnePass(p, rules)
  {
    if |p| >= 14 && Be16At(p, 12) == 0x0800 {
      IpStageRefines(p, rules, V4, loaded);
    } else if |p| >= 14 && Be16At(p, 12) == 0x86dd {
      IpStageRefines(p, rules, V6, loaded);
    }
  }

  /** With any slots empty the chain still decides the same or lets the packet pass. */
  lemma MissingSlotsOnlyPass(p: seq<byte>, rules: Rules, loaded: set<nat>)
    ensures FilterStage(p, rules, loaded).verdict == OnePass(p, rules) || FilterStage(p, rules, loaded).verdict == Pass
  {
    if |p| >= 14 && Be16At(p, 12) == 0x0800 {
      IpStageRefines(p, rules, V4, loaded);
    } else if |p| >= 14 && Be16At(p, 12) == 0x86dd {
      IpStageRefines(p, rules, V6, loaded);
    }
  }

  // ---------------------------------------------------------------- from the rule table to the verdict

  /** Only the application layer can still stop the packet. */
  predicate Reaches(p: seq<byte>, maps: Maps, ip: Ip, t: Transport) {
    && ParseIp(p) == Some(ip) && !Covered(maps.cidr, ip.src) && !Covered(maps.cidr, ip.dst) && !ip.fragment
    && ParseTransport(p, ip) == Some(t)
    && var proto: byte := if t.TcpTo? then 6 else 17;
    && Endpoint(ip.dst, t.dport, proto) !in maps.ports && Endpoint(ip.src, t.sport, proto) !in maps.ports
  }

  lemma ReachesApplication(p: seq<byte>, maps: Maps, rules: Rules, loaded: set<nat>, ip: Ip, t: Transport)
    requires AllLoaded(loaded) && Reaches(p, maps, ip, t) && rules.cidr == maps.cidr && rules.ports == maps.ports
    ensures t.UdpTo? ==> 8 <= t.payload <= |p|
    ensures FilterStage(p, rules, loaded).verdict == Application(p, rules, ip, t)
  {
    ChainIsOnePass(p, rules, loaded);
  }

  /** A ClientHello is dropped exactly when it fits and the table holds its lowercase name for TLS. */
  lemma HelloChain(p: seq<byte>, maps: Maps, loaded: set<nat>, ip: Ip, sport: u16, at: nat, h: CH.Hello)
    requires AllLoaded(loaded) && Reaches(p, maps, ip, TcpTo(sport, 443, at))
    requires CH.Valid(h) && Has(p, at, CH.Encode(h))
    ensures FilterStage(p, RulesOf(maps), loaded).verdict ==
            if Fits(h, at) && Hit(maps.domains, Lower(h.name), Tls) then Drop else Pass
  {
    ReachesApplication(p, maps, RulesOf(maps), loaded, ip, TcpTo(sport, 443, at));
    HelloVerdict(maps.domains, p, at, h);
  }

  /** A request with its Host line sixteen bytes in is dropped exactly when the table holds the host for HTTP. */
  lemma RequestChain(p: seq<byte>, maps: Maps, loaded: set<nat>, ip: Ip, sport: u16, at: nat,
                     line: Text, text: Text, token: Text, blanks: Text, host: Text, tail: Text)
    requires AllLoaded(loaded) && Reaches(p, maps, ip, TcpTo(sport, 80, at))
    requires Requests(p, at, line, text) && HttpHost.HostHeader(text, token, blanks, host, tail)
    requires |blanks| <= 2 && host != [] && at + 21 + |blanks| < 1024
    ensures FilterStage(p, RulesOf(maps), loaded).verdict ==
            if Hit(maps.domains, Lower(Probed(host, at + 21 + |blanks|)), Http) then Drop else Pass
  {
    ReachesApplication(p, maps, RulesOf(maps), loaded, ip, TcpTo(sport, 80, at));
    RequestHit(maps.domains, p, at, line, text, token, blanks, host, tail);
    HttpHitMeaning(maps.domains, p, at);
  }

  /** A DNS message at `at`: a query, in view, whose first question asks for `labels`. */
  predicate QueriesFor(p: seq<byte>, at: nat, labels: seq<Text>)
    requires 8 <= at <= |p|
  {
    var end := at - 8 + Be16At(p, at - 4);
    && at + 12 <= end <= |p| && end <= 1024 && p[at + 2] < 128 && Be16At(p, at + 4) != 0
    && Asks(p[at + 12..end], labels)
  }

  /** Some call carried the DNS bit for the asked name, in lowercase. */
  predicate RuleFor(calls: seq<Rule>, labels: seq<Text>) {
    exists i :: 0 <= i < |calls| && Dns in calls[i].flags && SameName(calls[i].name, Lower(Join(labels)))
  }

  /** The table that the calls loaded, and a name it can hold. */
  predicate LoadedFor(domains: Table, calls: seq<Rule>, labels: seq<Text>) {
    && AllAcceptable(calls) && domains == DomainTable.Loaded(calls)
    && |Join(labels)| <= 62 && |labels| <= 8 && 0 !in Join(labels)
  }

  lemma QueryHit(p: seq<byte>, domains: Table, calls: seq<Rule>, at: nat, labels: seq<Text>)
    requires 8 <= at <= |p| && QueriesFor(p, at, labels) && LoadedFor(domains, calls, labels)
    ensures DnsHit(domains, p, at, Be16At(p, at - 4) - 8) <==> RuleFor(calls, labels)
  {
    QueryMatchesIff(calls, p[at + 12..at - 8 + Be16At(p, at - 4)], labels);
  }

  lemma QueryInChain(p: seq<byte>, maps: Maps, rules: Rules, loaded: set<nat>, ip: Ip, sport: u16, at: nat, hit: bool)
    requires AllLoaded(loaded) && 8 <= at <= |p| && Reaches(p, maps, ip, UdpTo(sport, 53, at))
    requires rules.cidr == maps.cidr && rules.ports == maps.ports
    requires var len := Be16At(p, at - 4); 20 <= len && at - 8 + len <= 1024 && rules.query(p, at, len - 8) == hit
    ensures FilterStage(p, rules, loaded).verdict == if !hit then Pass else if ip.options then Drop else Tx
  {
    ReachesApplication(p, maps, rules, loaded, ip, UdpTo(sport, 53, at));
  }

  /** A query is answered exactly when a rule for DNS was loaded for its name; behind IPv4 options it is dropped. */
  lemma QueryChain(p: seq<byte>, maps: Maps, loaded: set<nat>, ip: Ip, sport: u16, at: nat, calls: seq<Rule>, labels: seq<Text>)
    requires AllLoaded(loaded) && 8 <= at <= |p| && Reaches(p, maps, ip, UdpTo(sport, 53, at)) && QueriesFor(p, at, labels)
    requires LoadedFor(maps.domains, calls, labels)
    ensures FilterStage(p, RulesOf(maps), loaded).verdict ==
            if !RuleFor(calls, labels) then Pass else if ip.options then Drop else Tx
  {
    QueryHit(p, maps.domains, calls, at, labels);
    QueryInChain(p, maps, RulesOf(maps), loaded, ip, sport, at, RuleFor(calls, labels));
  }

  // ---------------------------------------------------------------- counters

  /** The slots on the way to the DNS stage are filled. */
  predicate DnsPathLoaded(p: seq<byte>, loaded: set<nat>) {
    ParseIp(p).Some? &&
    var fam := ParseIp(p).value.fam;
    && Slot(fam, SLOT_IPV4, SLOT_IPV6) in loaded && Slot(fam, SLOT_UDP4, SLOT_UDP6) in loaded
    && Slot(fam, SLOT_DNS4, SLOT_DNS6) in loaded
  }

  /** The run ends in the DNS stage without an answer: no match, or a match behind IPv4 options. */
  predicate Uncounted(p: seq<byte>, rules: Rules, loaded: set<nat>) {
    DnsPathLoaded(p, loaded) && ReachesDns(p, rules) && OnePass(p, rules) != Tx
  }

  /** A packet is missing from the counters behind `total` exactly when it is such a run. */
  lemma UncountedIff(p: seq<byte>, rules: Rules, loaded: set<nat>)
    ensures FilterStage(p, rules, loaded).stat.None? <==> Uncounted(p, rules, loaded)
    ensures FilterStage(p, rules, loaded).stat.Some? ==> TOTAL < FilterStage(p, rules, loaded).stat.value < STAT_MAX
  {
    if |p| >= 14 && Be16At(p, 12) == 0x0800 {
      IpStageRefines(p, rules, V4, loaded);
      StatInRange(p, rules, V4, loaded);
    } else if |p| >= 14 && Be16At(p, 12) == 0x86dd {
      IpStageRefines(p, rules, V6, loaded);
      StatInRange(p, rules, V6, loaded);
    }
  }

  lemma StatInRange(p: seq<byte>, rules: Rules, fam: Family, loaded: set<nat>)
    ensures var stat := IpStage(p, rules, fam, loaded).stat; stat.Some? ==> TOTAL < stat.value < STAT_MAX
  {
  }

  /** The counters after a sequence of packets. */
  function After(stats: Stats, packets: seq<seq<byte>>, rules: Rules, loaded: set<nat>): Stats {
    if packets == [] then stats
    else
      var n := |packets| - 1;
      Bumped(Bumped(After(stats, packets[..n], rules, loaded), Some(TOTAL)), FilterStage(packets[n], rules, loaded).stat)
  }

  function CountUncounted(packets: seq<seq<byte>>, rules: Rules, loaded: set<nat>): nat {
    if packets == [] then 0
    else
      var n := |packets| - 1;
      CountUncounted(packets[..n], rules, loaded) + if Uncounted(packets[n], rules, loaded) then 1 else 0
  }

  function Others(s: Stats): nat {
    s[1] as int + s[2] as int + s[3] as int + s[4] as int + s[5] as int + s[6] as int + s[7] as int
  }

  lemma IncWraps(x: u64) returns (k: int)
    ensures Inc64(x) == x + 1 - k * 0x1_0000_0000_0000_0000 && k >= 0
  {
    k := if x + 1 == 0x1_0000_0000_0000_0000 then 1 else 0;
  }

  lemma BumpOther(s: Stats, key: nat) returns (k: int)
    requires TOTAL < key < STAT_MAX
    ensures Others(Bumped(s, Some(key))) == Others(s) + 1 - k * 0x1_0000_0000_0000_0000 && Bumped(s, Some(key))[TOTAL] == s[TOTAL]
    ensures k >= 0
  {
    k := IncWraps(s[key]);
  }

  /**
    Over every run from fresh counters, `total` is the other counters plus the runs that ended
    uncounted, up to the 64-bit wrap of the counters; `k` counts the wraps.
   */
  lemma {:induction false} TotalAccounted(packets: seq<seq<byte>>, rules: Rules, loaded: set<nat>) returns (k: int)
    ensures var s := After(Zeros(STAT_MAX), packets, rules, loaded);
            s[TOTAL] == Others(s) + CountUncounted(packets, rules, loaded) + k * 0x1_0000_0000_0000_0000
  {
    if packets == [] {
      k := 0;
    } else {
      var n := |packets| - 1;
      k := TotalAccounted(packets[..n], rules, loaded);
      var s := After(Zeros(STAT_MAX), packets[..n], rules, loaded);
      var t := Bumped(s, Some(TOTAL));
      var stat := FilterStage(packets[n], rules, loaded).stat;
      UncountedIff(packets[n], rules, loaded);
      var kt := IncWraps(s[TOTAL]);
      assert t[TOTAL] == s[TOTAL] + 1 - kt * 0x1_0000_0000_0000_0000 && Others(t) == Others(s);
      if stat.Some? {
        var ko := BumpOther(t, stat.value);
        k := k - kt + ko;
      } else {
        k := k - kt;
      }
    }
  }

  /** A packet adds at most one to the counters behind `total`, and none when it ends uncounted. */
  lemma {:induction false} CountedAtMostOnce(packets: seq<seq<byte>>, rules: Rules, loaded: set<nat>)
    ensures Others(After(Zeros(STAT_MAX), packets, rules, loaded)) + CountUncounted(packets, rules, loaded) <= |packets|
  {
    if packets != [] {
      var n := |packets| - 1;
      CountedAtMostOnce(packets[..n], rules, loaded);
      var s := After(Zeros(STAT_MAX), packets[..n], rules, loaded);
      var t := Bumped(s, Some(TOTAL));
      var stat := FilterStage(packets[n], rules, loaded).stat;
      UncountedIff(packets[n], rules, loaded);
      assert Others(t) == Others(s);
      if stat.Some? {
        var k := BumpOther(t, stat.value);
      }
    }
  }

  /** Before any counter can wrap, `total` exceeds the other counters by exactly the uncounted runs. */
  lemma TotalExact(packets: seq<seq<byte>>, rules: Rules, loaded: set<nat>)
    requires |packets| < 0x1_0000_0000_0000_0000
    ensures var s := After(Zeros(STAT_MAX), packets, rules, loaded);
            s[TOTAL] - Others(s) == CountUncounted(packets, rules, loaded)
  {
    var k := TotalAccounted(packets, rules, loaded);
    CountedAtMostOnce(packets, rules, loaded);
    NoWrap(After(Zeros(STAT_MAX), packets, rules, loaded)[TOTAL],
           Others(After(Zeros(STAT_MAX), packets, rules, loaded)) + CountUncounted(packets, rules, loaded), k);
  }

  lemma NoWrap(total: u64, sum: nat, k: int)
    requires total == sum + k * 0x1_0000_0000_0000_0000 && sum < 0x1_0000_0000_0000_0000
    ensures total == sum
  {
  }

  // ---------------------------------------------------------------- what each counter counts

  /**
    The counter a packet goes to: 1 passed, 2 HTTP, 3 TLS, 4 DNS answered, 5 address, 6 address and
    port, 7 malformed; a packet the DNS rule does not answer goes to none.
   */
  function Tallied(p: seq<byte>, rules: Rules): Option<nat> {
    if |p| < 14 then Some(7)
    else if Be16At(p, 12) != 0x0800 && Be16At(p, 12) != 0x86dd then Some(1)
    else match ParseIp(p)
      case None => Some(7)
      case Some(ip) =>
        if Covered(rules.cidr, ip.src) || Covered(rules.cidr, ip.dst) then Some(5)
        else if ip.fragment then Some(1)
        else TalliedBehindIp(p, rules, ip)
  }

  function TalliedBehindIp(p: seq<byte>, rules: Rules, ip: Ip): Option<nat> {
    if ip.proto != 6 && ip.proto != 17 then Some(1)
    else match ParseTransport(p, ip)
      case None => Some(7)
      case Some(t) =>
        if Blocked(rules, ip, t) then Some(6)
        else match t
          case TcpTo(_, 80, at) => if rules.host(p, at) then Some(2) else Some(1)
          case TcpTo(_, 443, at) => if rules.sni(p, at) then Some(3) else Some(1)
          case UdpTo(_, 53, at) => if Poisoned(p, rules, ip, at) && !ip.options then Some(4) else None
          case _ => Some(1)
  }

  lemma ValidateTallies(p: seq<byte>, rules: Rules, fam: Family)
    requires IsFamily(p, fam)
    ensures match Validate(p, rules, fam)
            case Exit(o) => o.stat == Tallied(p, rules)
            case Next(l4) => ParseIp(p).Some? && Tallied(p, rules) == TalliedBehindIp(p, rules, ParseIp(p).value)
  {
  }

  lemma TcpTailTallies(p: seq<byte>, rules: Rules, fam: Family, ip: Ip, http: Outcome, tls: Outcome)
    requires Reads(p, fam, ip) && ip.proto == TCP
    requires TcpPayload(p, ip.l4).Next? && Be16At(p, ip.l4 + 2) == 80 ==>
               http.stat == if rules.host(p, TcpPayload(p, ip.l4).at) then Some(2) else Some(1)
    requires TcpPayload(p, ip.l4).Next? && Be16At(p, ip.l4 + 2) == 443 ==>
               tls.stat == if rules.sni(p, TcpPayload(p, ip.l4).at) then Some(3) else Some(1)
    ensures TcpTail(p, rules, fam, ip.l4, http, tls).stat == TalliedBehindIp(p, rules, ip)
  {
  }

  lemma HttpStageTallies(p: seq<byte>, rules: Rules, fam: Family, l4: nat)
    requires Validate(p, rules, fam) == Next(l4) && Proto(p, fam) == TCP && TcpPayload(p, l4).Next?
    ensures Be16At(p, l4 + 2) == 80 ==>
              HttpStage(p, rules, fam).stat == if rules.host(p, TcpPayload(p, l4).at) then Some(2) else Some(1)
    ensures Be16At(p, l4 + 2) == 443 ==>
              TlsStage(p, rules, fam).stat == if rules.sni(p, TcpPayload(p, l4).at) then Some(3) else Some(1)
  {
    PayloadRecheckContinues(p, rules, fam, Be16At(p, l4 + 2));
  }

  lemma TcpStageTallies(p: seq<byte>, rules: Rules, fam: Family, loaded: set<nat>)
    requires IsFamily(p, fam) && Validate(p, rules, fam).Next? && Proto(p, fam) == TCP && AllLoaded(loaded)
    ensures TcpStage(p, rules, fam, loaded).stat == Tallied(p, rules)
  {
    ValidateIsParse(p, rules, fam);
    ValidateTallies(p, rules, fam);
    var l4 := Validate(p, rules, fam).at;
    var http, tls := HttpStage(p, rules, fam), TlsStage(p, rules, fam);
    if TcpPayload(p, l4).Next? {
      HttpStageTallies(p, rules, fam, l4);
    }
    TcpTailTallies(p, rules, fam, ParseIp(p).value, http, tls);
    TailCallsOnlyPass(p, rules, fam, l4, loaded, http, tls);
  }

  lemma UdpTailTallies(p: seq<byte>, rules: Rules, fam: Family, ip: Ip)
    requires Reads(p, fam, ip) && ip.proto == UDP
    ensures UdpTail(p, rules, fam, ip.l4, DnsTail(p, rules, fam, ip.l4)).stat == TalliedBehindIp(p, rules, ip)
  {
  }

  lemma UdpStageTallies(p: seq<byte>, rules: Rules, fam: Family, loaded: set<nat>)
    requires IsFamily(p, fam) && Validate(p, rules, fam).Next? && Proto(p, fam) == UDP && AllLoaded(loaded)
    ensures UdpStage(p, rules, fam, loaded).stat == Tallied(p, rules)
  {
    ValidateIsParse(p, rules, fam);
    ValidateTallies(p, rules, fam);
    UdpTailTallies(p, rules, fam, ParseIp(p).value);
  }

  lemma IpStageTallies(p: seq<byte>, rules: Rules, fam: Family, loaded: set<nat>)
    requires IsFamily(p, fam) && AllLoaded(loaded)
    ensures IpStage(p, rules, fam, loaded).stat == Tallied(p, rules)
  {
    ValidateIsParse(p, rules, fam);
    ValidateTallies(p, rules, fam);
    if Validate(p, rules, fam).Next? {
      if Proto(p, fam) == TCP {
        TcpStageTallies(p, rules, fam, loaded);
      } else if Proto(p, fam) == UDP {
        UdpStageTallies(p, rules, fam, loaded);
      }
    }
  }

  /** With all slots loaded, every packet goes to the counter it belongs to. */
  lemma ChainTallies(p: seq<byte>, rules: Rules, loaded: set<nat>)
    requires AllLoaded(loaded)
    ensures FilterStage(p, rules, loaded).stat == Tallied(p, rules)
  {
    if |p| >= 14 && Be16At(p, 12) == 0x0800 {
      IpStageTallies(p, rules, V4, loaded);
    } else if |p| >= 14 && Be16At(p, 12) == 0x86dd {
      IpStageTallies(p, rules, V6, loaded);
    }
  }

  /** How many of the packets go to a counter. */
  function TalliedIn(packets: seq<seq<byte>>, rules: Rules, key: nat): nat {
    if packets == [] then 0
    else
      var n := |packets| - 1;
      TalliedIn(packets[..n], rules, key) + if Tallied(packets[n], rules) == Some(key) then 1 else 0
  }

  lemma {:induction false} TalliedFits(packets: seq<seq<byte>>, rules: Rules, key: nat)
    ensures TalliedIn(packets, rules, key) <= |packets|
  {
    if packets != [] {
      TalliedFits(packets[..|packets| - 1], rules, key);
    }
  }

  lemma BumpAt(s: Stats, stat: Option<nat>, key: nat)
    requires key < STAT_MAX && s[key] < 0xffff_ffff_ffff_ffff
    ensures Bumped(s, stat)[key] == s[key] + if stat == Some(key) then 1 else 0
  {
  }

  /** Over every run that cannot wrap it, each counter is the number of packets it is named after. */
  lemma {:induction false} CountersTell(packets: seq<seq<byte>>, rules: Rules, loaded: set<nat>, key: nat)
    requires AllLoaded(loaded) && key < 8 && |packets| < 0x1_0000_0000_0000_0000
    ensures After(Zeros(STAT_MAX), packets, rules, loaded)[key] ==
            if key == 0 then |packets| else TalliedIn(packets, rules, key)
  {
    if packets != [] {
      var n := |packets| - 1;
      CountersTell(packets[..n], rules, loaded, key);
      TalliedFits(packets[..n], rules, key);
      var s := After(Zeros(STAT_MAX), packets[..n], rules, loaded);
      var stat := FilterStage(packets[n], rules, loaded).stat;
      ChainTallies(packets[n], rules, loaded);
      UncountedIff(packets[n], rules, loaded);
      CountedInto(s, stat, key, n);
    }
  }

  lemma CountedInto(s: Stats, stat: Option<nat>, key: nat, n: nat)
    requires key < STAT_MAX && s[key] <= n < 0xffff_ffff_ffff_ffff && (stat.Some? ==> TOTAL < stat.value < STAT_MAX)
    ensures Bumped(Bumped(s, Some(TOTAL)), stat)[key] == s[key] + if key == 0 || stat == Some(key) then 1 else 0
  {
    if key == 0 {
      BumpAt(s, Some(TOTAL), 0);
      assert Bumped(Bumped(s, Some(TOTAL)), stat)[0] == Bumped(s, Some(TOTAL))[0];
    } else {
      BumpAt(s, Some(TOTAL), key);
      BumpAt(Bumped(s, Some(TOTAL)), stat, key);
    }
  }

  // ---------------------------------------------------------------- answers

  /** What has been checked about a packet that is sent back. */
  lemma AnsweredQuery(p: seq<byte>, rules: Rules)
    requires OnePass(p, rules) == Tx
    ensures |p| >= 34 && p[14] / 16 in {4, 6}
    ensures var l4 := if p[14] / 16 == 4 then 34 else 54;
            l4 + 8 <= |p| && Be16At(p, l4 + 4) >= 20 && rules.query(p, l4 + 8, Be16At(p, l4 + 4) - 8)
  {
  }

  /** The same from the chain's verdict. */
  lemma SentBackQuery(p: seq<byte>, rules: Rules, loaded: set<nat>)
    requires FilterStage(p, rules, loaded).verdict == Tx
    ensures |p| >= 34 && p[14] / 16 in {4, 6}
    ensures var l4 := if p[14] / 16 == 4 then 34 else 54;
            l4 + 8 <= |p| && Be16At(p, l4 + 4) >= 20 && rules.query(p, l4 + 8, Be16At(p, l4 + 4) - 8)
  {
    MissingSlotsOnlyPass(p, rules, loaded);
    AnsweredQuery(p, rules);
  }

  /** The whole datagram of a packet that is sent back is in view. */
  lemma SentBackInView(p: seq<byte>, maps: Maps, rules: Rules, loaded: set<nat>)
    requires rules == RulesOf(maps) && FilterStage(p, rules, loaded).verdict == Tx
    ensures |p| >= 34 && p[14] / 16 in {4, 6}
    ensures var l4 := if p[14] / 16 == 4 then 34 else 54;
            l4 + 8 <= |p| && Be16At(p, l4 + 4) >= 20 && l4 + Be16At(p, l4 + 4) <= |p|
  {
    SentBackQuery(p, rules, loaded);
    var l4: nat := if p[14] / 16 == 4 then 34 else 54;
    QueryInPacket(p, maps, rules, l4, Be16At(p, l4 + 4) - 8);
  }

  lemma QueryInPacket(p: seq<byte>, maps: Maps, rules: Rules, l4: nat, len: nat)
    requires rules == RulesOf(maps) && rules.query(p, l4 + 8, len) && len >= DNS_HEADER
    ensures l4 + 8 + len <= |p|
  {
  }

  /**
    End to end for IPv6: a packet the chain sends back had its whole datagram in view, and its UDP
    checksum is valid exactly when the query's was.
   */
  lemma AnsweredChecksum6(p: seq<byte>, maps: Maps, loaded: set<nat>)
    requires FilterStage(p, RulesOf(maps), loaded).verdict == Tx && p[14] / 16 == 6
    ensures HasDatagram6(p) && Sent(p, Tx) == Answer6(p) && HasDatagram6(Answer6(p))
    ensures Verifies(Covered6(Sent(p, Tx))) <==> Verifies(Covered6(p))
  {
    SentBackInView(p, maps, RulesOf(maps), loaded);
    Answer6KeepsChecksum(p);
  }

  /** End to end for IPv4: the header checksum is as good as the query's and the UDP one is off. */
  lemma AnsweredChecksum4(p: seq<byte>, maps: Maps, loaded: set<nat>)
    requires FilterStage(p, RulesOf(maps), loaded).verdict == Tx && p[14] / 16 == 4
    ensures |p| >= DNS4_END && Sent(p, Tx) == Answer4(p)
    ensures Verifies(Sent(p, Tx)[14..34]) <==> Verifies(p[14..34])
    ensures Be16At(Sent(p, Tx), 40) == 0
  {
    AnsweredInView4(p, maps, loaded);
    Answer4KeepsHeaderChecksum(p, Sent(p, Tx));
  }

  lemma AnsweredInView4(p: seq<byte>, maps: Maps, loaded: set<nat>)
    requires FilterStage(p, RulesOf(maps), loaded).verdict == Tx && p[14] / 16 == 4
    ensures |p| >= DNS4_END && Sent(p, Tx) == Answer4(p)
  {
    SentBackInView(p, maps, RulesOf(maps), loaded);
  }

  /**
    End to end: whatever the chain sends back is the reply to the packet it got, field by field.
   */
  lemma AnsweredFields(p: seq<byte>, maps: Maps, loaded: set<nat>)
    requires FilterStage(p, RulesOf(maps), loaded).verdict == Tx
    ensures |p| >= 54 && p[14] / 16 in {4, 6}
    ensures p[14] / 16 == 4 ==> Reply4(p, Sent(p, Tx))
    ensures p[14] / 16 == 6 ==> |p| >= 74 && Reply6(p, Sent(p, Tx))
  {
    SentBackInView(p, maps, RulesOf(maps), loaded);
    if p[14] / 16 == 4 {
      AnsweredInView4(p, maps, loaded);
      Answer4Replies(p);
    } else {
      AnsweredChecksum6(p, maps, loaded);
      Answer6Replies(p, AnswerCheck6(p));
    }
  }

  /** Two runs over the same packet and rules agree whatever the shared scratch key held before. */
  method AnyScratch(maps: Maps, loaded: set<nat>, p: seq<byte>, one: array<byte>, two: array<byte>)
      returns (v: Verdict, w: Verdict, out: seq<byte>, out': seq<byte>)
    requires one.Length == KEY_LEN && two.Length == KEY_LEN
    modifies one, two
    ensures v == w && out == out'
  {
    var a := new byte[|p|](i requires 0 <= i < |p| => p[i]);
    var b := new byte[|p|](i requires 0 <= i < |p| => p[i]);
    assert a[..] == p && b[..] == p;
    var first := new Context(maps, loaded, a, one, Zeros(STAT_MAX));
    v := first.Filter();
    out := a[..];
    var second := new Context(maps, loaded, b, two, Zeros(STAT_MAX));
    w := second.Filter();
    out' := b[..];
  }
}
