/** Which packets the installed rules hand to the queue, and what of them is dropped. */
module Capture {
  import opened Bytes
  import opened RuleLists
  import opened Firewall
  import opened Netfilter
  import opened Installation
  import opened Classifier
  import DomainText

  function TransportOf(p: Packet): Transport { if p.ip.Some? then p.ip.value.transport else NoTransport }

  predicate ToTcp(p: Packet, port: u16) { TransportOf(p).Tcp? && TransportOf(p).dport == port }

  predicate ToUdp(p: Packet, port: u16) { TransportOf(p).Udp? && TransportOf(p).dport == port }

  /** The packets that the `l7` capture mode is about. */
  predicate WebOrDns(p: Packet) { ToTcp(p, 80) || ToTcp(p, 443) || ToUdp(p, 53) }

  /** The queue a packet is sent to. */
  datatype Target = Target(num: u16, bypass: bool)

  /** The chain is configured and the capture mode covers the packet. */
  predicate Captured(cfg: QueueConfig, hook: Text, p: Packet) {
    hook in NormalChains(cfg.chains) && (cfg.capture == Everything || WebOrDns(p))
  }

  // ---------------------------------------------------------------- nftables

  predicate NftTakes(m: NftMatch, p: Packet) {
    match m
    case NftAny => true
    case NftTcp(ports) => TransportOf(p).Tcp? && TransportOf(p).dport in ports
    case NftUdp(ports) => TransportOf(p).Udp? && TransportOf(p).dport in ports
  }

  /** The first queue rule that takes the packet. */
  function NftFirst(rules: seq<NftRule>, p: Packet): Option<Target> {
    if rules == [] then None
    else if NftTakes(rules[0].match_, p) then Some(Target(rules[0].num, rules[0].bypass))
    else NftFirst(rules[1..], p)
  }

  /** The first chain on the hook that queues the packet. */
  function NftTarget(table: NftTable, hook: Text, p: Packet): Option<Target> {
    if table == [] then None
    else if table[0].hook == hook && NftFirst(table[0].rules, p).Some? then NftFirst(table[0].rules, p)
    else NftTarget(table[1..], hook, p)
  }

  lemma NftRulesTake(cfg: QueueConfig, p: Packet)
    ensures NftFirst(NftRules(cfg), p) ==
            if cfg.capture == Everything || WebOrDns(p) then Some(Target(cfg.num, cfg.failOpen)) else None
  {
    var rules := NftRules(cfg);
    if cfg.capture != Everything {
      assert rules[1..] == [rules[1]];
      assert NftFirst([], p) == None && rules[1..][1..] == [];
      assert NftTakes(rules[0].match_, p) <==> ToTcp(p, 80) || ToTcp(p, 443);
      assert NftTakes(rules[1].match_, p) <==> ToUdp(p, 53);
      assert NftFirst(rules[1..], p) == if ToUdp(p, 53) then Some(Target(cfg.num, cfg.failOpen)) else None;
    }
  }

  lemma {:induction false} NftTargetSame(table: NftTable, rules: seq<NftRule>, hook: Text, p: Packet)
    requires forall i | 0 <= i < |table| :: table[i].rules == rules
    ensures NftTarget(table, hook, p) ==
            if exists i | 0 <= i < |table| :: table[i].hook == hook then NftFirst(rules, p) else None
  {
    if table != [] {
      NftTargetSame(table[1..], rules, hook, p);
      if i :| 1 <= i < |table| && table[i].hook == hook {
        assert table[1..][i - 1].hook == hook;
      }
    }
  }

  /** The nftables script queues exactly the captured packets, to the configured queue. */
  lemma NftCaptures(cfg: QueueConfig, hook: Text, p: Packet)
    ensures NftTarget(Script(cfg), hook, p) == if Captured(cfg, hook, p) then Some(Target(cfg.num, cfg.failOpen)) else None
  {
    NftTargetSame(Script(cfg), NftRules(cfg), hook, p);
    NftRulesTake(cfg, p);
    if hook in NormalChains(cfg.chains) {
      var i :| 0 <= i < |NormalChains(cfg.chains)| && NormalChains(cfg.chains)[i] == hook;
      assert Script(cfg)[i].hook == hook;
    }
  }

  // ---------------------------------------------------------------- iptables

  predicate Takes(m: Match, p: Packet) {
    match m
    case AnyPacket => true
    case TcpTo(port) => ToTcp(p, port)
    case UdpTo(port) => ToUdp(p, port)
  }

  /** Whether a rule ends the traversal; `other` says so for rules of other programs. */
  predicate Applies(r: Rule, p: Packet, other: Text -> bool) {
    match r
    case Queue(m, _, _) => Takes(m, p)
    case Other(text) => other(text)
  }

  function FirstRule(list: Rules, p: Packet, other: Text -> bool): Option<Rule> {
    if list == [] then None
    else if Applies(list[0], p, other) then Some(list[0])
    else FirstRule(list[1..], p, other)
  }

  /** Where the list sends the packet if one of the program's own rules decides. */
  function IptTarget(list: Rules, cfg: QueueConfig, p: Packet, other: Text -> bool): Option<Target> {
    var r :- FirstRule(list, p, other);
    if r in Wanted(cfg) then Some(Target(r.num, r.bypass)) else None
  }

  lemma {:induction false} FirstRuleMeaning(list: Rules, p: Packet, other: Text -> bool)
    ensures FirstRule(list, p, other).Some? ==>
              FirstRule(list, p, other).value in list && Applies(FirstRule(list, p, other).value, p, other)
    ensures FirstRule(list, p, other).None? ==> forall r | r in list :: !Applies(r, p, other)
  {
    if list != [] {
      FirstRuleMeaning(list[1..], p, other);
    }
  }

  lemma {:induction false} FirstRuleConcat(a: Rules, b: Rules, p: Packet, other: Text -> bool)
    ensures FirstRule(a + b, p, other) == if FirstRule(a, p, other).Some? then FirstRule(a, p, other) else FirstRule(b, p, other)
  {
    if a == [] {
      assert a + b == b;
    } else {
      assert (a + b)[1..] == a[1..] + b;
      FirstRuleConcat(a[1..], b, p, other);
    }
  }

  lemma WantedTake(cfg: QueueConfig, p: Packet, other: Text -> bool)
    ensures (exists r | r in Wanted(cfg) :: Applies(r, p, other)) <==> cfg.capture == Everything || WebOrDns(p)
  {
    var rules := Wanted(cfg);
    assert rules[0] in rules;
    if cfg.capture != Everything {
      assert rules[1] in rules && rules[2] in rules;
    }
  }

  /** On a freshly installed chain the program's rules decide first, whatever other rules there are. */
  lemma InstalledTarget(list: Rules, cfg: QueueConfig, p: Packet, other: Text -> bool)
    ensures IptTarget(Installed(list, Wanted(cfg)), cfg, p, other) ==
            if cfg.capture == Everything || WebOrDns(p) then Some(Target(cfg.num, cfg.failOpen)) else None
  {
    var rules, rest := Wanted(cfg), Cleaned(list, Wanted(cfg));
    FirstRuleConcat(Reversed(rules), rest, p, other);
    FirstRuleMeaning(Reversed(rules), p, other);
    FirstRuleMeaning(rest, p, other);
    ReversedMembers(rules);
    WantedTake(cfg, p, other);
  }

  /** The program for the packet's address family. */
  function FamilyBin(b: Backend, p: Packet): Bin
    requires b.Ipt?
  {
    if p.version == Some(4) then b.v4 else b.v6
  }

  lemma ManagedHook(available: set<Bin>, b: Backend, cfg: QueueConfig, hook: Text, p: Packet)
    requires b.Ipt? && ProperBackend(b) && DomainText.IsLower(hook)
    ensures Managed(available, b, cfg, Key(FamilyBin(b, p), Upper(hook))) <==>
            FamilyBin(b, p) in available && hook in NormalChains(cfg.chains)
  {
    var chains, key := NormalChains(cfg.chains), Key(FamilyBin(b, p), Upper(hook));
    NormalChainsMeaning(cfg.chains);
    if InChains(key, key.bin, chains) {
      var i :| 0 <= i < |chains| && key.chain == Upper(chains[i]);
      UpperInjective(hook, chains[i]);
    }
  }

  /**
    An iptables installation queues exactly the captured packets of the families whose program is
    installed, to the configured queue; chains outside the configuration must not hold such rules already.
   */
  lemma IptCaptures(available: set<Bin>, b: Backend, cfg: QueueConfig, was: Lists, hook: Text, p: Packet, other: Text -> bool)
    requires b.Ipt? && ProperBackend(b) && DomainText.IsLower(hook)
    requires var key := Key(FamilyBin(b, p), Upper(hook));
             Managed(available, b, cfg, key) || forall r | r in Wanted(cfg) :: r !in ListAt(was, key)
    ensures IptTarget(InstalledAt(available, b, cfg, was, Key(FamilyBin(b, p), Upper(hook))), cfg, p, other) ==
            if Captured(cfg, hook, p) && FamilyBin(b, p) in available then Some(Target(cfg.num, cfg.failOpen)) else None
  {
    var key := Key(FamilyBin(b, p), Upper(hook));
    ManagedHook(available, b, cfg, hook, p);
    if Managed(available, b, cfg, key) {
      InstalledTarget(ListAt(was, key), cfg, p, other);
    } else {
      FirstRuleMeaning(ListAt(was, key), p, other);
    }
  }

  /** Both managers send a packet to the same queue exactly if its iptables program exists or it is not captured. */
  lemma ManagersAgreeIff(available: set<Bin>, b: Backend, cfg: QueueConfig, was: Lists, hook: Text, p: Packet, other: Text -> bool)
    requires b.Ipt? && ProperBackend(b) && DomainText.IsLower(hook)
    requires var key := Key(FamilyBin(b, p), Upper(hook));
             Managed(available, b, cfg, key) || forall r | r in Wanted(cfg) :: r !in ListAt(was, key)
    ensures NftTarget(Script(cfg), hook, p) ==
            IptTarget(InstalledAt(available, b, cfg, was, Key(FamilyBin(b, p), Upper(hook))), cfg, p, other) <==>
            FamilyBin(b, p) in available || !Captured(cfg, hook, p)
  {
    NftCaptures(cfg, hook, p);
    IptCaptures(available, b, cfg, was, hook, p, other);
  }

  // ---------------------------------------------------------------- capture modes

  /** The packet is queued by the installed table and then dropped. */
  predicate Dropped(c: Classifier, cfg: QueueConfig, hook: Text, p: Packet) {
    NftTarget(Script(cfg), hook, p).Some? && Classify(c, p).kind == Drop
  }

  /** `l7` drops what `all` drops of TCP/80, TCP/443 and UDP/53; all else is dropped by address or endpoint. */
  lemma CaptureModesRelate(c: Classifier, cfg: QueueConfig, hook: Text, p: Packet)
    ensures Dropped(c, cfg.(capture := L7), hook, p) <==> Dropped(c, cfg.(capture := Everything), hook, p) && WebOrDns(p)
    ensures Dropped(c, cfg.(capture := Everything), hook, p) && !Dropped(c, cfg.(capture := L7), hook, p) ==>
              Classify(c, p).reason == Ip || Classify(c, p).reason == IpPort
  {
    NftCaptures(cfg.(capture := L7), hook, p);
    NftCaptures(cfg.(capture := Everything), hook, p);
  }
}
