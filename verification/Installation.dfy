/** What complete and partial iptables installations leave in every rule list. */
module Installation {
  import opened Bytes
  import opened RuleLists
  import opened Firewall
  import opened Netfilter

  lemma WantedDistinct(cfg: QueueConfig)
    ensures Distinct(Wanted(cfg))
  {
  }

  /** The list at `key` when the manager's installation is through. */
  function InstalledAt(available: set<Bin>, b: Backend, cfg: QueueConfig, lists: Lists, key: Key): Rules {
    if Managed(available, b, cfg, key) then Installed(ListAt(lists, key), Wanted(cfg)) else ListAt(lists, key)
  }

  /** A complete installation puts one new copy of every rule on top of every cleaned managed chain. */
  lemma CommandsInstall(available: set<Bin>, b: Backend, cfg: QueueConfig, lists: Lists, key: Key)
    requires b.Ipt? && ProperBackend(b) && b.v4 in available
    ensures Applied(CleanedAt(available, b, cfg, lists, key), key, Commands(available, b, cfg)) ==
            InstalledAt(available, b, cfg, lists, key)
  {
    var chains, rules, list := NormalChains(cfg.chains), Wanted(cfg), CleanedAt(available, b, cfg, lists, key);
    NormalChainsMeaning(cfg.chains);
    AppliedBin(list, key, b.v4, chains, rules);
    if b.v6 in available {
      AppliedConcat(list, key, BinCmds(b.v4, chains, rules), BinCmds(b.v6, chains, rules));
      AppliedBin(Applied(list, key, BinCmds(b.v4, chains, rules)), key, b.v6, chains, rules);
    } else {
      assert BinCmds(b.v4, chains, rules) + [] == BinCmds(b.v4, chains, rules);
    }
  }

  // ---------------------------------------------------------------- where commands go

  lemma {:induction false} BinCmdsMembers(bin: Bin, chains: seq<Text>, rules: Rules, c: Cmd)
    requires c in BinCmds(bin, chains, rules)
    ensures InChains(c.key, bin, chains) && c.rule in rules
  {
    if chains != [] {
      var n := |chains| - 1;
      InChainsSnoc(c.key, bin, chains);
      if c in BinCmds(bin, chains[..n], rules) {
        BinCmdsMembers(bin, chains[..n], rules, c);
      }
    }
  }

  lemma CommandsManaged(available: set<Bin>, b: Backend, cfg: QueueConfig, c: Cmd)
    requires b.Ipt? && b.v4 in available && c in Commands(available, b, cfg)
    ensures Managed(available, b, cfg, c.key) && c.rule in Wanted(cfg)
  {
    var chains, rules := NormalChains(cfg.chains), Wanted(cfg);
    if c in BinCmds(b.v4, chains, rules) {
      BinCmdsMembers(b.v4, chains, rules, c);
    } else {
      BinCmdsMembers(b.v6, chains, rules, c);
    }
  }

  lemma {:induction false} AppliedElsewhere(list: Rules, key: Key, cmds: seq<Cmd>)
    requires forall c | c in cmds :: c.key != key
    ensures Applied(list, key, cmds) == list
  {
    if cmds != [] {
      var n := |cmds| - 1;
      assert cmds[n] in cmds;
      AppliedElsewhere(list, key, cmds[..n]);
      assert [] + list == list;
    }
  }

  lemma {:induction false} AppliedOthers(list: Rules, key: Key, cmds: seq<Cmd>, rules: Rules)
    requires forall c | c in cmds :: c.rule in rules
    ensures Without(Applied(list, key, cmds), rules) == Without(list, rules)
  {
    if cmds != [] {
      var n := |cmds| - 1;
      AppliedOthers(list, key, cmds[..n], rules);
      assert cmds[n].rule in rules;
      if cmds[n].key == key {
        assert ([cmds[n].rule] + Applied(list, key, cmds[..n]))[1..] == Applied(list, key, cmds[..n]);
      } else {
        assert [] + Applied(list, key, cmds[..n]) == Applied(list, key, cmds[..n]);
      }
    }
  }

  lemma {:induction false} AppliedCount(list: Rules, key: Key, cmds: seq<Cmd>, r: Rule)
    ensures Count(Applied(list, key, cmds), r) == Count(list, r) + multiset(cmds)[Cmd(key, r)]
  {
    if cmds != [] {
      var n := |cmds| - 1;
      AppliedCount(list, key, cmds[..n], r);
      assert cmds == cmds[..n] + [cmds[n]];
    }
  }

  /** No command is sent twice. */
  lemma CommandsOnce(available: set<Bin>, b: Backend, cfg: QueueConfig, key: Key, r: Rule)
    requires b.Ipt? && ProperBackend(b) && b.v4 in available
    ensures multiset(Commands(available, b, cfg))[Cmd(key, r)] <= 1
  {
    if Cmd(key, r) in Commands(available, b, cfg) {
      CommandsManaged(available, b, cfg, Cmd(key, r));
      var list := Cleaned([], Wanted(cfg));
      CommandsInstall(available, b, cfg, map[], key);
      AppliedCount(list, key, Commands(available, b, cfg), r);
      WantedDistinct(cfg);
      ReversedCounts(Wanted(cfg));
      DistinctCounts(Wanted(cfg), r);
    }
  }

  lemma PrefixCount(sent: seq<Cmd>, all: seq<Cmd>, c: Cmd)
    requires sent <= all
    ensures multiset(sent)[c] <= multiset(all)[c]
  {
    assert all == sent + all[|sent|..];
  }

  // ---------------------------------------------------------------- partial installations

  /** Wherever an installation stops, chains that are not managed keep their lists. */
  lemma UnmanagedKept(available: set<Bin>, b: Backend, cfg: QueueConfig, was: Lists, now: Lists, sent: seq<Cmd>, key: Key)
    requires b.Ipt? && Inserted(available, b, cfg, was, now, sent) && !Managed(available, b, cfg, key)
    ensures ListAt(now, key) == ListAt(was, key)
  {
    forall c | c in sent ensures c.key != key {
      CommandsManaged(available, b, cfg, c);
    }
    AppliedElsewhere(ListAt(was, key), key, sent);
  }

  /** Wherever an installation stops, managed chains keep every other rule, in order. */
  lemma OthersKept(available: set<Bin>, b: Backend, cfg: QueueConfig, was: Lists, now: Lists, sent: seq<Cmd>, key: Key)
    requires b.Ipt? && Inserted(available, b, cfg, was, now, sent)
    ensures Without(ListAt(now, key), Wanted(cfg)) == Without(ListAt(was, key), Wanted(cfg))
  {
    forall c | c in sent ensures c.rule in Wanted(cfg) {
      CommandsManaged(available, b, cfg, c);
    }
    AppliedOthers(CleanedAt(available, b, cfg, was, key), key, sent, Wanted(cfg));
    CleanedKeepsOthers(ListAt(was, key), Wanted(cfg), Wanted(cfg));
  }

  /** Wherever an installation stops, a managed rule has a new copy exactly where its command went through. */
  lemma PartialCounts(available: set<Bin>, b: Backend, cfg: QueueConfig, was: Lists, now: Lists, sent: seq<Cmd>, key: Key, r: Rule)
    requires b.Ipt? && ProperBackend(b) && Inserted(available, b, cfg, was, now, sent)
    requires Managed(available, b, cfg, key) && r in Wanted(cfg)
    ensures Count(ListAt(now, key), r) == Excess(Count(ListAt(was, key), r)) + if Cmd(key, r) in sent then 1 else 0
  {
    WantedDistinct(cfg);
    CleanedCounts(ListAt(was, key), Wanted(cfg), r);
    AppliedCount(CleanedAt(available, b, cfg, was, key), key, sent, r);
    if Cmd(key, r) in sent {
      PrefixCount(sent, Commands(available, b, cfg), Cmd(key, r));
      CommandsOnce(available, b, cfg, key, r);
      assert Cmd(key, r) in multiset(sent);
    } else {
      assert Cmd(key, r) !in multiset(sent);
    }
  }

  /** After a completed installation a managed rule has one copy more than cleaning could not remove. */
  lemma CompleteCounts(available: set<Bin>, b: Backend, cfg: QueueConfig, was: Lists, now: Lists, key: Key, r: Rule)
    requires b.Ipt? && ProperBackend(b) && b.v4 in available
    requires Inserted(available, b, cfg, was, now, Commands(available, b, cfg))
    ensures ListAt(now, key) == InstalledAt(available, b, cfg, was, key)
    ensures Count(ListAt(now, key), r) ==
            if Managed(available, b, cfg, key) && r in Wanted(cfg) then Excess(Count(ListAt(was, key), r)) + 1
            else Count(ListAt(was, key), r)
  {
    CommandsInstall(available, b, cfg, was, key);
    WantedDistinct(cfg);
    InstalledCounts(ListAt(was, key), Wanted(cfg), r);
  }

  /** A cleanup after any installation, complete or not, takes it back. */
  lemma CleanupRetracts(available: set<Bin>, b: Backend, cfg: QueueConfig, was: Lists, now: Lists, sent: seq<Cmd>, key: Key)
    requires b.Ipt? && ProperBackend(b) && Inserted(available, b, cfg, was, now, sent) && Managed(available, b, cfg, key)
    ensures Retracted(ListAt(was, key), CleanedAt(available, b, cfg, now, key), Wanted(cfg))
  {
    WantedDistinct(cfg);
    OthersKept(available, b, cfg, was, now, sent, key);
    forall r | r in Wanted(cfg) ensures Count(ListAt(now, key), r) <= Excess(Count(ListAt(was, key), r)) + 1 {
      PartialCounts(available, b, cfg, was, now, sent, key, r);
    }
    RetractedBy(ListAt(was, key), ListAt(now, key), Wanted(cfg));
  }

  // ---------------------------------------------------------------- what is left over

  /** At most twenty copies of any managed rule in any managed chain. */
  ghost predicate FewCopies(available: set<Bin>, b: Backend, cfg: QueueConfig, lists: Lists) {
    forall k, r | Managed(available, b, cfg, k) && r in Wanted(cfg) :: Count(ListAt(lists, k), r) <= 20
  }

  /** Some managed chain still holds a managed rule. */
  ghost predicate Leftover(available: set<Bin>, b: Backend, cfg: QueueConfig, lists: Lists) {
    exists k, r :: Managed(available, b, cfg, k) && r in Wanted(cfg) && r in ListAt(lists, k)
  }

  /** An installation that stops leaves rules behind exactly when some insertion went through. */
  lemma LeftoverIffSent(available: set<Bin>, b: Backend, cfg: QueueConfig, was: Lists, now: Lists, sent: seq<Cmd>)
    requires b.Ipt? && ProperBackend(b) && Inserted(available, b, cfg, was, now, sent) && FewCopies(available, b, cfg, was)
    ensures Leftover(available, b, cfg, now) <==> sent != []
  {
    if Leftover(available, b, cfg, now) {
      var k, r :| Managed(available, b, cfg, k) && r in Wanted(cfg) && r in ListAt(now, k);
      PartialCounts(available, b, cfg, was, now, sent, k, r);
      assert r in multiset(ListAt(now, k));
    }
    if sent != [] {
      var c := sent[0];
      CommandsManaged(available, b, cfg, c);
      PartialCounts(available, b, cfg, was, now, sent, c.key, c.rule);
      assert c.rule in multiset(ListAt(now, c.key));
    }
  }

  /** Taking back an installation leaves none of its rules. */
  lemma NoLeftover(available: set<Bin>, b: Backend, cfg: QueueConfig, was: Lists, now: Lists)
    requires FewCopies(available, b, cfg, was)
    requires forall k | Managed(available, b, cfg, k) :: Retracted(ListAt(was, k), ListAt(now, k), Wanted(cfg))
    ensures !Leftover(available, b, cfg, now)
    ensures forall k | Managed(available, b, cfg, k) :: ListAt(now, k) == Without(ListAt(was, k), Wanted(cfg))
  {
    forall k | Managed(available, b, cfg, k)
      ensures ListAt(now, k) == Without(ListAt(was, k), Wanted(cfg)) && forall r | r in Wanted(cfg) :: r !in ListAt(now, k)
    {
      RetractedIsWithout(ListAt(was, k), ListAt(now, k), Wanted(cfg));
    }
  }
}
