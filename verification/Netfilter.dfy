/** The kernel's rules as the managers change them, command by command. */
module Netfilter {
  import opened Bytes
  import opened RuleLists
  import opened Firewall

  datatype NftMatch = NftAny | NftTcp(ports: set<u16>) | NftUdp(ports: set<u16>)

  datatype NftRule = NftQueue(match_: NftMatch, num: u16, bypass: bool)

  /** A chain of the program's own nftables table: the hook it is on and its queue rules. */
  datatype NftChain = NftChain(hook: Text, rules: seq<NftRule>)

  type NftTable = seq<NftChain>

  /** The rules `nftFirewall.Install` writes into every chain. */
  function NftRules(cfg: QueueConfig): seq<NftRule> {
    if cfg.capture == Everything then [NftQueue(NftAny, cfg.num, cfg.failOpen)]
    else [NftQueue(NftTcp({80, 443}), cfg.num, cfg.failOpen), NftQueue(NftUdp({53}), cfg.num, cfg.failOpen)]
  }

  /** The table that `nftFirewall.Install` writes. */
  function Script(cfg: QueueConfig): NftTable {
    var chains := NormalChains(cfg.chains);
    seq(|chains|, i requires 0 <= i < |chains| => NftChain(chains[i], NftRules(cfg)))
  }

  /** The chains an iptables manager works on: those of its programs that are installed. */
  predicate Managed(available: set<Bin>, b: Backend, cfg: QueueConfig, key: Key) {
    b.Ipt? && key.bin in available &&
    (InChains(key, b.v4, NormalChains(cfg.chains)) || InChains(key, b.v6, NormalChains(cfg.chains)))
  }

  /** The `-I` commands of a complete installation. */
  function Commands(available: set<Bin>, b: Backend, cfg: QueueConfig): seq<Cmd>
    requires b.Ipt?
  {
    var chains := NormalChains(cfg.chains);
    BinCmds(b.v4, chains, Wanted(cfg)) + if b.v6 in available then BinCmds(b.v6, chains, Wanted(cfg)) else []
  }

  predicate ProperBackend(b: Backend) { b.Ipt? ==> b.v4 != b.v6 }

  /** The list at `key` when the manager's cleanup is through. */
  function CleanedAt(available: set<Bin>, b: Backend, cfg: QueueConfig, lists: Lists, key: Key): Rules {
    if Managed(available, b, cfg, key) then Cleaned(ListAt(lists, key), Wanted(cfg)) else ListAt(lists, key)
  }

  /** From the command numbered `from`, `n` commands succeeded, and then one failed unless all is well. */
  ghost predicate Ran(fails: nat -> bool, from: nat, n: nat, ok: bool) {
    (forall t | from <= t < from + n :: !fails(t)) && (!ok ==> fails(from + n))
  }

  /** The insertions `sent` turned `was` into `lists`. */
  ghost predicate After(lists: Lists, was: Lists, sent: seq<Cmd>) {
    forall k :: ListAt(lists, k) == Applied(ListAt(was, k), k, sent)
  }

  lemma AfterInsert(lists: Lists, was: Lists, sent: seq<Cmd>, key: Key, rule: Rule)
    requires After(lists, was, sent)
    ensures After(lists[key := [rule] + ListAt(lists, key)], was, sent + [Cmd(key, rule)])
  {
    var all, now := sent + [Cmd(key, rule)], lists[key := [rule] + ListAt(lists, key)];
    assert all[..|sent|] == sent;
    forall k ensures ListAt(now, k) == Applied(ListAt(was, k), k, all) {
      assert ListAt(lists, k) == Applied(ListAt(was, k), k, sent);
      assert [] + ListAt(lists, k) == ListAt(lists, k);
    }
  }

  /** An installation that got as far as `sent` turned `was` into `now`. */
  ghost predicate Inserted(available: set<Bin>, b: Backend, cfg: QueueConfig, was: Lists, now: Lists, sent: seq<Cmd>)
    requires b.Ipt?
  {
    (forall k :: ListAt(now, k) == Applied(CleanedAt(available, b, cfg, was, k), k, sent)) &&
    sent <= Commands(available, b, cfg) && (b.v4 !in available ==> sent == [])
  }

  class Kernel {
    const available: set<Bin>
    /** Whether the n-th `-I` or `nft -f` command fails. */
    const fails: nat -> bool
    var clock: nat
    var lists: Lists
    var table: Option<NftTable>

    constructor (available: set<Bin>, fails: nat -> bool, lists: Lists, table: Option<NftTable>)
      ensures this.available == available && this.fails == fails && this.lists == lists && this.table == table
    {
      this.available, this.fails, this.clock, this.lists, this.table := available, fails, 0, lists, table;
    }

    // ---------------------------------------------------------------- single commands

    /** `-I`: at the head, or nothing. */
    method Insert(key: Key, rule: Rule) returns (ok: bool)
      modifies `lists, `clock
      ensures ok == !fails(old(clock)) && clock == old(clock) + 1
      ensures lists == if ok then old(lists)[key := [rule] + ListAt(old(lists), key)] else old(lists)
    {
      ok := !fails(clock);
      clock := clock + 1;
      if ok {
        lists := lists[key := [rule] + ListAt(lists, key)];
      }
    }

    /** `-D`: fails exactly when no rule matches. */
    method Delete(key: Key, rule: Rule) returns (ok: bool)
      modifies `lists
      ensures ok <==> rule in ListAt(old(lists), key)
      ensures lists == if ok then old(lists)[key := RemoveFirst(ListAt(old(lists), key), rule)] else old(lists)
    {
      ok := rule in ListAt(lists, key);
      if ok {
        lists := lists[key := RemoveFirst(ListAt(lists, key), rule)];
      }
    }

    // ---------------------------------------------------------------- iptables

    /** `deleteIPTablesRule` */
    method DeleteRule(key: Key, rule: Rule)
      modifies `lists
      ensures ListAt(lists, key) == RemoveUpTo(ListAt(old(lists), key), rule, TRIES)
      ensures forall k | k != key :: ListAt(lists, k) == ListAt(old(lists), k)
    {
      for i := 0 to TRIES
        invariant RemoveUpTo(ListAt(lists, key), rule, TRIES - i) == RemoveUpTo(ListAt(old(lists), key), rule, TRIES)
        invariant forall k | k != key :: ListAt(lists, k) == ListAt(old(lists), k)
      {
        var ok := Delete(key, rule);
        if !ok {
          return;
        }
      }
    }

    method CleanChain(key: Key, rules: Rules)
      modifies `lists
      ensures ListAt(lists, key) == Cleaned(ListAt(old(lists), key), rules)
      ensures forall k | k != key :: ListAt(lists, k) == ListAt(old(lists), k)
    {
      for i := 0 to |rules|
        invariant ListAt(lists, key) == Cleaned(ListAt(old(lists), key), rules[..i])
        invariant forall k | k != key :: ListAt(lists, k) == ListAt(old(lists), k)
      {
        DeleteRule(key, rules[i]);
        assert rules[..i + 1][..i] == rules[..i];
      }
      assert rules[..|rules|] == rules;
    }

    method CleanBin(bin: Bin, chains: seq<Text>, rules: Rules)
      requires NoRepeats(chains) && AllLower(chains)
      modifies `lists
      ensures forall k :: ListAt(lists, k) ==
                if InChains(k, bin, chains) then Cleaned(ListAt(old(lists), k), rules) else ListAt(old(lists), k)
    {
      for i := 0 to |chains|
        invariant forall k :: ListAt(lists, k) ==
                    if InChains(k, bin, chains[..i]) then Cleaned(ListAt(old(lists), k), rules) else ListAt(old(lists), k)
      {
        var key := Key(bin, Upper(chains[i]));
        FreshChain(bin, chains, i);
        CleanChain(key, rules);
        forall k ensures InChains(k, bin, chains[..i + 1]) <==> InChains(k, bin, chains[..i]) || k == key {
          InChainsSnoc(k, bin, chains[..i + 1]);
          assert chains[..i + 1][..i] == chains[..i];
        }
      }
      assert chains[..|chains|] == chains;
    }

    /** `iptablesFirewall.Cleanup` */
    method CleanupIpt(b: Backend, cfg: QueueConfig)
      requires b.Ipt? && ProperBackend(b)
      modifies `lists
      ensures forall k :: ListAt(lists, k) == CleanedAt(available, b, cfg, old(lists), k)
    {
      NormalChainsMeaning(cfg.chains);
      var chains := NormalizedChains(cfg.chains);
      if b.v4 in available {
        CleanBin(b.v4, chains, Wanted(cfg));
      }
      if b.v6 in available {
        CleanBin(b.v6, chains, Wanted(cfg));
      }
    }

    method InsertChain(key: Key, rules: Rules) returns (ok: bool, ghost sent: seq<Cmd>)
      modifies `lists, `clock
      ensures After(lists, old(lists), sent)
      ensures Ran(fails, old(clock), |sent|, ok) && clock == old(clock) + |sent| + (if ok then 0 else 1)
      ensures sent <= ChainCmds(key, rules) && (ok <==> sent == ChainCmds(key, rules))
    {
      sent := [];
      for i := 0 to |rules|
        invariant sent == ChainCmds(key, rules)[..i]
        invariant After(lists, old(lists), sent)
        invariant clock == old(clock) + |sent| && Ran(fails, old(clock), |sent|, true)
      {
        AfterInsert(lists, old(lists), sent, key, rules[i]);
        ok := Insert(key, rules[i]);
        if !ok {
          return;
        }
        sent := sent + [Cmd(key, rules[i])];
      }
      ok := true;
    }

    method InstallBin(bin: Bin, chains: seq<Text>, rules: Rules) returns (ok: bool, ghost sent: seq<Cmd>)
      modifies `lists, `clock
      ensures forall k :: ListAt(lists, k) == Applied(ListAt(old(lists), k), k, sent)
      ensures Ran(fails, old(clock), |sent|, ok) && clock == old(clock) + |sent| + (if ok then 0 else 1)
      ensures sent <= BinCmds(bin, chains, rules) && (ok <==> sent == BinCmds(bin, chains, rules))
    {
      sent := [];
      for i := 0 to |chains|
        invariant clock == old(clock) + |sent| && Ran(fails, old(clock), |sent|, true)
        invariant sent == BinCmds(bin, chains[..i], rules) <= BinCmds(bin, chains, rules)
        invariant forall k :: ListAt(lists, k) == Applied(ListAt(old(lists), k), k, sent)
      {
        assert chains[..i + 1][..i] == chains[..i];
        BinCmdsGrow(bin, chains, rules, i + 1);
        ghost var more;
        ok, more := InsertChain(Key(bin, Upper(chains[i])), rules);
        forall k ensures Applied(ListAt(old(lists), k), k, sent + more) == Applied(Applied(ListAt(old(lists), k), k, sent), k, more) {
          AppliedConcat(ListAt(old(lists), k), k, sent, more);
        }
        ghost var before := sent;
        sent := sent + more;
        if !ok {
          assert |more| < |ChainCmds(Key(bin, Upper(chains[i])), rules)|;
          assert sent <= BinCmds(bin, chains[..i + 1], rules);
          return;
        }
      }
      ok := true;
      assert chains[..|chains|] == chains;
    }

    /** `iptablesFirewall.Install`; `sent` are the insertions that went through. */
    method InstallIpt(b: Backend, cfg: QueueConfig) returns (ok: bool, ghost sent: seq<Cmd>)
      requires b.Ipt? && ProperBackend(b)
      modifies `lists, `clock
      ensures forall k :: ListAt(lists, k) == Applied(CleanedAt(available, b, cfg, old(lists), k), k, sent)
      ensures sent <= Commands(available, b, cfg)
      ensures ok <==> b.v4 in available && sent == Commands(available, b, cfg)
      ensures b.v4 !in available ==> sent == []
      ensures b.v4 in available ==> Ran(fails, old(clock), |sent|, ok) && clock == old(clock) + |sent| + (if ok then 0 else 1)
      ensures b.v4 !in available ==> clock == old(clock)
    {
      CleanupIpt(b, cfg);
      ghost var cleaned := lists;
      sent := [];
      var chains := NormalizedChains(cfg.chains);
      if b.v4 !in available {
        return false, [];
      }
      ok, sent := InstallBin(b.v4, chains, Wanted(cfg));
      if !ok || b.v6 !in available {
        assert BinCmds(b.v4, chains, Wanted(cfg)) <= Commands(available, b, cfg);
        return;
      }
      ghost var first, more := sent, [];
      ok, more := InstallBin(b.v6, chains, Wanted(cfg));
      sent := first + more;
      forall k ensures Applied(ListAt(cleaned, k), k, first + more) == Applied(Applied(ListAt(cleaned, k), k, first), k, more) {
        AppliedConcat(ListAt(cleaned, k), k, first, more);
      }
    }

    // ---------------------------------------------------------------- nftables

    /** `nftFirewall.Cleanup`: deleting the table fails only when there is none. */
    method CleanupNft()
      modifies `table
      ensures table == None
    {
      table := None;
    }

    /** `nftFirewall.Install`: the script is loaded as a whole or not at all. */
    method InstallNft(cfg: QueueConfig) returns (ok: bool)
      modifies `table, `clock
      ensures ok == !fails(old(clock)) && clock == old(clock) + 1
      ensures table == if ok then Some(Script(cfg)) else None
    {
      CleanupNft();
      ok := !fails(clock);
      clock := clock + 1;
      if ok {
        table := Some(Script(cfg));
      }
    }

    // ---------------------------------------------------------------- any manager

    method Install(b: Backend, cfg: QueueConfig) returns (ok: bool, ghost sent: seq<Cmd>)
      requires ProperBackend(b)
      modifies this
      ensures b.Nft? ==> lists == old(lists) && table == if ok then Some(Script(cfg)) else None
      ensures b.Ipt? ==> table == old(table) && Inserted(available, b, cfg, old(lists), lists, sent)
      ensures b.Ipt? ==> (ok <==> b.v4 in available && sent == Commands(available, b, cfg))
      ensures b.Nft? ==> ok == !fails(old(clock)) && clock == old(clock) + 1
      ensures b.Ipt? && b.v4 in available ==> Ran(fails, old(clock), |sent|, ok) && clock == old(clock) + |sent| + (if ok then 0 else 1)
      ensures b.Ipt? && b.v4 !in available ==> clock == old(clock)
    {
      if b.Nft? {
        ok := InstallNft(cfg);
        sent := [];
      } else {
        ok, sent := InstallIpt(b, cfg);
      }
    }

    method Cleanup(b: Backend, cfg: QueueConfig)
      requires ProperBackend(b)
      modifies `lists, `table
      ensures table == if b.Nft? then None else old(table)
      ensures b.Nft? ==> lists == old(lists)
      ensures forall k :: ListAt(lists, k) == CleanedAt(available, b, cfg, old(lists), k)
    {
      if b.Nft? {
        CleanupNft();
      } else {
        CleanupIpt(b, cfg);
      }
    }
  }

  lemma FreshChain(bin: Bin, chains: seq<Text>, i: nat)
    requires NoRepeats(chains) && AllLower(chains) && i < |chains|
    ensures !InChains(Key(bin, Upper(chains[i])), bin, chains[..i])
  {
    if InChains(Key(bin, Upper(chains[i])), bin, chains[..i]) {
      var j :| 0 <= j < i && Upper(chains[i]) == Upper(chains[..i][j]);
      UpperInjective(chains[i], chains[j]);
      assert false;
    }
  }

  lemma {:induction false} BinCmdsGrow(bin: Bin, chains: seq<Text>, rules: Rules, i: nat)
    requires i <= |chains|
    ensures BinCmds(bin, chains[..i], rules) <= BinCmds(bin, chains, rules)
    decreases |chains|
  {
    if i < |chains| {
      var n := |chains| - 1;
      BinCmdsGrow(bin, chains[..n], rules, i);
      assert chains[..n][..i] == chains[..i];
    } else {
      assert chains[..i] == chains;
    }
  }
}
