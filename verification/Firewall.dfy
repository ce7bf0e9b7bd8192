/** The firewall managers: nftables, iptables and automatic fallback, over the kernel's rules. */
module Firewall {
  import opened Bytes
  import opened DomainText
  import opened RuleLists

  datatype Capture = L7 | Everything

  datatype QueueConfig = QueueConfig(num: u16, chains: seq<Text>, capture: Capture, failOpen: bool)

  /** The command-line programs, each with rule lists of its own. */
  datatype Bin = Iptables | Ip6tables | IptablesLegacy | Ip6tablesLegacy

  /** A chain of one program's rule set. */
  datatype Key = Key(bin: Bin, chain: Text)

  type Lists = map<Key, Rules>

  function ListAt(lists: Lists, key: Key): Rules { if key in lists then lists[key] else [] }

  /** A firewall manager. */
  datatype Backend = Nft | Ipt(v4: Bin, v6: Bin)

  // ---------------------------------------------------------------- chains

  /** `normalizeChoice` with an empty fallback. */
  function NormalChoice(raw: Text): Text { Lower(TrimSpace(raw)) }

  /** A chain name may be written in any case and between blanks. */
  lemma ChoiceMeaning(raw: Text, a: Text, name: Text, b: Text)
    requires raw == a + (name + b) && AllBlank(a) && AllBlank(b) && !OuterSpace(name)
    ensures NormalChoice(raw) == Lower(name)
  {
    TrimSpaceOf(a, name, b);
  }

  /** Normal chain names in order of first appearance. */
  function NormalChains(raw: seq<Text>): seq<Text> {
    if raw == [] then []
    else
      var n := |raw| - 1;
      var before, c := NormalChains(raw[..n]), NormalChoice(raw[n]);
      if c == [] || c in before then before else before + [c]
  }

  /** `normalizedChains` */
  method NormalizedChains(raw: seq<Text>) returns (out: seq<Text>)
    ensures out == NormalChains(raw)
  {
    out := [];
    var seen: set<Text> := {};
    for i := 0 to |raw|
      invariant out == NormalChains(raw[..i])
      invariant forall c :: c in seen <==> c in out
    {
      assert raw[..i + 1][..i] == raw[..i];
      var chain := NormalChoice(raw[i]);
      if chain == [] || chain in seen {
        continue;
      }
      seen := seen + {chain};
      out := out + [chain];
    }
    assert raw[..|raw|] == raw;
  }

  predicate NoRepeats(chains: seq<Text>) { forall i, j | 0 <= i < j < |chains| :: chains[i] != chains[j] }

  predicate AllLower(chains: seq<Text>) { forall i | 0 <= i < |chains| :: IsLower(chains[i]) }

  lemma {:induction false} NormalChainsShape(raw: seq<Text>)
    ensures NoRepeats(NormalChains(raw)) && AllLower(NormalChains(raw))
  {
    if raw != [] {
      NormalChainsShape(raw[..|raw| - 1]);
      LowerIsLower(TrimSpace(raw[|raw| - 1]));
    }
  }

  /** Every configured chain appears once, in normal form. */
  lemma {:induction false} NormalChainsMeaning(raw: seq<Text>)
    ensures NoRepeats(NormalChains(raw)) && AllLower(NormalChains(raw))
    ensures forall c :: c in NormalChains(raw) <==> c != [] && exists i :: 0 <= i < |raw| && NormalChoice(raw[i]) == c
  {
    NormalChainsShape(raw);
    if raw != [] {
      var n := |raw| - 1;
      NormalChainsMeaning(raw[..n]);
      assert forall i | 0 <= i < n :: raw[..n][i] == raw[i];
      forall c | c != [] && exists i :: 0 <= i < |raw| && NormalChoice(raw[i]) == c
        ensures c in NormalChains(raw)
      {
        var i :| 0 <= i < |raw| && NormalChoice(raw[i]) == c;
        if i < n {
          assert NormalChoice(raw[..n][i]) == c;
        }
      }
    }
  }

  function UpperByte(b: byte): byte { if 97 <= b <= 122 then b - 32 else b }

  /** The chain name as the programs spell it. */
  function Upper(s: Text): (r: Text)
    ensures |r| == |s| && forall i | 0 <= i < |s| :: r[i] == UpperByte(s[i])
  {
    seq(|s|, i requires 0 <= i < |s| => UpperByte(s[i]))
  }

  /** The small letters become the capital ones, and no other character changes. */
  lemma UpperLetters(c: char)
    requires c < 128 as char
    ensures 'a' <= c <= 'z' ==> UpperByte(c as int) - ('A' as int) == c as int - ('a' as int)
    ensures !('a' <= c <= 'z') ==> UpperByte(c as int) == c as int
  {
  }

  lemma UpperInjective(a: Text, b: Text)
    requires IsLower(a) && IsLower(b) && Upper(a) == Upper(b)
    ensures a == b
  {
    forall i | 0 <= i < |a| ensures a[i] == b[i] {
      assert Upper(a)[i] == UpperByte(a[i]) && Upper(b)[i] == UpperByte(b[i]);
      assert LowerByte(a[i]) == a[i] && LowerByte(b[i]) == b[i];
    }
  }

  // ---------------------------------------------------------------- what is installed

  /** The rules of one chain, in the order they are inserted. */
  function Wanted(cfg: QueueConfig): Rules {
    if cfg.capture == Everything then [Queue(AnyPacket, cfg.num, cfg.failOpen)]
    else [Queue(TcpTo(80), cfg.num, cfg.failOpen), Queue(TcpTo(443), cfg.num, cfg.failOpen), Queue(UdpTo(53), cfg.num, cfg.failOpen)]
  }

  /** One `-I` command. */
  datatype Cmd = Cmd(key: Key, rule: Rule)

  function ChainCmds(key: Key, rules: Rules): seq<Cmd> {
    seq(|rules|, i requires 0 <= i < |rules| => Cmd(key, rules[i]))
  }

  function BinCmds(bin: Bin, chains: seq<Text>, rules: Rules): seq<Cmd> {
    if chains == [] then []
    else
      var n := |chains| - 1;
      BinCmds(bin, chains[..n], rules) + ChainCmds(Key(bin, Upper(chains[n])), rules)
  }

  /** The list at `key` after the commands ran: each insertion goes to the head. */
  function Applied(list: Rules, key: Key, cmds: seq<Cmd>): Rules {
    if cmds == [] then list
    else
      var n := |cmds| - 1;
      (if cmds[n].key == key then [cmds[n].rule] else []) + Applied(list, key, cmds[..n])
  }

  lemma {:induction false} AppliedConcat(list: Rules, key: Key, a: seq<Cmd>, b: seq<Cmd>)
    ensures Applied(list, key, a + b) == Applied(Applied(list, key, a), key, b)
  {
    if b == [] {
      assert a + b == a;
    } else {
      var n := |b| - 1;
      assert (a + b)[..|a| + n] == a + b[..n];
      AppliedConcat(list, key, a, b[..n]);
    }
  }

  lemma {:induction false} AppliedChain(list: Rules, key: Key, at: Key, rules: Rules)
    ensures Applied(list, key, ChainCmds(at, rules)) == if key == at then Reversed(rules) + list else list
  {
    if rules == [] {
      assert [] + list == list;
    } else {
      var n := |rules| - 1;
      AppliedChain(list, key, at, rules[..n]);
      assert ChainCmds(at, rules)[..n] == ChainCmds(at, rules[..n]);
      assert [rules[n]] + (Reversed(rules[..n]) + list) == Reversed(rules) + list;
    }
  }

  /** The key is one of the program's managed chains. */
  predicate InChains(key: Key, bin: Bin, chains: seq<Text>) {
    key.bin == bin && exists i | 0 <= i < |chains| :: key.chain == Upper(chains[i])
  }

  lemma {:induction false} AppliedBin(list: Rules, key: Key, bin: Bin, chains: seq<Text>, rules: Rules)
    requires NoRepeats(chains) && AllLower(chains)
    ensures Applied(list, key, BinCmds(bin, chains, rules)) == if InChains(key, bin, chains) then Reversed(rules) + list else list
  {
    if chains != [] {
      var n := |chains| - 1;
      var last := Key(bin, Upper(chains[n]));
      AppliedBin(list, key, bin, chains[..n], rules);
      AppliedConcat(list, key, BinCmds(bin, chains[..n], rules), ChainCmds(last, rules));
      AppliedChain(Applied(list, key, BinCmds(bin, chains[..n], rules)), key, last, rules);
      InChainsSnoc(key, bin, chains);
      if key == last && InChains(key, bin, chains[..n]) {
        var i :| 0 <= i < n && key.chain == Upper(chains[..n][i]);
        UpperInjective(chains[i], chains[n]);
        assert false;
      }
    }
  }

  lemma InChainsSnoc(key: Key, bin: Bin, chains: seq<Text>)
    requires chains != []
    ensures InChains(key, bin, chains) <==>
            InChains(key, bin, chains[..|chains| - 1]) || key == Key(bin, Upper(chains[|chains| - 1]))
  {
    var n := |chains| - 1;
    if InChains(key, bin, chains[..n]) {
      var i :| 0 <= i < n && key.chain == Upper(chains[..n][i]);
      assert key.chain == Upper(chains[i]);
    }
    if InChains(key, bin, chains) {
      var i :| 0 <= i < |chains| && key.chain == Upper(chains[i]);
      if i < n {
        assert key.chain == Upper(chains[..n][i]);
      }
    }
  }
}
