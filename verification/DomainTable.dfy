/** The BPF domain table: its keys, the scratch key they are built in, and the loader's rules. */
module DomainTable {
  import opened Bytes
  import opened DomainText

  const KEY_LEN := 64
  const MAX_PACKET_READ := 1024

  /** The flag bits a rule can carry: 1, 2 and 4.  A flag word is the set of its bits. */
  datatype Action = Http | Tls | Dns

  type Table = map<seq<byte>, set<Action>>

  /** The key of a name: its bytes, then zeros. */
  function Padded(name: Text): (key: seq<byte>)
    requires |name| < KEY_LEN
    ensures |key| == KEY_LEN
  {
    name + Zeros(KEY_LEN - |name|)
  }

  /** Keys are equal exactly when one name is the other with zero bytes appended. */
  lemma PaddedEqual(a: Text, b: Text)
    requires |a| <= |b| < KEY_LEN
    ensures Padded(a) == Padded(b) <==> b == a + Zeros(|b| - |a|)
  {
    if Padded(a) == Padded(b) {
      assert forall i | 0 <= i < |b| :: b[i] == Padded(b)[i] == Padded(a)[i];
    }
  }

  /** The table answers `action` for the name. */
  predicate Hit(table: Table, name: Text, action: Action) {
    0 < |name| < 64 && Padded(name) in table && action in table[Padded(name)]
  }

  /** What matching `len` packet bytes at `off` decides. */
  predicate PacketHit(table: Table, p: seq<byte>, off: int, len: int, action: Action) {
    && 0 <= off && 0 < len < 64 && off + len <= 1024 && off + len <= |p|
    && Hit(table, Lower(p[off..off + len]), action)
  }

  /** `load_u8`: bounded by the scan limit and the end of the packet. */
  function LoadU8(p: seq<byte>, off: nat): Option<byte> {
    if off >= MAX_PACKET_READ || off + 1 > |p| then None else Some(p[off])
  }

  /** `load_be16` */
  function LoadBe16(p: seq<byte>, off: nat): Option<u16> {
    match LoadU8(p, off)
    case None => None
    case Some(hi) => match LoadU8(p, off + 1) case None => None case Some(lo) => Some(Be16(hi, lo))
  }

  // ---------------------------------------------------------------- lookups through the scratch key

  /** `domain_matches` */
  method DomainMatches(table: Table, key: array<byte>, len: nat, action: Action) returns (hit: bool)
    ensures hit <==> 0 < len < KEY_LEN && key[..] in table && action in table[key[..]]
  {
    if len == 0 || len >= KEY_LEN {
      return false;
    }
    if key[..] !in table {
      return false;
    }
    return action in table[key[..]];
  }

  /** `domain_from_packet_matches`: the answer never depends on what the scratch key held. */
  method DomainFromPacketMatches(table: Table, p: seq<byte>, off: u32, len: u32, action: Action, scratch: array<byte>)
      returns (hit: bool)
    requires scratch.Length == KEY_LEN
    modifies scratch
    ensures hit <==> PacketHit(table, p, off, len, action)
  {
    if len == 0 || len >= KEY_LEN {
      return false;
    }
    if off >= MAX_PACKET_READ || len > MAX_PACKET_READ - off {
      return false;
    }
    for i := 0 to KEY_LEN
      invariant i == 0 || off + (if i < len then i else len) <= |p|
      invariant forall j | 0 <= j < i :: scratch[j] == if j < len then LowerByte(p[off + j]) else 0
    {
      scratch[i] := 0;
      if i >= len {
        continue;
      }
      match LoadU8(p, off + i) {
        case None => return false;
        case Some(c) => scratch[i] := LowerByte(c);
      }
    }
    assert scratch[..] == Padded(Lower(p[off..off + len]));
    hit := DomainMatches(table, scratch, len, action);
  }

  // ---------------------------------------------------------------- the loader

  datatype RuleResult = Added(normalized: Text) | Rejected

  /** `makeDomainKey` accepts a normal name that is not empty and leaves room for one zero byte. */
  predicate Acceptable(name: Text) { 0 < |name| < 64 }

  /** The table after one accepted rule: flags accumulate under the name's key. */
  function WithRule(table: Table, name: Text, flags: set<Action>): Table
    requires Acceptable(name)
  {
    var key := Padded(name);
    table[key := if key in table then flags + table[key] else flags]
  }

  class Loader {
    var table: Table

    constructor ()
      ensures table == map[]
    {
      table := map[];
    }

    /** `AddDomainRule`; `putFails` is the kernel's answer to the map update. */
    method AddDomainRule(domain: Text, flags: set<Action>, putFails: bool) returns (r: RuleResult)
      modifies this
      ensures r.Added? <==> Acceptable(Normalize(domain)) && !putFails
      ensures r.Added? ==> r.normalized == Normalize(domain) && table == WithRule(old(table), r.normalized, flags)
      ensures r.Rejected? ==> table == old(table)
    {
      var normalized := Normalize(domain);
      if normalized == [] || |normalized| >= KEY_LEN {
        return Rejected;
      }
      var key := Padded(normalized);
      var all := flags;
      if key in table {
        all := flags + table[key];
      }
      if putFails {
        return Rejected;
      }
      table := table[key := all];
      return Added(normalized);
    }
  }

  /** A successful call: the normal name it returned and the flags it was given. */
  datatype Rule = Rule(name: Text, flags: set<Action>)

  predicate AllAcceptable(rules: seq<Rule>) { forall i | 0 <= i < |rules| :: Acceptable(rules[i].name) }

  /** The table after a sequence of successful calls. */
  function Loaded(rules: seq<Rule>): Table
    requires AllAcceptable(rules)
  {
    if rules == [] then map[]
    else
      var last := rules[|rules| - 1];
      WithRule(Loaded(rules[..|rules| - 1]), last.name, last.flags)
  }

  predicate Carries(r: Rule, key: seq<byte>, action: Action) {
    Acceptable(r.name) && Padded(r.name) == key && action in r.flags
  }

  predicate Answers(table: Table, key: seq<byte>, action: Action) { key in table && action in table[key] }

  /** A key answers an action exactly when some call put that action there; order never matters. */
  lemma {:induction false} LoadedMeaning(rules: seq<Rule>, key: seq<byte>, action: Action)
    requires AllAcceptable(rules)
    ensures Answers(Loaded(rules), key, action) <==> exists i :: 0 <= i < |rules| && Carries(rules[i], key, action)
  {
    if rules != [] {
      var n := |rules| - 1;
      LoadedMeaning(rules[..n], key, action);
      OneMore(Loaded(rules[..n]), rules[n], key, action);
      assert forall i | 0 <= i < n :: rules[..n][i] == rules[i];
      if Carries(rules[n], key, action) {
      } else if i :| 0 <= i < |rules| && Carries(rules[i], key, action) {
        assert Carries(rules[..n][i], key, action);
      }
    }
  }

  lemma OneMore(table: Table, r: Rule, key: seq<byte>, action: Action)
    requires Acceptable(r.name)
    ensures Answers(WithRule(table, r.name, r.flags), key, action) <==>
            Answers(table, key, action) || Carries(r, key, action)
  {
  }
}
