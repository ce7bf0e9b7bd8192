/** The rule compiler: configuration lists into sets and prefixes, and what looking them up means. */
module RuleSets {
  import opened Bytes
  import opened Addresses
  import opened DomainText

  datatype PortConfig = PortConfig(ip: Text, port: u16, proto: Text)

  datatype RuleConfig = RuleConfig(domains: seq<Text>, poison: seq<Text>, ips: seq<Text>, ipPorts: seq<PortConfig>)

  /** The address parsers of the standard library, which are not part of this model. */
  datatype Netip = Netip(addr: Text -> Option<Addr>, prefix: Text -> Option<Prefix>)

  datatype RuleSet = RuleSet(domains: set<Text>, poison: set<Text>, prefixes: seq<Prefix>, ports: set<Endpoint>)

  const WWW: Text := [119, 119, 119, DOT]

  // ---------------------------------------------------------------- single entries

  /** An IPv4-mapped IPv6 address stands for its IPv4 address. */
  function Unmap(a: Addr): Addr {
    if |a| == 16 && a[..10] == Zeros(10) && a[10] == 255 && a[11] == 255 then a[12..] else a
  }

  predicate IsAddr(a: Addr) { |a| == 4 || |a| == 16 }

  /** `parseIPPrefix`; clearing host bits is left out because containment never looks at them. */
  function ParsePrefix(net: Netip, raw: Text): Option<Prefix> {
    var s := TrimSpace(raw);
    if s == [] then None
    else if SLASH in s then
      var p :- net.prefix(s);
      if !IsAddr(Unmap(p.addr)) || Unmap(p.addr) != p.addr then None else Some(p)
    else
      var a :- net.addr(s);
      if IsAddr(Unmap(a)) then Some(Prefix(Unmap(a), 8 * |Unmap(a)|)) else None
  }

  /** `parseProto`: tcp unless udp is asked for. */
  function ParseProto(raw: Text): Option<byte> {
    var s := Lower(TrimSpace(raw));
    if s == [] || s == Ascii("tcp") then Some(TCP) else if s == Ascii("udp") then Some(UDP) else None
  }

  /** `parseIPPortRule` */
  function ParseEndpoint(net: Netip, rule: PortConfig): Option<Endpoint> {
    var a :- net.addr(TrimSpace(rule.ip));
    if !IsAddr(Unmap(a)) || rule.port == 0 then None
    else
      var proto :- ParseProto(rule.proto);
      Some(Endpoint(Unmap(a), rule.port, proto))
  }

  /** `domainVariants`: the normal name and, unless it has one already, its www form. */
  function Variants(domain: Text): seq<Text> {
    var n := Normalize(domain);
    if n == [] then [] else if HasPrefix(n, WWW) then [n] else [n, WWW + n]
  }

  // ---------------------------------------------------------------- what a list means

  /** A configured name covers `n`: it normalizes to it, or `n` is its www form. */
  predicate CoversName(d: Text, n: Text) {
    Normalize(d) != [] && (n == Normalize(d) || (!HasPrefix(Normalize(d), Ascii("www.")) && n == Ascii("www.") + Normalize(d)))
  }

  predicate ListedName(list: seq<Text>, n: Text) { exists i | 0 <= i < |list| :: CoversName(list[i], n) }

  predicate Blank(s: Text) { TrimSpace(s) == [] }

  predicate ListedPrefix(net: Netip, list: seq<Text>, p: Prefix) {
    exists i | 0 <= i < |list| :: !Blank(list[i]) && ParsePrefix(net, list[i]) == Some(p)
  }

  predicate ListedEndpoint(net: Netip, list: seq<PortConfig>, e: Endpoint) {
    exists i | 0 <= i < |list| :: ParseEndpoint(net, list[i]) == Some(e)
  }

  /** Every address entry that is not blank parses. */
  predicate WellFormed(net: Netip, cfg: RuleConfig) {
    && (forall i | 0 <= i < |cfg.ips| :: Blank(cfg.ips[i]) || ParsePrefix(net, cfg.ips[i]).Some?)
    && (forall i | 0 <= i < |cfg.ipPorts| :: ParseEndpoint(net, cfg.ipPorts[i]).Some?)
  }

  /** The rule set holds exactly what the configuration lists. */
  ghost predicate Means(net: Netip, cfg: RuleConfig, r: RuleSet) {
    && (forall n :: n in r.domains <==> ListedName(cfg.domains, n))
    && (forall n :: n in r.poison <==> ListedName(cfg.poison, n))
    && (forall p :: p in r.prefixes <==> ListedPrefix(net, cfg.ips, p))
    && (forall e :: e in r.ports <==> ListedEndpoint(net, cfg.ipPorts, e))
  }

  // ---------------------------------------------------------------- the compiler

  /** Trimmed, non-blank entries in order of first appearance. */
  function Deduped(items: seq<Text>): seq<Text> {
    if items == [] then []
    else
      var n := |items| - 1;
      var before, s := Deduped(items[..n]), TrimSpace(items[n]);
      if s == [] || s in before then before else before + [s]
  }

  /** `dedupeStrings` */
  method DedupeStrings(items: seq<Text>) returns (out: seq<Text>)
    ensures out == Deduped(items)
  {
    out := [];
    var seen: set<Text> := {};
    for i := 0 to |items|
      invariant out == Deduped(items[..i])
      invariant forall s :: s in seen <==> s in out
    {
      assert items[..i + 1][..i] == items[..i];
      var item := TrimSpace(items[i]);
      if item == [] || item in seen {
        continue;
      }
      seen := seen + {item};
      out := out + [item];
    }
    assert items[..|items|] == items;
  }

  /** No entry twice, and exactly the trimmed entries that are not blank. */
  lemma {:induction false} DedupedMeaning(items: seq<Text>)
    ensures forall i, j | 0 <= i < j < |Deduped(items)| :: Deduped(items)[i] != Deduped(items)[j]
    ensures forall s :: s in Deduped(items) <==> s != [] && exists i :: 0 <= i < |items| && TrimSpace(items[i]) == s
  {
    if items != [] {
      var n := |items| - 1;
      DedupedMeaning(items[..n]);
      assert forall i | 0 <= i < n :: items[..n][i] == items[i];
      forall s | s != [] && exists i :: 0 <= i < |items| && TrimSpace(items[i]) == s
        ensures s in Deduped(items)
      {
        var i :| 0 <= i < |items| && TrimSpace(items[i]) == s;
        if i < n {
          assert TrimSpace(items[..n][i]) == s;
        }
      }
    }
  }

  /** Deduplication does not change which names are listed. */
  lemma DedupedListsSame(list: seq<Text>, n: Text)
    ensures ListedName(Deduped(list), n) <==> ListedName(list, n)
  {
    DedupedMeaning(list);
    var d := Deduped(list);
    if i :| 0 <= i < |d| && CoversName(d[i], n) {
      assert d[i] in d;
      var j :| 0 <= j < |list| && TrimSpace(list[j]) == d[i];
      NormalizeIgnoresBlanks(list[j]);
      assert CoversName(list[j], n);
    }
    if j :| 0 <= j < |list| && CoversName(list[j], n) {
      NormalizeIgnoresBlanks(list[j]);
      NormalizeBlank();
      var s := TrimSpace(list[j]);
      assert s in d;
      var i :| 0 <= i < |d| && d[i] == s;
      assert CoversName(d[i], n);
    }
  }

  lemma NormalizeBlank()
    ensures Normalize([]) == []
  {
    NormalizedShape([]);
  }

  /** The two domain loops of `compileRuleSet`. */
  method CompileNames(list: seq<Text>) returns (names: set<Text>)
    ensures forall n :: n in names <==> ListedName(list, n)
  {
    var entries := DedupeStrings(list);
    names := {};
    for i := 0 to |entries|
      invariant forall n :: n in names <==> ListedName(entries[..i], n)
    {
      var variants := Variants(entries[i]);
      names := names + set v | v in variants;
      ListedOneMore(entries, i);
    }
    assert entries[..|entries|] == entries;
    forall n ensures n in names <==> ListedName(list, n) {
      DedupedListsSame(list, n);
    }
  }

  lemma ListedSnoc(list: seq<Text>, d: Text, n: Text)
    ensures ListedName(list + [d], n) <==> ListedName(list, n) || n in Variants(d)
  {
    var all := list + [d];
    assert all[|list|] == d && WWW == Ascii("www.");
    if i :| 0 <= i < |list| && CoversName(list[i], n) {
      assert CoversName(all[i], n);
    }
  }

  lemma ListedOneMore(entries: seq<Text>, i: nat)
    requires i < |entries|
    ensures forall n :: ListedName(entries[..i + 1], n) <==> ListedName(entries[..i], n) || n in Variants(entries[i])
  {
    assert entries[..i + 1] == entries[..i] + [entries[i]];
    forall n ensures ListedName(entries[..i + 1], n) <==> ListedName(entries[..i], n) || n in Variants(entries[i]) {
      ListedSnoc(entries[..i], entries[i], n);
    }
  }

  /** Parsing trims first, so a trimmed entry parses like the raw one. */
  lemma ParseTrimmed(net: Netip, raw: Text)
    ensures ParsePrefix(net, TrimSpace(raw)) == ParsePrefix(net, raw)
  {
    TrimSpaceMeaning(raw);
    TrimSpaceMeaning(TrimSpace(raw));
  }

  predicate ParsedFrom(net: Netip, entries: seq<Text>, p: Prefix) {
    exists j | 0 <= j < |entries| :: ParsePrefix(net, entries[j]) == Some(p)
  }

  predicate AllParse(net: Netip, entries: seq<Text>) {
    forall j | 0 <= j < |entries| :: ParsePrefix(net, entries[j]).Some?
  }

  lemma DedupedHas(list: seq<Text>, i: nat) returns (j: nat)
    requires i < |list| && !Blank(list[i])
    ensures j < |Deduped(list)| && Deduped(list)[j] == TrimSpace(list[i])
  {
    DedupedMeaning(list);
    assert TrimSpace(list[i]) in Deduped(list);
    j :| 0 <= j < |Deduped(list)| && Deduped(list)[j] == TrimSpace(list[i]);
  }

  lemma DedupedFrom(list: seq<Text>, j: nat) returns (i: nat)
    requires j < |Deduped(list)|
    ensures i < |list| && !Blank(list[i]) && TrimSpace(list[i]) == Deduped(list)[j]
  {
    DedupedMeaning(list);
    assert Deduped(list)[j] in Deduped(list);
    i :| 0 <= i < |list| && TrimSpace(list[i]) == Deduped(list)[j];
  }

  /** Deduplication does not change whether all entries parse. */
  lemma DedupedAllParse(net: Netip, list: seq<Text>)
    ensures AllParse(net, Deduped(list)) <==> forall i | 0 <= i < |list| :: Blank(list[i]) || ParsePrefix(net, list[i]).Some?
  {
    var d := Deduped(list);
    if AllParse(net, d) {
      forall i | 0 <= i < |list| && !Blank(list[i]) ensures ParsePrefix(net, list[i]).Some? {
        var j := DedupedHas(list, i);
        ParseTrimmed(net, list[i]);
      }
    } else {
      var j :| 0 <= j < |d| && ParsePrefix(net, d[j]).None?;
      var i := DedupedFrom(list, j);
      ParseTrimmed(net, list[i]);
    }
  }

  /** Nor what they parse to. */
  lemma DedupedParsesSame(net: Netip, list: seq<Text>, p: Prefix)
    ensures ParsedFrom(net, Deduped(list), p) <==> ListedPrefix(net, list, p)
  {
    var d := Deduped(list);
    if ParsedFrom(net, d, p) {
      var j :| 0 <= j < |d| && ParsePrefix(net, d[j]) == Some(p);
      var i := DedupedFrom(list, j);
      ParseTrimmed(net, list[i]);
    }
    if ListedPrefix(net, list, p) {
      var i :| 0 <= i < |list| && !Blank(list[i]) && ParsePrefix(net, list[i]) == Some(p);
      var j := DedupedHas(list, i);
      ParseTrimmed(net, list[i]);
    }
  }

  /** The address loop of `compileRuleSet`. */
  method CompilePrefixes(net: Netip, list: seq<Text>) returns (r: Option<seq<Prefix>>)
    ensures r.Some? <==> forall i | 0 <= i < |list| :: Blank(list[i]) || ParsePrefix(net, list[i]).Some?
    ensures r.Some? ==> forall p :: p in r.value <==> ListedPrefix(net, list, p)
  {
    var entries := DedupeStrings(list);
    DedupedAllParse(net, list);
    r := ParseAll(net, entries);
    forall p ensures ParsedFrom(net, entries, p) <==> ListedPrefix(net, list, p) {
      DedupedParsesSame(net, list, p);
    }
  }

  method ParseAll(net: Netip, entries: seq<Text>) returns (r: Option<seq<Prefix>>)
    ensures r.Some? <==> AllParse(net, entries)
    ensures r.Some? ==> forall p :: p in r.value <==> ParsedFrom(net, entries, p)
  {
    var prefixes: seq<Prefix> := [];
    for i := 0 to |entries|
      invariant |prefixes| == i
      invariant forall j | 0 <= j < i :: ParsePrefix(net, entries[j]) == Some(prefixes[j])
    {
      var prefix := ParsePrefix(net, entries[i]);
      if prefix.None? {
        return None;
      }
      prefixes := prefixes + [prefix.value];
    }
    r := Some(prefixes);
    forall p | ParsedFrom(net, entries, p) ensures p in prefixes {
      var j :| 0 <= j < |entries| && ParsePrefix(net, entries[j]) == Some(p);
      assert prefixes[j] == p;
    }
  }

  /** The endpoint loop of `compileRuleSet`. */
  method CompileEndpoints(net: Netip, list: seq<PortConfig>) returns (r: Option<set<Endpoint>>)
    ensures r.Some? <==> forall i | 0 <= i < |list| :: ParseEndpoint(net, list[i]).Some?
    ensures r.Some? ==> forall e :: e in r.value <==> ListedEndpoint(net, list, e)
  {
    var ports: set<Endpoint> := {};
    ghost var parsed: seq<Endpoint> := [];
    for i := 0 to |list|
      invariant |parsed| == i && forall j | 0 <= j < i :: ParseEndpoint(net, list[j]) == Some(parsed[j])
      invariant forall e :: e in ports <==> e in parsed
    {
      var e := ParseEndpoint(net, list[i]);
      if e.None? {
        return None;
      }
      ports := ports + {e.value};
      parsed := parsed + [e.value];
    }
    r := Some(ports);
    ParsedListed(net, list, parsed);
  }

  lemma ParsedListed(net: Netip, list: seq<PortConfig>, parsed: seq<Endpoint>)
    requires |parsed| == |list| && forall j | 0 <= j < |list| :: ParseEndpoint(net, list[j]) == Some(parsed[j])
    ensures forall e :: e in parsed <==> ListedEndpoint(net, list, e)
  {
    forall e | e in parsed ensures ListedEndpoint(net, list, e) {
      var j :| 0 <= j < |parsed| && parsed[j] == e;
      assert ParseEndpoint(net, list[j]) == Some(e);
    }
    forall e | ListedEndpoint(net, list, e) ensures e in parsed {
      var j :| 0 <= j < |list| && ParseEndpoint(net, list[j]) == Some(e);
      assert parsed[j] == e;
    }
  }

  /** `compileRuleSet`: fails exactly on a malformed entry, and otherwise means what is listed. */
  method CompileRuleSet(net: Netip, cfg: RuleConfig) returns (r: Option<RuleSet>)
    ensures r.Some? <==> WellFormed(net, cfg)
    ensures r.Some? ==> Means(net, cfg, r.value)
  {
    var domains := CompileNames(cfg.domains);
    var poison := CompileNames(cfg.poison);
    var prefixes := CompilePrefixes(net, cfg.ips);
    if prefixes.None? {
      return None;
    }
    var ports := CompileEndpoints(net, cfg.ipPorts);
    if ports.None? {
      return None;
    }
    r := Some(RuleSet(domains, poison, prefixes.value, ports.value));
  }

  // ---------------------------------------------------------------- lookups

  predicate MatchDomain(r: RuleSet, d: Text) { Normalize(d) in r.domains }

  predicate MatchPoison(r: RuleSet, d: Text) { Normalize(d) in r.poison }

  predicate MatchIp(r: RuleSet, a: Addr) { exists i | 0 <= i < |r.prefixes| :: Contains(r.prefixes[i], Unmap(a)) }

  predicate MatchPort(r: RuleSet, a: Addr, port: u16, proto: byte) { Endpoint(Unmap(a), port, proto) in r.ports }

  /** `matchIP` scans the prefixes in order. */
  method ScanPrefixes(r: RuleSet, a: Addr) returns (hit: bool)
    ensures hit <==> MatchIp(r, a)
  {
    var addr := Unmap(a);
    for i := 0 to |r.prefixes|
      invariant forall j | 0 <= j < i :: !Contains(r.prefixes[j], addr)
    {
      if Contains(r.prefixes[i], addr) {
        return true;
      }
    }
    return false;
  }

  /** Looking up a compiled rule set is asking whether some configured entry covers the subject. */
  lemma LookupMeaning(net: Netip, cfg: RuleConfig, r: RuleSet, d: Text, a: Addr, port: u16, proto: byte)
    requires Means(net, cfg, r)
    ensures MatchDomain(r, d) <==> exists i :: 0 <= i < |cfg.domains| && CoversName(cfg.domains[i], Normalize(d))
    ensures MatchPoison(r, d) <==> exists i :: 0 <= i < |cfg.poison| && CoversName(cfg.poison[i], Normalize(d))
    ensures MatchIp(r, a) <==>
            exists i :: 0 <= i < |cfg.ips| && !Blank(cfg.ips[i]) &&
              ParsePrefix(net, cfg.ips[i]).Some? && Contains(ParsePrefix(net, cfg.ips[i]).value, Unmap(a))
    ensures MatchPort(r, a, port, proto) <==>
            exists i :: 0 <= i < |cfg.ipPorts| && ParseEndpoint(net, cfg.ipPorts[i]) == Some(Endpoint(Unmap(a), port, proto))
  {
    if i :| 0 <= i < |r.prefixes| && Contains(r.prefixes[i], Unmap(a)) {
      assert r.prefixes[i] in r.prefixes;
    }
    if i :| 0 <= i < |cfg.ips| && !Blank(cfg.ips[i]) &&
            ParsePrefix(net, cfg.ips[i]).Some? && Contains(ParsePrefix(net, cfg.ips[i]).value, Unmap(a)) {
      assert ListedPrefix(net, cfg.ips, ParsePrefix(net, cfg.ips[i]).value);
      assert ParsePrefix(net, cfg.ips[i]).value in r.prefixes;
    }
  }

  // ---------------------------------------------------------------- growing a configuration

  /** Every list of `c` is contained, as a set, in that of `d`. */
  predicate Within(c: RuleConfig, d: RuleConfig) {
    && (forall s | s in c.domains :: s in d.domains) && (forall s | s in c.poison :: s in d.poison)
    && (forall s | s in c.ips :: s in d.ips) && (forall e | e in c.ipPorts :: e in d.ipPorts)
  }

  predicate Included(r: RuleSet, q: RuleSet) {
    && r.domains <= q.domains && r.poison <= q.poison && r.ports <= q.ports
    && forall p | p in r.prefixes :: p in q.prefixes
  }

  lemma ListedNameGrows(c: seq<Text>, d: seq<Text>, n: Text)
    requires (forall s | s in c :: s in d) && ListedName(c, n)
    ensures ListedName(d, n)
  {
    var i :| 0 <= i < |c| && CoversName(c[i], n);
    assert c[i] in d;
    var j :| 0 <= j < |d| && d[j] == c[i];
    assert CoversName(d[j], n);
  }

  /** A larger configuration compiles to a larger rule set; order and repetition never matter. */
  lemma CompiledGrows(net: Netip, c: RuleConfig, d: RuleConfig, r: RuleSet, q: RuleSet)
    requires Within(c, d) && Means(net, c, r) && Means(net, d, q)
    ensures Included(r, q)
  {
    forall n | n in r.domains ensures n in q.domains { ListedNameGrows(c.domains, d.domains, n); }
    forall n | n in r.poison ensures n in q.poison { ListedNameGrows(c.poison, d.poison, n); }
    forall p | p in r.prefixes ensures p in q.prefixes {
      var i :| 0 <= i < |c.ips| && !Blank(c.ips[i]) && ParsePrefix(net, c.ips[i]) == Some(p);
      assert c.ips[i] in d.ips;
      var j :| 0 <= j < |d.ips| && d.ips[j] == c.ips[i];
      assert ListedPrefix(net, d.ips, p);
    }
    forall e | e in r.ports ensures e in q.ports {
      var i :| 0 <= i < |c.ipPorts| && ParseEndpoint(net, c.ipPorts[i]) == Some(e);
      assert c.ipPorts[i] in d.ipPorts;
      var j :| 0 <= j < |d.ipPorts| && d.ipPorts[j] == c.ipPorts[i];
      assert ListedEndpoint(net, d.ipPorts, e);
    }
  }
}
