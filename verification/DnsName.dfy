/**
  Domain names in DNS questions (sections 3.1 and 4.1.2 of RFC 1035) and the flattened one-byte-
  at-a-time decoder of the packet program.
 */
module DnsName {
  import opened Bytes
  import opened DomainTable

  const MAX_DNS_SCAN := 64
  const MAX_DNS_LABELS := 8
  const DNS_HEADER := 12
  const DOT: byte := 46

  // ---------------------------------------------------------------- label decoding

  /** Labels in order, and how many bytes the name takes on the wire, final zero included. */
  datatype Name = Name(labels: seq<Text>, wire: nat)

  predicate Label(l: Text) { 0 < |l| < 64 }

  predicate AllLabels(labels: seq<Text>) { forall i | 0 <= i < |labels| :: Label(labels[i]) }

  /** The uncompressed name at position `k`. */
  function DecodeFrom(s: seq<byte>, k: nat): (n: Option<Name>)
    requires k <= |s|
    ensures n.Some? ==> 0 < n.value.wire <= |s| - k
    decreases |s| - k
  {
    if k == |s| then None
    else if s[k] == 0 then Some(Name([], 1))
    else if s[k] >= 64 || k + 1 + s[k] > |s| then None
    else
      var rest :- DecodeFrom(s, k + 1 + s[k]);
      Some(Name([s[k + 1..k + 1 + s[k]]] + rest.labels, 1 + s[k] + rest.wire))
  }

  function Decode(s: seq<byte>): Option<Name> { DecodeFrom(s, 0) }

  /** The wire form: length-prefixed labels, then a zero byte. */
  function Encode(labels: seq<Text>): seq<byte>
    requires AllLabels(labels)
  {
    if labels == [] then [0] else [|labels[0]|] + (labels[0] + Encode(labels[1..]))
  }

  /** Labels joined by dots. */
  function Join(labels: seq<Text>): Text {
    if labels == [] then []
    else
      var n := |labels| - 1;
      (if n == 0 then [] else Join(labels[..n]) + [DOT]) + labels[n]
  }

  /** The joined labels with the dot that precedes the next one. */
  function Joint(labels: seq<Text>): Text { if labels == [] then [] else Join(labels) + [DOT] }

  /** Decoding the wire form of any labels gives them back, whatever follows. */
  lemma {:induction false} DecodeEncoded(s: seq<byte>, k: nat, labels: seq<Text>)
    requires AllLabels(labels) && Has(s, k, Encode(labels))
    ensures DecodeFrom(s, k) == Some(Name(labels, |Encode(labels)|))
    decreases |labels|
  {
    if labels == [] {
      assert s[k] == Encode(labels)[0];
    } else {
      var l, rest := labels[0], labels[1..];
      HasSplit(s, k, [|l|], l + Encode(rest));
      assert s[k] == [|l|][0];
      HasSplit(s, k + 1, l, Encode(rest));
      DecodeEncoded(s, k + 1 + |l|, rest);
      assert s[k + 1..k + 1 + |l|] == l;
      assert [l] + rest == labels;
    }
  }

  /** A name that decodes is the wire form of its labels. */
  lemma {:induction false} DecodedIsEncoded(s: seq<byte>, k: nat)
    requires k <= |s| && DecodeFrom(s, k).Some?
    ensures var n := DecodeFrom(s, k).value;
            AllLabels(n.labels) && n.wire == |Encode(n.labels)| && Has(s, k, Encode(n.labels))
    decreases |s| - k
  {
    if s[k] != 0 {
      var to := k + 1 + s[k];
      DecodedIsEncoded(s, to);
      var l, rest := s[k + 1..to], DecodeFrom(s, to).value.labels;
      HasLabel(s, k, l, Encode(rest));
      assert ([l] + rest)[1..] == rest;
    }
  }

  lemma HasLabel(s: seq<byte>, k: nat, l: Text, rest: seq<byte>)
    requires Label(l) && k + 1 + |l| <= |s| && s[k] == |l| && s[k + 1..k + 1 + |l|] == l && Has(s, k + 1 + |l|, rest)
    ensures Has(s, k, [|l|] + (l + rest))
  {
    var all := [|l|] + (l + rest);
    forall i | 0 <= i < |all| ensures s[k + i] == all[i] {
      if 1 <= i <= |l| {
        assert s[k + i] == l[i - 1];
      } else if i > |l| {
        assert all[i] == rest[i - 1 - |l|];
      }
    }
  }

  /** An uncompressed name of at most 64 wire bytes and 8 labels, with type and class behind it. */
  predicate Accepted(q: seq<byte>) {
    Decode(q).Some? &&
    var n := Decode(q).value;
    n.wire <= 64 && |n.labels| <= 8 && |q| - n.wire >= 4
  }

  /** The name a question leads to: its lowercase labels joined by dots, unless it is the root. */
  function QuestionName(q: seq<byte>): Option<Text> {
    var n :- Decode(q);
    if n.labels != [] && Accepted(q) then Some(Lower(Join(n.labels))) else None
  }

  /** The message is a query with a question, inside the packet and the scan limit. */
  predicate IsQuery(p: seq<byte>, off: nat, len: nat) {
    && off + 12 <= 1024 && off + len <= 1024 && off + len <= |p| && off + 12 <= |p|
    && p[off + 2] < 128 && Be16At(p, off + 4) != 0
  }

  predicate NameHit(table: Table, name: Option<Text>) { name.Some? && Hit(table, name.value, Dns) }

  predicate DnsHit(table: Table, p: seq<byte>, off: nat, len: nat) {
    IsQuery(p, off, len) && len >= 12 && NameHit(table, QuestionName(p[off + 12..off + len]))
  }

  // ---------------------------------------------------------------- the decoder

  function Prepend(labels: seq<Text>, wire: nat, n: Option<Name>): Option<Name> {
    if n.None? then None else Some(Name(labels + n.value.labels, wire + n.value.wire))
  }

  /** The labels in `done` are those of the first `k` bytes. */
  ghost predicate Split(q: seq<byte>, done: seq<Text>, k: nat) {
    k <= |q| && Decode(q) == Prepend(done, k, DecodeFrom(q, k))
  }

  lemma SplitStart(q: seq<byte>)
    ensures Split(q, [], 0)
  {
    if Decode(q).Some? {
      assert [] + Decode(q).value.labels == Decode(q).value.labels;
    }
  }

  /** Nothing is accepted when the rest does not decode, or a ninth label or byte 65 is needed. */
  lemma NotAccepted(q: seq<byte>, done: seq<Text>, k: nat)
    requires Split(q, done, k)
    requires || k == |q| || q[k] >= 64 || k + 1 + q[k] > |q|
             || (q[k] != 0 && |done| >= MAX_DNS_LABELS)
             || (q[k] != 0 && k + 1 + q[k] >= MAX_DNS_SCAN) || k >= MAX_DNS_SCAN
    ensures !Accepted(q)
  {
  }

  lemma SplitNext(q: seq<byte>, done: seq<Text>, k: nat)
    requires Split(q, done, k) && k < |q| && 0 < q[k] < 64 && k + 1 + q[k] <= |q|
    ensures Split(q, done + [q[k + 1..k + 1 + q[k]]], k + 1 + q[k])
  {
    var l, to := q[k + 1..k + 1 + q[k]], k + 1 + q[k];
    if DecodeFrom(q, to).Some? {
      var rest := DecodeFrom(q, to).value.labels;
      assert done + ([l] + rest) == (done + [l]) + rest;
    }
  }

  lemma SplitEnd(q: seq<byte>, done: seq<Text>, k: nat)
    requires Split(q, done, k) && k < |q| && q[k] == 0
    ensures Decode(q) == Some(Name(done, k + 1))
  {
    assert done + [] == done;
  }

  /** The text gathered so far: whole labels joined, then the running label's bytes. */
  ghost function Gathered(q: seq<byte>, labels: seq<Text>, k: nat, i: nat): Text
    requires k <= i <= |q|
  {
    if k == i then Join(labels) else Joint(labels) + q[k + 1..i]
  }

  ghost predicate KeyHolds(key: array<byte>, text: Text)
    reads key
  {
    key.Length == KEY_LEN && |text| < KEY_LEN &&
    forall j | 0 <= j < KEY_LEN :: key[j] == if j < |text| then LowerByte(text[j]) else 0
  }

  /** Appending one byte to the key appends it to the text. */
  method PutByte(key: array<byte>, out: nat, c: byte, ghost text: Text)
    requires KeyHolds(key, text) && out == |text| < KEY_LEN - 1
    modifies key
    ensures KeyHolds(key, text + [c])
  {
    key[out] := LowerByte(c);
  }

  /**
    The decoder before round `i`: the labels in `done` end at `k`, the running label still lacks
    `remaining` bytes, and the text gathered so far is one byte shorter than what was read.
   */
  ghost predicate Scanning(q: seq<byte>, done: seq<Text>, k: nat, i: nat, remaining: int, text: Text) {
    && k <= i <= |q| && 0 <= remaining && Split(q, done, k)
    && (remaining == 0 <==> k == i)
    && (remaining > 0 ==> 0 < q[k] < 64 && i + remaining == k + 1 + q[k])
    && (if done == [] then k == 0 else k >= 2)
    && text == Gathered(q, done, k, i)
    && |text| == (if i == 0 then 0 else i - 1)
  }

  /** A round that reads a label length. */
  method BeginLabel(q: seq<byte>, key: array<byte>, i: nat, out: nat, ghost done: seq<Text>, ghost text: Text)
      returns (newOut: nat, ghost newText: Text)
    requires i < MAX_DNS_SCAN && Scanning(q, done, i, i, 0, text) && i < |q| && 0 < q[i] < 64
    requires KeyHolds(key, text) && out == |text|
    modifies key
    ensures Scanning(q, done, i, i + 1, q[i], newText)
    ensures KeyHolds(key, newText) && newOut == |newText|
  {
    newOut, newText := out, text;
    if out > 0 {
      if out >= KEY_LEN - 1 {
        assert false;
      }
      PutByte(key, out, DOT, text);
      newOut, newText := out + 1, text + [DOT];
    }
    assert q[i + 1..i + 1] == [] && Joint(done) + [] == Joint(done);
  }

  /** A round that reads a byte of the running label. */
  method TakeByte(q: seq<byte>, key: array<byte>, i: nat, remaining: nat, out: nat,
                  ghost done: seq<Text>, ghost k: nat, ghost text: Text)
      returns (ghost newDone: seq<Text>, ghost newK: nat, ghost newText: Text)
    requires i < MAX_DNS_SCAN && Scanning(q, done, k, i, remaining, text) && remaining > 0 && i < |q|
    requires KeyHolds(key, text) && out == |text|
    modifies key
    ensures Scanning(q, newDone, newK, i + 1, remaining - 1, newText)
    ensures KeyHolds(key, newText) && out + 1 == |newText|
    ensures |newDone| == if remaining == 1 then |done| + 1 else |done|
  {
    if out >= KEY_LEN - 1 {
      assert false;
    }
    PutByte(key, out, q[i], text);
    newDone, newK, newText := done, k, text + [q[i]];
    assert newText == Joint(done) + q[k + 1..i + 1];
    if remaining == 1 {
      SplitNext(q, done, k);
      JoinNext(done, q[k + 1..i + 1]);
      newDone, newK := done + [q[k + 1..i + 1]], i + 1;
    }
  }

  /** Why the loop gives up: end of message, a long or ninth label, or 64 bytes without a final zero. */
  lemma GivesUp(q: seq<byte>, done: seq<Text>, k: nat, i: nat, remaining: int, text: Text)
    requires Scanning(q, done, k, i, remaining, text)
    requires || i == |q| || i == MAX_DNS_SCAN
             || (remaining == 0 && (q[i] >= 64 || (q[i] != 0 && |done| >= MAX_DNS_LABELS)))
    ensures !Accepted(q)
  {
    NotAccepted(q, done, k);
  }

  lemma Completes(q: seq<byte>, done: seq<Text>, k: nat, i: nat, text: Text)
    requires Scanning(q, done, k, i, 0, text) && i < |q| && q[i] == 0
    ensures Decode(q) == Some(Name(done, i + 1)) && text == Join(done)
    ensures text == [] <==> done == []
  {
    SplitEnd(q, done, k);
  }

  /**
    The decoding loop of `dns_domain_matches`.  Each round consumes one byte, so round `i` reads
    byte `i` of the question and, from the second on, writes key byte `i - 1`; the two bounds on
    `out` therefore never stop it.
   */
  method ScanName(q: seq<byte>, key: array<byte>) returns (complete: bool, out: nat)
    requires KeyHolds(key, [])
    modifies key
    ensures complete <==> Accepted(q)
    ensures complete ==> KeyHolds(key, Join(Decode(q).value.labels)) && out == |Join(Decode(q).value.labels)|
    ensures complete ==> (out == 0 <==> Decode(q).value.labels == [])
  {
    var remaining, labels := 0, 0;
    out := 0;
    ghost var done: seq<Text>, k: nat, text: Text := [], 0, [];
    SplitStart(q);
    for i := 0 to MAX_DNS_SCAN
      invariant Scanning(q, done, k, i, remaining, text)
      invariant KeyHolds(key, text) && out == |text|
      invariant labels == |done| + (if remaining > 0 then 1 else 0) <= MAX_DNS_LABELS
    {
      if remaining == 0 {
        if i >= |q| {
          GivesUp(q, done, k, i, remaining, text);
          return false, out;
        }
        var len: int := q[i];
        if len == 0 {
          Completes(q, done, k, i, text);
          return |q| - (i + 1) >= 4, out;
        }
        labels := labels + 1;
        if len >= 64 || labels > MAX_DNS_LABELS {
          GivesUp(q, done, k, i, remaining, text);
          return false, out;
        }
        out, text := BeginLabel(q, key, i, out, done, text);
        k, remaining := i, len;
        continue;
      }
      if i >= |q| {
        GivesUp(q, done, k, i, remaining, text);
        return false, out;
      }
      done, k, text := TakeByte(q, key, i, remaining, out, done, k, text);
      out, remaining := out + 1, remaining - 1;
    }
    GivesUp(q, done, k, MAX_DNS_SCAN, remaining, text);
    return false, out;
  }

  lemma JoinNext(labels: seq<Text>, l: Text)
    ensures Join(labels + [l]) == Joint(labels) + l
  {
    assert (labels + [l])[..|labels|] == labels;
  }

  /** `dns_domain_matches`: the answer never depends on what the scratch key held. */
  method DnsDomainMatches(table: Table, p: seq<byte>, off: u32, len: u16, scratch: array<byte>) returns (hit: bool)
    requires scratch.Length == KEY_LEN
    modifies scratch
    ensures hit <==> DnsHit(table, p, off, len)
  {
    if off >= MAX_PACKET_READ || off > MAX_PACKET_READ - DNS_HEADER {
      return false;
    }
    var end: u32 := off + len;
    if end < off || end > MAX_PACKET_READ {
      return false;
    }
    if end > |p| || off + DNS_HEADER > |p| {
      return false;
    }
    if p[off + 2] >= 128 || Be16At(p, off + 4) == 0 {
      return false;
    }
    for i := 0 to KEY_LEN
      invariant forall j | 0 <= j < i :: scratch[j] == 0
    {
      scratch[i] := 0;
    }
    if off + DNS_HEADER > end {
      return false;
    }
    var complete, out := ScanName(p[off + DNS_HEADER..end], scratch);
    if !complete {
      return false;
    }
    hit := DomainMatches(table, scratch, out, Dns);
    ghost var labels := Decode(p[off + DNS_HEADER..end]).value.labels;
    assert scratch[..] == Padded(Lower(Join(labels)));
  }

  // ---------------------------------------------------------------- rules and queries together

  lemma {:induction false} JoinCons(l: Text, rest: seq<Text>)
    ensures |Join([l] + rest)| == |l| + (if rest == [] then 0 else 1 + |Join(rest)|)
  {
    if rest != [] {
      var n := |rest| - 1;
      JoinCons(l, rest[..n]);
      assert ([l] + rest)[..n + 1] == [l] + rest[..n];
    }
  }

  /** A joined name is two bytes shorter than its wire form. */
  lemma {:induction false} JoinLength(labels: seq<Text>)
    requires AllLabels(labels) && labels != []
    ensures |Encode(labels)| == |Join(labels)| + 2 && Join(labels) != []
  {
    var rest := labels[1..];
    assert labels == [labels[0]] + rest;
    JoinCons(labels[0], rest);
    if rest != [] {
      JoinLength(rest);
    }
  }

  /** The question asking for `labels`, then its type, class and whatever follows. */
  predicate Asks(q: seq<byte>, labels: seq<Text>) {
    AllLabels(labels) && labels != [] && Encode(labels) <= q && |q| - |Encode(labels)| >= 4
  }

  /** A question of at most 62 characters and 8 labels leads to its lowercase name. */
  lemma QuestionNameOfAsked(q: seq<byte>, labels: seq<Text>)
    requires Asks(q, labels)
    ensures QuestionName(q) ==
            if |Join(labels)| <= 62 && |labels| <= 8 then Some(Lower(Join(labels))) else None
  {
    DecodeEncoded(q, 0, labels);
    JoinLength(labels);
  }

  /** The rule's name is the asked one, up to zero bytes at its end. */
  predicate SameName(rule: Text, asked: Text) { |asked| <= |rule| && rule == asked + Zeros(|rule| - |asked|) }

  lemma SameNameIffSameKey(rule: Text, asked: Text)
    requires |rule| < KEY_LEN && |asked| < KEY_LEN && 0 !in asked
    ensures Padded(rule) == Padded(asked) <==> SameName(rule, asked)
  {
    if |asked| <= |rule| {
      PaddedEqual(asked, rule);
    } else {
      assert Padded(asked)[|rule|] == asked[|rule|];
      assert Padded(rule)[|rule|] == 0;
    }
  }

  lemma CarriesIffSame(rule: Rule, asked: Text)
    requires Acceptable(rule.name) && |asked| < KEY_LEN && 0 !in asked
    ensures Carries(rule, Padded(asked), Dns) <==> Dns in rule.flags && SameName(rule.name, asked)
  {
    SameNameIffSameKey(rule.name, asked);
  }

  lemma HitMeaning(rules: seq<Rule>, asked: Text)
    requires AllAcceptable(rules) && 0 < |asked| < KEY_LEN && 0 !in asked
    ensures Hit(Loaded(rules), asked, Dns) <==>
            exists i :: 0 <= i < |rules| && Dns in rules[i].flags && SameName(rules[i].name, asked)
  {
    LoadedMeaning(rules, Padded(asked), Dns);
    if i :| 0 <= i < |rules| && Carries(rules[i], Padded(asked), Dns) {
      CarriesIffSame(rules[i], asked);
    }
    if i :| 0 <= i < |rules| && Dns in rules[i].flags && SameName(rules[i].name, asked) {
      CarriesIffSame(rules[i], asked);
    }
  }

  /**
    After any successful calls, a query is matched exactly when one of them carried the DNS bit
    for its lowercase name, in whatever order the calls came.
   */
  lemma QueryMatchesIff(rules: seq<Rule>, q: seq<byte>, labels: seq<Text>)
    requires AllAcceptable(rules) && Asks(q, labels)
    requires |Join(labels)| <= 62 && |labels| <= 8 && 0 !in Join(labels)
    ensures NameHit(Loaded(rules), QuestionName(q)) <==>
            exists i :: 0 <= i < |rules| && Dns in rules[i].flags && SameName(rules[i].name, Lower(Join(labels)))
  {
    QuestionNameOfAsked(q, labels);
    JoinLength(labels);
    HitMeaning(rules, Lower(Join(labels)));
  }

  /** For rules without zero bytes the same name is the equal name. */
  lemma SameNameIsEqual(rule: Text, asked: Text)
    requires 0 !in rule
    ensures SameName(rule, asked) <==> rule == asked
  {
    if |asked| < |rule| {
      assert (asked + Zeros(|rule| - |asked|))[|rule| - 1] == 0;
    } else {
      assert asked + [] == asked;
    }
  }

  /** With a zero byte at its end a rule matches a name it is not equal to. */
  lemma ZeroBytesCollide()
    ensures exists rules: seq<Rule>, q: seq<byte>, labels: seq<Text> ::
              AllAcceptable(rules) && Asks(q, labels) && NameHit(Loaded(rules), QuestionName(q)) &&
              forall i | 0 <= i < |rules| :: rules[i].name != Lower(Join(labels))
  {
    var rules, labels: seq<Text> := [Rule([97, 0], {Dns})], [[97]];
    assert Join(labels) == [97];
    var q := Encode(labels) + [0, 1, 0, 1];
    assert Asks(q, labels);
    assert SameName(rules[0].name, Lower(Join(labels)));
    QueryMatchesIff(rules, q, labels);
    assert rules[0].name != Lower(Join(labels));
  }
}
