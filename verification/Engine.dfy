/** The queue engine's packet handler and its counters, one message at a time. */
module Engine {
  import opened Bytes
  import opened Classifier

  /** The engine's atomic counters. */
  datatype Stats = Stats(
    total: u64, passed: u64, http: u64, tls: u64, dnsPoisoned: u64, dnsBlocked: u64,
    ip: u64, ipPort: u64, malformed: u64)

  const NO_STATS := Stats(0, 0, 0, 0, 0, 0, 0, 0, 0)

  /** A queue message: packet ID and payload, either of which may be missing. */
  datatype Message = Message(id: Option<u32>, payload: Option<Packet>)

  datatype NfVerdict = NfAccept | NfDrop

  /** One call of `SetVerdict`. */
  datatype Ruling = Ruling(id: u32, verdict: NfVerdict)

  /** `recordDecision`: the reason's counter, and `passed` for everything accepted. */
  function Recorded(s: Stats, v: Verdict): Stats {
    var t := match v.reason
      case Http => s.(http := Inc64(s.http))
      case Tls => s.(tls := Inc64(s.tls))
      case DnsPoison => s.(dnsPoisoned := Inc64(s.dnsPoisoned))
      case DnsDrop => s.(dnsBlocked := Inc64(s.dnsBlocked))
      case Ip => s.(ip := Inc64(s.ip))
      case IpPort => s.(ipPort := Inc64(s.ipPort))
      case Malformed => s.(malformed := Inc64(s.malformed))
      case NoReason => s;
    if v.kind == Accept then t.(passed := Inc64(t.passed)) else t
  }

  /** What a message is to the counters: something without ID or payload, or a decision. */
  datatype Event = Unreadable | Decision(verdict: Verdict)

  function EventOf(c: Classifier, m: Message): Event {
    if m.id.None? || m.payload.None? then Unreadable else Decision(Classify(c, m.payload.value))
  }

  function Counted(s: Stats, e: Event): Stats {
    match e
    case Unreadable => s.(malformed := Inc64(s.malformed))
    case Decision(v) => Recorded(s.(total := Inc64(s.total)), v)
  }

  /** The verdict a message gets: none without an ID, accept without a payload. */
  function Rulings(c: Classifier, m: Message): seq<Ruling> {
    if m.id.None? then []
    else if m.payload.None? || Classify(c, m.payload.value).kind == Accept then [Ruling(m.id.value, NfAccept)]
    else [Ruling(m.id.value, NfDrop)]
  }

  class NfQueueEngine {
    const classifier: Classifier
    var stats: Stats
    var rulings: seq<Ruling>
    var answers: seq<Response>

    constructor (classifier: Classifier)
      ensures this.classifier == classifier && stats == NO_STATS && rulings == [] && answers == []
    {
      this.classifier, stats, rulings, answers := classifier, NO_STATS, [], [];
    }

    method RecordDecision(v: Verdict)
      modifies `stats
      ensures stats == Recorded(old(stats), v)
    {
      match v.reason {
        case Http => stats := stats.(http := Inc64(stats.http));
        case Tls => stats := stats.(tls := Inc64(stats.tls));
        case DnsPoison => stats := stats.(dnsPoisoned := Inc64(stats.dnsPoisoned));
        case DnsDrop => stats := stats.(dnsBlocked := Inc64(stats.dnsBlocked));
        case Ip => stats := stats.(ip := Inc64(stats.ip));
        case IpPort => stats := stats.(ipPort := Inc64(stats.ipPort));
        case Malformed => stats := stats.(malformed := Inc64(stats.malformed));
        case NoReason =>
      }
      if v.kind == Accept {
        stats := stats.(passed := Inc64(stats.passed));
      }
    }

    /** `handlePacket`: answers before it rules, and rules exactly once on a message with an ID. */
    method HandlePacket(m: Message)
      modifies this
      ensures stats == Counted(old(stats), EventOf(classifier, m))
      ensures rulings == old(rulings) + Rulings(classifier, m)
      ensures answers == old(answers) +
                if m.id.Some? && m.payload.Some? && Classify(classifier, m.payload.value).response.Some?
                then [Classify(classifier, m.payload.value).response.value] else []
    {
      if m.id.None? {
        stats := stats.(malformed := Inc64(stats.malformed));
        return;
      }
      if m.payload.None? {
        stats := stats.(malformed := Inc64(stats.malformed));
        rulings := rulings + [Ruling(m.id.value, NfAccept)];
        return;
      }
      stats := stats.(total := Inc64(stats.total));
      var decision := Classify(classifier, m.payload.value);
      RecordDecision(decision);
      KindMatchesReason(classifier, m.payload.value);
      if decision.kind == Drop {
        if decision.response.Some? {
          answers := answers + [decision.response.value];
        }
        rulings := rulings + [Ruling(m.id.value, NfDrop)];
      } else {
        rulings := rulings + [Ruling(m.id.value, NfAccept)];
      }
    }
  }

  // ---------------------------------------------------------------- over whole runs

  /** The counters after a run of events. */
  function AfterAll(s: Stats, events: seq<Event>): Stats {
    if events == [] then s else Counted(AfterAll(s, events[..|events| - 1]), events[|events| - 1])
  }

  function EventsOf(c: Classifier, ms: seq<Message>): seq<Event> {
    seq(|ms|, i requires 0 <= i < |ms| => EventOf(c, ms[i]))
  }

  function AllRulings(c: Classifier, ms: seq<Message>): seq<Ruling> {
    if ms == [] then [] else AllRulings(c, ms[..|ms| - 1]) + Rulings(c, ms[|ms| - 1])
  }

  function Decided(s: Stats): nat {
    s.passed as int + s.http as int + s.tls as int + s.dnsPoisoned as int +
    s.dnsBlocked as int + s.ip as int + s.ipPort as int
  }

  /** Kind and reason as the classifier pairs them. */
  predicate Paired(v: Verdict) { v.kind == Accept <==> v.reason == NoReason || v.reason == Malformed }

  function Carry(x: u64): int { if x + 1 == 0x1_0000_0000_0000_0000 then 1 else 0 }

  /** A paired decision adds exactly one to the decided counters. */
  lemma RecordedAddsOne(s: Stats, v: Verdict) returns (k: int)
    requires Paired(v)
    ensures var t := Recorded(s, v);
            t.total == s.total && Decided(t) == Decided(s) + 1 - k * 0x1_0000_0000_0000_0000 &&
            t.malformed == if v.reason == Malformed then Inc64(s.malformed) else s.malformed
  {
    k := match v.reason
      case Http => Carry(s.http)
      case Tls => Carry(s.tls)
      case DnsPoison => Carry(s.dnsPoisoned)
      case DnsDrop => Carry(s.dnsBlocked)
      case Ip => Carry(s.ip)
      case IpPort => Carry(s.ipPort)
      case Malformed => Carry(s.passed)
      case NoReason => Carry(s.passed);
  }

  /** Events counted as malformed: no ID, no payload, or a payload the classifier cannot read. */
  predicate CountsMalformed(e: Event) { e.Unreadable? || e.verdict.reason == Malformed }

  function MalformedIn(events: seq<Event>): nat {
    if events == [] then 0
    else MalformedIn(events[..|events| - 1]) + if CountsMalformed(events[|events| - 1]) then 1 else 0
  }

  predicate AllPaired(events: seq<Event>) {
    forall i | 0 <= i < |events| :: events[i].Decision? ==> Paired(events[i].verdict)
  }

  /** One event moves `total` and the decided counters alike, and `malformed` when it should. */
  lemma CountedKeeps(s: Stats, e: Event) returns (k: int, j: int)
    requires e.Decision? ==> Paired(e.verdict)
    ensures var t := Counted(s, e);
            t.total - Decided(t) == s.total - Decided(s) + k * 0x1_0000_0000_0000_0000 &&
            t.malformed == s.malformed + (if CountsMalformed(e) then 1 else 0) + j * 0x1_0000_0000_0000_0000
  {
    j := if CountsMalformed(e) then -Carry(s.malformed) else 0;
    k := 0;
    if e.Decision? {
      k := RecordedAddsOne(s.(total := Inc64(s.total)), e.verdict);
      k := k - Carry(s.total);
    }
  }

  /** `t` is ahead of `s` by as much in `total` as in the decided counters, and by `m` malformed. */
  predicate Ahead(s: Stats, t: Stats, m: nat, k: int, j: int) {
    t.total - Decided(t) == s.total - Decided(s) + k * 0x1_0000_0000_0000_0000 &&
    t.malformed == s.malformed + m + j * 0x1_0000_0000_0000_0000
  }

  lemma AheadTwice(s: Stats, t: Stats, u: Stats, m: nat, more: nat, k: int, j: int, dk: int, dj: int)
    requires Ahead(s, t, m, k, j) && Ahead(t, u, more, dk, dj)
    ensures Ahead(s, u, m + more, k + dk, j + dj)
  {
  }

  lemma {:induction false} EventsConserve(s: Stats, events: seq<Event>) returns (k: int, j: int)
    requires AllPaired(events)
    ensures Ahead(s, AfterAll(s, events), MalformedIn(events), k, j)
  {
    if events == [] {
      k, j := 0, 0;
    } else {
      var n := |events| - 1;
      var t := AfterAll(s, events[..n]);
      k, j := EventsConserve(s, events[..n]);
      var dk, dj := CountedKeeps(t, events[n]);
      AheadTwice(s, t, Counted(t, events[n]), MalformedIn(events[..n]), if CountsMalformed(events[n]) then 1 else 0, k, j, dk, dj);
      k, j := k + dk, j + dj;
    }
  }

  lemma EventsPaired(c: Classifier, ms: seq<Message>)
    ensures AllPaired(EventsOf(c, ms))
  {
    forall i | 0 <= i < |ms| && EventOf(c, ms[i]).Decision? ensures Paired(EventOf(c, ms[i]).verdict) {
      KindMatchesReason(c, ms[i].payload.value);
    }
  }

  /**
    Over every run of messages, `total` grows by what `passed` and the six blocked counters grow
    together, and `malformed` by the number of malformed messages; `k` and `j` count how often the
    64-bit counters wrapped.
   */
  lemma CountersConserved(c: Classifier, s: Stats, ms: seq<Message>) returns (k: int, j: int)
    ensures Ahead(s, AfterAll(s, EventsOf(c, ms)), MalformedIn(EventsOf(c, ms)), k, j)
  {
    EventsPaired(c, ms);
    k, j := EventsConserve(s, EventsOf(c, ms));
  }

  lemma {:induction false} DecidedAtMost(s: Stats, events: seq<Event>)
    requires AllPaired(events)
    ensures Decided(AfterAll(s, events)) <= Decided(s) + |events| && MalformedIn(events) <= |events|
  {
    if events != [] {
      var n := |events| - 1;
      var t := AfterAll(s, events[..n]);
      DecidedAtMost(s, events[..n]);
      if events[n].Decision? {
        var k := RecordedAddsOne(t.(total := Inc64(t.total)), events[n].verdict);
        DecidedStep(t, events[n].verdict);
      }
    }
  }

  lemma DecidedStep(s: Stats, v: Verdict)
    requires Paired(v)
    ensures Decided(Recorded(s.(total := Inc64(s.total)), v)) <= Decided(s) + 1
  {
  }

  /** The counters of an engine that has seen no message. */
  predicate Unused(s: Stats) { s.total == 0 && Decided(s) == 0 && s.malformed == 0 }

  /** From fresh counters, and fewer than 2^64 messages, the equations hold exactly. */
  lemma FreshCountersExact(c: Classifier, s: Stats, ms: seq<Message>)
    requires |ms| < 0x1_0000_0000_0000_0000
    ensures var t := AfterAll(s, EventsOf(c, ms));
            Unused(s) ==> t.total == Decided(t) && t.malformed == MalformedIn(EventsOf(c, ms))
  {
    EventsPaired(c, ms);
    var events := EventsOf(c, ms);
    var t := AfterAll(s, events);
    var k, j := EventsConserve(s, events);
    DecidedAtMost(s, events);
    if Unused(s) {
      NoWrap(t.total, Decided(t), k);
      NoWrap(t.malformed, MalformedIn(events), j);
    }
  }

  lemma NoWrap(counter: u64, count: nat, k: int)
    requires counter == count + k * 0x1_0000_0000_0000_0000 && count < 0x1_0000_0000_0000_0000
    ensures counter == count
  {
  }

  // ---------------------------------------------------------------- what each counter counts

  /** A message that gets classified. */
  predicate Judged(m: Message) { m.id.Some? && m.payload.Some? }

  /** How many messages are classified with this reason. */
  function Reasoned(c: Classifier, ms: seq<Message>, r: Reason): nat {
    if ms == [] then 0
    else
      var n := |ms| - 1;
      Reasoned(c, ms[..n], r) + if Judged(ms[n]) && Classify(c, ms[n].payload.value).reason == r then 1 else 0
  }

  /** How many messages are classified and accepted. */
  function AcceptedIn(c: Classifier, ms: seq<Message>): nat {
    if ms == [] then 0
    else
      var n := |ms| - 1;
      AcceptedIn(c, ms[..n]) + if Judged(ms[n]) && Classify(c, ms[n].payload.value).kind == Accept then 1 else 0
  }

  function JudgedIn(ms: seq<Message>): nat {
    if ms == [] then 0 else JudgedIn(ms[..|ms| - 1]) + if Judged(ms[|ms| - 1]) then 1 else 0
  }

  lemma {:induction false} CountsFit(c: Classifier, ms: seq<Message>, r: Reason)
    ensures Reasoned(c, ms, r) <= JudgedIn(ms) <= |ms| && AcceptedIn(c, ms) <= |ms|
  {
    if ms != [] {
      CountsFit(c, ms[..|ms| - 1], r);
    }
  }

  /** Every counter is the number of messages that its name says. */
  predicate Tells(t: Stats, c: Classifier, ms: seq<Message>) {
    && t.total == JudgedIn(ms) && t.passed == AcceptedIn(c, ms)
    && t.http == Reasoned(c, ms, Http) && t.tls == Reasoned(c, ms, Tls)
    && t.dnsPoisoned == Reasoned(c, ms, DnsPoison) && t.dnsBlocked == Reasoned(c, ms, DnsDrop)
    && t.ip == Reasoned(c, ms, Ip) && t.ipPort == Reasoned(c, ms, IpPort)
    && t.malformed == Reasoned(c, ms, Malformed) + (|ms| - JudgedIn(ms))
  }

  /** No counter is so full that one more would wrap it. */
  predicate Roomy(t: Stats) {
    && t.total < 0xffff_ffff_ffff_ffff && t.passed < 0xffff_ffff_ffff_ffff && t.http < 0xffff_ffff_ffff_ffff
    && t.tls < 0xffff_ffff_ffff_ffff && t.dnsPoisoned < 0xffff_ffff_ffff_ffff && t.dnsBlocked < 0xffff_ffff_ffff_ffff
    && t.ip < 0xffff_ffff_ffff_ffff && t.ipPort < 0xffff_ffff_ffff_ffff && t.malformed < 0xffff_ffff_ffff_ffff
  }

  lemma TellsStep(t: Stats, c: Classifier, ms: seq<Message>)
    requires ms != [] && Tells(t, c, ms[..|ms| - 1]) && Roomy(t)
    ensures Tells(Counted(t, EventOf(c, ms[|ms| - 1])), c, ms)
  {
    var m := ms[|ms| - 1];
    if Judged(m) {
      var v := Classify(c, m.payload.value);
      var u := Counted(t, Decision(v));
      assert u.total == t.total + 1 && u.passed == t.passed + if v.kind == Accept then 1 else 0;
      assert u.malformed == t.malformed + if v.reason == Malformed then 1 else 0;
    }
  }

  lemma TellsRoomy(t: Stats, c: Classifier, ms: seq<Message>)
    requires Tells(t, c, ms) && |ms| < 0xffff_ffff_ffff_ffff
    ensures Roomy(t)
  {
    CountsFit(c, ms, Http);
    CountsFit(c, ms, Tls);
    CountsFit(c, ms, DnsPoison);
    CountsFit(c, ms, DnsDrop);
    CountsFit(c, ms, Ip);
    CountsFit(c, ms, IpPort);
    CountsFit(c, ms, Malformed);
  }

  /** Over every run from fresh counters, each counter counts exactly the messages it is named after. */
  lemma {:induction false} CountersTell(c: Classifier, s: Stats, ms: seq<Message>)
    requires Tells(s, c, []) && |ms| < 0x1_0000_0000_0000_0000
    ensures Tells(AfterAll(s, EventsOf(c, ms)), c, ms)
  {
    if ms == [] {
      assert AfterAll(s, EventsOf(c, ms)) == s;
    } else {
      var n := |ms| - 1;
      CountersTell(c, s, ms[..n]);
      assert EventsOf(c, ms)[..n] == EventsOf(c, ms[..n]);
      TellsRoomy(AfterAll(s, EventsOf(c, ms[..n])), c, ms[..n]);
      TellsStep(AfterAll(s, EventsOf(c, ms[..n])), c, ms);
    }
  }

  /** A new engine's counters are such counters. */
  lemma FreshTells(c: Classifier)
    ensures Tells(NO_STATS, c, [])
  {
  }

  // ---------------------------------------------------------------- what each message gets

  /** The messages with an ID, in order. */
  function Identified(ms: seq<Message>): seq<Message> {
    if ms == [] then []
    else Identified(ms[..|ms| - 1]) + if ms[|ms| - 1].id.Some? then [ms[|ms| - 1]] else []
  }

  /** The one verdict that a message with an ID must get. */
  predicate RulesOn(c: Classifier, r: Ruling, m: Message) {
    m.id == Some(r.id) && (r.verdict == NfDrop <==> m.payload.Some? && Classify(c, m.payload.value).kind == Drop)
  }

  /** Every message with an ID is ruled on exactly once, in order, with drop exactly when it classifies so. */
  lemma {:induction false} OneRulingEach(c: Classifier, ms: seq<Message>)
    ensures |AllRulings(c, ms)| == |Identified(ms)|
    ensures forall i | 0 <= i < |Identified(ms)| :: RulesOn(c, AllRulings(c, ms)[i], Identified(ms)[i])
  {
    if ms != [] {
      OneRulingEach(c, ms[..|ms| - 1]);
    }
  }
}
