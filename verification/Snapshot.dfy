/**
  Packet handlers and a statistics reader interleaved: every atomic add and every load is one step,
  and any handler or the reader may take the next one.
 */
module Snapshot {
  import opened Bytes
  import opened Classifier
  import opened Engine

  /** The counters that decisions are counted in: passed, then the six blocked ones. */
  const DECIDED := 7

  /** Where a handler stands between its first and last atomic add. */
  datatype Handler = CountedTotal(verdict: Verdict) | RecordedReason(verdict: Verdict)

  /** `Stats` loads `total` first, then the decided counters in order; it may be called again after that. */
  datatype Reader = Idle | Loading(total: nat, inFlight: nat, seen: seq<nat>)

  datatype State = State(total: nat, decided: seq<nat>, malformed: nat, handlers: map<nat, Handler>, reader: Reader)

  function Fresh(): State { State(0, [0, 0, 0, 0, 0, 0, 0], 0, map[], Idle) }

  datatype Action =
    | CountTotal(id: nat, v: Verdict)
    | RecordReason(id: nat)
    | RecordPass(id: nat)
    | LoadTotal
    | LoadNext

  /** The counter a blocking reason is recorded in. */
  function Slot(r: Reason): nat
    requires r != NoReason && r != Malformed
  {
    match r
    case Http => 1
    case Tls => 2
    case DnsPoison => 3
    case DnsDrop => 4
    case Ip => 5
    case IpPort => 6
  }

  predicate Enabled(s: State, a: Action) {
    |s.decided| == DECIDED &&
    match a
    case CountTotal(id, v) => id !in s.handlers && Paired(v)
    case RecordReason(id) => id in s.handlers && s.handlers[id].CountedTotal?
    case RecordPass(id) => id in s.handlers && s.handlers[id].RecordedReason?
    case LoadTotal => s.reader.Idle? || |s.reader.seen| == DECIDED
    case LoadNext => s.reader.Loading? && |s.reader.seen| < DECIDED
  }

  function Take(s: State, a: Action): State
    requires Enabled(s, a)
  {
    match a
    case CountTotal(id, v) => s.(total := s.total + 1, handlers := s.handlers[id := CountedTotal(v)])
    case RecordReason(id) =>
      var v := s.handlers[id].verdict;
      var next := s.(handlers := s.handlers[id := RecordedReason(v)]);
      if v.reason == NoReason then next
      else if v.reason == Malformed then next.(malformed := s.malformed + 1)
      else next.(decided := s.decided[Slot(v.reason) := s.decided[Slot(v.reason)] + 1])
    case RecordPass(id) =>
      var next := s.(handlers := s.handlers - {id});
      if s.handlers[id].verdict.kind == Accept then next.(decided := s.decided[0 := s.decided[0] + 1]) else next
    case LoadTotal => s.(reader := Loading(s.total, |s.handlers|, []))
    case LoadNext => s.(reader := s.reader.(seen := s.reader.seen + [s.decided[|s.reader.seen|]]))
  }

  function Sum(xs: seq<nat>): nat { if xs == [] then 0 else xs[0] + Sum(xs[1..]) }

  /** Handlers that have counted the total but not yet their decision. */
  function Pending(handlers: map<nat, Handler>): set<nat> {
    set id | id in handlers && (handlers[id].CountedTotal? || handlers[id].verdict.kind == Accept)
  }

  /** What every reachable state satisfies. */
  ghost predicate Inv(s: State) {
    && |s.decided| == DECIDED
    && (forall id | id in s.handlers :: Paired(s.handlers[id].verdict))
    && s.total == Sum(s.decided) + |Pending(s.handlers)|
    && (s.reader.Loading? ==>
          && |s.reader.seen| <= DECIDED
          && (forall i | 0 <= i < |s.reader.seen| :: s.reader.seen[i] <= s.decided[i])
          && Sum(s.reader.seen) + Sum(s.decided[|s.reader.seen|..]) + s.reader.inFlight >= s.reader.total)
  }

  // ---------------------------------------------------------------- sums

  lemma {:induction false} SumConcat(a: seq<nat>, b: seq<nat>)
    ensures Sum(a + b) == Sum(a) + Sum(b)
  {
    if a == [] {
      assert a + b == b;
    } else {
      assert (a + b)[1..] == a[1..] + b;
      SumConcat(a[1..], b);
    }
  }

  lemma {:induction false} SumBump(xs: seq<nat>, i: nat)
    requires i < |xs|
    ensures Sum(xs[i := xs[i] + 1]) == Sum(xs) + 1
  {
    var ys := xs[i := xs[i] + 1];
    if i > 0 {
      SumBump(xs[1..], i - 1);
      assert ys[1..] == xs[1..][i - 1 := xs[i] + 1];
    } else {
      assert ys[1..] == xs[1..];
    }
  }

  /** A counter only grows, and so does every tail of the counters. */
  lemma TailBump(xs: seq<nat>, i: nat, k: nat)
    requires i < |xs| && k <= |xs|
    ensures Sum(xs[i := xs[i] + 1][k..]) >= Sum(xs[k..])
  {
    var ys := xs[i := xs[i] + 1];
    if i >= k {
      assert ys[k..] == xs[k..][i - k := xs[k..][i - k] + 1];
      SumBump(xs[k..], i - k);
    } else {
      assert ys[k..] == xs[k..];
    }
  }

  lemma {:induction false} SumAtMost(xs: seq<nat>, ys: seq<nat>)
    requires |xs| == |ys| && forall i | 0 <= i < |xs| :: xs[i] <= ys[i]
    ensures Sum(xs) <= Sum(ys)
  {
    if xs != [] {
      SumAtMost(xs[1..], ys[1..]);
    }
  }

  // ---------------------------------------------------------------- every step keeps the invariant

  lemma CountTotalKeeps(s: State, id: nat, v: Verdict)
    requires Inv(s) && Enabled(s, CountTotal(id, v))
    ensures Inv(Take(s, CountTotal(id, v)))
  {
    var t := Take(s, CountTotal(id, v));
    assert Pending(t.handlers) == Pending(s.handlers) + {id};
  }

  lemma BumpKeepsReader(s: State, i: nat, handlers: map<nat, Handler>)
    requires Inv(s) && i < DECIDED
    requires forall id | id in handlers :: Paired(handlers[id].verdict)
    requires |Pending(handlers)| + 1 == |Pending(s.handlers)|
    ensures Inv(s.(decided := s.decided[i := s.decided[i] + 1], handlers := handlers))
  {
    SumBump(s.decided, i);
    if s.reader.Loading? {
      TailBump(s.decided, i, |s.reader.seen|);
    }
  }

  lemma RecordReasonKeeps(s: State, id: nat)
    requires Inv(s) && Enabled(s, RecordReason(id))
    ensures Inv(Take(s, RecordReason(id)))
  {
    var v := s.handlers[id].verdict;
    var handlers := s.handlers[id := RecordedReason(v)];
    if v.kind == Accept {
      assert Pending(handlers) == Pending(s.handlers);
    } else {
      assert Pending(handlers) == Pending(s.handlers) - {id};
      BumpKeepsReader(s, Slot(v.reason), handlers);
    }
  }

  lemma RecordPassKeeps(s: State, id: nat)
    requires Inv(s) && Enabled(s, RecordPass(id))
    ensures Inv(Take(s, RecordPass(id)))
  {
    var handlers := s.handlers - {id};
    if s.handlers[id].verdict.kind == Accept {
      assert Pending(handlers) == Pending(s.handlers) - {id};
      BumpKeepsReader(s, 0, handlers);
    } else {
      assert Pending(handlers) == Pending(s.handlers);
    }
  }

  lemma PendingAtMost(handlers: map<nat, Handler>)
    ensures |Pending(handlers)| <= |handlers|
  {
    assert Pending(handlers) <= handlers.Keys;
    SubsetSize(Pending(handlers), handlers.Keys);
  }

  lemma SubsetSize(a: set<nat>, b: set<nat>)
    requires a <= b
    ensures |a| <= |b|
  {
    assert b == a + (b - a);
  }

  lemma LoadKeeps(s: State, a: Action)
    requires Inv(s) && (a.LoadTotal? || a.LoadNext?) && Enabled(s, a)
    ensures Inv(Take(s, a))
  {
    if a.LoadTotal? {
      PendingAtMost(s.handlers);
      assert s.decided[0..] == s.decided;
    } else {
      var k := |s.reader.seen|;
      SumConcat(s.reader.seen, [s.decided[k]]);
      assert s.decided[k..][1..] == s.decided[k + 1..];
    }
  }

  lemma StepKeeps(s: State, a: Action)
    requires Inv(s) && Enabled(s, a)
    ensures Inv(Take(s, a))
  {
    match a
    case CountTotal(id, v) => CountTotalKeeps(s, id, v);
    case RecordReason(id) => RecordReasonKeeps(s, id);
    case RecordPass(id) => RecordPassKeeps(s, id);
    case LoadTotal => LoadKeeps(s, a);
    case LoadNext => LoadKeeps(s, a);
  }

  // ---------------------------------------------------------------- every interleaving

  /** The state after a sequence of actions, if each is enabled in its turn. */
  function After(s: State, actions: seq<Action>): Option<State>
    decreases |actions|
  {
    if actions == [] then Some(s)
    else if !Enabled(s, actions[0]) then None
    else After(Take(s, actions[0]), actions[1..])
  }

  lemma {:induction false} ReachableKeeps(s: State, actions: seq<Action>)
    requires Inv(s) && After(s, actions).Some?
    ensures Inv(After(s, actions).value)
    decreases |actions|
  {
    if actions != [] {
      StepKeeps(s, actions[0]);
      ReachableKeeps(Take(s, actions[0]), actions[1..]);
    }
  }

  lemma FreshInv()
    ensures Inv(Fresh())
  {
    var zeros := Fresh().decided;
    assert Sum(zeros) == 0 by {
      SumConcat([0, 0, 0], [0, 0, 0, 0]);
      assert zeros == [0, 0, 0] + [0, 0, 0, 0];
      SumConcat([0, 0], [0, 0]);
      assert [0, 0, 0, 0] == [0, 0] + [0, 0];
    }
    assert Pending(Fresh().handlers) == {};
  }

  /**
    In every interleaving, once the decided counters are loaded their sum is at least the loaded
    total less the handlers that were in flight when it was loaded, and at most the current total.
   */
  lemma SnapshotBounds(actions: seq<Action>)
    requires After(Fresh(), actions).Some?
    ensures var s := After(Fresh(), actions).value;
            s.reader.Loading? && |s.reader.seen| == DECIDED ==>
              s.reader.total - s.reader.inFlight <= Sum(s.reader.seen) <= s.total
  {
    FreshInv();
    ReachableKeeps(Fresh(), actions);
    var s := After(Fresh(), actions).value;
    if s.reader.Loading? && |s.reader.seen| == DECIDED {
      SumAtMost(s.reader.seen, s.decided);
      assert s.decided[DECIDED..] == [];
    }
  }

  /** In every interleaving, with no handler in flight the total is the sum of the decided counters. */
  lemma QuietStateBalances(actions: seq<Action>)
    requires After(Fresh(), actions).Some? && After(Fresh(), actions).value.handlers == map[]
    ensures var s := After(Fresh(), actions).value; s.total == Sum(s.decided)
  {
    FreshInv();
    ReachableKeeps(Fresh(), actions);
    assert Pending(map[]) == {};
  }

  // ---------------------------------------------------------------- what each counter counts

  function CountsReason(a: Action, r: Reason): nat { if a.CountTotal? && a.v.reason == r then 1 else 0 }

  function CountsAccept(a: Action): nat { if a.CountTotal? && a.v.kind == Accept then 1 else 0 }

  /** How many handlers counted a packet with this reason. */
  function Taken(actions: seq<Action>, r: Reason): nat {
    if actions == [] then 0 else CountsReason(actions[0], r) + Taken(actions[1..], r)
  }

  /** How many handlers counted a packet that is accepted. */
  function TakenAccepts(actions: seq<Action>): nat {
    if actions == [] then 0 else CountsAccept(actions[0]) + TakenAccepts(actions[1..])
  }

  /** Handlers that have yet to record this reason. */
  function Waiting(handlers: map<nat, Handler>, r: Reason): set<nat> {
    set id | id in handlers && handlers[id].CountedTotal? && handlers[id].verdict.reason == r
  }

  /** Handlers that have yet to record that they accept. */
  function Accepting(handlers: map<nat, Handler>): set<nat> {
    set id | id in handlers && handlers[id].verdict.kind == Accept
  }

  predicate Blocking(r: Reason) { r != NoReason && r != Malformed }

  /** The action records this reason, or that a packet is accepted. */
  predicate RecordsReason(s: State, a: Action, r: Reason) {
    a.RecordReason? && Enabled(s, a) && s.handlers[a.id].verdict.reason == r
  }

  predicate RecordsAccept(s: State, a: Action) {
    a.RecordPass? && Enabled(s, a) && s.handlers[a.id].verdict.kind == Accept
  }

  lemma WaitingMore(h: map<nat, Handler>, id: nat, v: Verdict, r: Reason)
    requires id !in h
    ensures |Waiting(h[id := CountedTotal(v)], r)| == |Waiting(h, r)| + if v.reason == r then 1 else 0
  {
    assert Waiting(h[id := CountedTotal(v)], r) == if v.reason == r then Waiting(h, r) + {id} else Waiting(h, r);
  }

  lemma WaitingLess(h: map<nat, Handler>, id: nat, r: Reason)
    requires id in h && h[id].CountedTotal?
    ensures |Waiting(h[id := RecordedReason(h[id].verdict)], r)| + (if h[id].verdict.reason == r then 1 else 0) == |Waiting(h, r)|
  {
    assert Waiting(h[id := RecordedReason(h[id].verdict)], r) == Waiting(h, r) - {id};
  }

  lemma WaitingSame(h: map<nat, Handler>, id: nat, r: Reason)
    requires id in h && h[id].RecordedReason?
    ensures Waiting(h - {id}, r) == Waiting(h, r)
  {
  }

  lemma WaitingStep(s: State, a: Action, r: Reason)
    requires Enabled(s, a)
    ensures |Waiting(Take(s, a).handlers, r)| + (if RecordsReason(s, a, r) then 1 else 0) ==
            |Waiting(s.handlers, r)| + CountsReason(a, r)
  {
    if a.CountTotal? {
      WaitingMore(s.handlers, a.id, a.v, r);
    } else if a.RecordReason? {
      WaitingLess(s.handlers, a.id, r);
    } else if a.RecordPass? {
      WaitingSame(s.handlers, a.id, r);
    }
  }

  lemma AcceptingStep(s: State, a: Action)
    requires Enabled(s, a)
    ensures |Accepting(Take(s, a).handlers)| + (if RecordsAccept(s, a) then 1 else 0) ==
            |Accepting(s.handlers)| + CountsAccept(a)
  {
    var w, w' := Accepting(s.handlers), Accepting(Take(s, a).handlers);
    if a.CountTotal? {
      assert w' == if a.v.kind == Accept then w + {a.id} else w;
    } else if a.RecordPass? {
      assert w' == w - {a.id};
    } else {
      assert w' == w;
    }
  }

  lemma DecidedStep(s: State, a: Action, r: Reason)
    requires Enabled(s, a) && Blocking(r)
    ensures |Take(s, a).decided| == DECIDED
    ensures Take(s, a).decided[Slot(r)] == s.decided[Slot(r)] + if RecordsReason(s, a, r) then 1 else 0
    ensures Take(s, a).decided[0] == s.decided[0] + if RecordsAccept(s, a) then 1 else 0
  {
  }

  lemma {:induction false} ReasonRun(s: State, actions: seq<Action>, r: Reason)
    requires |s.decided| == DECIDED && After(s, actions).Some? && Blocking(r)
    ensures var t := After(s, actions).value;
            |t.decided| == DECIDED &&
            t.decided[Slot(r)] + |Waiting(t.handlers, r)| == s.decided[Slot(r)] + |Waiting(s.handlers, r)| + Taken(actions, r)
    decreases |actions|
  {
    if actions != [] {
      WaitingStep(s, actions[0], r);
      DecidedStep(s, actions[0], r);
      ReasonRun(Take(s, actions[0]), actions[1..], r);
    }
  }

  lemma {:induction false} AcceptRun(s: State, actions: seq<Action>)
    requires |s.decided| == DECIDED && After(s, actions).Some?
    ensures var t := After(s, actions).value;
            |t.decided| == DECIDED &&
            t.decided[0] + |Accepting(t.handlers)| == s.decided[0] + |Accepting(s.handlers)| + TakenAccepts(actions)
    decreases |actions|
  {
    if actions != [] {
      AcceptingStep(s, actions[0]);
      DecidedStep(s, actions[0], Http);
      AcceptRun(Take(s, actions[0]), actions[1..]);
    }
  }

  lemma QuietReason(actions: seq<Action>, r: Reason)
    requires After(Fresh(), actions).Some? && After(Fresh(), actions).value.handlers == map[] && Blocking(r)
    ensures |After(Fresh(), actions).value.decided| == DECIDED
    ensures After(Fresh(), actions).value.decided[Slot(r)] == Taken(actions, r)
  {
    ReasonRun(Fresh(), actions, r);
    assert Waiting(map[], r) == {};
  }

  /**
    In every interleaving, once no handler is in flight each counter is the number of packets it is
    named after; the counters are in the order in which they are loaded.
   */
  lemma QuietCountersTell(actions: seq<Action>)
    requires After(Fresh(), actions).Some? && After(Fresh(), actions).value.handlers == map[]
    ensures After(Fresh(), actions).value.decided ==
            [TakenAccepts(actions), Taken(actions, Http), Taken(actions, Tls), Taken(actions, DnsPoison),
             Taken(actions, DnsDrop), Taken(actions, Ip), Taken(actions, IpPort)]
  {
    AcceptRun(Fresh(), actions);
    assert Accepting(map[]) == {};
    QuietReason(actions, Http);
    QuietReason(actions, Tls);
    QuietReason(actions, DnsPoison);
    QuietReason(actions, DnsDrop);
    QuietReason(actions, Ip);
    QuietReason(actions, IpPort);
  }
}
