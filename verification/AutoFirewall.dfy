/** The automatic manager: candidates tried in turn, and what is left of those that failed. */
module AutoFirewall {
  import opened Bytes
  import opened RuleLists
  import opened Firewall
  import opened Netfilter
  import opened Installation

  /** The candidates of `newFirewallManager`, by the programs that are installed. */
  function Candidates(hasNft: bool, available: set<Bin>): seq<Backend> {
    (if hasNft then [Nft] else []) +
    (if Iptables in available then [Ipt(Iptables, Ip6tables)] else []) +
    (if IptablesLegacy in available then [Ipt(IptablesLegacy, Ip6tablesLegacy)] else [])
  }

  /** No two managers work on the same rules. */
  predicate Apart(a: Backend, b: Backend) {
    !(a.Nft? && b.Nft?) && (a.Ipt? && b.Ipt? ==> {a.v4, a.v6} !! {b.v4, b.v6})
  }

  predicate Separate(cands: seq<Backend>) {
    (forall i | 0 <= i < |cands| :: ProperBackend(cands[i])) &&
    forall i, j | 0 <= i < j < |cands| :: Apart(cands[i], cands[j])
  }

  lemma CandidatesSeparate(hasNft: bool, available: set<Bin>)
    ensures Separate(Candidates(hasNft, available))
    ensures forall i | 0 <= i < |Candidates(hasNft, available)| ::
              Candidates(hasNft, available)[i].Ipt? ==> Candidates(hasNft, available)[i].v4 in available
  {
    var cands := Candidates(hasNft, available);
    forall i, j | 0 <= i < j < |cands| ensures Apart(cands[i], cands[j]) {
    }
  }

  /** nftables is preferred to iptables, and iptables to its legacy variant. */
  function Rank(b: Backend): nat {
    match b
    case Nft => 0
    case Ipt(v4, _) => if v4 == Iptables then 1 else 2
  }

  /** Exactly the managers whose program exists are tried, in order of preference. */
  lemma CandidatesRanked(hasNft: bool, available: set<Bin>)
    ensures var cands := Candidates(hasNft, available);
            && (Nft in cands <==> hasNft)
            && (Ipt(Iptables, Ip6tables) in cands <==> Iptables in available)
            && (Ipt(IptablesLegacy, Ip6tablesLegacy) in cands <==> IptablesLegacy in available)
            && (forall b | b in cands :: b in {Nft, Ipt(Iptables, Ip6tables), Ipt(IptablesLegacy, Ip6tablesLegacy)})
            && forall i, j | 0 <= i < j < |cands| :: Rank(cands[i]) < Rank(cands[j])
  {
  }

  /** Some candidate manages the chain. */
  predicate Anyone(available: set<Bin>, cands: seq<Backend>, cfg: QueueConfig, key: Key) {
    exists i | 0 <= i < |cands| :: Managed(available, cands[i], cfg, key)
  }

  lemma AnyoneSnoc(available: set<Bin>, cands: seq<Backend>, n: nat, cfg: QueueConfig, key: Key)
    requires n < |cands|
    ensures Anyone(available, cands[..n + 1], cfg, key) <==>
            Anyone(available, cands[..n], cfg, key) || Managed(available, cands[n], cfg, key)
  {
    if Anyone(available, cands[..n], cfg, key) {
      var i :| 0 <= i < n && Managed(available, cands[..n][i], cfg, key);
      assert cands[..n + 1][i] == cands[i];
    }
    if Managed(available, cands[n], cfg, key) {
      assert cands[..n + 1][n] == cands[n];
    }
    if Anyone(available, cands[..n + 1], cfg, key) {
      var i :| 0 <= i < n + 1 && Managed(available, cands[..n + 1][i], cfg, key);
      if i < n {
        assert cands[..n][i] == cands[i];
      }
    }
  }

  /** A chain belongs to one candidate at most. */
  lemma OneOwner(available: set<Bin>, cands: seq<Backend>, n: nat, cfg: QueueConfig, key: Key)
    requires Separate(cands) && n < |cands| && Managed(available, cands[n], cfg, key)
    ensures !Anyone(available, cands[..n], cfg, key)
  {
    forall i | 0 <= i < n ensures !Managed(available, cands[..n][i], cfg, key) {
      assert Apart(cands[i], cands[n]);
    }
  }

  lemma OneNft(cands: seq<Backend>, n: nat)
    requires Separate(cands) && n < |cands| && cands[n].Nft?
    ensures Nft !in cands[..n]
  {
    forall i | 0 <= i < n ensures cands[..n][i] != Nft {
      assert Apart(cands[i], cands[n]);
    }
  }

  // ---------------------------------------------------------------- how far it got

  /** Every chain of the candidates is taken back, and every other one as it was. */
  ghost predicate AllRetracted(available: set<Bin>, cands: seq<Backend>, cfg: QueueConfig, was: Lists, now: Lists) {
    forall k :: if Anyone(available, cands, cfg, k) then Retracted(ListAt(was, k), ListAt(now, k), Wanted(cfg))
                else ListAt(now, k) == ListAt(was, k)
  }

  /** The first `at` candidates are taken back, candidate `at` is installed, and the rest is as it was. */
  ghost predicate Reached(available: set<Bin>, cands: seq<Backend>, cfg: QueueConfig, was: Lists, now: Lists, at: nat)
    requires at < |cands|
  {
    forall k :: if Anyone(available, cands[..at], cfg, k) then Retracted(ListAt(was, k), ListAt(now, k), Wanted(cfg))
                else ListAt(now, k) == InstalledAt(available, cands[at], cfg, was, k)
  }

  /** One more candidate failed and was cleaned up. */
  lemma RetractOne(available: set<Bin>, cands: seq<Backend>, n: nat, cfg: QueueConfig, was: Lists, mid: Lists, now: Lists)
    requires Separate(cands) && n < |cands| && AllRetracted(available, cands[..n], cfg, was, mid)
    requires forall k :: if Managed(available, cands[n], cfg, k) then Retracted(ListAt(mid, k), ListAt(now, k), Wanted(cfg))
                         else ListAt(now, k) == ListAt(mid, k)
    ensures AllRetracted(available, cands[..n + 1], cfg, was, now)
  {
    forall k ensures if Anyone(available, cands[..n + 1], cfg, k) then Retracted(ListAt(was, k), ListAt(now, k), Wanted(cfg))
                     else ListAt(now, k) == ListAt(was, k)
    {
      AnyoneSnoc(available, cands, n, cfg, k);
      if Managed(available, cands[n], cfg, k) {
        OneOwner(available, cands, n, cfg, k);
      }
    }
  }

  /** One candidate's installation and cleanup, seen from every chain. */
  lemma FailedAttempt(available: set<Bin>, b: Backend, cfg: QueueConfig, was: Lists, mid: Lists, now: Lists, sent: seq<Cmd>)
    requires b.Ipt? && ProperBackend(b) && Inserted(available, b, cfg, was, mid, sent)
    requires forall k :: ListAt(now, k) == CleanedAt(available, b, cfg, mid, k)
    ensures forall k :: if Managed(available, b, cfg, k) then Retracted(ListAt(was, k), ListAt(now, k), Wanted(cfg))
                        else ListAt(now, k) == ListAt(was, k)
  {
    forall k ensures if Managed(available, b, cfg, k) then Retracted(ListAt(was, k), ListAt(now, k), Wanted(cfg))
                     else ListAt(now, k) == ListAt(was, k)
    {
      if Managed(available, b, cfg, k) {
        CleanupRetracts(available, b, cfg, was, mid, sent, k);
      } else {
        UnmanagedKept(available, b, cfg, was, mid, sent, k);
      }
    }
  }

  /** One candidate's complete installation after the others were taken back. */
  lemma ReachOne(available: set<Bin>, cands: seq<Backend>, n: nat, cfg: QueueConfig, was: Lists, mid: Lists, now: Lists)
    requires Separate(cands) && n < |cands| && AllRetracted(available, cands[..n], cfg, was, mid)
    requires forall k :: ListAt(now, k) == InstalledAt(available, cands[n], cfg, mid, k)
    ensures Reached(available, cands, cfg, was, now, n)
  {
    forall k ensures if Anyone(available, cands[..n], cfg, k) then Retracted(ListAt(was, k), ListAt(now, k), Wanted(cfg))
                     else ListAt(now, k) == InstalledAt(available, cands[n], cfg, was, k)
    {
      if Managed(available, cands[n], cfg, k) {
        OneOwner(available, cands, n, cfg, k);
      }
    }
  }

  /** An attempt from command `from` up to `to` failed: no program, or the last command did. */
  ghost predicate AttemptFailed(available: set<Bin>, fails: nat -> bool, b: Backend, from: nat, to: nat) {
    (b.Ipt? && b.v4 !in available) || (from < to && fails(to - 1))
  }

  ghost predicate AttemptWorked(available: set<Bin>, fails: nat -> bool, b: Backend, from: nat, to: nat) {
    (b.Ipt? ==> b.v4 in available) && from <= to && forall t | from <= t < to :: !fails(t)
  }

  /** Candidate `j` was tried from command `starts[j]` on, and every one before `at` failed. */
  ghost predicate TriedInTurn(available: set<Bin>, fails: nat -> bool, cands: seq<Backend>, starts: seq<nat>, at: nat) {
    at <= |cands| && at < |starts| && forall j | 0 <= j < at :: AttemptFailed(available, fails, cands[j], starts[j], starts[j + 1])
  }

  lemma TriedOneMore(available: set<Bin>, fails: nat -> bool, cands: seq<Backend>, starts: seq<nat>, clock: nat)
    requires 0 < |starts| <= |cands| && TriedInTurn(available, fails, cands, starts, |starts| - 1)
    requires AttemptFailed(available, fails, cands[|starts| - 1], starts[|starts| - 1], clock)
    ensures TriedInTurn(available, fails, cands, starts + [clock], |starts|)
  {
  }

  /** When no command fails, the first candidate that has its program is the one. */
  lemma FirstOneWorks(available: set<Bin>, fails: nat -> bool, cands: seq<Backend>, starts: seq<nat>, at: nat)
    requires TriedInTurn(available, fails, cands, starts, at) && forall t :: !fails(t)
    requires cands != [] && forall i | 0 <= i < |cands| :: cands[i].Ipt? ==> cands[i].v4 in available
    ensures at == 0
  {
    assert at > 0 ==> AttemptFailed(available, fails, cands[0], starts[0], starts[1]);
  }

  lemma CompleteAttempt(available: set<Bin>, b: Backend, cfg: QueueConfig, was: Lists, now: Lists)
    requires b.Ipt? && ProperBackend(b) && b.v4 in available
    requires Inserted(available, b, cfg, was, now, Commands(available, b, cfg))
    ensures forall k :: ListAt(now, k) == InstalledAt(available, b, cfg, was, k)
  {
    forall k ensures ListAt(now, k) == InstalledAt(available, b, cfg, was, k) {
      CommandsInstall(available, b, cfg, was, k);
    }
  }

  class AutoManager {
    const kernel: Kernel
    const cfg: QueueConfig
    const candidates: seq<Backend>
    var active: Option<Backend>

    constructor (kernel: Kernel, cfg: QueueConfig, candidates: seq<Backend>)
      ensures this.kernel == kernel && this.cfg == cfg && this.candidates == candidates && active == None
    {
      this.kernel, this.cfg, this.candidates, active := kernel, cfg, candidates, None;
    }

    /** One round of the loop: install, and clean up again if that fails. */
    method Attempt(b: Backend) returns (ok: bool)
      requires ProperBackend(b)
      modifies kernel
      ensures ok ==> AttemptWorked(kernel.available, kernel.fails, b, old(kernel.clock), kernel.clock)
      ensures !ok ==> AttemptFailed(kernel.available, kernel.fails, b, old(kernel.clock), kernel.clock)
      ensures b.Ipt? ==> kernel.table == old(kernel.table)
      ensures b.Nft? ==> kernel.table == if ok then Some(Script(cfg)) else None
      ensures ok ==> forall k :: ListAt(kernel.lists, k) == InstalledAt(kernel.available, b, cfg, old(kernel.lists), k)
      ensures !ok ==> forall k ::
                if Managed(kernel.available, b, cfg, k) then Retracted(ListAt(old(kernel.lists), k), ListAt(kernel.lists, k), Wanted(cfg))
                else ListAt(kernel.lists, k) == ListAt(old(kernel.lists), k)
    {
      ghost var sent;
      ok, sent := kernel.Install(b, cfg);
      if ok {
        if b.Ipt? {
          CompleteAttempt(kernel.available, b, cfg, old(kernel.lists), kernel.lists);
        }
        return;
      }
      ghost var mid := kernel.lists;
      kernel.Cleanup(b, cfg);
      if b.Ipt? {
        FailedAttempt(kernel.available, b, cfg, old(kernel.lists), mid, kernel.lists, sent);
      }
    }

    /** `autoFirewall.Install`; `at` is the candidate that succeeded. */
    method Install() returns (ok: bool, ghost at: nat, ghost starts: seq<nat>)
      requires Separate(candidates)
      modifies this, kernel
      ensures at <= |candidates| && (ok <==> at < |candidates|)
      ensures TriedInTurn(kernel.available, kernel.fails, candidates, starts, at) && starts[0] == old(kernel.clock)
      ensures ok ==> AttemptWorked(kernel.available, kernel.fails, candidates[at], starts[at], kernel.clock)
      ensures active == if ok then Some(candidates[at]) else old(active)
      ensures ok ==> Reached(kernel.available, candidates, cfg, old(kernel.lists), kernel.lists, at)
      ensures !ok ==> AllRetracted(kernel.available, candidates, cfg, old(kernel.lists), kernel.lists)
      ensures kernel.table ==
              if Nft in candidates[..at] then None
              else if ok && candidates[at].Nft? then Some(Script(cfg)) else old(kernel.table)
    {
      starts := [kernel.clock];
      for i := 0 to |candidates|
        invariant active == old(active) && |starts| == i + 1 && starts[i] == kernel.clock && starts[0] == old(kernel.clock)
        invariant TriedInTurn(kernel.available, kernel.fails, candidates, starts, i)
        invariant AllRetracted(kernel.available, candidates[..i], cfg, old(kernel.lists), kernel.lists)
        invariant kernel.table == if Nft in candidates[..i] then None else old(kernel.table)
      {
        ghost var mid := kernel.lists;
        ok := Attempt(candidates[i]);
        if ok {
          ReachOne(kernel.available, candidates, i, cfg, old(kernel.lists), mid, kernel.lists);
          if candidates[i].Nft? {
            OneNft(candidates, i);
          }
          active := Some(candidates[i]);
          at := i;
          return;
        }
        TriedOneMore(kernel.available, kernel.fails, candidates, starts, kernel.clock);
        starts := starts + [kernel.clock];
        RetractOne(kernel.available, candidates, i, cfg, old(kernel.lists), mid, kernel.lists);
        assert candidates[..i + 1] == candidates[..i] + [candidates[i]];
      }
      ok, at := false, |candidates|;
      assert candidates[..at] == candidates;
    }

    /** `autoFirewall.Cleanup`: every candidate, whichever is active. */
    method Cleanup()
      requires Separate(candidates)
      modifies this, kernel
      ensures active == None
      ensures kernel.table == if Nft in candidates then None else old(kernel.table)
      ensures forall k :: ListAt(kernel.lists, k) ==
                if Anyone(kernel.available, candidates, cfg, k) then Cleaned(ListAt(old(kernel.lists), k), Wanted(cfg))
                else ListAt(old(kernel.lists), k)
    {
      for i := 0 to |candidates|
        invariant kernel.table == if Nft in candidates[..i] then None else old(kernel.table)
        invariant forall k :: ListAt(kernel.lists, k) ==
                    if Anyone(kernel.available, candidates[..i], cfg, k) then Cleaned(ListAt(old(kernel.lists), k), Wanted(cfg))
                    else ListAt(old(kernel.lists), k)
      {
        kernel.Cleanup(candidates[i], cfg);
        assert candidates[..i + 1] == candidates[..i] + [candidates[i]];
        forall k ensures Anyone(kernel.available, candidates[..i + 1], cfg, k) <==>
                         Anyone(kernel.available, candidates[..i], cfg, k) || Managed(kernel.available, candidates[i], cfg, k)
        {
          AnyoneSnoc(kernel.available, candidates, i, cfg, k);
        }
        forall k | Managed(kernel.available, candidates[i], cfg, k) ensures !Anyone(kernel.available, candidates[..i], cfg, k) {
          OneOwner(kernel.available, candidates, i, cfg, k);
        }
      }
      assert candidates[..|candidates|] == candidates;
      active := None;
    }
  }

  // ---------------------------------------------------------------- what the outcomes mean

  ghost predicate FewEverywhere(available: set<Bin>, cands: seq<Backend>, cfg: QueueConfig, lists: Lists) {
    forall i | 0 <= i < |cands| :: FewCopies(available, cands[i], cfg, lists)
  }

  /** None of the candidates' rules is left, and nothing else has changed. */
  ghost predicate Cleared(available: set<Bin>, cands: seq<Backend>, cfg: QueueConfig, was: Lists, now: Lists) {
    (forall i | 0 <= i < |cands| :: !Leftover(available, cands[i], cfg, now)) &&
    forall k :: ListAt(now, k) ==
      if Anyone(available, cands, cfg, k) then Without(ListAt(was, k), Wanted(cfg)) else ListAt(was, k)
  }

  lemma ListsCleared(available: set<Bin>, cands: seq<Backend>, cfg: QueueConfig, was: Lists, now: Lists)
    requires forall k :: ListAt(now, k) ==
               if Anyone(available, cands, cfg, k) then Without(ListAt(was, k), Wanted(cfg)) else ListAt(was, k)
    ensures Cleared(available, cands, cfg, was, now)
  {
    forall i | 0 <= i < |cands| ensures !Leftover(available, cands[i], cfg, now) {
      forall k, r | Managed(available, cands[i], cfg, k) && r in Wanted(cfg) ensures r !in ListAt(now, k) {
        WithoutHasNone(ListAt(was, k), Wanted(cfg), r);
      }
    }
  }

  /** A failed installation leaves none of its rules anywhere. */
  lemma FailureClears(available: set<Bin>, cands: seq<Backend>, cfg: QueueConfig, was: Lists, now: Lists)
    requires AllRetracted(available, cands, cfg, was, now) && FewEverywhere(available, cands, cfg, was)
    ensures Cleared(available, cands, cfg, was, now)
  {
    forall k | Anyone(available, cands, cfg, k) ensures ListAt(now, k) == Without(ListAt(was, k), Wanted(cfg)) {
      RetractedIsWithout(ListAt(was, k), ListAt(now, k), Wanted(cfg));
    }
    ListsCleared(available, cands, cfg, was, now);
  }

  /** Success at candidate `at`: earlier candidates clean, one copy of each rule there, later ones untouched. */
  lemma SuccessMeans(available: set<Bin>, cands: seq<Backend>, cfg: QueueConfig, was: Lists, now: Lists, at: nat, i: nat, k: Key, r: Rule)
    requires Separate(cands) && at < |cands| && i < |cands|
    requires Reached(available, cands, cfg, was, now, at) && FewEverywhere(available, cands, cfg, was)
    requires Managed(available, cands[i], cfg, k) && r in Wanted(cfg)
    ensures Count(ListAt(now, k), r) == if i < at then 0 else if i == at then 1 else Count(ListAt(was, k), r)
    ensures Without(ListAt(now, k), Wanted(cfg)) == Without(ListAt(was, k), Wanted(cfg))
    ensures i > at ==> ListAt(now, k) == ListAt(was, k)
  {
    var was', now' := ListAt(was, k), ListAt(now, k);
    assert FewCopies(available, cands[i], cfg, was);
    if i < at {
      assert cands[..at][i] == cands[i];
      RetractedIsWithout(was', now', Wanted(cfg));
      assert r !in multiset(now');
    } else {
      OneOwner(available, cands, i, cfg, k);
      AnyoneShrinks(available, cands, at, i, cfg, k);
      if i == at {
        WantedDistinct(cfg);
        InstalledCounts(was', Wanted(cfg), r);
        InstalledKeepsOthers(was', Wanted(cfg));
      } else {
        assert cands[..i][at] == cands[at];
      }
    }
  }

  lemma AnyoneShrinks(available: set<Bin>, cands: seq<Backend>, m: nat, n: nat, cfg: QueueConfig, key: Key)
    requires m <= n <= |cands|
    ensures Anyone(available, cands[..m], cfg, key) ==> Anyone(available, cands[..n], cfg, key)
  {
    if Anyone(available, cands[..m], cfg, key) {
      var i :| 0 <= i < m && Managed(available, cands[..m][i], cfg, key);
      assert cands[..n][i] == cands[i];
    }
  }

  /** Cleaning a chain after an installation that reached candidate `at` gives it back without the rules. */
  lemma CleanedAfterReached(available: set<Bin>, cands: seq<Backend>, cfg: QueueConfig, was: Lists, mid: Lists, at: nat, k: Key)
    requires at < |cands| && Reached(available, cands, cfg, was, mid, at)
    requires Anyone(available, cands, cfg, k) && FewEverywhere(available, cands, cfg, was)
    ensures Cleaned(ListAt(mid, k), Wanted(cfg)) == Without(ListAt(was, k), Wanted(cfg))
  {
    var list, rules := ListAt(was, k), Wanted(cfg);
    WantedDistinct(cfg);
    assert forall r | r in rules :: Count(list, r) <= 20;
    if Anyone(available, cands[..at], cfg, k) {
      RetractedIsWithout(list, ListAt(mid, k), rules);
      assert forall r | r in rules :: r !in multiset(ListAt(mid, k));
      CleanedIsWithout(ListAt(mid, k), rules);
    } else if Managed(available, cands[at], cfg, k) {
      InstalledThenCleanedIff(list, rules);
    } else {
      CleanedIsWithout(list, rules);
    }
  }

  /** A cleanup after a successful installation leaves none of the rules anywhere. */
  lemma CleanupClears(available: set<Bin>, cands: seq<Backend>, cfg: QueueConfig, was: Lists, mid: Lists, now: Lists, at: nat)
    requires at < |cands| && Reached(available, cands, cfg, was, mid, at) && FewEverywhere(available, cands, cfg, was)
    requires forall k :: ListAt(now, k) ==
               if Anyone(available, cands, cfg, k) then Cleaned(ListAt(mid, k), Wanted(cfg)) else ListAt(mid, k)
    ensures Cleared(available, cands, cfg, was, now)
  {
    forall k ensures ListAt(now, k) ==
                     if Anyone(available, cands, cfg, k) then Without(ListAt(was, k), Wanted(cfg)) else ListAt(was, k)
    {
      if Anyone(available, cands, cfg, k) {
        CleanedAfterReached(available, cands, cfg, was, mid, at, k);
      } else {
        assert cands[..|cands|] == cands;
        AnyoneShrinks(available, cands, at, |cands|, cfg, k);
      }
    }
    ListsCleared(available, cands, cfg, was, now);
  }
}
