/** A run of the queue engine: rules in, queue opened and served, rules out again. */
module Lifecycle {
  import opened Bytes
  import opened RuleLists
  import opened Firewall
  import opened Netfilter
  import opened Installation
  import opened AutoFirewall

  /** What the queue library does when it is asked to open, set an option and register. */
  datatype Setup = Setup(opens: bool, setsOption: bool, registers: bool)

  datatype RunEnd = InstallFailed | OpenFailed | OptionFailed | RegisterFailed | Stopped

  /** How a run ends once the rules are in place. */
  method Serve(setup: Setup) returns (end: RunEnd)
    ensures end != InstallFailed
    ensures end == OpenFailed <==> !setup.opens
    ensures end == OptionFailed <==> setup.opens && !setup.setsOption
    ensures end == Stopped <==> setup.opens && setup.setsOption && setup.registers
  {
    if !setup.opens {
      return OpenFailed;
    }
    if !setup.setsOption {
      return OptionFailed;
    }
    if !setup.registers {
      return RegisterFailed;
    }
    return Stopped;
  }

  /** Some insertion of a complete installation fails, but not the first. */
  ghost predicate FailsMidway(fails: nat -> bool, from: nat, n: nat) {
    !fails(from) && exists t | from < t < from + n :: fails(t)
  }

  lemma SentMidway(fails: nat -> bool, from: nat, sent: nat, n: nat, ok: bool)
    requires Ran(fails, from, sent, ok) && sent <= n && (ok <==> sent == n)
    ensures !ok && sent != 0 <==> FailsMidway(fails, from, n)
  {
    if !ok && sent != 0 {
      assert fails(from + sent);
    }
    if FailsMidway(fails, from, n) {
      var t :| from < t < from + n && fails(t);
    }
  }

  /**
    `Run` with one iptables manager. Every run that gets past the installation takes its rules back.
    A failed installation is not cleaned up: it leaves rules behind exactly when its first command
    succeeds and a later one fails.
   */
  method RunIptables(kernel: Kernel, b: Backend, cfg: QueueConfig, setup: Setup) returns (end: RunEnd)
    requires b.Ipt? && ProperBackend(b)
    modifies kernel
    ensures kernel.table == old(kernel.table)
    ensures forall k :: Without(ListAt(kernel.lists, k), Wanted(cfg)) == Without(ListAt(old(kernel.lists), k), Wanted(cfg))
    ensures forall k | !Managed(kernel.available, b, cfg, k) :: ListAt(kernel.lists, k) == ListAt(old(kernel.lists), k)
    ensures FewCopies(kernel.available, b, cfg, old(kernel.lists)) ==>
              (Leftover(kernel.available, b, cfg, kernel.lists) <==>
               b.v4 in kernel.available && FailsMidway(kernel.fails, old(kernel.clock), |Commands(kernel.available, b, cfg)|))
    ensures FewCopies(kernel.available, b, cfg, old(kernel.lists)) && Leftover(kernel.available, b, cfg, kernel.lists) ==>
              end == InstallFailed
    ensures FewCopies(kernel.available, b, cfg, old(kernel.lists)) && end != InstallFailed ==>
              forall k | Managed(kernel.available, b, cfg, k) ::
                ListAt(kernel.lists, k) == Without(ListAt(old(kernel.lists), k), Wanted(cfg))
  {
    ghost var was := kernel.lists;
    var ok; ghost var sent;
    ok, sent := kernel.Install(b, cfg);
    ghost var mid := kernel.lists;
    if b.v4 in kernel.available {
      PrefixLength(sent, Commands(kernel.available, b, cfg));
      SentMidway(kernel.fails, old(kernel.clock), |sent|, |Commands(kernel.available, b, cfg)|, ok);
    }
    if !ok {
      PartialRun(kernel.available, b, cfg, was, mid, sent);
      return InstallFailed;
    }
    end := Serve(setup);
    kernel.Cleanup(b, cfg);
    CompleteRun(kernel.available, b, cfg, was, mid, kernel.lists, sent);
  }

  lemma PrefixLength(a: seq<Cmd>, b: seq<Cmd>)
    requires a <= b
    ensures a == b <==> |a| == |b|
  {
  }

  lemma PartialRun(available: set<Bin>, b: Backend, cfg: QueueConfig, was: Lists, now: Lists, sent: seq<Cmd>)
    requires b.Ipt? && ProperBackend(b) && Inserted(available, b, cfg, was, now, sent)
    ensures forall k :: Without(ListAt(now, k), Wanted(cfg)) == Without(ListAt(was, k), Wanted(cfg))
    ensures forall k | !Managed(available, b, cfg, k) :: ListAt(now, k) == ListAt(was, k)
    ensures FewCopies(available, b, cfg, was) ==> (Leftover(available, b, cfg, now) <==> sent != [])
  {
    forall k ensures Without(ListAt(now, k), Wanted(cfg)) == Without(ListAt(was, k), Wanted(cfg)) {
      OthersKept(available, b, cfg, was, now, sent, k);
    }
    forall k | !Managed(available, b, cfg, k) ensures ListAt(now, k) == ListAt(was, k) {
      UnmanagedKept(available, b, cfg, was, now, sent, k);
    }
    if FewCopies(available, b, cfg, was) {
      LeftoverIffSent(available, b, cfg, was, now, sent);
    }
  }

  lemma CompleteRun(available: set<Bin>, b: Backend, cfg: QueueConfig, was: Lists, mid: Lists, now: Lists, sent: seq<Cmd>)
    requires b.Ipt? && ProperBackend(b) && Inserted(available, b, cfg, was, mid, sent)
    requires forall k :: ListAt(now, k) == CleanedAt(available, b, cfg, mid, k)
    ensures forall k :: Without(ListAt(now, k), Wanted(cfg)) == Without(ListAt(was, k), Wanted(cfg))
    ensures forall k | !Managed(available, b, cfg, k) :: ListAt(now, k) == ListAt(was, k)
    ensures FewCopies(available, b, cfg, was) ==>
              !Leftover(available, b, cfg, now) &&
              forall k | Managed(available, b, cfg, k) :: ListAt(now, k) == Without(ListAt(was, k), Wanted(cfg))
  {
    FailedAttempt(available, b, cfg, was, mid, now, sent);
    if FewCopies(available, b, cfg, was) {
      NoLeftover(available, b, cfg, was, now);
    }
  }

  /** `Run` with the nftables manager: the table is gone however the run ends. */
  method RunNftables(kernel: Kernel, cfg: QueueConfig, setup: Setup) returns (end: RunEnd)
    modifies kernel
    ensures kernel.table == None && kernel.lists == old(kernel.lists)
  {
    var ok, _ := kernel.Install(Nft, cfg);
    if !ok {
      return InstallFailed;
    }
    end := Serve(setup);
    kernel.Cleanup(Nft, cfg);
  }

  /** `Run` with the automatic manager: however the run ends, none of its rules is left. */
  method RunAuto(auto: AutoManager, setup: Setup) returns (end: RunEnd)
    requires Separate(auto.candidates)
    modifies auto, auto.kernel
    ensures FewEverywhere(auto.kernel.available, auto.candidates, auto.cfg, old(auto.kernel.lists)) ==>
              Cleared(auto.kernel.available, auto.candidates, auto.cfg, old(auto.kernel.lists), auto.kernel.lists)
    ensures auto.kernel.table == if Nft in auto.candidates then None else old(auto.kernel.table)
    ensures end != InstallFailed ==> auto.active == None
  {
    ghost var was := auto.kernel.lists;
    var ok; ghost var at, starts;
    ok, at, starts := auto.Install();
    ghost var mid := auto.kernel.lists;
    ghost var few := FewEverywhere(auto.kernel.available, auto.candidates, auto.cfg, was);
    if !ok {
      if few {
        FailureClears(auto.kernel.available, auto.candidates, auto.cfg, was, mid);
      }
      assert auto.candidates[..at] == auto.candidates;
      return InstallFailed;
    }
    end := Serve(setup);
    assert Nft in auto.candidates[..at] ==> Nft in auto.candidates;
    auto.Cleanup();
    if few {
      CleanupClears(auto.kernel.available, auto.candidates, auto.cfg, was, mid, auto.kernel.lists, at);
    }
  }
}
