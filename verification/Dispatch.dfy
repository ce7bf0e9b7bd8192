/** The program array: how the loader fills it, and what its slots then hold for the tail calls. */
module Dispatch {
  import opened Bytes
  import opened XdpProgram
  import XdpPipeline

  datatype Program = Ipv4 | Ipv6 | Tcp4 | Udp4 | Tcp6 | Udp6 | Http4 | Tls4 | Http6 | Tls6 | Dns4 | Dns6

  /** The loader's list of programs. */
  const PROGRAMS: seq<Program> := [Ipv4, Ipv6, Tcp4, Udp4, Tcp6, Udp6, Http4, Tls4, Http6, Tls6, Dns4, Dns6]

  /** The program that a tail call into a slot is meant for. */
  function Meant(slot: nat): Option<Program> {
    if slot == SLOT_IPV4 then Some(Ipv4) else if slot == SLOT_IPV6 then Some(Ipv6)
    else if slot == SLOT_TCP4 then Some(Tcp4) else if slot == SLOT_UDP4 then Some(Udp4)
    else if slot == SLOT_TCP6 then Some(Tcp6) else if slot == SLOT_UDP6 then Some(Udp6)
    else if slot == SLOT_HTTP4 then Some(Http4) else if slot == SLOT_TLS4 then Some(Tls4)
    else if slot == SLOT_HTTP6 then Some(Http6) else if slot == SLOT_TLS6 then Some(Tls6)
    else if slot == SLOT_DNS4 then Some(Dns4) else if slot == SLOT_DNS6 then Some(Dns6)
    else None
  }

  /** The slots that hold the program their callers mean. */
  function Usable(slots: map<nat, Program>): set<nat> {
    set s | s in slots && Meant(s) == Some(slots[s])
  }

  /** The first `n` programs of the list are in their slots and all other slots are as they were. */
  ghost predicate Filled(was: map<nat, Program>, now: map<nat, Program>, n: nat)
    requires n <= |PROGRAMS|
  {
    && (forall i | 0 <= i < n :: i in now && now[i] == PROGRAMS[i])
    && (forall s | s >= n :: (s in now <==> s in was) && (s in was ==> now[s] == was[s]))
  }

  lemma FilledOneMore(was: map<nat, Program>, now: map<nat, Program>, n: nat)
    requires n < |PROGRAMS| && Filled(was, now, n)
    ensures Filled(was, now[n := PROGRAMS[n]], n + 1)
  {
  }

  class ProgramArray {
    var slots: map<nat, Program>

    constructor ()
      ensures slots == map[]
    {
      slots := map[];
    }

    /**
      `populateDispatchRules`; `missing` says that some program was not loaded and `putFails` what the
      kernel answers to each update.
     */
    method Populate(missing: bool, putFails: nat -> bool) returns (ok: bool, ghost filled: nat)
      modifies this
      ensures filled <= |PROGRAMS| && Filled(old(slots), slots, filled)
      ensures forall i | 0 <= i < filled :: !putFails(i)
      ensures ok <==> filled == |PROGRAMS|
      ensures ok <==> !missing && forall i | 0 <= i < |PROGRAMS| :: !putFails(i)
    {
      filled := 0;
      if missing {
        return false, 0;
      }
      for i := 0 to |PROGRAMS|
        invariant filled == i && Filled(old(slots), slots, i)
        invariant forall j | 0 <= j < i :: !putFails(j)
      {
        if putFails(i) {
          return false, i;
        }
        FilledOneMore(old(slots), slots, i);
        slots := slots[i := PROGRAMS[i]];
        filled := i + 1;
      }
      ok := true;
    }
  }

  /** A filled array is one whose every tail call goes where it is meant to. */
  lemma FilledIsLoaded(was: map<nat, Program>, now: map<nat, Program>)
    requires Filled(was, now, |PROGRAMS|)
    ensures XdpPipeline.AllLoaded(Usable(now))
  {
    forall s | 0 <= s < 12 ensures s in Usable(now) {
      assert now[s] == PROGRAMS[s];
      assert Meant(s) == Some(PROGRAMS[s]);
    }
  }

  /** With a filled array the chain decides what one pass decides. */
  lemma FilledChain(was: map<nat, Program>, now: map<nat, Program>, p: seq<byte>, rules: Rules)
    requires Filled(was, now, |PROGRAMS|)
    ensures FilterStage(p, rules, Usable(now)).verdict == XdpPipeline.OnePass(p, rules)
  {
    FilledIsLoaded(was, now);
    XdpPipeline.ChainIsOnePass(p, rules, Usable(now));
  }
}
