/** Firewall rule lists: deleting the first match, inserting at the head, and what is left over. */
module RuleLists {
  import opened Bytes

  /** Which packets a queue rule takes. */
  datatype Match = AnyPacket | TcpTo(port: u16) | UdpTo(port: u16)

  /** A rule this program installs, or any other rule. */
  datatype Rule = Queue(match_: Match, num: u16, bypass: bool) | Other(text: Text)

  type Rules = seq<Rule>

  /** How often `deleteIPTablesRule` tries. */
  const TRIES := 20

  /** `-D`: the first matching rule goes. */
  function RemoveFirst(list: Rules, r: Rule): Rules {
    if list == [] then []
    else if list[0] == r then list[1..]
    else [list[0]] + RemoveFirst(list[1..], r)
  }

  /** Up to `n` successful deletions of `r`. */
  function RemoveUpTo(list: Rules, r: Rule, n: nat): Rules
    decreases n
  {
    if n == 0 || r !in list then list else RemoveUpTo(RemoveFirst(list, r), r, n - 1)
  }

  /** Every rule of `rules` deleted in turn. */
  function Cleaned(list: Rules, rules: Rules): Rules {
    if rules == [] then list
    else RemoveUpTo(Cleaned(list, rules[..|rules| - 1]), rules[|rules| - 1], TRIES)
  }

  function Count(list: Rules, r: Rule): nat { multiset(list)[r] }

  /** The rules that are not in `rules`, in order. */
  function Without(list: Rules, rules: Rules): Rules {
    if list == [] then []
    else (if list[0] in rules then [] else [list[0]]) + Without(list[1..], rules)
  }

  function Reversed(rules: Rules): Rules {
    if rules == [] then [] else [rules[|rules| - 1]] + Reversed(rules[..|rules| - 1])
  }

  function Excess(c: nat): nat { if c > 20 then c - 20 else 0 }

  predicate Distinct(rules: Rules) { forall i, j | 0 <= i < j < |rules| :: rules[i] != rules[j] }

  // ---------------------------------------------------------------- deleting

  lemma {:induction false} RemoveFirstCounts(list: Rules, r: Rule)
    requires r in list
    ensures multiset(RemoveFirst(list, r)) == multiset(list) - multiset{r}
  {
    assert list == [list[0]] + list[1..];
    if list[0] != r {
      RemoveFirstCounts(list[1..], r);
    }
  }

  lemma RemoveFirstCount(list: Rules, r: Rule, x: Rule)
    requires r in list
    ensures Count(list, r) > 0 && Count(RemoveFirst(list, r), x) == if x == r then Count(list, r) - 1 else Count(list, x)
  {
    RemoveFirstCounts(list, r);
    assert r in multiset(list);
  }

  lemma {:induction false} RemoveUpToCounts(list: Rules, r: Rule, n: nat, x: Rule)
    ensures Count(RemoveUpTo(list, r, n), x) ==
            if x != r then Count(list, x) else if Count(list, r) > n then Count(list, r) - n else 0
    decreases n
  {
    if n > 0 && r in list {
      var less := RemoveFirst(list, r);
      RemoveFirstCount(list, r, x);
      RemoveUpToCounts(less, r, n - 1, x);
      assert RemoveUpTo(list, r, n) == RemoveUpTo(less, r, n - 1);
    }
  }

  lemma {:induction false} RemoveFirstKeepsOthers(list: Rules, r: Rule, rules: Rules)
    requires r in rules
    ensures Without(RemoveFirst(list, r), rules) == Without(list, rules)
  {
    if list != [] && list[0] != r {
      RemoveFirstKeepsOthers(list[1..], r, rules);
      assert RemoveFirst(list, r)[1..] == RemoveFirst(list[1..], r);
    }
  }

  lemma {:induction false} RemoveUpToKeepsOthers(list: Rules, r: Rule, n: nat, rules: Rules)
    requires r in rules
    ensures Without(RemoveUpTo(list, r, n), rules) == Without(list, rules)
    decreases n
  {
    if n > 0 && r in list {
      var less := RemoveFirst(list, r);
      RemoveUpToKeepsOthers(less, r, n - 1, rules);
      RemoveFirstKeepsOthers(list, r, rules);
      assert RemoveUpTo(list, r, n) == RemoveUpTo(less, r, n - 1);
    }
  }

  /** Cleaning removes up to twenty copies of each of its rules and leaves the counts of all others. */
  lemma {:induction false} CleanedCounts(list: Rules, rules: Rules, x: Rule)
    requires Distinct(rules)
    ensures Count(Cleaned(list, rules), x) == if x in rules then Excess(Count(list, x)) else Count(list, x)
  {
    if rules != [] {
      var n := |rules| - 1;
      CleanedCounts(list, rules[..n], x);
      RemoveUpToCounts(Cleaned(list, rules[..n]), rules[n], TRIES, x);
      assert rules == rules[..n] + [rules[n]];
    }
  }

  /** Cleaning never touches or reorders rules outside `all`. */
  lemma {:induction false} CleanedKeepsOthers(list: Rules, rules: Rules, all: Rules)
    requires forall r | r in rules :: r in all
    ensures Without(Cleaned(list, rules), all) == Without(list, all)
  {
    if rules != [] {
      var n := |rules| - 1;
      assert rules[n] in all;
      CleanedKeepsOthers(list, rules[..n], all);
      RemoveUpToKeepsOthers(Cleaned(list, rules[..n]), rules[n], TRIES, all);
    }
  }

  lemma {:induction false} WithoutNone(list: Rules, rules: Rules)
    requires forall r | r in rules :: r !in list
    ensures Without(list, rules) == list
  {
    if list != [] {
      assert list[0] in list;
      assert forall r | r in list[1..] :: r in list;
      WithoutNone(list[1..], rules);
    }
  }

  /** With at most twenty copies of each, cleaning leaves exactly the other rules, in order. */
  lemma CleanedIsWithout(list: Rules, rules: Rules)
    requires Distinct(rules) && forall r | r in rules :: Count(list, r) <= 20
    ensures Cleaned(list, rules) == Without(list, rules)
    ensures forall r | r in rules :: r !in Cleaned(list, rules)
  {
    forall r | r in rules ensures r !in Cleaned(list, rules) {
      CleanedCounts(list, rules, r);
      assert r !in multiset(Cleaned(list, rules));
    }
    WithoutNone(Cleaned(list, rules), rules);
    CleanedKeepsOthers(list, rules, rules);
  }

  // ---------------------------------------------------------------- inserting

  lemma {:induction false} ReversedCounts(rules: Rules)
    ensures multiset(Reversed(rules)) == multiset(rules)
  {
    if rules != [] {
      var n := |rules| - 1;
      ReversedCounts(rules[..n]);
      assert rules == rules[..n] + [rules[n]];
    }
  }

  lemma {:induction false} DistinctCounts(rules: Rules, x: Rule)
    requires Distinct(rules)
    ensures Count(rules, x) == if x in rules then 1 else 0
  {
    if rules != [] {
      var n := |rules| - 1;
      DistinctCounts(rules[..n], x);
      assert rules == rules[..n] + [rules[n]];
    }
  }

  lemma {:induction false} WithoutConcat(a: Rules, b: Rules, rules: Rules)
    ensures Without(a + b, rules) == Without(a, rules) + Without(b, rules)
  {
    if a == [] {
      assert a + b == b;
    } else {
      assert (a + b)[1..] == a[1..] + b;
      WithoutConcat(a[1..], b, rules);
    }
  }

  lemma {:induction false} WithoutAll(list: Rules, rules: Rules)
    requires forall r | r in list :: r in rules
    ensures Without(list, rules) == []
  {
    if list != [] {
      assert list[0] in list;
      WithoutAll(list[1..], rules);
    }
  }

  lemma ReversedMembers(rules: Rules)
    ensures forall r :: r in Reversed(rules) <==> r in rules
  {
    ReversedCounts(rules);
    forall r ensures r in Reversed(rules) <==> r in rules {
      assert r in multiset(Reversed(rules)) <==> r in multiset(rules);
    }
  }

  /** What a completed installation leaves in a list. */
  function Installed(list: Rules, rules: Rules): Rules { Reversed(rules) + Cleaned(list, rules) }

  /** One new copy of each rule on top of what cleaning left; all other counts stay. */
  lemma InstalledCounts(list: Rules, rules: Rules, x: Rule)
    requires Distinct(rules)
    ensures Count(Installed(list, rules), x) == if x in rules then Excess(Count(list, x)) + 1 else Count(list, x)
  {
    CleanedCounts(list, rules, x);
    ReversedCounts(rules);
    DistinctCounts(rules, x);
  }

  /** Installing keeps every other rule, in order. */
  lemma InstalledKeepsOthers(list: Rules, rules: Rules)
    ensures Without(Installed(list, rules), rules) == Without(list, rules)
  {
    WithoutConcat(Reversed(rules), Cleaned(list, rules), rules);
    ReversedMembers(rules);
    WithoutAll(Reversed(rules), rules);
    CleanedKeepsOthers(list, rules, rules);
  }

  lemma InstalledTwiceSame(list: Rules, rules: Rules)
    requires Distinct(rules) && forall r | r in rules :: Count(list, r) <= 20
    ensures Installed(Installed(list, rules), rules) == Installed(list, rules)
  {
    var once := Installed(list, rules);
    forall r | r in rules ensures Count(once, r) <= 20 {
      InstalledCounts(list, rules, r);
    }
    CleanedIsWithout(list, rules);
    CleanedIsWithout(once, rules);
    InstalledKeepsOthers(list, rules);
  }

  /** Installing again changes nothing exactly when there were at most twenty copies of each rule. */
  lemma InstalledIdempotentIff(list: Rules, rules: Rules)
    requires Distinct(rules)
    ensures Installed(Installed(list, rules), rules) == Installed(list, rules) <==>
            forall r | r in rules :: Count(list, r) <= 20
  {
    if r :| r in rules && Count(list, r) > 20 {
      InstalledCounts(list, rules, r);
      InstalledCounts(Installed(list, rules), rules, r);
    } else {
      InstalledTwiceSame(list, rules);
    }
  }

  // ---------------------------------------------------------------- taking back

  /** `now` is `list` after a clean, at most one new copy of each rule, and another clean. */
  ghost predicate Retracted(list: Rules, now: Rules, rules: Rules) {
    Without(now, rules) == Without(list, rules) &&
    forall r | r in rules :: Count(now, r) <= Excess(Excess(Count(list, r)) + 1)
  }

  /** With fewer than forty copies of each rule to begin with, nothing but the other rules is left. */
  lemma RetractedIsWithout(list: Rules, now: Rules, rules: Rules)
    requires Retracted(list, now, rules) && forall r | r in rules :: Count(list, r) < 40
    ensures now == Without(list, rules) && forall r | r in rules :: r !in now
  {
    forall r | r in rules ensures r !in now {
      assert r !in multiset(now);
    }
    WithoutNone(now, rules);
  }

  lemma RetractedBy(list: Rules, between: Rules, rules: Rules)
    requires Distinct(rules) && Without(between, rules) == Without(list, rules)
    requires forall r | r in rules :: Count(between, r) <= Excess(Count(list, r)) + 1
    ensures Retracted(list, Cleaned(between, rules), rules)
  {
    forall r | r in rules ensures Count(Cleaned(between, rules), r) <= Excess(Excess(Count(list, r)) + 1) {
      CleanedCounts(between, rules, r);
    }
    CleanedKeepsOthers(between, rules, rules);
  }

  /** Cleaning after an installation leaves only the other rules exactly when there were fewer than forty copies. */
  lemma InstalledThenCleanedIff(list: Rules, rules: Rules)
    requires Distinct(rules)
    ensures Cleaned(Installed(list, rules), rules) == Without(list, rules) <==>
            forall r | r in rules :: Count(list, r) < 40
  {
    InstalledKeepsOthers(list, rules);
    forall r | r in rules ensures Count(Installed(list, rules), r) == Excess(Count(list, r)) + 1 {
      InstalledCounts(list, rules, r);
    }
    if r :| r in rules && Count(list, r) >= 40 {
      CleanedCounts(Installed(list, rules), rules, r);
      WithoutHasNone(list, rules, r);
    } else {
      CleanedIsWithout(Installed(list, rules), rules);
    }
  }

  lemma {:induction false} WithoutHasNone(list: Rules, rules: Rules, r: Rule)
    requires r in rules
    ensures r !in Without(list, rules)
  {
    if list != [] {
      WithoutHasNone(list[1..], rules, r);
    }
  }
}
