/** The two reconcilers of pkg/packetfilter/adapter.go over a driver's chain. */
module Adapter {
  import opened RuleChain

  // ===== PrependUnique =====

  /** A chain, or the failure of an insertion beyond its end. */
  datatype Outcome<T> = Failed | Done(chain: seq<T>)

  function RemoveTimes<T(==)>(c: seq<T>, r: T, n: nat): seq<T>
    decreases n
  {
    if n == 0 then c else RemoveTimes(RemoveFirst(c, r), r, n - 1)
  }

  /** The rule occurs once in the listing, at the index it is wanted at. */
  predicate InPlace<T(==)>(listing: seq<T>, i: nat, r: T) {
    i < |listing| && listing[i] == r && Count(listing, r) == 1
  }

  function Ensured<T(==)>(listing: seq<T>, c: seq<T>, i: nat, r: T): Outcome<T> {
    if InPlace(listing, i, r) then Done(c)
    else
      var c' := RemoveTimes(c, r, Count(listing, r));
      if i <= |c'| then Done(InsertAt(c', i, r)) else Failed
  }

  /** The chain after the first n rules have been ensured. */
  function Prepended<T(==)>(listing: seq<T>, rules: seq<T>, n: nat): Outcome<T>
    requires n <= |rules|
  {
    if n == 0 then Done(listing)
    else
      var before := Prepended(listing, rules, n - 1);
      if before.Failed? then Failed else Ensured(listing, before.chain, n - 1, rules[n - 1])
  }

  /** Stops with an error at the first call of the driver that fails. */
  method EnsureRuleAtPosition<T(==)>(chain: Chain<T>, existing: seq<T>, position: nat, r: T) returns (ok: bool)
    requires position >= 1
    modifies chain
    ensures var outcome := Ensured(existing, old(chain.rules), position - 1, r);
      chain.failures == old(chain.failures) ==> ok == outcome.Done? && (ok ==> chain.rules == outcome.chain)
    ensures chain.failures != old(chain.failures) ==> !ok && chain.failures == old(chain.failures) + 1
  {
    var isPresentAtRequiredPosition := false;
    var numOccurrences := 0;
    for i := 0 to |existing|
      invariant numOccurrences == Count(existing[..i], r)
      invariant isPresentAtRequiredPosition <==> position - 1 < i && existing[position - 1] == r
    {
      assert existing[..i + 1] == existing[..i] + [existing[i]];
      if existing[i] == r {
        numOccurrences := numOccurrences + 1;
        if i == position - 1 {
          isPresentAtRequiredPosition := true;
        }
      }
    }
    assert existing[..|existing|] == existing;
    if numOccurrences > 1 || !isPresentAtRequiredPosition {
      for k := 0 to numOccurrences
        invariant chain.failures == old(chain.failures)
        invariant RemoveTimes(chain.rules, r, numOccurrences - k) == RemoveTimes(old(chain.rules), r, numOccurrences)
      {
        ok := chain.Delete(r);
        if !ok {
          return;
        }
      }
    }
    if numOccurrences == 1 && isPresentAtRequiredPosition {
      return true;
    }
    assert isPresentAtRequiredPosition ==> existing[position - 1] in multiset(existing);
    ok := chain.Insert(position, r);
  }

  method PrependUnique<T(==)>(chain: Chain<T>, rules: seq<T>) returns (ok: bool)
    modifies chain
    ensures var outcome := Prepended(old(chain.rules), rules, |rules|);
      chain.failures == old(chain.failures) ==> ok == outcome.Done? && (ok ==> chain.rules == outcome.chain)
    ensures chain.failures != old(chain.failures) ==> !ok && chain.failures == old(chain.failures) + 1
  {
    var existingRules;
    ok, existingRules := chain.List();
    if !ok {
      return;
    }
    for i := 0 to |rules|
      invariant chain.failures == old(chain.failures)
      invariant Prepended(existingRules, rules, i) == Done(chain.rules)
    {
      ok := EnsureRuleAtPosition(chain, existingRules, i + 1, rules[i]);
      if !ok {
        if chain.failures == old(chain.failures) { StaysFailed(existingRules, rules, i + 1, |rules|); }
        return;
      }
    }
    return true;
  }

  lemma {:induction false} StaysFailed<T>(listing: seq<T>, rules: seq<T>, i: nat, n: nat)
    requires i <= n <= |rules| && Prepended(listing, rules, i).Failed?
    ensures Prepended(listing, rules, n).Failed?
  {
    if i < n { StaysFailed(listing, rules, i, n - 1); }
  }

  lemma {:induction false} RemoveTimesCounts<T>(c: seq<T>, r: T, n: nat)
    requires n <= Count(c, r)
    ensures multiset(RemoveTimes(c, r, n)) == multiset(c)[r := Count(c, r) - n]
    decreases n
  {
    if n > 0 {
      RemoveFirstMultiset(c, r);
      RemoveTimesCounts(RemoveFirst(c, r), r, n - 1);
    }
  }

  lemma {:induction false} RemoveTimesElsewhere<T>(c: seq<T>, r: T, n: nat, s: set<T>)
    requires r !in s
    ensures Keep(RemoveTimes(c, r, n), s) == Keep(c, s)
    decreases n
  {
    if n > 0 {
      RemoveFirstElsewhere(c, r, s);
      RemoveTimesElsewhere(RemoveFirst(c, r), r, n - 1, s);
    }
  }

  lemma {:induction false} RemoveFirstThenDrop<T>(c: seq<T>, r: T, s: set<T>)
    requires r in s
    ensures Drop(RemoveFirst(c, r), s) == Drop(c, s)
  {
    if c != [] { RemoveFirstThenDrop(c[1..], r, s); }
  }

  /** Removing a rule as often as it occurs drops it. */
  lemma {:induction false} RemoveAllIsDrop<T>(c: seq<T>, r: T, n: nat)
    requires n == Count(c, r)
    ensures RemoveTimes(c, r, n) == Drop(c, {r})
    decreases n
  {
    if n == 0 {
      forall x | x in c ensures x !in {r} { assert x in multiset(c); }
      DropNothing(c, {r});
    } else {
      RemoveFirstMultiset(c, r);
      RemoveAllIsDrop(RemoveFirst(c, r), r, n - 1);
      RemoveFirstThenDrop(c, r, {r});
    }
  }

  // ----- every insertion is in range -----

  /** The rules not yet ensured are as often in the chain as in the listing; the others are in it. */
  ghost predicate Progress<T(!new)>(listing: seq<T>, rules: seq<T>, c: seq<T>, n: nat)
    requires n <= |rules|
  {
    && (forall m :: 0 <= m < n ==> Count(c, rules[m]) == 1)
    && (forall m :: n <= m < |rules| ==> Count(c, rules[m]) == Count(listing, rules[m]))
  }

  lemma InsertCounts<T>(c: seq<T>, i: nat, r: T)
    requires i <= |c|
    ensures multiset(InsertAt(c, i, r)) == multiset(c) + multiset{r}
  {
    assert c == c[..i] + c[i..];
  }

  lemma EnsureProgresses<T(!new)>(listing: seq<T>, rules: seq<T>, c: seq<T>, n: nat)
    requires Distinct(rules) && n < |rules| && Progress(listing, rules, c, n)
    ensures var outcome := Ensured(listing, c, n, rules[n]);
      outcome.Done? && Progress(listing, rules, outcome.chain, n + 1)
  {
    var r := rules[n];
    if !InPlace(listing, n, r) {
      var c' := RemoveTimes(c, r, Count(listing, r));
      RemoveTimesCounts(c, r, Count(listing, r));
      assert n <= |c'| by {
        forall m | 0 <= m < n ensures rules[..n][m] in c' {
          assert rules[m] != r && rules[m] in multiset(c');
        }
        DistinctFit(rules[..n], c');
      }
      InsertCounts(c', n, r);
    }
  }

  lemma PrependedProgresses<T(!new)>(listing: seq<T>, rules: seq<T>, n: nat)
    requires Distinct(rules) && n <= |rules|
    ensures Prepended(listing, rules, n).Done?
    ensures Progress(listing, rules, Prepended(listing, rules, n).chain, n)
  {
    var c := ProgressingChain(listing, rules, n);
  }

  lemma {:induction false} ProgressingChain<T(!new)>(listing: seq<T>, rules: seq<T>, n: nat) returns (c: seq<T>)
    requires Distinct(rules) && n <= |rules|
    ensures Prepended(listing, rules, n) == Done(c) && Progress(listing, rules, c, n)
  {
    if n == 0 {
      c := listing;
    } else {
      var before := ProgressingChain(listing, rules, n - 1);
      EnsureProgresses(listing, rules, before, n - 1);
      c := Prepended(listing, rules, n).chain;
    }
  }

  // ----- when the result is the wanted chain -----

  predicate Kept<T(==)>(listing: seq<T>, rules: seq<T>, i: nat)
    requires i < |rules|
  {
    InPlace(listing, i, rules[i])
  }

  /** What stands before a rule that stays in place may only be a rule of lower index, or the next
      rule that does not stay in place: the listing that is not refreshed is still good enough. */
  ghost predicate Settled<T(!new)>(listing: seq<T>, rules: seq<T>) {
    forall k, p :: 0 <= p < k < |rules| && Kept(listing, rules, k) ==> MayPrecede(listing, rules, k, listing[p])
  }

  ghost predicate MayPrecede<T(!new)>(listing: seq<T>, rules: seq<T>, k: nat, r: T)
    requires k < |rules|
  {
    exists m :: 0 <= m < |rules| && r == rules[m] && (m < k || forall j :: k < j < m ==> Kept(listing, rules, j))
  }

  /** The next rule at or after n that does not stay in place, as a set. */
  function NextLoose<T(==)>(listing: seq<T>, rules: seq<T>, n: nat): (s: set<T>)
    requires n <= |rules|
    decreases |rules| - n
  {
    if n == |rules| then {}
    else if Kept(listing, rules, n) then NextLoose(listing, rules, n + 1)
    else {rules[n]}
  }

  lemma {:induction false} NextLooseIs<T(!new)>(listing: seq<T>, rules: seq<T>, n: nat, m: nat)
    requires n <= m < |rules| && (forall j :: n <= j < m ==> Kept(listing, rules, j)) && !Kept(listing, rules, m)
    ensures NextLoose(listing, rules, n) == {rules[m]}
    decreases m - n
  {
    if n < m { NextLooseIs(listing, rules, n + 1, m); }
  }

  lemma {:induction false} NextLooseLater<T(!new)>(listing: seq<T>, rules: seq<T>, n: nat)
    requires n <= |rules|
    ensures forall r :: r in NextLoose(listing, rules, n) ==>
      exists m :: n <= m < |rules| && r == rules[m] && !Kept(listing, rules, m)
    decreases |rules| - n
  {
    if n < |rules| && Kept(listing, rules, n) { NextLooseLater(listing, rules, n + 1); }
  }

  /** The chain after n rules: apart from the next loose rule, the first n rules and then the rest. */
  ghost predicate Fronted<T(!new)>(listing: seq<T>, rules: seq<T>, c: seq<T>, n: nat)
    requires n <= |rules|
  {
    var loose := NextLoose(listing, rules, n);
    Drop(c, loose) == rules[..n] + Drop(listing, Members(rules[..n]) + loose)
  }

  lemma SoleOccurrence<T>(c: seq<T>, i: nat, p: nat)
    requires i < |c| && p < |c| && i != p && Count(c, c[i]) == 1
    ensures c[p] != c[i]
  {
    var lo, hi := if p < i then p else i, if p < i then i else p;
    assert c == c[..hi] + c[hi..] && c[..hi][lo] == c[lo] && c[hi..][0] == c[hi];
    assert c[lo] in multiset(c[..hi]) && c[hi] in multiset(c[hi..]);
  }

  lemma SoleAfter<T>(c: seq<T>, i: nat)
    requires i < |c| && Count(c, c[i]) == 1
    ensures c[i] !in c[i + 1..]
  {
    assert c == c[..i] + [c[i]] + c[i + 1..];
    assert c[i] !in multiset(c[i + 1..]);
  }

  lemma BeforeKept<T(!new)>(listing: seq<T>, rules: seq<T>, n: nat, p: nat)
    requires Distinct(rules) && Settled(listing, rules) && p < n < |rules| && Kept(listing, rules, n)
    ensures listing[p] in Members(rules[..n]) + NextLoose(listing, rules, n)
  {
    assert MayPrecede(listing, rules, n, listing[p]);
    var m :| 0 <= m < |rules| && listing[p] == rules[m] && (m < n || forall j :: n < j < m ==> Kept(listing, rules, j));
    SoleOccurrence(listing, n, p);
    if m < n {
      assert listing[p] == rules[..n][m];
    } else {
      if Kept(listing, rules, m) { SoleOccurrence(listing, m, p); }
      NextLooseIs(listing, rules, n, m);
    }
  }

  /** A rule in place heads what remains of a settled listing once the earlier rules and the next
      loose rule are dropped. */
  lemma KeptHeadsRest<T(!new)>(listing: seq<T>, rules: seq<T>, n: nat)
    requires Distinct(rules) && Settled(listing, rules) && n < |rules| && Kept(listing, rules, n)
    ensures var loose := NextLoose(listing, rules, n);
      Drop(listing, Members(rules[..n]) + loose) == [rules[n]] + Drop(listing, Members(rules[..n + 1]) + loose)
  {
    var loose, r := NextLoose(listing, rules, n), rules[n];
    var s := Members(rules[..n]) + loose;
    assert Members(rules[..n + 1]) + loose == s + {r} by {
      assert rules[..n + 1] == rules[..n] + [r];
    }
    assert r !in s by { NextLooseLater(listing, rules, n); }
    var a, b := listing[..n], listing[n + 1..];
    forall x | x in a ensures x in s {
      var p :| 0 <= p < n && a[p] == x;
      BeforeKept(listing, rules, n, p);
    }
    SoleAfter(listing, n);
    assert listing == a + ([r] + b);
    DropPrefixAndHead(a, r, b, s);
  }

  lemma DropPrefixAndHead<T>(a: seq<T>, r: T, b: seq<T>, s: set<T>)
    requires (forall x :: x in a ==> x in s) && r !in s && r !in b
    ensures Drop(a + ([r] + b), s) == [r] + Drop(a + ([r] + b), s + {r})
  {
    DropAll(a, s);
    DropAll(a, s + {r});
    DropConcat(a, [r] + b, s);
    DropConcat(a, [r] + b, s + {r});
    DropAlso(b, s, r);
  }

  lemma {:induction false} DropAlso<T>(c: seq<T>, s: set<T>, r: T)
    requires r !in c
    ensures Drop(c, s + {r}) == Drop(c, s)
  {
    if c != [] { DropAlso(c[1..], s, r); }
  }

  lemma EnsureKeepsFront<T(!new)>(listing: seq<T>, rules: seq<T>, c: seq<T>, n: nat)
    requires Distinct(rules) && Settled(listing, rules) && n < |rules|
    requires Progress(listing, rules, c, n) && Fronted(listing, rules, c, n)
    ensures Ensured(listing, c, n, rules[n]).Done?
    ensures Fronted(listing, rules, Ensured(listing, c, n, rules[n]).chain, n + 1)
  {
    EnsureProgresses(listing, rules, c, n);
    if Kept(listing, rules, n) {
      KeptStaysFronted(listing, rules, c, n);
    } else {
      RemoveAllIsDrop(c, rules[n], Count(listing, rules[n]));
      LooseInserted(listing, rules, Drop(c, {rules[n]}), n);
    }
  }

  lemma KeptStaysFronted<T(!new)>(listing: seq<T>, rules: seq<T>, c: seq<T>, n: nat)
    requires Distinct(rules) && Settled(listing, rules) && n < |rules| && Kept(listing, rules, n)
    requires Fronted(listing, rules, c, n)
    ensures Fronted(listing, rules, c, n + 1)
  {
    KeptHeadsRest(listing, rules, n);
    assert rules[..n + 1] == rules[..n] + [rules[n]];
  }

  lemma LooseInserted<T(!new)>(listing: seq<T>, rules: seq<T>, c: seq<T>, n: nat)
    requires Distinct(rules) && n < |rules|
    requires c == rules[..n] + Drop(listing, Members(rules[..n]) + {rules[n]})
    ensures Fronted(listing, rules, InsertAt(c, n, rules[n]), n + 1)
  {
    var front, rest := rules[..n + 1], Drop(listing, Members(rules[..n]) + {rules[n]});
    var loose := NextLoose(listing, rules, n + 1);
    assert Members(front) == Members(rules[..n]) + {rules[n]} by {
      assert front == rules[..n] + [rules[n]];
    }
    assert InsertAt(c, n, rules[n]) == front + rest;
    NextLooseLater(listing, rules, n + 1);
    DropNothing(front, loose);
    DropConcat(front, rest, loose);
    DropTwice(listing, Members(front), loose);
  }

  lemma {:induction false} SettledStaysFronted<T(!new)>(listing: seq<T>, rules: seq<T>, n: nat)
    requires Distinct(rules) && Settled(listing, rules) && n <= |rules|
    ensures Prepended(listing, rules, n).Done?
    ensures Fronted(listing, rules, Prepended(listing, rules, n).chain, n)
  {
    if n == 0 {
      assert Members(rules[..0]) + NextLoose(listing, rules, 0) == NextLoose(listing, rules, 0);
    } else {
      SettledStaysFronted(listing, rules, n - 1);
      PrependedProgresses(listing, rules, n - 1);
      StepKeepsFront(listing, rules, Prepended(listing, rules, n - 1), Prepended(listing, rules, n), n - 1);
    }
  }

  lemma StepKeepsFront<T(!new)>(listing: seq<T>, rules: seq<T>, before: Outcome<T>, after: Outcome<T>, n: nat)
    requires Distinct(rules) && Settled(listing, rules) && n < |rules| && before.Done?
    requires Progress(listing, rules, before.chain, n) && Fronted(listing, rules, before.chain, n)
    requires after == Ensured(listing, before.chain, n, rules[n])
    ensures after.Done? && Fronted(listing, rules, after.chain, n + 1)
  {
    EnsureKeepsFront(listing, rules, before.chain, n);
  }

  /** The wanted chain: the rules, then everything else in its old order. */
  function Wanted<T(==)>(listing: seq<T>, rules: seq<T>): seq<T> {
    rules + Drop(listing, Members(rules))
  }

  lemma SettledGivesWanted<T(!new)>(listing: seq<T>, rules: seq<T>)
    requires Distinct(rules) && Settled(listing, rules)
    ensures Prepended(listing, rules, |rules|) == Done(Wanted(listing, rules))
  {
    SettledStaysFronted(listing, rules, |rules|);
    var c := Prepended(listing, rules, |rules|).chain;
    DropNothing(c, {});
    assert rules[..|rules|] == rules;
    assert Members(rules) + {} == Members(rules);
  }

  // ----- only settled listings give it -----

  lemma EnsureElsewhere<T(!new)>(listing: seq<T>, c: seq<T>, i: nat, r: T, s: set<T>)
    requires Ensured(listing, c, i, r).Done? && (InPlace(listing, i, r) || r !in s)
    ensures Keep(Ensured(listing, c, i, r).chain, s) == Keep(c, s)
  {
    if !InPlace(listing, i, r) {
      RemoveTimesElsewhere(c, r, Count(listing, r), s);
      InsertElsewhere(RemoveTimes(c, r, Count(listing, r)), i, r, s);
    }
  }

  /** Rules that no step from i on touches keep their order. */
  lemma {:induction false} OrderPersists<T(!new)>(listing: seq<T>, rules: seq<T>, i: nat, n: nat, s: set<T>)
    requires Distinct(rules) && i <= n <= |rules|
    requires forall m :: i <= m < n && !Kept(listing, rules, m) ==> rules[m] !in s
    ensures Prepended(listing, rules, i).Done? && Prepended(listing, rules, n).Done?
    ensures Keep(Prepended(listing, rules, n).chain, s) == Keep(Prepended(listing, rules, i).chain, s)
  {
    assert Prepended(listing, rules, i).Done? && Prepended(listing, rules, n).Done? by {
      PrependedProgresses(listing, rules, i);
      PrependedProgresses(listing, rules, n);
    }
    if i < n {
      OrderPersists(listing, rules, i, n - 1, s);
      EnsureElsewhere(listing, Prepended(listing, rules, n - 1).chain, n - 1, rules[n - 1], s);
    }
  }

  lemma WantedOrder<T(!new)>(listing: seq<T>, rules: seq<T>, i: nat, s: set<T>)
    requires i < |rules| && rules[i] in s && forall m :: 0 <= m < i ==> rules[m] !in s
    ensures Keep(Wanted(listing, rules), s) != [] && Keep(Wanted(listing, rules), s)[0] == rules[i]
  {
    FirstKept(Wanted(listing, rules), s, i);
  }

  /** A foreign rule before a rule in place stays before it. */
  lemma ForeignBefore<T(!new)>(listing: seq<T>, rules: seq<T>, k: nat, p: nat)
    requires Distinct(rules) && p < k < |rules| && Kept(listing, rules, k) && listing[p] !in rules
    ensures Prepended(listing, rules, |rules|) != Done(Wanted(listing, rules))
  {
    var s := {listing[p], rules[k]};
    OrderPersists(listing, rules, 0, |rules|, s);
    SoleOccurrence(listing, k, p);
    FirstIsNot(listing, s, k, p);
    WantedOrder(listing, rules, k, s);
  }

  /** When c[k] occurs once and c[p] comes before it, c[k] is not the first of the two kept. */
  lemma {:induction false} FirstIsNot<T>(c: seq<T>, s: set<T>, k: nat, p: nat)
    requires p < k < |c| && c[p] in s && Count(c, c[k]) == 1
    ensures Keep(c, s) != [] && Keep(c, s)[0] != c[k]
  {
    SoleOccurrence(c, k, 0);
    if c[0] !in s {
      assert c == [c[0]] + c[1..];
      FirstIsNot(c[1..], s, k - 1, p - 1);
    }
  }

  /** The chain in which rule j, which does not stay in place, is inserted at index j. */
  function Emptied<T(==)>(listing: seq<T>, rules: seq<T>, j: nat): seq<T>
    requires j < |rules| && Prepended(listing, rules, j).Done?
  {
    RemoveTimes(Prepended(listing, rules, j).chain, rules[j], Count(listing, rules[j]))
  }

  lemma EmptiedState<T(!new)>(listing: seq<T>, rules: seq<T>, j: nat)
    requires Distinct(rules) && j < |rules| && !Kept(listing, rules, j)
    ensures Prepended(listing, rules, j).Done?
    ensures var c := Emptied(listing, rules, j);
      && j <= |c| && rules[j] !in c
      && (forall m :: 0 <= m < j ==> Count(c, rules[m]) == 1)
      && Prepended(listing, rules, j + 1) == Done(InsertAt(c, j, rules[j]))
  {
    PrependedProgresses(listing, rules, j);
    PrependedProgresses(listing, rules, j + 1);
    RemoveTimesCounts(Prepended(listing, rules, j).chain, rules[j], Count(listing, rules[j]));
    assert rules[j] !in multiset(Emptied(listing, rules, j));
  }

  /** y still precedes rules[k] when rule j is about to be inserted. */
  lemma EmptiedOrder<T(!new)>(listing: seq<T>, rules: seq<T>, k: nat, j: nat, y: T, p: nat)
    requires Distinct(rules) && p < k < j < |rules| && y !in rules[..j + 1]
    requires Kept(listing, rules, k) && !Kept(listing, rules, j) && listing[p] == y
    ensures Prepended(listing, rules, j).Done?
    ensures var kept := Keep(Emptied(listing, rules, j), {y, rules[k]}); kept != [] && kept[0] != rules[k]
  {
    var s := {y, rules[k]};
    forall m | 0 <= m <= j && m != k ensures rules[m] !in s { assert rules[..j + 1][m] == rules[m]; }
    OrderPersists(listing, rules, 0, j, s);
    RemoveTimesElsewhere(Prepended(listing, rules, j).chain, rules[j], Count(listing, rules[j]), s);
    FirstIsNot(listing, s, k, p);
  }

  /** A rule inserted before an earlier one stays before it. */
  lemma InsertedBefore<T(!new)>(listing: seq<T>, rules: seq<T>, i: nat, j: nat)
    requires Distinct(rules) && i < j < |rules| && !Kept(listing, rules, j) && Prepended(listing, rules, j).Done?
    requires var c := Emptied(listing, rules, j);
      j <= |c| && rules[j] !in c && rules[i] !in c[..j]
        && Prepended(listing, rules, j + 1) == Done(InsertAt(c, j, rules[j]))
    ensures Prepended(listing, rules, |rules|) != Done(Wanted(listing, rules))
  {
    var s := {rules[j], rules[i]};
    var c := Emptied(listing, rules, j);
    var d := InsertAt(c, j, rules[j]);
    forall q | 0 <= q < j ensures d[q] !in s {
      assert d[q] == c[..j][q] == c[q];
    }
    FirstKept(d, s, j);
    OrderPersists(listing, rules, j + 1, |rules|, s);
    WantedOrder(listing, rules, i, s);
  }

  /** A later loose rule before a rule in place makes an earlier loose rule land too far left. */
  lemma LooseBefore<T(!new)>(listing: seq<T>, rules: seq<T>, k: nat, j: nat, m: nat, p: nat)
    requires Distinct(rules) && k < j < m < |rules| && p < k
    requires Kept(listing, rules, k) && !Kept(listing, rules, j) && listing[p] == rules[m]
    ensures Prepended(listing, rules, |rules|) != Done(Wanted(listing, rules))
  {
    var y := rules[m];
    assert y !in rules[..j + 1] && y !in rules[..j];
    EmptiedState(listing, rules, j);
    EmptiedOrder(listing, rules, k, j, y, p);
    var i := OverrunBy(rules, Emptied(listing, rules, j), j, k, y);
    InsertedBefore(listing, rules, i, j);
  }

  /** If y precedes rules[k] in c and is not among the first j rules, position j of c does not lie
      beyond all of them. */
  lemma OverrunBy<T(!new)>(rules: seq<T>, c: seq<T>, j: nat, k: nat, y: T) returns (i: nat)
    requires Distinct(rules) && k < j < |rules| && y !in rules[..j] && rules[j] !in c && j <= |c|
    requires forall m :: 0 <= m < j ==> Count(c, rules[m]) == 1
    requires Keep(c, {y, rules[k]}) != [] && Keep(c, {y, rules[k]})[0] != rules[k]
    ensures i < j && rules[i] !in c[..j]
  {
    if forall i :: 0 <= i < j ==> rules[i] in c[..j] {
      forall i | 0 <= i < j ensures rules[..j][i] in c[..j] {}
      DistinctFit(rules[..j], c[..j]);
      var q :| 0 <= q < j && c[..j][q] == rules[k];
      forall x | 0 <= x < q ensures c[x] !in {y, rules[k]} {
        assert c[x] in c[..j];
        assert Count(c, c[q]) == 1;
        SoleOccurrence(c, q, x);
      }
      FirstKept(c, {y, rules[k]}, q);
      assert false;
    }
    i :| 0 <= i < j && rules[i] !in c[..j];
  }

  /** For distinct rules every insertion is in range, and the chain ends as the rules followed by
      the rest exactly when the listing was settled. */
  lemma PrependUniqueCorrect<T(!new)>(listing: seq<T>, rules: seq<T>)
    requires Distinct(rules)
    ensures Prepended(listing, rules, |rules|).Done?
    ensures Prepended(listing, rules, |rules|) == Done(Wanted(listing, rules)) <==> Settled(listing, rules)
  {
    PrependedProgresses(listing, rules, |rules|);
    if Settled(listing, rules) {
      SettledGivesWanted(listing, rules);
    } else {
      var k, p :| 0 <= p < k < |rules| && Kept(listing, rules, k) && !MayPrecede(listing, rules, k, listing[p]);
      if m :| 0 <= m < |rules| && listing[p] == rules[m] {
        assert !(m < k);
        var j :| k < j < m && !Kept(listing, rules, j);
        LooseBefore(listing, rules, k, j, m, p);
      } else {
        assert listing[p] !in rules;
        ForeignBefore(listing, rules, k, p);
      }
    }
  }

  /** The cases the callers rely on: the rules in place are a prefix of the rules (none, all, or
      any part when there is one rule). */
  lemma PrefixInPlaceIsSettled<T(!new)>(listing: seq<T>, rules: seq<T>, k: nat)
    requires k <= |rules| && forall i :: 0 <= i < |rules| ==> (Kept(listing, rules, i) <==> i < k)
    ensures Settled(listing, rules)
  {
    forall i, p | 0 <= p < i < |rules| && Kept(listing, rules, i) ensures MayPrecede(listing, rules, i, listing[p]) {
      assert Kept(listing, rules, p);
    }
  }

  /** Without the condition the result can be wrong: the unlisted 'a' pushes 'b' behind the foreign
      rule, but the old listing still has 'b' in place. */
  lemma UnrefreshedListingMisplaces()
    ensures Prepended(['x', 'b'], ['a', 'b'], 2) != Done(Wanted(['x', 'b'], ['a', 'b']))
  {
    var listing, rules := ['x', 'b'], ['a', 'b'];
    assert Kept(listing, rules, 1) && listing[0] !in rules;
    ForeignBefore(listing, rules, 1, 0);
  }

  // ===== UpdateChainRules =====

  /** The first occurrence of each member of s removed. */
  function Purged<T(==)>(c: seq<T>, s: set<T>): seq<T> {
    if c == [] then []
    else if c[0] in s then Purged(c[1..], s - {c[0]})
    else [c[0]] + Purged(c[1..], s)
  }

  /** The rules appended when `existing` is what the map of existing rules still holds. */
  function Missing<T(==)>(rules: seq<T>, existing: set<T>): seq<T> {
    if rules == [] then []
    else if rules[0] in existing then Missing(rules[1..], existing - {rules[0]})
    else [rules[0]] + Missing(rules[1..], existing)
  }

  function Stale<T(==)>(current: seq<T>, rules: seq<T>): set<T> {
    Members(current) - Members(rules)
  }

  function Reconciled<T(==)>(current: seq<T>, rules: seq<T>): seq<T> {
    Purged(current, Stale(current, rules)) + Missing(rules, Members(current))
  }

  /** Every state from index `from` of the history on holds all of `kept`. */
  ghost predicate Throughout<T(!new)>(history: seq<seq<T>>, from: nat, kept: set<T>)
    requires from <= |history|
  {
    forall i, r :: from <= i < |history| && r in kept ==> r in history[i]
  }

  /** Appends what is missing, and returns what the map of existing rules still holds. */
  method AppendMissing<T(!new, ==)>(chain: Chain<T>, rules: seq<T>, currentRules: seq<T>)
    returns (ok: bool, existingRules: set<T>)
    requires chain.rules == currentRules
    modifies chain
    ensures chain.failures == old(chain.failures) + if ok then 0 else 1
    ensures ok ==> existingRules == Stale(currentRules, rules)
    ensures ok ==> chain.rules == currentRules + Missing(rules, Members(currentRules))
    ensures currentRules <= chain.rules <= currentRules + Missing(rules, Members(currentRules))
    ensures |old(chain.history)| <= |chain.history|
    ensures Throughout(chain.history, |old(chain.history)|, Members(currentRules))
  {
    existingRules := Members(currentRules);
    for i := 0 to |rules|
      invariant chain.failures == old(chain.failures)
      invariant existingRules == Members(currentRules) - Members(rules[..i])
      invariant chain.rules + Missing(rules[i..], existingRules) == currentRules + Missing(rules, Members(currentRules))
      invariant currentRules <= chain.rules && Members(currentRules) <= Members(chain.rules)
      invariant |old(chain.history)| <= |chain.history|
      invariant Throughout(chain.history, |old(chain.history)|, Members(currentRules))
    {
      assert rules[..i + 1] == rules[..i] + [rules[i]];
      assert rules[i..][1..] == rules[i + 1..];
      if rules[i] in existingRules {
        existingRules := existingRules - {rules[i]};
      } else {
        ok := chain.Append(rules[i]);
        if !ok {
          return;
        }
      }
    }
    ok := true;
    assert rules[..|rules|] == rules;
  }

  /** Deletes the stale rules in whatever order they are picked; what cannot be deleted stays. */
  method DeleteStale<T(!new, ==)>(chain: Chain<T>, stale: set<T>, ghost kept: set<T>) returns (ghost undeleted: set<T>)
    requires stale !! kept && kept <= Members(chain.rules)
    modifies chain
    ensures undeleted <= stale && chain.rules == Purged(old(chain.rules), stale - undeleted)
    ensures old(chain.failures) <= chain.failures && (chain.failures == old(chain.failures) ==> undeleted == {})
    ensures |old(chain.history)| <= |chain.history| && old(chain.history) <= chain.history
    ensures Throughout(chain.history, |old(chain.history)|, kept)
  {
    var remaining := stale;
    undeleted := {};
    PurgeNothing(chain.rules);
    assert stale - remaining - undeleted == {};
    while remaining != {}
      invariant remaining <= stale && undeleted <= stale - remaining && kept <= Members(chain.rules)
      invariant old(chain.failures) <= chain.failures && (chain.failures == old(chain.failures) ==> undeleted == {})
      invariant chain.rules == Purged(old(chain.rules), stale - remaining - undeleted)
      invariant old(chain.history) <= chain.history
      invariant Throughout(chain.history, |old(chain.history)|, kept)
      decreases remaining
    {
      var r :| r in remaining;
      ghost var gone := stale - remaining - undeleted;
      PurgeMore(old(chain.rules), gone, r);
      RemoveFirstKeeps(chain.rules, r, kept);
      var ok := chain.Delete(r);
      remaining := remaining - {r};
      if ok {
        assert stale - remaining - undeleted == gone + {r};
      } else {
        // logged and let go
        undeleted := undeleted + {r};
        assert stale - remaining - undeleted == gone;
      }
    }
    assert stale - {} - undeleted == stale - undeleted;
  }

  lemma {:induction false} PurgeMore<T>(c: seq<T>, s: set<T>, r: T)
    requires r !in s
    ensures RemoveFirst(Purged(c, s), r) == Purged(c, s + {r})
  {
    if c != [] {
      if c[0] in s {
        PurgeMore(c[1..], s - {c[0]}, r);
        assert s + {r} - {c[0]} == s - {c[0]} + {r};
      } else if c[0] == r {
        assert s + {r} - {c[0]} == s;
      } else {
        PurgeMore(c[1..], s, r);
      }
    }
  }

  lemma RemoveFirstKeeps<T>(c: seq<T>, r: T, kept: set<T>)
    requires r !in kept && kept <= Members(c)
    ensures kept <= Members(RemoveFirst(c, r))
  {
    RemoveFirstMultiset(c, r);
    forall x | x in kept ensures x in RemoveFirst(c, r) {
      assert x in multiset(c) && x in multiset(RemoveFirst(c, r));
    }
  }

  /** No rule that is both current and wanted is ever absent while the chain is brought up to date, whatever
      fails. A failed append ends the call before anything is deleted; a failed deletion leaves its rule. */
  method UpdateChainRules<T(!new, ==)>(chain: Chain<T>, rules: seq<T>) returns (ok: bool, ghost undeleted: set<T>)
    modifies chain
    ensures old(chain.failures) <= chain.failures
    ensures chain.failures == old(chain.failures) ==> ok && chain.rules == Reconciled(old(chain.rules), rules)
    ensures ok ==>
      var current, stale := old(chain.rules), Stale(old(chain.rules), rules);
      undeleted <= stale && chain.rules == Purged(current, stale - undeleted) + Missing(rules, Members(current))
    ensures !ok ==> old(chain.rules) <= chain.rules <= old(chain.rules) + Missing(rules, Members(old(chain.rules)))
    ensures |old(chain.history)| <= |chain.history|
    ensures Throughout(chain.history, |old(chain.history)|, Members(old(chain.rules)) * Members(rules))
  {
    undeleted := {};
    var currentRules, existingRules;
    ok, currentRules := chain.List();
    if !ok {
      return;
    }
    ok, existingRules := AppendMissing(chain, rules, currentRules);
    if !ok {
      return;
    }
    ghost var kept, missing := Members(currentRules) * Members(rules), Missing(rules, Members(currentRules));
    label appended:
    MissingNotStale(rules, Members(currentRules));
    undeleted := DeleteStale(chain, existingRules, kept);
    PurgeFront(currentRules, missing, existingRules - undeleted);
    assert existingRules - {} == existingRules;
    ghost var n := |old@appended(chain.history)|;
    forall i, r | |old(chain.history)| <= i < |chain.history| && r in kept ensures r in chain.history[i] {
      if i < n { assert chain.history[i] == old@appended(chain.history)[i]; }
    }
  }

  lemma {:induction false} PurgeNothing<T>(c: seq<T>)
    ensures Purged(c, {}) == c
  {
    if c != [] { PurgeNothing(c[1..]); }
  }

  lemma {:induction false} MissingNotStale<T>(rules: seq<T>, existing: set<T>)
    ensures forall r :: r in Missing(rules, existing) ==> r in rules
  {
    if rules != [] {
      if rules[0] in existing {
        MissingNotStale(rules[1..], existing - {rules[0]});
      } else {
        MissingNotStale(rules[1..], existing);
      }
    }
  }

  lemma {:induction false} PurgeFront<T>(a: seq<T>, b: seq<T>, s: set<T>)
    requires forall r :: r in b ==> r !in s
    ensures Purged(a + b, s) == Purged(a, s) + b
  {
    if a == [] {
      assert a + b == b;
      PurgeForeign(b, s);
    } else {
      assert (a + b)[1..] == a[1..] + b;
      if a[0] in s { PurgeFront(a[1..], b, s - {a[0]}); } else { PurgeFront(a[1..], b, s); }
    }
  }

  lemma {:induction false} PurgeForeign<T>(c: seq<T>, s: set<T>)
    requires forall r :: r in c ==> r !in s
    ensures Purged(c, s) == c
  {
    if c != [] { PurgeForeign(c[1..], s); }
  }

  // ----- what reconciliation achieves -----

  lemma {:induction false} PurgeDistinct<T>(c: seq<T>, s: set<T>)
    requires Distinct(c)
    ensures Purged(c, s) == Drop(c, s)
  {
    if c != [] {
      forall i, j | 0 <= i < j < |c[1..]| ensures c[1..][i] != c[1..][j] { assert c[1..][i] == c[i + 1]; }
      if c[0] in s {
        PurgeDistinct(c[1..], s - {c[0]});
        assert s - {c[0]} + {c[0]} == s;
        DropAlso(c[1..], s - {c[0]}, c[0]);
      } else {
        PurgeDistinct(c[1..], s);
      }
    }
  }

  lemma {:induction false} MissingDistinct<T>(rules: seq<T>, existing: set<T>)
    requires Distinct(rules)
    ensures Missing(rules, existing) == Drop(rules, existing)
  {
    if rules != [] {
      forall i, j | 0 <= i < j < |rules[1..]| ensures rules[1..][i] != rules[1..][j] {
        assert rules[1..][i] == rules[i + 1];
      }
      if rules[0] in existing {
        MissingDistinct(rules[1..], existing - {rules[0]});
        assert existing - {rules[0]} + {rules[0]} == existing;
        DropAlso(rules[1..], existing - {rules[0]}, rules[0]);
      } else {
        MissingDistinct(rules[1..], existing);
      }
    }
  }

  lemma {:induction false} DropComplement<T>(c: seq<T>, s: set<T>, t: set<T>)
    requires forall r :: r in c ==> (r in s <==> r !in t)
    ensures Drop(c, s) == Keep(c, t)
  {
    if c != [] { DropComplement(c[1..], s, t); }
  }

  /** Without repetitions: the common rules in their current order, then the new ones in theirs. */
  lemma ReconciledDistinct<T>(current: seq<T>, rules: seq<T>)
    requires Distinct(current) && Distinct(rules)
    ensures Reconciled(current, rules) == Keep(current, Members(rules)) + Drop(rules, Members(current))
  {
    PurgeDistinct(current, Stale(current, rules));
    DropComplement(current, Stale(current, rules), Members(rules));
    MissingDistinct(rules, Members(current));
  }

  lemma {:induction false} PurgedMultiset<T>(c: seq<T>, s: set<T>)
    ensures multiset(Purged(c, s)) == multiset(c) - multiset(s)
  {
    if c != [] {
      assert c == [c[0]] + c[1..];
      if c[0] in s { PurgedMultiset(c[1..], s - {c[0]}); } else { PurgedMultiset(c[1..], s); }
    }
  }

  lemma {:induction false} MissingCovers<T>(rules: seq<T>, existing: set<T>)
    ensures forall r :: r in rules ==> r in existing || r in Missing(rules, existing)
  {
    if rules != [] {
      assert rules == [rules[0]] + rules[1..];
      if rules[0] in existing {
        MissingCovers(rules[1..], existing - {rules[0]});
      } else {
        MissingCovers(rules[1..], existing);
      }
    }
  }

  lemma ReconciledMembers<T>(current: seq<T>, rules: seq<T>)
    ensures Members(rules) <= Members(Reconciled(current, rules))
    ensures forall r :: r in Stale(Reconciled(current, rules), rules) <==> r !in rules && Count(current, r) >= 2
  {
    var stale := Stale(current, rules);
    PurgedMultiset(current, stale);
    MissingNotStale(rules, Members(current));
    MissingCovers(rules, Members(current));
    var t := Reconciled(current, rules);
    forall r ensures r in t <==> r in multiset(Purged(current, stale)) || r in Missing(rules, Members(current)) {
      assert r in Purged(current, stale) <==> r in multiset(Purged(current, stale));
    }
    forall r | r in rules ensures r in t {
      assert r in current <==> r in multiset(current);
    }
  }

  lemma {:induction false} MissingRepeats<T>(rules: seq<T>, existing: set<T>)
    requires Members(rules) <= existing
    ensures Missing(rules, existing) == [] <==> Distinct(rules)
  {
    if rules != [] {
      var tail := rules[1..];
      assert rules == [rules[0]] + tail;
      if rules[0] in tail {
        MissingCovers(tail, existing - {rules[0]});
        var j :| 0 <= j < |tail| && tail[j] == rules[0];
        assert rules[0] == rules[j + 1];
      } else {
        MissingRepeats(tail, existing - {rules[0]});
        if Distinct(tail) {
          forall i, j | 0 <= i < j < |rules| ensures rules[i] != rules[j] {
            if i > 0 {
              assert tail[i - 1] == rules[i] && tail[j - 1] == rules[j];
            } else {
              assert tail[j - 1] == rules[j];
            }
          }
        } else {
          var i, j :| 0 <= i < j < |tail| && tail[i] == tail[j];
          assert rules[i + 1] == rules[j + 1];
        }
      }
    }
  }

  /** A second call changes nothing exactly when the target has no repetitions and no stale rule was
      there more than once. */
  lemma ReconcileIdempotent<T(!new)>(current: seq<T>, rules: seq<T>)
    ensures Reconciled(Reconciled(current, rules), rules) == Reconciled(current, rules)
      <==> Distinct(rules) && forall r :: r in Stale(current, rules) ==> Count(current, r) == 1
  {
    var t := Reconciled(current, rules);
    var stale, missing := Stale(t, rules), Missing(rules, Members(t));
    ReconciledMembers(current, rules);
    MissingRepeats(rules, Members(t));
    MissingNotStale(rules, Members(t));
    PurgedMultiset(t, stale);
    if r :| r in stale {
      assert r in current by { assert r in multiset(current); }
      assert Count(t, r) >= 1 by { assert r in multiset(t); }
      assert r !in missing;
      assert Count(Purged(t, stale) + missing, r) == Count(t, r) - 1 by { assert r !in multiset(missing); }
    } else {
      assert stale == {};
      PurgeNothing(t);
      assert Reconciled(t, rules) == t + missing;
      forall r | r in Stale(current, rules) ensures Count(current, r) == 1 {
        assert r in multiset(current);
      }
    }
  }
}
