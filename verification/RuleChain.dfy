/** A packet-filter chain as its driver presents it: rules in order, insertion by 1-based position,
    deletion of the first match (pkg/packetfilter/packetfilter.go, the Driver interface). */
module RuleChain {

  function RemoveFirst<T(==)>(c: seq<T>, r: T): seq<T> {
    if c == [] then [] else if c[0] == r then c[1..] else [c[0]] + RemoveFirst(c[1..], r)
  }

  function InsertAt<T>(c: seq<T>, i: nat, r: T): seq<T>
    requires i <= |c|
  {
    c[..i] + [r] + c[i..]
  }

  function Members<T>(c: seq<T>): set<T> {
    set r | r in c
  }

  ghost predicate Distinct<T>(c: seq<T>) {
    forall i, j :: 0 <= i < j < |c| ==> c[i] != c[j]
  }

  /** The rules of c that are in s, in order. */
  function Keep<T(==)>(c: seq<T>, s: set<T>): seq<T> {
    if c == [] then [] else if c[0] in s then [c[0]] + Keep(c[1..], s) else Keep(c[1..], s)
  }

  /** The rules of c that are not in s, in order. */
  function Drop<T(==)>(c: seq<T>, s: set<T>): seq<T> {
    if c == [] then [] else if c[0] in s then Drop(c[1..], s) else [c[0]] + Drop(c[1..], s)
  }

  function Count<T(==)>(c: seq<T>, r: T): nat {
    multiset(c)[r]
  }

  /** A chain behind a driver, any of whose calls can fail. A call that fails leaves the chain alone. */
  class Chain<T(==)> {
    var rules: seq<T>
    /** Which calls fail, counted from the first. */
    const fails: nat -> bool
    var calls: nat
    /** How many calls have failed. */
    ghost var failures: nat
    /** Every state the chain has been in since it was created, oldest first. */
    ghost var history: seq<seq<T>>

    constructor (rules: seq<T>, fails: nat -> bool)
      ensures this.rules == rules && history == [rules] && this.fails == fails && failures == 0
    {
      this.rules := rules;
      this.fails := fails;
      calls, failures, history := 0, 0, [rules];
    }

    method Call() returns (ok: bool)
      modifies this`calls, this`failures
      ensures failures == old(failures) + if ok then 0 else 1
    {
      ok := !fails(calls);
      calls := calls + 1;
      failures := failures + if ok then 0 else 1;
    }

    method List() returns (ok: bool, listing: seq<T>)
      modifies this`calls, this`failures
      ensures failures == old(failures) + if ok then 0 else 1
      ensures ok ==> listing == rules
    {
      ok := Call();
      listing := if ok then rules else [];
    }

    method Delete(r: T) returns (ok: bool)
      modifies this
      ensures failures == old(failures) + if ok then 0 else 1
      ensures rules == (if ok then RemoveFirst(old(rules), r) else old(rules)) && history == old(history) + [rules]
    {
      ok := Call();
      if ok {
        rules := RemoveFirst(rules, r);
      }
      history := history + [rules];
    }

    /** A position beyond the end is an error as well. */
    method Insert(position: nat, r: T) returns (ok: bool)
      modifies this
      ensures old(failures) <= failures <= old(failures) + 1
      ensures ok <==> failures == old(failures) && 1 <= position <= |old(rules)| + 1
      ensures rules == if ok then InsertAt(old(rules), position - 1, r) else old(rules)
      ensures history == old(history) + [rules]
    {
      ok := Call();
      ok := ok && 1 <= position <= |rules| + 1;
      if ok {
        rules := InsertAt(rules, position - 1, r);
      }
      history := history + [rules];
    }

    method Append(r: T) returns (ok: bool)
      modifies this
      ensures failures == old(failures) + if ok then 0 else 1
      ensures rules == (if ok then old(rules) + [r] else old(rules)) && history == old(history) + [rules]
    {
      ok := Call();
      if ok {
        rules := rules + [r];
      }
      history := history + [rules];
    }
  }

  // ----- runs of a chain, and chains that stand for other chains -----

  datatype Operation<T> = DeleteFirst(r: T) | InsertOrAppend(r: T, position: int) | AppendUnique(r: T)

  /** A position below 1 appends; an insertion beyond the end fails. */
  function Applied<T(==)>(c: seq<T>, op: Operation<T>): seq<T> {
    match op
    case DeleteFirst(r) => RemoveFirst(c, r)
    case InsertOrAppend(r, position) =>
      if position < 1 then c + [r] else if position <= |c| + 1 then InsertAt(c, position - 1, r) else c
    case AppendUnique(r) => if r in c then c else c + [r]
  }

  function AllApplied<T(==)>(c: seq<T>, ops: seq<Operation<T>>): seq<T> {
    if ops == [] then c else Applied(AllApplied(c, ops[..|ops| - 1]), ops[|ops| - 1])
  }

  function Mapped<A, B>(c: seq<A>, f: A -> B): (d: seq<B>)
    ensures |d| == |c| && forall i :: 0 <= i < |c| ==> d[i] == f(c[i])
  {
    seq(|c|, i requires 0 <= i < |c| => f(c[i]))
  }

  function MappedOperation<A, B>(op: Operation<A>, f: A -> B): Operation<B> {
    match op
    case DeleteFirst(r) => DeleteFirst(f(r))
    case InsertOrAppend(r, position) => InsertOrAppend(f(r), position)
    case AppendUnique(r) => AppendUnique(f(r))
  }

  /** `f` tells the rules that satisfy `p` apart. */
  ghost predicate TellsApart<A(!new), B(!new)>(f: A -> B, p: A -> bool) {
    forall a, b :: p(a) && p(b) && f(a) == f(b) ==> a == b
  }

  ghost predicate All<A>(c: seq<A>, p: A -> bool) {
    forall i :: 0 <= i < |c| ==> p(c[i])
  }

  lemma {:induction false} RemovalMaps<A(!new), B(!new)>(c: seq<A>, r: A, f: A -> B, p: A -> bool)
    requires TellsApart(f, p) && All(c, p) && p(r)
    ensures RemoveFirst(Mapped(c, f), f(r)) == Mapped(RemoveFirst(c, r), f) && All(RemoveFirst(c, r), p)
  {
    if c != [] {
      assert Mapped(c, f)[1..] == Mapped(c[1..], f);
      if c[0] != r {
        RemovalMaps(c[1..], r, f, p);
      }
    }
  }

  lemma InsertionMaps<A, B>(c: seq<A>, i: nat, r: A, f: A -> B)
    requires i <= |c|
    ensures InsertAt(Mapped(c, f), i, f(r)) == Mapped(InsertAt(c, i, r), f)
    ensures Mapped(c, f) + [f(r)] == Mapped(c + [r], f)
  {
  }

  lemma MembershipMaps<A(!new), B(!new)>(c: seq<A>, r: A, f: A -> B, p: A -> bool)
    requires TellsApart(f, p) && All(c, p) && p(r)
    ensures f(r) in Mapped(c, f) <==> r in c
  {
    if r in c {
      var i :| 0 <= i < |c| && c[i] == r;
      assert Mapped(c, f)[i] == f(r);
    }
  }

  lemma OperationMaps<A(!new), B(!new)>(c: seq<A>, op: Operation<A>, f: A -> B, p: A -> bool)
    requires TellsApart(f, p) && All(c, p) && p(op.r)
    ensures Applied(Mapped(c, f), MappedOperation(op, f)) == Mapped(Applied(c, op), f) && All(Applied(c, op), p)
  {
    InsertionMaps(c, |c|, op.r, f);
    match op
    case DeleteFirst(r) => RemovalMaps(c, r, f, p);
    case InsertOrAppend(r, position) => if 1 <= position <= |c| + 1 { InsertionMaps(c, position - 1, r, f); }
    case AppendUnique(r) => MembershipMaps(c, r, f, p);
  }

  /** A chain of images stands for the chain of rules over every run. */
  lemma {:induction false} RunsMap<A(!new), B(!new)>(c: seq<A>, ops: seq<Operation<A>>, f: A -> B, p: A -> bool)
    requires TellsApart(f, p) && All(c, p) && forall i :: 0 <= i < |ops| ==> p(ops[i].r)
    ensures AllApplied(Mapped(c, f), Mapped(ops, (op: Operation<A>) => MappedOperation(op, f)))
      == Mapped(AllApplied(c, ops), f)
    ensures All(AllApplied(c, ops), p)
  {
    if ops != [] {
      var n := |ops| - 1;
      var g := (op: Operation<A>) => MappedOperation(op, f);
      RunsMap(c, ops[..n], f, p);
      assert Mapped(ops, g)[..n] == Mapped(ops[..n], g);
      OperationMaps(AllApplied(c, ops[..n]), ops[n], f, p);
    }
  }

  // ----- facts about the operations -----

  lemma {:induction false} KeepConcat<T>(a: seq<T>, b: seq<T>, s: set<T>)
    ensures Keep(a + b, s) == Keep(a, s) + Keep(b, s)
  {
    if a == [] {
      assert a + b == b;
    } else {
      KeepConcat(a[1..], b, s);
      assert (a + b)[0] == a[0] && (a + b)[1..] == a[1..] + b;
      assert [a[0]] + (Keep(a[1..], s) + Keep(b, s)) == [a[0]] + Keep(a[1..], s) + Keep(b, s);
    }
  }

  lemma {:induction false} DropConcat<T>(a: seq<T>, b: seq<T>, s: set<T>)
    ensures Drop(a + b, s) == Drop(a, s) + Drop(b, s)
  {
    if a == [] {
      assert a + b == b;
    } else {
      DropConcat(a[1..], b, s);
      HeadAndTail(a, b);
      if a[0] !in s {
        Regroup([a[0]], Drop(a[1..], s), Drop(b, s));
      }
    }
  }

  lemma HeadAndTail<T>(a: seq<T>, b: seq<T>)
    requires a != []
    ensures (a + b)[0] == a[0] && (a + b)[1..] == a[1..] + b
  {
  }

  lemma Regroup<T>(a: seq<T>, b: seq<T>, c: seq<T>)
    ensures a + (b + c) == a + b + c
  {
  }

  lemma {:induction false} DropNothing<T>(c: seq<T>, s: set<T>)
    requires forall r :: r in c ==> r !in s
    ensures Drop(c, s) == c
  {
    if c != [] { DropNothing(c[1..], s); }
  }

  lemma {:induction false} DropAll<T>(c: seq<T>, s: set<T>)
    requires forall r :: r in c ==> r in s
    ensures Drop(c, s) == []
  {
    if c != [] { DropAll(c[1..], s); }
  }

  lemma {:induction false} DropTwice<T>(c: seq<T>, s: set<T>, t: set<T>)
    ensures Drop(Drop(c, s), t) == Drop(c, s + t)
  {
    if c != [] { DropTwice(c[1..], s, t); }
  }

  lemma {:induction false} RemoveFirstElsewhere<T>(c: seq<T>, r: T, s: set<T>)
    requires r !in s
    ensures Keep(RemoveFirst(c, r), s) == Keep(c, s)
  {
    if c != [] { RemoveFirstElsewhere(c[1..], r, s); }
  }

  lemma KeepAround<T>(a: seq<T>, r: T, b: seq<T>, s: set<T>)
    requires r !in s
    ensures Keep(a + [r] + b, s) == Keep(a + b, s)
  {
    KeepConcat(a + [r], b, s);
    KeepConcat(a, [r], s);
    KeepConcat(a, b, s);
  }

  lemma InsertElsewhere<T>(c: seq<T>, i: nat, r: T, s: set<T>)
    requires i <= |c| && r !in s
    ensures Keep(InsertAt(c, i, r), s) == Keep(c, s)
  {
    KeepAround(c[..i], r, c[i..], s);
    assert c == c[..i] + c[i..];
  }

  lemma {:induction false} RemoveFirstMultiset<T>(c: seq<T>, r: T)
    ensures multiset(RemoveFirst(c, r)) == multiset(c) - multiset{r}
    ensures |RemoveFirst(c, r)| == if r in c then |c| - 1 else |c|
  {
    if c != [] {
      assert c == [c[0]] + c[1..];
      RemoveFirstMultiset(c[1..], r);
      if c[0] != r {
        HeadKept(c[0], RemoveFirst(c[1..], r), c[1..], r);
      }
    }
  }

  lemma HeadKept<T>(head: T, left: seq<T>, tail: seq<T>, r: T)
    requires multiset(left) == multiset(tail) - multiset{r} && head != r
    ensures multiset([head] + left) == multiset([head] + tail) - multiset{r}
  {
    assert multiset([head] + left) == multiset{head} + multiset(left);
    assert multiset([head] + tail) == multiset{head} + multiset(tail);
  }

  lemma {:induction false} FirstKept<T>(c: seq<T>, s: set<T>, p: nat)
    requires p < |c| && c[p] in s && forall q :: 0 <= q < p ==> c[q] !in s
    ensures Keep(c, s) != [] && Keep(c, s)[0] == c[p]
  {
    if p > 0 { FirstKept(c[1..], s, p - 1); }
  }

  /** More distinct members than positions is impossible. */
  lemma {:induction false} DistinctFit<T>(d: seq<T>, c: seq<T>)
    requires Distinct(d) && forall i :: 0 <= i < |d| ==> d[i] in c
    ensures |d| <= |c|
    ensures |d| == |c| ==> forall r :: r in c ==> r in d
  {
    if d != [] {
      var r := d[0];
      RemoveFirstMultiset(c, r);
      var c' := RemoveFirst(c, r);
      forall i | 0 <= i < |d[1..]| ensures d[1..][i] in c' {
        assert d[1..][i] == d[i + 1];
        assert d[i + 1] in multiset(c);
        assert d[i + 1] in multiset(c');
      }
      DistinctFit(d[1..], c');
      forall x | |d| == |c| && x in c ensures x in d {
        if x != r {
          assert x in multiset(c);
          assert x in multiset(c');
          assert x in c' && |d[1..]| == |c'|;
          assert x in d[1..];
        }
      }
    }
  }

  lemma {:induction false} RemoveAbsent<T>(c: seq<T>, r: T)
    requires r !in c
    ensures RemoveFirst(c, r) == c
  {
    if c != [] { RemoveAbsent(c[1..], r); }
  }

  /** What an insertion does to a plain chain: the rule stands at its 1-based position, or last for a position
      below 1, and the others around it as before. */
  lemma InsertionMeans<T>(c: seq<T>, r: T, position: int)
    ensures var d := Applied(c, InsertOrAppend(r, position));
      && (1 <= position <= |c| + 1 ==>
            |d| == |c| + 1 && d[position - 1] == r && d[..position - 1] == c[..position - 1]
            && d[position..] == c[position - 1..])
      && (position < 1 ==> d == c + [r])
      && (position > |c| + 1 ==> d == c)
  {
  }

  /** A unique append leaves a chain that has the rule alone, and a deletion takes one equal rule at most. */
  lemma AppendAndDeleteMean<T>(c: seq<T>, r: T)
    ensures Applied(c, AppendUnique(r)) == if r in c then c else c + [r]
    ensures r !in c ==> Applied(c, DeleteFirst(r)) == c
    ensures r in c ==> multiset(Applied(c, DeleteFirst(r))) == multiset(c) - multiset{r}
  {
    if r in c {
      assert r in multiset(c);
      RemoveFirstMultiset(c, r);
    } else {
      RemoveAbsent(c, r);
    }
  }
}
