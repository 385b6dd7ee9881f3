/** The conditions in the status of a global egress or ingress object
    (pkg/globalnet/controllers/base_controllers.go:274-291): of those that report an allocation only the
    newest stays. */
module StatusConditions {

  /** The types of conditions: whether IPs are allocated, and all others. */
  datatype ConditionType = GlobalEgressIPAllocated | OtherType(name: string)

  datatype Condition = Condition(kind: ConditionType, message: string)

  predicate IsAllocated(c: Condition) {
    c.kind.GlobalEgressIPAllocated?
  }

  function Only(s: seq<Condition>, which: bool): seq<Condition> {
    if s == [] then []
    else
      var n := |s| - 1;
      if IsAllocated(s[n]) == which then Only(s[..n], which) + [s[n]] else Only(s[..n], which)
  }

  /** Everything but the allocation conditions before the last one. */
  function Trimmed(s: seq<Condition>): seq<Condition> {
    if s == [] then []
    else
      var n := |s| - 1;
      if IsAllocated(s[n]) then Only(s[..n], false) + [s[n]] else Trimmed(s[..n]) + [s[n]]
  }

  class Conditions {
    var items: seq<Condition>

    constructor (items: seq<Condition>)
      ensures this.items == items
    {
      this.items := items;
    }

    method TrimAllocatedStatusCondition()
      modifies this
      ensures items == Trimmed(old(items))
    {
      ghost var was := items;
      var last := -1;
      var i := |items| - 1;
      while i > 0
        invariant -1 <= i < |items| && last == -1
        invariant forall j :: i < j < |items| ==> !IsAllocated(items[j])
      {
        if IsAllocated(items[i]) {
          last := i;
          break;
        }
        i := i - 1;
      }
      if last == -1 {
        OnlyFirst(was);
      } else {
        TrimmedAt(was, last);
        DeleteBefore(last);
      }
    }

    method Delete(i: nat)
      requires i < |items|
      modifies this
      ensures items == old(items[..i] + items[i + 1..])
    {
      items := items[..i] + items[i + 1..];
    }

    method DeleteBefore(newest: nat)
      requires newest < |items|
      modifies this
      ensures items == Only(old(items)[..newest], false) + old(items)[newest..]
    {
      ghost var was := items;
      var last := newest;
      var i := 0;
      ghost var k := 0;
      while i < last
        invariant 0 <= k <= newest && 0 <= i <= |items| && last == newest - k + i
        invariant items[..i] == Only(was[..k], false) && items[i..] == was[k..]
        decreases last - i
      {
        OneDeleted(was, k, items, i);
        k := k + 1;
        if IsAllocated(items[i]) {
          CutAt(items, i);
          Delete(i);
          i := i - 1;
          last := last - 1;
        }
        i := i + 1;
      }
      assert items == items[..i] + items[i..];
    }
  }

  /** One more condition looked at: it is the one after those kept so far, and goes or stays. */
  lemma OneDeleted(s: seq<Condition>, k: nat, items: seq<Condition>, i: nat)
    requires k < |s| && i <= |items| && items[..i] == Only(s[..k], false) && items[i..] == s[k..]
    ensures i < |items| && items[i] == s[k] && items[i + 1..] == s[k + 1..]
    ensures Only(s[..k + 1], false) == if IsAllocated(s[k]) then items[..i] else items[..i + 1]
  {
    SplitNext(items, i, s, k);
    OnlySnoc(s[..k], s[k]);
  }

  lemma SplitNext(a: seq<Condition>, i: nat, s: seq<Condition>, k: nat)
    requires k < |s| && i <= |a| && a[i..] == s[k..]
    ensures i < |a| && a[i] == s[k] && a[i + 1..] == s[k + 1..]
    ensures a[..i + 1] == a[..i] + [s[k]] && s[..k + 1] == s[..k] + [s[k]]
  {
    assert |a[i..]| == |s[k..]|;
    assert a[i..][0] == s[k..][0];
    assert a[i + 1..] == a[i..][1..] && s[k + 1..] == s[k..][1..];
  }

  lemma CutAt(a: seq<Condition>, i: nat)
    requires i < |a|
    ensures var cut := a[..i] + a[i + 1..];
      cut[..i] == a[..i] && cut[i..] == a[i + 1..]
  {
  }

  lemma Cut(a: seq<Condition>, s: seq<Condition>, k: nat)
    requires k < |s|
    ensures var items := a + s[k..];
      && items[..|a|] + items[|a| + 1..] == a + s[k + 1..]
      && a + [s[k]] + s[k + 1..] == items
  {
  }

  lemma {:induction false} NothingAllocated(s: seq<Condition>, from: nat)
    requires from <= |s| && forall j :: from <= j < |s| ==> !IsAllocated(s[j])
    ensures Trimmed(s) == Trimmed(s[..from]) + s[from..]
  {
    if from == |s| {
      assert s[..from] == s;
    } else {
      var n := |s| - 1;
      NothingAllocated(s[..n], from);
      assert s[..n][..from] == s[..from] && s[..n][from..] + [s[n]] == s[from..];
    }
  }

  lemma OnlyFirst(s: seq<Condition>)
    requires forall j :: 0 < j < |s| ==> !IsAllocated(s[j])
    ensures Trimmed(s) == s
  {
    if s != [] {
      NothingAllocated(s, 1);
      TrimmedOne(s[0]);
      SplitFirst(s);
    }
  }

  lemma SplitFirst(s: seq<Condition>)
    requires s != []
    ensures s[..1] == [s[0]] && s[..1] + s[1..] == s
  {
  }

  lemma TrimmedOne(c: Condition)
    ensures Trimmed([c]) == [c]
  {
    assert [c][..0] == [];
  }

  lemma TrimmedAt(s: seq<Condition>, last: nat)
    requires last < |s| && IsAllocated(s[last]) && forall j :: last < j < |s| ==> !IsAllocated(s[j])
    ensures Trimmed(s) == Only(s[..last], false) + s[last..]
  {
    NothingAllocated(s, last + 1);
    assert s[..last + 1] == s[..last] + [s[last]];
    TrimmedSnoc(s[..last], s[last]);
    Cut(Only(s[..last], false), s, last);
  }

  lemma TrimmedSnoc(s: seq<Condition>, c: Condition)
    requires IsAllocated(c)
    ensures Trimmed(s + [c]) == Only(s, false) + [c]
  {
    assert (s + [c])[..|s|] == s;
  }

  /** Trimming keeps every other condition, in order, and exactly the newest allocation condition. */
  lemma {:induction false} TrimmedKeepsNewest(s: seq<Condition>)
    ensures Only(Trimmed(s), false) == Only(s, false)
    ensures var a := Only(s, true);
      Only(Trimmed(s), true) == if a == [] then [] else [a[|a| - 1]]
  {
    if s != [] {
      var n := |s| - 1;
      TrimmedKeepsNewest(s[..n]);
      if IsAllocated(s[n]) {
        OnlySnoc(Only(s[..n], false), s[n]);
        OnlyOthers(s[..n]);
      } else {
        OnlySnoc(Trimmed(s[..n]), s[n]);
      }
    }
  }

  lemma OnlySnoc(s: seq<Condition>, c: Condition)
    ensures forall which :: Only(s + [c], which) == if IsAllocated(c) == which then Only(s, which) + [c]
      else Only(s, which)
  {
    assert (s + [c])[..|s|] == s;
  }

  lemma {:induction false} OnlyOthers(s: seq<Condition>)
    ensures Only(Only(s, false), false) == Only(s, false) && Only(Only(s, false), true) == []
  {
    if s != [] {
      OnlyOthers(s[..|s| - 1]);
      OnlySnoc(Only(s[..|s| - 1], false), s[|s| - 1]);
    }
  }

  /** The allocation conditions are those of that type, and no others. */
  lemma {:induction false} OnlyHolds(s: seq<Condition>, c: Condition)
    ensures c in Only(s, true) <==> c in s && c.kind == GlobalEgressIPAllocated
    ensures c in Only(s, false) <==> c in s && c.kind != GlobalEgressIPAllocated
  {
    if s != [] {
      var n := |s| - 1;
      OnlyHolds(s[..n], c);
      assert s == s[..n] + [s[n]];
    }
  }

  /** What comes after the newest allocation condition is not touched. */
  lemma TrimmedKeepsTail(s: seq<Condition>, k: nat)
    requires k < |s| && s[k].kind == GlobalEgressIPAllocated
    requires forall i :: k < i < |s| ==> s[i].kind != GlobalEgressIPAllocated
    ensures |Trimmed(s)| >= |s| - k && Trimmed(s)[|Trimmed(s)| - (|s| - k)..] == s[k..]
  {
    TrimmedAt(s, k);
  }
}
