/** CIDR containment and overlap of pkg/cidr/iputil.go over parsed prefixes (section 3.1 of
    RFC 4632): a prefix of length `ones` names an aligned block of addresses. */
module Cidr {
  import opened IPFamilies

  function Bits(family: Family): nat {
    if family == IPv4 then 32 else 128
  }

  function Pow2(n: nat): (p: nat)
    ensures p >= 1
  {
    if n == 0 then 1 else 2 * Pow2(n - 1)
  }

  datatype RawNet = RawNet(family: Family, base: nat, ones: nat) {
    function Size(): (s: nat)
      requires ones <= Bits(family)
      ensures s >= 1
    {
      Pow2(Bits(family) - ones)
    }

    /** What net.ParseCIDR returns: the address is already masked. */
    predicate Valid() {
      && family != IPFamilyUnknown && ones <= Bits(family)
      && Masked(base, Size()) == base
      && base < Pow2(Bits(family))
    }
  }

  type Net = n: RawNet | n.Valid() witness RawNet(IPv4, 0, 32)

  /** The text of a CIDR, as net.ParseCIDR sees it. */
  datatype Cidr = Malformed | Block(net: Net)

  datatype Verdict = Error | Ok(answer: bool)

  /** An address with the host bits of a block of the given size cleared: the greatest multiple of
      the size that is at most the address. */
  function Masked(address: nat, size: nat): (m: nat)
    requires size >= 1
    ensures m <= address < m + size
  {
    if address < size then 0 else size + Masked(address - size, size)
  }

  /** IPNet.Contains: same address family and equal network numbers. */
  predicate Contains(n: Net, family: Family, address: nat) {
    n.family == family && Masked(n.base, n.Size()) == Masked(address, n.Size())
  }

  /** The addresses a block stands for. */
  predicate Covers(n: Net, family: Family, address: nat) {
    n.family == family && n.base <= address < n.base + n.Size()
  }

  // ----- prefix blocks -----

  lemma MulLe(a: int, b: int, k: nat)
    requires a <= b
    ensures a * k <= b * k
  {
  }

  lemma {:induction false} MaskedIsMultiple(address: nat, size: nat) returns (k: nat)
    requires size >= 1
    ensures Masked(address, size) == k * size
  {
    if address < size {
      k := 0;
    } else {
      var j := MaskedIsMultiple(address - size, size);
      k := j + 1;
    }
  }

  lemma MaskedUnique(address: nat, size: nat, k: nat)
    requires size >= 1 && k * size <= address < k * size + size
    ensures Masked(address, size) == k * size
  {
    var q := MaskedIsMultiple(address, size);
    if q < k { MulLe(q + 1, k, size); }
    if q > k { MulLe(k + 1, q, size); }
  }

  /** The mask comparison decides exactly the address range of the block. */
  lemma ContainsIsCovers(n: Net, family: Family, address: nat)
    ensures Contains(n, family, address) <==> Covers(n, family, address)
  {
    if Covers(n, family, address) {
      var k := MaskedIsMultiple(n.base, n.Size());
      MaskedUnique(address, n.Size(), k);
    }
  }

  lemma {:induction false} Pow2Divides(small: nat, big: nat) returns (ratio: nat)
    requires small <= big
    ensures Pow2(big) == ratio * Pow2(small)
  {
    if small == big {
      ratio := 1;
    } else {
      var r := Pow2Divides(small, big - 1);
      ratio := 2 * r;
      Double(r, Pow2(small));
    }
  }

  lemma Double(r: nat, p: nat)
    ensures 2 * (r * p) == (2 * r) * p
  {
  }

  lemma Regroup(k: nat, ratio: nat, small: nat)
    ensures k * (ratio * small) == (k * ratio) * small
    ensures k * (ratio * small) + ratio * small == (k * ratio + ratio) * small
  {
  }

  lemma AlignedRange(lo: nat, hi: nat, j: nat, small: nat, address: nat)
    requires lo * small <= address < hi * small && j * small <= address < (j + 1) * small
    ensures lo * small <= j * small && (j + 1) * small <= hi * small
  {
    if j < lo { MulLe(j + 1, lo, small); } else { MulLe(lo, j, small); }
    if j >= hi { MulLe(hi, j, small); } else { MulLe(j + 1, hi, small); }
  }

  lemma NestedRanges(k: nat, j: nat, ratio: nat, small: nat, big: nat, address: nat)
    requires big == ratio * small
    requires k * big <= address < k * big + big && j * small <= address < j * small + small
    ensures k * big <= j * small && j * small + small <= k * big + big
  {
    Regroup(k, ratio, small);
    AlignedRange(k * ratio, k * ratio + ratio, j, small, address);
  }

  lemma BlocksNest(outer: nat, inner: nat, ratio: nat, small: nat, big: nat, address: nat)
    requires small >= 1 && big >= 1 && big == ratio * small
    requires Masked(outer, big) == outer && Masked(inner, small) == inner
    requires outer <= address < outer + big && inner <= address < inner + small
    ensures outer <= inner && inner + small <= outer + big
  {
    var k := MaskedIsMultiple(outer, big);
    var j := MaskedIsMultiple(inner, small);
    NestedRanges(k, j, ratio, small, big, address);
  }

  lemma SizeRatio(outer: RawNet, inner: RawNet) returns (ratio: nat)
    requires outer.family == inner.family && outer.ones <= inner.ones <= Bits(inner.family)
    ensures outer.Size() == ratio * inner.Size()
  {
    ratio := Pow2Divides(Bits(inner.family) - inner.ones, Bits(outer.family) - outer.ones);
  }

  /** Two aligned blocks that share an address are nested: the longer prefix lies in the shorter. */
  lemma NestedOrDisjoint(outer: Net, inner: Net, family: Family, address: nat)
    requires outer.ones <= inner.ones
    requires Covers(outer, family, address) && Covers(inner, family, address)
    ensures forall a :: Covers(inner, family, a) ==> Covers(outer, family, a)
  {
    var ratio := SizeRatio(outer, inner);
    BlocksNest(outer.base, inner.base, ratio, inner.Size(), outer.Size(), address);
  }

  ghost predicate ShareAddress(a: Net, b: Net) {
    exists address, family :: Covers(a, family, address) && Covers(b, family, address)
  }

  ghost predicate Within(inner: Net, outer: Net) {
    forall address, family :: Covers(inner, family, address) ==> Covers(outer, family, address)
  }

  /** The test of IsOverlapping, on two blocks. */
  predicate EitherContainsOther(a: Net, b: Net) {
    Contains(a, b.family, b.base) || Contains(b, a.family, a.base)
  }

  lemma OverlapIsIntersection(a: Net, b: Net)
    ensures EitherContainsOther(a, b) <==> ShareAddress(a, b)
  {
    ContainsIsCovers(a, b.family, b.base);
    ContainsIsCovers(b, a.family, a.base);
    if EitherContainsOther(a, b) {
      assert Covers(a, a.family, a.base) && Covers(b, b.family, b.base);
    }
    if ShareAddress(a, b) {
      var address, family :| Covers(a, family, address) && Covers(b, family, address);
      if a.ones <= b.ones {
        NestedOrDisjoint(a, b, family, address);
        assert Covers(b, family, b.base);
      } else {
        NestedOrDisjoint(b, a, family, address);
        assert Covers(a, family, a.base);
      }
    }
  }

  /** The test of IsContained, on two blocks. */
  predicate CoversPrefix(outer: Net, inner: Net) {
    Bits(outer.family) == Bits(inner.family) && outer.ones <= inner.ones && Contains(outer, inner.family, inner.base)
  }

  lemma PrefixIsSuperset(outer: Net, inner: Net)
    ensures CoversPrefix(outer, inner) <==> Within(inner, outer)
  {
    ContainsIsCovers(outer, inner.family, inner.base);
    assert Covers(inner, inner.family, inner.base);
    if CoversPrefix(outer, inner) {
      NestedOrDisjoint(outer, inner, inner.family, inner.base);
    }
    if Within(inner, outer) {
      SupersetIsShorter(outer, inner);
    }
  }

  lemma SupersetIsShorter(outer: Net, inner: Net)
    requires Within(inner, outer)
    ensures outer.family == inner.family && outer.ones <= inner.ones
  {
    var last := inner.base + inner.Size() - 1;
    assert Covers(inner, inner.family, last) && Covers(inner, inner.family, inner.base);
    assert Covers(outer, inner.family, last) && Covers(outer, inner.family, inner.base);
    if outer.ones > inner.ones { LongerIsSmaller(outer, inner); }
  }

  lemma LongerIsSmaller(a: RawNet, b: RawNet)
    requires a.family == b.family && Bits(a.family) >= a.ones > b.ones
    ensures a.Size() < b.Size()
  {
    Pow2Less(Bits(a.family) - a.ones, Bits(b.family) - b.ones);
  }

  lemma Pow2Less(a: nat, b: nat)
    requires a < b
    ensures Pow2(a) < Pow2(b)
  {
    if a + 1 < b { Pow2Less(a, b - 1); }
  }

  // ----- the two searches -----

  function Overlapping(list: seq<Cidr>, cidr: Cidr): Verdict {
    if cidr.Malformed? then Error
    else if list == [] then Ok(false)
    else if list[0].Malformed? then Error
    else if EitherContainsOther(list[0].net, cidr.net) then Ok(true)
    else Overlapping(list[1..], cidr)
  }

  method IsOverlapping(list: seq<Cidr>, cidr: Cidr) returns (v: Verdict)
    ensures v == Overlapping(list, cidr)
  {
    if cidr.Malformed? {
      return Error;
    }
    for i := 0 to |list|
      invariant Overlapping(list, cidr) == Overlapping(list[i..], cidr)
    {
      if list[i].Malformed? {
        return Error;
      }
      if EitherContainsOther(list[i].net, cidr.net) {
        return Ok(true);
      }
    }
    return Ok(false);
  }

  function Contained(outers: seq<Cidr>, inner: Cidr): Verdict {
    if inner.Malformed? then Error
    else if outers == [] then Ok(false)
    else if outers[0].Malformed? then Error
    else if CoversPrefix(outers[0].net, inner.net) then Ok(true)
    else Contained(outers[1..], inner)
  }

  method IsContained(outers: seq<Cidr>, inner: Cidr) returns (v: Verdict)
    ensures v == Contained(outers, inner)
  {
    if inner.Malformed? {
      return Error;
    }
    for i := 0 to |outers|
      invariant Contained(outers, inner) == Contained(outers[i..], inner)
    {
      if outers[i].Malformed? {
        return Error;
      }
      if CoversPrefix(outers[i].net, inner.net) {
        return Ok(true);
      }
    }
    return Ok(false);
  }

  /** The first i entries parse and none of them shares an address with n. */
  ghost predicate ClearOf(list: seq<Cidr>, i: nat, n: Net)
    requires i <= |list|
  {
    forall j :: 0 <= j < i ==> list[j].Block? && !ShareAddress(list[j].net, n)
  }

  /** The verdict is decided by the first entry that is malformed or shares an address. */
  lemma {:induction false} OverlappingMeaning(list: seq<Cidr>, n: Net)
    ensures Overlapping(list, Block(n)) == Ok(true)
      <==> exists i :: 0 <= i < |list| && ClearOf(list, i, n) && list[i].Block? && ShareAddress(list[i].net, n)
    ensures Overlapping(list, Block(n)) == Error
      <==> exists i :: 0 <= i < |list| && ClearOf(list, i, n) && list[i].Malformed?
    ensures Overlapping(list, Block(n)) == Ok(false) <==> ClearOf(list, |list|, n)
  {
    if list != [] {
      assert ClearOf(list, 0, n);
      if list[0].Block? {
        OverlapIsIntersection(list[0].net, n);
        if !ShareAddress(list[0].net, n) {
          OverlappingMeaning(list[1..], n);
          forall i | 0 <= i < |list| ensures ClearOf(list[1..], i, n) <==> ClearOf(list, i + 1, n) {
            if ClearOf(list[1..], i, n) {
              forall j | 0 <= j < i + 1 ensures list[j].Block? && !ShareAddress(list[j].net, n) {
                if j > 0 { assert list[j] == list[1..][j - 1]; }
              }
            }
            if ClearOf(list, i + 1, n) {
              forall j | 0 <= j < i ensures list[1..][j].Block? && !ShareAddress(list[1..][j].net, n) {
                assert list[1..][j] == list[j + 1];
              }
            }
          }
          ShiftWitness(list, n);
        }
      }
    }
  }

  lemma ShiftWitness(list: seq<Cidr>, n: Net)
    requires list != [] && list[0].Block? && !ShareAddress(list[0].net, n)
    requires forall i :: 0 <= i < |list| ==> (ClearOf(list[1..], i, n) <==> ClearOf(list, i + 1, n))
    ensures (exists i ::
      0 <= i < |list| - 1 && ClearOf(list[1..], i, n) && list[1..][i].Block? && ShareAddress(list[1..][i].net, n))
      <==> (exists i :: 0 <= i < |list| && ClearOf(list, i, n) && list[i].Block? && ShareAddress(list[i].net, n))
    ensures (exists i :: 0 <= i < |list| - 1 && ClearOf(list[1..], i, n) && list[1..][i].Malformed?)
      <==> (exists i :: 0 <= i < |list| && ClearOf(list, i, n) && list[i].Malformed?)
  {
    forall i | 0 <= i < |list| - 1
      ensures list[1..][i] == list[i + 1] && (ClearOf(list[1..], i, n) <==> ClearOf(list, i + 1, n)) {
    }
    forall i | 0 < i < |list|
      ensures list[i] == list[1..][i - 1] && (ClearOf(list[1..], i - 1, n) <==> ClearOf(list, i, n)) {
    }
  }

  /** The first i entries parse. */
  ghost predicate Parse(list: seq<Cidr>, i: nat)
    requires i <= |list|
  {
    forall j :: 0 <= j < i ==> list[j].Block?
  }

  /** Entry i is a superset of n, and everything before it parses. */
  ghost predicate CoveredBy(outers: seq<Cidr>, i: int, n: Net) {
    0 <= i < |outers| && Parse(outers, i) && outers[i].Block? && Within(n, outers[i].net)
  }

  /** A positive answer of IsContained names a block that covers every address, and such a block gives one
      unless a malformed entry comes before it. */
  lemma {:induction false} ContainedMeaning(outers: seq<Cidr>, inner: Cidr)
    ensures Contained(outers, inner) == Ok(true) <==> inner.Block? && exists i :: CoveredBy(outers, i, inner.net)
  {
    if inner.Block? && outers != [] && outers[0].Block? {
      PrefixIsSuperset(outers[0].net, inner.net);
      ContainedMeaning(outers[1..], inner);
      if CoversPrefix(outers[0].net, inner.net) {
        assert CoveredBy(outers, 0, inner.net);
      } else {
        if i :| CoveredBy(outers[1..], i, inner.net) {
          CoveredShift(outers, i, inner.net);
          assert CoveredBy(outers, i + 1, inner.net);
        }
        if i :| CoveredBy(outers, i, inner.net) {
          assert i > 0;
          CoveredShift(outers, i - 1, inner.net);
          assert CoveredBy(outers[1..], i - 1, inner.net);
        }
      }
    }
  }

  lemma CoveredShift(outers: seq<Cidr>, i: int, n: Net)
    requires outers != [] && outers[0].Block? && i >= 0
    ensures CoveredBy(outers[1..], i, n) <==> CoveredBy(outers, i + 1, n)
  {
    if CoveredBy(outers[1..], i, n) {
      forall j | 0 <= j < i + 1 ensures outers[j].Block? {
        if j > 0 { assert outers[j] == outers[1..][j - 1]; }
      }
    }
    if CoveredBy(outers, i + 1, n) {
      forall j | 0 <= j < i ensures outers[1..][j].Block? {
        assert outers[1..][j] == outers[j + 1];
      }
    }
  }

  /** A search fails on a malformed address, or on the first malformed entry that no decisive one precedes. */
  lemma {:induction false} ContainedErrorIff(outers: seq<Cidr>, inner: Cidr)
    ensures Contained(outers, inner) == Error <==>
      || inner.Malformed?
      || exists i :: 0 <= i < |outers| && outers[i].Malformed? && NoneCovers(outers, i, inner.net)
  {
    if inner.Block? && outers != [] {
      if outers[0].Malformed? {
        assert NoneCovers(outers, 0, inner.net);
      } else {
        PrefixIsSuperset(outers[0].net, inner.net);
        if !CoversPrefix(outers[0].net, inner.net) {
          ContainedErrorIff(outers[1..], inner);
          if i :| 0 <= i < |outers| - 1 && outers[1..][i].Malformed? && NoneCovers(outers[1..], i, inner.net) {
            NoneCoversShift(outers, i, inner.net);
            assert outers[i + 1].Malformed? && NoneCovers(outers, i + 1, inner.net);
          }
          if i :| 0 <= i < |outers| && outers[i].Malformed? && NoneCovers(outers, i, inner.net) {
            NoneCoversShift(outers, i - 1, inner.net);
            assert outers[1..][i - 1].Malformed? && NoneCovers(outers[1..], i - 1, inner.net);
          }
        }
      }
    }
  }

  /** The first i entries parse, and none of them covers n. */
  ghost predicate NoneCovers(outers: seq<Cidr>, i: nat, n: Net)
    requires i <= |outers|
  {
    forall j :: 0 <= j < i ==> outers[j].Block? && !Within(n, outers[j].net)
  }

  lemma NoneCoversShift(outers: seq<Cidr>, i: nat, n: Net)
    requires i < |outers| && outers[0].Block? && !Within(n, outers[0].net)
    ensures NoneCovers(outers[1..], i, n) <==> NoneCovers(outers, i + 1, n)
  {
    if NoneCovers(outers[1..], i, n) {
      forall j | 0 <= j < i + 1 ensures outers[j].Block? && !Within(n, outers[j].net) {
        if j > 0 { assert outers[j] == outers[1..][j - 1]; }
      }
    }
    if NoneCovers(outers, i + 1, n) {
      forall j | 0 <= j < i ensures outers[1..][j].Block? && !Within(n, outers[1..][j].net) {
        assert outers[1..][j] == outers[j + 1];
      }
    }
  }

  /** The longest prefixes, 32 bits for IPv4 and 128 for IPv6, are single addresses. */
  lemma HostRoutes(n: Net, address: nat)
    requires n.ones == if n.family == IPv4 then 32 else 128
    ensures Covers(n, n.family, address) <==> address == n.base
    ensures RawNet(IPv4, 0, 32).Valid() && RawNet(IPv6, 0, 128).Valid()
    ensures !RawNet(IPv4, 0, 33).Valid() && !RawNet(IPv6, 0, 129).Valid()
  {
  }
}
