/** Lists of lines in which certain lines, the headers, open blocks. Generic in the lines and in what
    makes a header, for the editor of the libreswan connection file. */
module LineBlocks {

  /** The first position that satisfies `f`, or -1. */
  function IndexFunc<T>(s: seq<T>, f: T -> bool): (i: int)
    ensures -1 <= i < |s|
  {
    if s == [] then -1
    else if f(s[0]) then 0
    else
      var i := IndexFunc(s[1..], f);
      if i == -1 then -1 else i + 1
  }

  ghost predicate NoneOf<T>(s: seq<T>, f: T -> bool) {
    forall i :: 0 <= i < |s| ==> !f(s[i])
  }

  /** A title is always a header. */
  ghost predicate TitlesOpen<T>(s: seq<T>, header: T -> bool, title: T -> bool) {
    forall i :: 0 <= i < |s| && title(s[i]) ==> header(s[i])
  }

  ghost predicate IsBlock<T>(b: seq<T>, header: T -> bool) {
    b != [] && header(b[0]) && NoneOf(b[1..], header)
  }

  ghost predicate AllBlocks<T>(blocks: seq<seq<T>>, header: T -> bool) {
    forall i :: 0 <= i < |blocks| ==> IsBlock(blocks[i], header)
  }

  ghost function Flatten<T>(blocks: seq<seq<T>>): seq<T> {
    if blocks == [] then [] else blocks[0] + Flatten(blocks[1..])
  }

  /** A header opens a block; any other line joins the block before it, or none. */
  ghost function AddLine<T>(blocks: seq<seq<T>>, l: T, header: T -> bool): seq<seq<T>> {
    if header(l) then blocks + [[l]]
    else if blocks == [] then []
    else blocks[..|blocks| - 1] + [blocks[|blocks| - 1] + [l]]
  }

  ghost function Blocks<T>(lines: seq<T>, header: T -> bool): seq<seq<T>> {
    if lines == [] then []
    else AddLine(Blocks(lines[..|lines| - 1], header), lines[|lines| - 1], header)
  }

  /** The lines before the first block. */
  ghost function Preamble<T>(lines: seq<T>, header: T -> bool): seq<T> {
    var first := IndexFunc(lines, header);
    if first == -1 then lines else lines[..first]
  }

  /** The first block that has the title is gone, the others are unchanged and in order. */
  ghost function DropTitled<T>(blocks: seq<seq<T>>, title: T -> bool): seq<seq<T>> {
    if blocks == [] then []
    else if blocks[0] != [] && title(blocks[0][0]) then blocks[1..]
    else [blocks[0]] + DropTitled(blocks[1..], title)
  }

  ghost predicate Titled<T>(blocks: seq<seq<T>>, title: T -> bool) {
    exists i :: 0 <= i < |blocks| && blocks[i] != [] && title(blocks[i][0])
  }

  /** Cuts the line at `start` and those after it up to the next header. */
  function CutFrom<T>(lines: seq<T>, start: nat, header: T -> bool): seq<T>
    requires start < |lines|
  {
    var next := IndexFunc(lines[start + 1..], header);
    var end := if next == -1 then |lines| else next + start + 1;
    lines[..start] + lines[end..]
  }

  // ----- first positions -----

  lemma {:induction false} IndexIsFirst<T>(s: seq<T>, f: T -> bool)
    ensures var i := IndexFunc(s, f);
      if i == -1 then NoneOf(s, f) else f(s[i]) && NoneOf(s[..i], f)
  {
    if s != [] && !f(s[0]) {
      IndexIsFirst(s[1..], f);
      var i := IndexFunc(s[1..], f);
      if i == -1 {
        forall j | 0 <= j < |s| ensures !f(s[j]) {
          if j > 0 { assert s[j] == s[1..][j - 1]; }
        }
      } else {
        forall j | 0 <= j < i + 1 ensures !f(s[j]) {
          if j > 0 { assert s[j] == s[1..][..i][j - 1]; }
        }
      }
    }
  }

  lemma {:induction false} IndexSkips<T>(a: seq<T>, b: seq<T>, f: T -> bool)
    requires NoneOf(a, f)
    ensures IndexFunc(a + b, f) == if IndexFunc(b, f) == -1 then -1 else |a| + IndexFunc(b, f)
  {
    if a == [] {
      assert a + b == b;
    } else {
      IndexSkips(a[1..], b, f);
      assert (a + b)[1..] == a[1..] + b;
    }
  }

  lemma IndexOfHead<T>(s: seq<T>, f: T -> bool)
    requires s != [] && f(s[0])
    ensures IndexFunc(s, f) == 0
  {
  }

  // ----- lines and blocks determine each other -----

  lemma {:induction false} FlattenConcat<T>(a: seq<seq<T>>, b: seq<seq<T>>)
    ensures Flatten(a + b) == Flatten(a) + Flatten(b)
  {
    if a == [] {
      assert a + b == b;
    } else {
      FlattenConcat(a[1..], b);
      assert (a + b)[1..] == a[1..] + b;
      assert a[0] + (Flatten(a[1..]) + Flatten(b)) == Flatten(a) + Flatten(b);
    }
  }

  lemma FlattenOne<T>(b: seq<T>)
    ensures Flatten([b]) == b
  {
    assert [b][1..] == [];
  }

  lemma BlocksSnoc<T>(lines: seq<T>, l: T, header: T -> bool)
    ensures Blocks(lines + [l], header) == AddLine(Blocks(lines, header), l, header)
  {
    assert (lines + [l])[..|lines|] == lines;
  }

  lemma {:induction false} BlockAddsOne<T>(lines: seq<T>, h: T, body: seq<T>, header: T -> bool)
    requires header(h) && NoneOf(body, header)
    ensures Blocks(lines + ([h] + body), header) == Blocks(lines, header) + [[h] + body]
  {
    if body == [] {
      BlocksSnoc(lines, h, header);
      assert [h] + body == [h];
    } else {
      var n := |body| - 1;
      BlockAddsOne(lines, h, body[..n], header);
      BlocksSnoc(lines + ([h] + body[..n]), body[n], header);
      AddLineToLast(Blocks(lines, header), [h] + body[..n], body[n], header);
      Snoc3(lines, [h], body);
    }
  }

  lemma Snoc3<T>(a: seq<T>, b: seq<T>, c: seq<T>)
    requires c != []
    ensures var n := |c| - 1;
      a + (b + c) == a + (b + c[..n]) + [c[n]] && b + c == b + c[..n] + [c[n]]
  {
  }

  lemma AddLineToLast<T>(blocks: seq<seq<T>>, b: seq<T>, l: T, header: T -> bool)
    requires !header(l)
    ensures AddLine(blocks + [b], l, header) == blocks + [b + [l]]
  {
    assert (blocks + [b])[..|blocks|] == blocks;
  }

  lemma {:induction false} NoHeadersNoBlocks<T>(lines: seq<T>, header: T -> bool)
    requires NoneOf(lines, header)
    ensures Blocks(lines, header) == []
  {
    if lines != [] {
      NoHeadersNoBlocks(lines[..|lines| - 1], header);
    }
  }

  lemma {:induction false} BlocksUnique<T>(preamble: seq<T>, blocks: seq<seq<T>>, header: T -> bool)
    requires NoneOf(preamble, header) && AllBlocks(blocks, header)
    ensures Blocks(preamble + Flatten(blocks), header) == blocks
  {
    if blocks == [] {
      assert preamble + Flatten(blocks) == preamble;
      NoHeadersNoBlocks(preamble, header);
    } else {
      var n := |blocks| - 1;
      var front, last := blocks[..n], blocks[n];
      BlocksUnique(preamble, front, header);
      assert [last[0]] + last[1..] == last;
      BlockAddsOne(preamble + Flatten(front), last[0], last[1..], header);
      SnocFlat(preamble, front, last);
      assert front + [last] == blocks;
    }
  }

  lemma SnocFlat<T>(preamble: seq<T>, front: seq<seq<T>>, last: seq<T>)
    ensures preamble + Flatten(front + [last]) == preamble + Flatten(front) + last
  {
    FlattenConcat(front, [last]);
    FlattenOne(last);
    assert preamble + (Flatten(front) + last) == preamble + Flatten(front) + last;
  }

  lemma PreambleUnique<T>(preamble: seq<T>, blocks: seq<seq<T>>, header: T -> bool)
    requires NoneOf(preamble, header) && AllBlocks(blocks, header)
    ensures Preamble(preamble + Flatten(blocks), header) == preamble
  {
    IndexSkips(preamble, Flatten(blocks), header);
    if blocks != [] {
      assert IsBlock(blocks[0], header);
      IndexOfHead(Flatten(blocks), header);
    }
  }

  lemma AddLineKeepsBlocks<T>(blocks: seq<seq<T>>, l: T, header: T -> bool)
    requires AllBlocks(blocks, header)
    ensures AllBlocks(AddLine(blocks, l, header), header)
  {
    if !header(l) && blocks != [] {
      var last := blocks[|blocks| - 1];
      assert IsBlock(last, header);
      assert (last + [l])[1..] == last[1..] + [l];
      assert IsBlock(last + [l], header);
    } else if header(l) {
      assert IsBlock([l], header);
    }
  }

  lemma AddLineFlat<T>(preamble: seq<T>, blocks: seq<seq<T>>, l: T, header: T -> bool)
    requires blocks != [] || header(l)
    ensures preamble + Flatten(AddLine(blocks, l, header)) == preamble + Flatten(blocks) + [l]
  {
    if header(l) {
      SnocFlat(preamble, blocks, [l]);
    } else {
      var k := |blocks| - 1;
      SnocFlat(preamble, blocks[..k], blocks[k] + [l]);
      SnocFlat(preamble, blocks[..k], blocks[k]);
      assert blocks[..k] + [blocks[k]] == blocks;
      assert preamble + Flatten(blocks[..k]) + (blocks[k] + [l]) == preamble + Flatten(blocks[..k]) + blocks[k] + [l];
    }
  }

  /** Every list of lines is its preamble followed by its blocks. */
  lemma {:induction false} BlocksCover<T>(lines: seq<T>, header: T -> bool)
    ensures AllBlocks(Blocks(lines, header), header) && NoneOf(Preamble(lines, header), header)
    ensures lines == Preamble(lines, header) + Flatten(Blocks(lines, header))
  {
    IndexIsFirst(lines, header);
    if lines != [] {
      var n := |lines| - 1;
      var front, l := lines[..n], lines[n];
      assert lines == front + [l];
      BlocksCover(front, header);
      var p, blocks := Preamble(front, header), Blocks(front, header);
      AddLineKeepsBlocks(blocks, l, header);
      if blocks == [] && !header(l) {
        assert front == p;
        assert NoneOf(lines, header);
        OnlyPreamble(lines, header);
      } else {
        AddLineFlat(p, blocks, l, header);
        PreambleUnique(p, AddLine(blocks, l, header), header);
      }
    }
  }

  lemma OnlyPreamble<T>(lines: seq<T>, header: T -> bool)
    requires NoneOf(lines, header)
    ensures Preamble(lines, header) == lines && Flatten(Blocks(lines, header)) == []
  {
    NoHeadersNoBlocks(lines, header);
    IndexIsFirst(lines, header);
  }

  // ----- removal of a block -----

  /** Where the first title is, counted in blocks. */
  lemma {:induction false} TitleIndex<T>(blocks: seq<seq<T>>, header: T -> bool, title: T -> bool) returns (k: nat)
    requires AllBlocks(blocks, header)
    requires TitlesOpen(Flatten(blocks), header, title)
    ensures k <= |blocks| && (k < |blocks| <==> Titled(blocks, title))
    ensures IndexFunc(Flatten(blocks), title) == if k == |blocks| then -1 else |Flatten(blocks[..k])|
    ensures k < |blocks| ==> title(blocks[k][0])
    ensures DropTitled(blocks, title) == if k == |blocks| then blocks else blocks[..k] + blocks[k + 1..]
  {
    if blocks == [] {
      k := 0;
    } else {
      var b, rest := blocks[0], blocks[1..];
      assert IsBlock(b, header);
      if title(b[0]) {
        k := 0;
        IndexOfHead(Flatten(blocks), title);
        assert blocks[..0] == [] && [] + blocks[1..] == blocks[1..];
      } else {
        NoTitleInside(b, Flatten(rest), header, title);
        k := TitleIndex(rest, header, title);
        IndexSkips(b, Flatten(rest), title);
        k := TitleShift(blocks, k, title);
      }
    }
  }

  lemma TitleShift<T>(blocks: seq<seq<T>>, j: nat, title: T -> bool) returns (k: nat)
    requires blocks != [] && blocks[0] != [] && !title(blocks[0][0]) && j <= |blocks| - 1
    requires j < |blocks| - 1 <==> Titled(blocks[1..], title)
    requires DropTitled(blocks[1..], title) == if j == |blocks| - 1 then blocks[1..]
      else blocks[1..][..j] + blocks[1..][j + 1..]
    ensures k == j + 1 && (k < |blocks| <==> Titled(blocks, title))
    ensures Flatten(blocks[..k]) == blocks[0] + Flatten(blocks[1..][..j])
    ensures DropTitled(blocks, title) == if k == |blocks| then blocks else blocks[..k] + blocks[k + 1..]
  {
    k := j + 1;
    assert blocks[..k][1..] == blocks[1..][..j];
    TitledShift(blocks, title);
    ConsCut(blocks, j);
  }

  lemma ConsCut<T>(s: seq<T>, j: nat)
    requires j < |s|
    ensures j + 1 < |s| ==> [s[0]] + (s[1..][..j] + s[1..][j + 1..]) == s[..j + 1] + s[j + 2..]
    ensures [s[0]] + s[1..] == s
  {
  }

  lemma TitledShift<T>(blocks: seq<seq<T>>, title: T -> bool)
    requires blocks != [] && !(blocks[0] != [] && title(blocks[0][0]))
    ensures Titled(blocks, title) <==> Titled(blocks[1..], title)
  {
    var rest := blocks[1..];
    if Titled(rest, title) {
      var i :| 0 <= i < |rest| && rest[i] != [] && title(rest[i][0]);
      assert blocks[i + 1] == rest[i];
    }
    if Titled(blocks, title) {
      var i :| 0 <= i < |blocks| && blocks[i] != [] && title(blocks[i][0]);
      assert blocks[i] == rest[i - 1];
    }
  }

  lemma NoTitleInside<T>(b: seq<T>, rest: seq<T>, header: T -> bool, title: T -> bool)
    requires IsBlock(b, header) && !title(b[0])
    requires TitlesOpen(b + rest, header, title)
    ensures NoneOf(b, title) && TitlesOpen(rest, header, title)
  {
    forall i | 0 <= i < |b| ensures !title(b[i]) {
      assert b[i] == (b + rest)[i];
      if i > 0 { assert b[i] == b[1..][i - 1]; }
    }
    forall i | 0 <= i < |rest| ensures title(rest[i]) ==> header(rest[i]) {
      assert rest[i] == (b + rest)[|b| + i];
    }
  }

  /** Removing from the first title to the next header removes exactly that block. */
  lemma RemovalDropsBlock<T>(p: seq<T>, blocks: seq<seq<T>>, header: T -> bool, title: T -> bool)
    requires NoneOf(p, header) && AllBlocks(blocks, header)
    requires TitlesOpen(p + Flatten(blocks), header, title)
    ensures var start := IndexFunc(p + Flatten(blocks), title);
      if start == -1 then !Titled(blocks, title) && DropTitled(blocks, title) == blocks
      else
        && Titled(blocks, title)
        && CutFrom(p + Flatten(blocks), start, header) == p + Flatten(DropTitled(blocks, title))
  {
    var k := RemovalStart(p, blocks, header, title);
    if k < |blocks| {
      DroppedAt(p, blocks, k, DropTitled(blocks, title), header);
    }
  }

  lemma RemovalStart<T>(p: seq<T>, blocks: seq<seq<T>>, header: T -> bool, title: T -> bool) returns (k: nat)
    requires NoneOf(p, header) && AllBlocks(blocks, header)
    requires TitlesOpen(p + Flatten(blocks), header, title)
    ensures k <= |blocks| && (k < |blocks| <==> Titled(blocks, title))
    ensures IndexFunc(p + Flatten(blocks), title) == if k == |blocks| then -1 else |p| + |Flatten(blocks[..k])|
    ensures DropTitled(blocks, title) == if k == |blocks| then blocks else blocks[..k] + blocks[k + 1..]
  {
    TitleOnlyInBlocks(p, Flatten(blocks), header, title);
    k := TitleIndex(blocks, header, title);
    IndexSkips(p, Flatten(blocks), title);
  }

  lemma DroppedAt<T>(p: seq<T>, blocks: seq<seq<T>>, k: nat, left: seq<seq<T>>, header: T -> bool)
    requires AllBlocks(blocks, header) && k < |blocks| && left == blocks[..k] + blocks[k + 1..]
    ensures var start := |p| + |Flatten(blocks[..k])|;
      start < |p + Flatten(blocks)| && CutFrom(p + Flatten(blocks), start, header) == p + Flatten(left)
  {
    FlattenConcat(blocks[..k], blocks[k + 1..]);
    CutAt(p, blocks, k, header);
  }

  lemma CutAt<T>(p: seq<T>, blocks: seq<seq<T>>, k: nat, header: T -> bool)
    requires k < |blocks| && AllBlocks(blocks, header)
    ensures var start := |p| + |Flatten(blocks[..k])|;
      start < |p + Flatten(blocks)|
      && CutFrom(p + Flatten(blocks), start, header) == p + (Flatten(blocks[..k]) + Flatten(blocks[k + 1..]))
  {
    assert IsBlock(blocks[k], header);
    SplitAt(blocks, k);
    CutBlock(p, Flatten(blocks[..k]), blocks[k], blocks[k + 1..], header);
  }

  lemma CutBlock<T>(p: seq<T>, a: seq<T>, b: seq<T>, rest: seq<seq<T>>, header: T -> bool)
    requires IsBlock(b, header) && AllBlocks(rest, header)
    ensures CutFrom(p + (a + (b + Flatten(rest))), |p| + |a|, header) == p + (a + Flatten(rest))
  {
    Cut(p, a, b, Flatten(rest));
    NextHeader(b, rest, header);
  }

  lemma TitleOnlyInBlocks<T>(p: seq<T>, rest: seq<T>, header: T -> bool, title: T -> bool)
    requires NoneOf(p, header) && TitlesOpen(p + rest, header, title)
    ensures NoneOf(p, title) && TitlesOpen(rest, header, title)
  {
    forall i | 0 <= i < |p| ensures !title(p[i]) {
      assert p[i] == (p + rest)[i];
    }
    forall i | 0 <= i < |rest| ensures title(rest[i]) ==> header(rest[i]) {
      assert rest[i] == (p + rest)[|p| + i];
    }
  }

  lemma FlattenCons<T>(b: seq<T>, rest: seq<seq<T>>)
    ensures Flatten([b] + rest) == b + Flatten(rest)
  {
    assert ([b] + rest)[1..] == rest;
  }

  lemma SplitAround<T>(a: seq<seq<T>>, b: seq<T>, c: seq<seq<T>>)
    ensures Flatten(a + ([b] + c)) == Flatten(a) + (b + Flatten(c))
  {
    FlattenConcat(a, [b] + c);
    FlattenCons(b, c);
  }

  lemma SplitAt<T>(blocks: seq<seq<T>>, k: nat)
    requires k < |blocks|
    ensures Flatten(blocks) == Flatten(blocks[..k]) + (blocks[k] + Flatten(blocks[k + 1..]))
  {
    SplitAround(blocks[..k], blocks[k], blocks[k + 1..]);
    SlicesAround(blocks, k);
  }

  lemma SlicesAround<T>(s: seq<T>, k: nat)
    requires k < |s|
    ensures s == s[..k] + ([s[k]] + s[k + 1..])
  {
  }

  lemma NextHeader<T>(b: seq<T>, rest: seq<seq<T>>, header: T -> bool)
    requires IsBlock(b, header) && AllBlocks(rest, header)
    ensures IndexFunc(b[1..] + Flatten(rest), header) == if rest == [] then -1 else |b| - 1
  {
    IndexSkips(b[1..], Flatten(rest), header);
    if rest != [] {
      assert IsBlock(rest[0], header);
      IndexOfHead(Flatten(rest), header);
    }
  }

  lemma Cut<T>(p: seq<T>, a: seq<T>, b: seq<T>, rest: seq<T>)
    requires b != []
    ensures var lines := p + (a + (b + rest));
      var start := |p| + |a|;
      && lines[start + 1..] == b[1..] + rest
      && lines[..start] + lines[start + |b|..] == p + (a + rest)
      && |lines| == start + |b| + |rest|
  {
  }

  lemma {:induction false} DropTitledKeepsBlocks<T>(blocks: seq<seq<T>>, header: T -> bool, title: T -> bool)
    requires AllBlocks(blocks, header)
    ensures AllBlocks(DropTitled(blocks, title), header)
  {
    if blocks != [] {
      DropTitledKeepsBlocks(blocks[1..], header, title);
    }
  }
}
