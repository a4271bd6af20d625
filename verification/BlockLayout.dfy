/** The heap between its two sentinels, seen as a sequence of blocks. */
module BlockLayout {

  const MIN_BLOCK := 16
  const MIN_PAYLOAD := 8

  /** A block with its header at addr; size counts header and footer. */
  datatype Block = Block(addr: nat, size: nat, free: bool) {
    function Va(): nat { addr + 4 }
    function End(): nat { addr + size }
  }

  ghost predicate InRange(bs: seq<Block>, lo: nat, hi: nat, i: nat)
    requires i < |bs|
  {
    bs[i].size >= MIN_BLOCK && bs[i].size % 2 == 0 && lo <= bs[i].addr && bs[i].End() <= hi
  }

  ghost predicate Ordered(bs: seq<Block>, i: nat, j: nat)
    requires i < |bs| && j < |bs|
  {
    bs[i].End() <= bs[j].addr
  }

  ghost predicate Touching(bs: seq<Block>, i: nat)
    requires i + 1 < |bs|
  {
    bs[i].End() == bs[i + 1].addr
  }

  /** The blocks fill [lo, hi) exactly, in address order, with even sizes of at least 16. */
  ghost predicate Tiled(bs: seq<Block>, lo: nat, hi: nat) {
    && (if |bs| == 0 then lo == hi else bs[0].addr == lo && bs[|bs| - 1].End() == hi)
    && (forall i :: 0 <= i < |bs| ==> InRange(bs, lo, hi, i))
    && (forall i, j :: 0 <= i < j < |bs| ==> Ordered(bs, i, j))
    && (forall i :: 0 <= i < |bs| - 1 ==> Touching(bs, i))
  }

  ghost predicate FreePair(bs: seq<Block>, i: nat)
    requires i + 1 < |bs|
  {
    bs[i].free && bs[i + 1].free
  }

  /** No two neighbours are both free. */
  ghost predicate Coalesced(bs: seq<Block>) {
    forall i :: 0 <= i < |bs| - 1 ==> !FreePair(bs, i)
  }

  /** The heap invariant on the abstract side. */
  ghost predicate WellFormed(bs: seq<Block>, lo: nat, hi: nat) {
    |bs| > 0 && Tiled(bs, lo, hi) && Coalesced(bs)
  }

  /** Payload addresses of the free blocks, in address order: the contents of freeBlocksList. */
  function FreeVas(bs: seq<Block>): seq<nat> {
    if |bs| == 0 then [] else OwnVa(bs[0]) + FreeVas(bs[1..])
  }

  function OwnVa(b: Block): seq<nat> {
    if b.free then [b.Va()] else []
  }

  lemma {:induction false} FreeVasConcat(a: seq<Block>, b: seq<Block>)
    ensures FreeVas(a + b) == FreeVas(a) + FreeVas(b)
  {
    if |a| == 0 {
      assert a + b == b;
    } else {
      assert (a + b)[1..] == a[1..] + b;
      FreeVasConcat(a[1..], b);
      assert OwnVa(a[0]) + (FreeVas(a[1..]) + FreeVas(b)) == OwnVa(a[0]) + FreeVas(a[1..]) + FreeVas(b);
    }
  }

  lemma {:induction false} FreeVasOne(b: Block)
    ensures FreeVas([b]) == if b.free then [b.Va()] else []
  {
    assert [b][1..] == [];
  }

  /** How many free blocks precede block i. */
  function Rank(bs: seq<Block>, i: nat): nat
    requires i <= |bs|
  {
    |FreeVas(bs[..i])|
  }

  lemma {:induction false} RankOfFree(bs: seq<Block>, i: nat)
    requires i < |bs| && bs[i].free
    ensures Rank(bs, i) < |FreeVas(bs)| && FreeVas(bs)[Rank(bs, i)] == bs[i].Va()
    ensures FreeVas(bs[..i]) == FreeVas(bs)[..Rank(bs, i)]
    ensures FreeVas(bs[i + 1..]) == FreeVas(bs)[Rank(bs, i) + 1..]
  {
    assert bs == bs[..i] + ([bs[i]] + bs[i + 1..]);
    FreeVasConcat(bs[..i], [bs[i]] + bs[i + 1..]);
    FreeVasConcat([bs[i]], bs[i + 1..]);
    FreeVasOne(bs[i]);
  }

  lemma {:induction false} RankOfUsed(bs: seq<Block>, i: nat)
    requires i < |bs| && !bs[i].free
    ensures Rank(bs, i) <= |FreeVas(bs)|
    ensures FreeVas(bs[..i]) == FreeVas(bs)[..Rank(bs, i)]
    ensures FreeVas(bs[i + 1..]) == FreeVas(bs)[Rank(bs, i)..]
  {
    assert bs == bs[..i] + ([bs[i]] + bs[i + 1..]);
    FreeVasConcat(bs[..i], [bs[i]] + bs[i + 1..]);
    FreeVasConcat([bs[i]], bs[i + 1..]);
    FreeVasOne(bs[i]);
  }

  /** The index of the k-th free block. */
  function NthFree(bs: seq<Block>, k: nat): (i: nat)
    requires k < |FreeVas(bs)|
    ensures i < |bs| && bs[i].free && bs[i].Va() == FreeVas(bs)[k]
  {
    if bs[0].free && k == 0 then 0
    else 1 + NthFree(bs[1..], if bs[0].free then k - 1 else k)
  }

  /** Which part of a + b an index falls in, for each clause of Tiled. */
  lemma TiledJoin(a: seq<Block>, b: seq<Block>, lo: nat, mid: nat, hi: nat)
    requires Tiled(a, lo, mid) && Tiled(b, mid, hi) && lo <= mid <= hi
    ensures Tiled(a + b, lo, hi)
  {
    var c, n := a + b, |a|;
    assert forall i :: 0 <= i < |c| ==> c[i] == if i < n then a[i] else b[i - n];
    forall i | 0 <= i < |c|
      ensures InRange(c, lo, hi, i)
    {
      assert if i < n then InRange(a, lo, mid, i) else InRange(b, mid, hi, i - n);
    }
    forall i, j | 0 <= i < j < |c|
      ensures Ordered(c, i, j)
    {
      assert i < n ==> InRange(a, lo, mid, i);
      assert n <= j ==> InRange(b, mid, hi, j - n);
      assert j < n ==> Ordered(a, i, j);
      assert n <= i ==> Ordered(b, i - n, j - n);
    }
    forall i | 0 <= i < |c| - 1
      ensures Touching(c, i)
    {
      assert i < n - 1 ==> Touching(a, i);
      assert n <= i ==> Touching(b, i - n);
    }
  }

  ghost function Start(bs: seq<Block>, i: nat, hi: nat): nat
    requires i <= |bs|
  {
    if i < |bs| then bs[i].addr else hi
  }

  lemma TiledPart(bs: seq<Block>, lo: nat, hi: nat, i: nat)
    requires Tiled(bs, lo, hi) && i <= |bs|
    ensures Tiled(bs[..i], lo, Start(bs, i, hi))
    ensures Tiled(bs[i..], Start(bs, i, hi), hi)
    ensures lo <= Start(bs, i, hi) <= hi
  {
    var mid := Start(bs, i, hi);
    assert i < |bs| ==> InRange(bs, lo, hi, i);
    assert |bs| > 0 ==> InRange(bs, lo, hi, 0);
    forall j | 0 <= j < |bs|
      ensures if j < i then InRange(bs[..i], lo, mid, j) else InRange(bs[i..], mid, hi, j - i)
    {
      assert InRange(bs, lo, hi, j);
      assert j < i < |bs| ==> Ordered(bs, j, i);
      assert i < j ==> Ordered(bs, i, j);
    }
    forall j, k | 0 <= j < k < |bs|
      ensures k < i ==> Ordered(bs[..i], j, k)
      ensures i <= j ==> Ordered(bs[i..], j - i, k - i)
    {
      assert Ordered(bs, j, k);
    }
    forall j, k | 0 <= j < k < |bs[i..]|
      ensures Ordered(bs[i..], j, k)
    {
      assert Ordered(bs, j + i, k + i);
    }
    forall j | 0 <= j < |bs[i..]|
      ensures InRange(bs[i..], mid, hi, j)
    {
      assert InRange(bs, lo, hi, j + i) && (j > 0 ==> Ordered(bs, i, j + i));
    }
    forall j | 0 <= j < |bs[i..]| - 1
      ensures Touching(bs[i..], j)
    {
      assert Touching(bs, j + i);
    }
    forall j | 0 <= j < i - 1
      ensures Touching(bs[..i], j)
    {
      assert Touching(bs, j);
    }
    assert 0 < i < |bs| ==> Touching(bs, i - 1);
  }

  /** Blocks i .. j - 1 may be replaced by any tiling of the same range. */
  lemma TiledReplace(bs: seq<Block>, lo: nat, hi: nat, i: nat, j: nat, x: seq<Block>)
    requires Tiled(bs, lo, hi) && i < j <= |bs|
    requires Tiled(x, bs[i].addr, bs[j - 1].End())
    ensures Tiled(bs[..i] + x + bs[j..], lo, hi)
  {
    TiledPart(bs, lo, hi, i);
    TiledPart(bs, lo, hi, j);
    assert j < |bs| ==> Touching(bs, j - 1);
    assert InRange(bs, lo, hi, i) && InRange(bs, lo, hi, j - 1);
    assert i < j - 1 ==> Ordered(bs, i, j - 1);
    TiledJoin(bs[..i], x, lo, bs[i].addr, bs[j - 1].End());
    TiledJoin(bs[..i] + x, bs[j..], lo, bs[j - 1].End(), hi);
  }

  /** The free list is sorted, with room for a whole block between its members. */
  lemma {:induction false} FreeVasSorted(bs: seq<Block>, lo: nat, hi: nat)
    requires Tiled(bs, lo, hi)
    ensures forall k :: 0 <= k < |FreeVas(bs)| ==> lo + 4 <= FreeVas(bs)[k] && FreeVas(bs)[k] + 12 <= hi
    ensures forall k, l :: 0 <= k < l < |FreeVas(bs)| ==> FreeVas(bs)[k] + MIN_BLOCK <= FreeVas(bs)[l]
  {
    if |bs| > 0 {
      TiledPart(bs, lo, hi, 1);
      assert |bs| > 1 ==> Touching(bs, 0);
      assert InRange(bs, lo, hi, 0);
      FreeVasSorted(bs[1..], bs[0].End(), hi);
    }
  }

  // ---------------------------------------------------------------- searching

  predicate Fits(b: Block, total: nat) {
    b.free && b.size >= total
  }

  ghost predicate NothingFits(bs: seq<Block>, total: nat) {
    forall i :: 0 <= i < |bs| ==> !Fits(bs[i], total)
  }

  /** i is the fitting block with the lowest address. */
  ghost predicate IsFirstFit(bs: seq<Block>, total: nat, i: nat) {
    && i < |bs| && Fits(bs[i], total)
    && forall j :: 0 <= j < i ==> !Fits(bs[j], total)
  }

  /** i is the smallest fitting block, the lowest one on ties. */
  ghost predicate IsBestFit(bs: seq<Block>, total: nat, i: nat) {
    && i < |bs| && Fits(bs[i], total)
    && (forall j :: 0 <= j < |bs| && Fits(bs[j], total) ==> bs[i].size <= bs[j].size)
    && (forall j :: 0 <= j < i && Fits(bs[j], total) ==> bs[i].size < bs[j].size)
  }

  /** First fit: the index found, or |bs| when nothing fits. */
  function FirstFit(bs: seq<Block>, total: nat): (i: nat) {
    if |bs| == 0 || Fits(bs[0], total) then 0 else 1 + FirstFit(bs[1..], total)
  }

  /** Best fit: the index found, or |bs| when nothing fits. */
  function BestFit(bs: seq<Block>, total: nat): (i: nat)
    ensures i <= |bs|
  {
    if |bs| == 0 then 0
    else
      var i := 1 + BestFit(bs[1..], total);
      if Fits(bs[0], total) && (i == |bs| || bs[0].size <= bs[i].size) then 0 else i
  }

  lemma {:induction false} FirstFitIsFirst(bs: seq<Block>, total: nat)
    ensures FirstFit(bs, total) < |bs| ==> IsFirstFit(bs, total, FirstFit(bs, total))
    ensures FirstFit(bs, total) >= |bs| ==> FirstFit(bs, total) == |bs| && NothingFits(bs, total)
  {
    if |bs| > 0 && !Fits(bs[0], total) {
      FirstFitIsFirst(bs[1..], total);
      assert forall j :: 0 < j < |bs| ==> bs[j] == bs[1..][j - 1];
    }
  }

  lemma {:induction false} BestFitIsBest(bs: seq<Block>, total: nat)
    ensures BestFit(bs, total) < |bs| ==> IsBestFit(bs, total, BestFit(bs, total))
    ensures BestFit(bs, total) == |bs| ==> NothingFits(bs, total)
  {
    if |bs| > 0 {
      BestFitIsBest(bs[1..], total);
      assert forall j :: 0 < j < |bs| ==> bs[j] == bs[1..][j - 1];
    }
  }

  /** Only one block is the first, and only one the best, that fits. */
  lemma FitIsUnique(bs: seq<Block>, total: nat, i: nat)
    ensures IsFirstFit(bs, total, i) ==> FirstFit(bs, total) == i
    ensures IsBestFit(bs, total, i) ==> BestFit(bs, total) == i
    ensures NothingFits(bs, total) ==> FirstFit(bs, total) == BestFit(bs, total) == |bs|
  {
    FirstFitIsFirst(bs, total);
    BestFitIsBest(bs, total);
  }

  // ---------------------------------------------------------------- the operations

  /** Block i, which is free, serves a request for total bytes: whole, or split when 16 bytes or more are left. */
  function Place(bs: seq<Block>, i: nat, total: nat): seq<Block>
    requires i < |bs| && total <= bs[i].size
  {
    if bs[i].size - total < MIN_BLOCK then
      bs[i := bs[i].(free := false)]
    else
      bs[..i] + [Block(bs[i].addr, total, false), Block(bs[i].addr + total, bs[i].size - total, true)] + bs[i + 1..]
  }

  predicate FreeBefore(bs: seq<Block>, i: nat)
    requires i < |bs|
  {
    i > 0 && bs[i - 1].free
  }

  predicate FreeAfter(bs: seq<Block>, i: nat)
    requires i < |bs|
  {
    i + 1 < |bs| && bs[i + 1].free
  }

  /** The first block that freeing block i merges. */
  function MergeFrom(bs: seq<Block>, i: nat): nat
    requires i < |bs|
  {
    if FreeBefore(bs, i) then i - 1 else i
  }

  /** One past the last block that freeing block i merges. */
  function MergeTo(bs: seq<Block>, i: nat): nat
    requires i < |bs|
  {
    if FreeAfter(bs, i) then i + 2 else i + 1
  }

  function MergedSize(bs: seq<Block>, i: nat): nat
    requires i < |bs|
  {
    (if FreeBefore(bs, i) then bs[i - 1].size else 0) + bs[i].size + (if FreeAfter(bs, i) then bs[i + 1].size else 0)
  }

  /** Block i freed and merged with its free neighbours. */
  function Release(bs: seq<Block>, i: nat): seq<Block>
    requires i < |bs|
  {
    var f, t := MergeFrom(bs, i), MergeTo(bs, i);
    bs[..f] + [Block(bs[f].addr, MergedSize(bs, i), true)] + bs[t..]
  }

  // ---------------------------------------------------------------- their effect on the free list

  lemma {:induction false} FreeVasThree(p: seq<Block>, q: seq<Block>, r: seq<Block>)
    ensures FreeVas(p + q + r) == FreeVas(p) + FreeVas(q) + FreeVas(r)
  {
    FreeVasConcat(p + q, r);
    FreeVasConcat(p, q);
  }

  lemma {:induction false} FreeVasAround(bs: seq<Block>, f: nat, t: nat, x: seq<Block>)
    requires f <= t <= |bs|
    ensures FreeVas(bs) == FreeVas(bs[..f]) + FreeVas(bs[f..t]) + FreeVas(bs[t..])
    ensures FreeVas(bs[..f] + x + bs[t..]) == FreeVas(bs[..f]) + FreeVas(x) + FreeVas(bs[t..])
  {
    FreeVasThree(bs[..f], bs[f..t], bs[t..]);
    assert bs == bs[..f] + bs[f..t] + bs[t..];
    FreeVasThree(bs[..f], x, bs[t..]);
  }

  lemma {:induction false} FreeVasPair(m: seq<Block>)
    requires |m| == 2 && !m[0].free && m[1].free
    ensures FreeVas(m) == [m[1].Va()]
  {
    FreeVasTwo(m[0], m[1]);
    assert m == [m[0], m[1]];
  }

  lemma {:induction false} FreeVasTwo(a: Block, b: Block)
    ensures FreeVas([a, b]) == (if a.free then [a.Va()] else []) + (if b.free then [b.Va()] else [])
  {
    assert [a, b] == [a] + [b];
    FreeVasConcat([a], [b]);
    FreeVasOne(a);
    FreeVasOne(b);
  }
}
