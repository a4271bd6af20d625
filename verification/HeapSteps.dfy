/** What the steps of the allocator do to a heap's tags, free list and live payloads, as values. */
module HeapSteps {
  import opened Machine
  import opened Memory
  import opened BlockLayout
  import opened FreeList
  import opened BoundaryTags

  const MAX_REQUEST := 2048
  const SENTINEL: word := 1

  /** The words v between the sentinels spell the blocks bs; the first n of them have a correct footer. */
  ghost predicate Spells(v: Words, bs: seq<Block>, lo: nat, hi: nat, n: int) {
    && |bs| > 0 && 4 < lo < |v| && hi < |v|
    && Tiled(bs, lo, hi) && Headed(v, bs) && Footed(v, bs, n)
    && v[lo - 4] == SENTINEL && v[hi] == SENTINEL
  }

  /** The tags of initialize_dynamic_allocator spell one free block. */
  lemma InitialSpells(v: Words, start: nat, size: nat)
    requires 0 < start && 24 <= size && size % 2 == 0 && start + size - 4 < |v|
    requires v[start] == SENTINEL && v[start + size - 4] == SENTINEL
    requires v[start + 4] == size - 8 && v[start + size - 8] == size - 8
    ensures Spells(v, [Block(start + 4, size - 8, true)], start + 4, start + size - 4, 1)
  {
    var bs := [Block(start + 4, size - 8, true)];
    assert InRange(bs, start + 4, start + size - 4, 0) && HeadAt(v, bs, 0) && FootAt(v, bs, 0);
  }

  // ---------------------------------------------------------------- splitting a free block

  function SplitPair(b: Block, t: nat): seq<Block>
    requires t <= b.size
  {
    [Block(b.addr, t, false), Block(b.addr + t, b.size - t, true)]
  }

  lemma SplitTiled(bs: seq<Block>, lo: nat, hi: nat, i: nat, t: nat)
    requires Tiled(bs, lo, hi) && i < |bs| && t % 2 == 0
    requires MIN_BLOCK <= t && t + MIN_BLOCK <= bs[i].size
    ensures Tiled(bs[..i] + SplitPair(bs[i], t) + bs[i + 1..], lo, hi)
  {
    var x := SplitPair(bs[i], t);
    assert InRange(bs, lo, hi, i);
    assert InRange(x, bs[i].addr, bs[i].End(), 0) && InRange(x, bs[i].addr, bs[i].End(), 1);
    assert Touching(x, 0) && Ordered(x, 0, 1);
    TiledReplace(bs, lo, hi, i, i + 1, x);
  }

  lemma MarkTiled(bs: seq<Block>, lo: nat, hi: nat, i: nat, f: bool)
    requires Tiled(bs, lo, hi) && i < |bs|
    ensures Tiled(bs[i := bs[i].(free := f)], lo, hi)
    ensures bs[i := bs[i].(free := f)] == bs[..i] + [bs[i].(free := f)] + bs[i + 1..]
  {
    var x := [bs[i].(free := f)];
    assert bs[i := bs[i].(free := f)] == bs[..i] + x + bs[i + 1..];
    assert InRange(bs, lo, hi, i);
    assert InRange(x, bs[i].addr, bs[i].End(), 0);
    TiledReplace(bs, lo, hi, i, i + 1, x);
  }

  lemma {:induction false} ListBefore(bs: seq<Block>, lo: nat, hi: nat, i: nat)
    requires Tiled(bs, lo, hi) && i < |bs|
    ensures forall k :: 0 <= k < |FreeVas(bs[..i])| ==> FreeVas(bs[..i])[k] + 12 <= bs[i].addr
  {
    TiledPart(bs, lo, hi, i);
    FreeVasSorted(bs[..i], lo, bs[i].addr);
  }

  lemma {:induction false} ListAfter(bs: seq<Block>, lo: nat, hi: nat, i: nat)
    requires Tiled(bs, lo, hi) && i < |bs|
    ensures |FreeVas(bs[i + 1..])| > 0 ==> bs[i].End() + 4 <= FreeVas(bs[i + 1..])[0]
  {
    TiledPart(bs, lo, hi, i + 1);
    assert i + 1 < |bs| ==> Touching(bs, i);
    FreeVasSorted(bs[i + 1..], bs[i].End(), hi);
  }

  /** Where a free block stands in the free list, between the members before and after it. */
  lemma {:induction false} ListAroundFree(bs: seq<Block>, lo: nat, hi: nat, i: nat)
    requires Tiled(bs, lo, hi) && i < |bs| && bs[i].free
    ensures var xs, k := FreeVas(bs), Rank(bs, i);
      && k < |xs| && xs[k] == bs[i].Va()
      && (k > 0 ==> xs[k - 1] + 12 <= bs[i].addr)
      && (k + 1 < |xs| ==> bs[i].End() + 4 <= xs[k + 1])
  {
    RankOfFree(bs, i);
    ListBefore(bs, lo, hi, i);
    ListAfter(bs, lo, hi, i);
    var xs, k := FreeVas(bs), Rank(bs, i);
    assert k > 0 ==> xs[k - 1] == FreeVas(bs[..i])[k - 1];
    assert k + 1 < |xs| ==> xs[k + 1] == FreeVas(bs[i + 1..])[0];
  }

  /** Where a used block would stand in the free list. */
  lemma {:induction false} ListAroundUsed(bs: seq<Block>, lo: nat, hi: nat, i: nat)
    requires Tiled(bs, lo, hi) && i < |bs| && !bs[i].free
    ensures var xs, k := FreeVas(bs), Rank(bs, i);
      && k <= |xs|
      && (k > 0 ==> xs[k - 1] + 12 <= bs[i].addr)
      && (k < |xs| ==> bs[i].End() + 4 <= xs[k])
  {
    RankOfUsed(bs, i);
    ListBefore(bs, lo, hi, i);
    ListAfter(bs, lo, hi, i);
    var xs, k := FreeVas(bs), Rank(bs, i);
    assert k > 0 ==> xs[k - 1] == FreeVas(bs[..i])[k - 1];
    assert k < |xs| ==> xs[k] == FreeVas(bs[i + 1..])[0];
  }

  lemma SwapMember(xs: seq<nat>, k: nat, s: nat)
    requires k < |xs|
    ensures Inserted(xs, k + 1, s)[k] == xs[k] && At(Inserted(xs, k + 1, s), k + 1) == s
    ensures At(Inserted(xs, k + 1, s), k - 1) == At(xs, k - 1)
    ensures Removed(Inserted(xs, k + 1, s), k) == xs[k := s]
  {
  }

  lemma {:induction false} SplitList(bs: seq<Block>, i: nat, t: nat)
    requires i < |bs| && bs[i].free && t <= bs[i].size
    ensures var xs, k, s := FreeVas(bs), Rank(bs, i), bs[i].addr + t + 4;
      k < |xs| && FreeVas(bs[..i] + SplitPair(bs[i], t) + bs[i + 1..]) == xs[k := s]
  {
    var x, s := SplitPair(bs[i], t), bs[i].addr + t + 4;
    FreeVasTwo(x[0], x[1]);
    assert x == [x[0], x[1]];
    OneBlock(bs, i);
    ListReplaced(bs, i, i + 1, x, [bs[i].Va()], [s]);
    SetMember(FreeVas(bs), Rank(bs, i), s);
  }

  lemma {:induction false} OneBlock(bs: seq<Block>, i: nat)
    requires i < |bs|
    ensures FreeVas(bs[i..i + 1]) == OwnVa(bs[i])
  {
    assert bs[i..i + 1] == [bs[i]];
    FreeVasOne(bs[i]);
  }

  /** The free list when blocks f .. t - 1, whose part of it is ms, are replaced by x. */
  lemma {:induction false} ListReplaced(bs: seq<Block>, f: nat, t: nat, x: seq<Block>, ms: seq<nat>, ys: seq<nat>)
    requires f <= t <= |bs| && FreeVas(bs[f..t]) == ms && FreeVas(x) == ys
    ensures var xs, k := FreeVas(bs), Rank(bs, f);
      && k + |ms| <= |xs| && xs[k..k + |ms|] == ms
      && FreeVas(bs[..f] + x + bs[t..]) == xs[..k] + ys + xs[k + |ms|..]
  {
    FreeVasAround(bs, f, t, x);
    PartsOf(FreeVas(bs), FreeVas(bs[..f]), ms, FreeVas(bs[t..]));
  }

  lemma PartsOf(xs: seq<nat>, a: seq<nat>, m: seq<nat>, z: seq<nat>)
    requires xs == a + m + z
    ensures var k, l := |a|, |a| + |m|;
      l <= |xs| && xs[..k] == a && xs[k..l] == m && xs[l..] == z
  {
  }

  lemma SetMember(xs: seq<nat>, k: nat, s: nat)
    requires k < |xs|
    ensures xs[k := s] == xs[..k] + [s] + xs[k + 1..]
  {
  }

  /** The cell of the new block a split makes. */
  lemma SplitNewCell(bs: seq<Block>, i: nat, t: nat)
    requires i < |bs| && bs[i].free && MIN_BLOCK <= t && t + MIN_BLOCK <= bs[i].size
    ensures IsFreeCell(bs, bs[i].Va() + t) && IsCell(bs[..i] + SplitPair(bs[i], t) + bs[i + 1..], bs[i].Va() + t)
  {
    var s, x := bs[i].Va() + t, SplitPair(bs[i], t);
    assert Holds(bs[i], s) && Holds(x[1], s);
    CellMoves(bs, i, i + 1, x, s);
  }

  /** List members keep their cells in a split. */
  lemma {:induction false} SplitCells(bs: seq<Block>, lo: nat, hi: nat, i: nat, t: nat, k: int)
    requires Tiled(bs, lo, hi) && i < |bs| && bs[i].free && MIN_BLOCK <= t && t + MIN_BLOCK <= bs[i].size
    ensures var c := At(FreeVas(bs), k);
      IsFreeCell(bs, c) && IsCell(bs[..i] + SplitPair(bs[i], t) + bs[i + 1..], c)
  {
    var c, x := At(FreeVas(bs), k), SplitPair(bs[i], t);
    MemberIsFreeCell(bs, lo, hi, k);
    if Holds(bs[i], c) && c != NULL {
      ListCellHome(bs, lo, hi, k, i);
      assert Holds(x[0], c);
    }
    CellMoves(bs, i, i + 1, x, c);
  }

  lemma UpdateIsSplice(bs: seq<Block>, i: nat, b: Block)
    requires i < |bs|
    ensures bs[i := b] == bs[..i] + [b] + bs[i + 1..]
  {
  }

  lemma {:induction false} MarkList(bs: seq<Block>, i: nat)
    requires i < |bs| && bs[i].free
    ensures Rank(bs, i) < |FreeVas(bs)|
    ensures FreeVas(bs[i := bs[i].(free := false)]) == Removed(FreeVas(bs), Rank(bs, i))
  {
    UpdateIsSplice(bs, i, bs[i].(free := false));
    FreeVasOne(bs[i].(free := false));
    OneBlock(bs, i);
    ListReplaced(bs, i, i + 1, [bs[i].(free := false)], [bs[i].Va()], []);
  }

  /** The tags of the two parts make memory spell the split layout, with the free list intact. */
  lemma {:induction false} SplitSpells(v: Words, v': Words, bs: seq<Block>, lo: nat, hi: nat, i: nat, t: nat, n: int)
    requires Spells(v, bs, lo, hi, n) && Links(v, FreeVas(bs)) && i < |bs| && bs[i].free
    requires n >= |bs| || n == i == |bs| - 1
    requires t % 2 == 0 && MIN_BLOCK <= t && t + MIN_BLOCK <= bs[i].size
    requires WordsOnlyIn(v, v', bs[i].addr, bs[i].End()) && CellKept(v, v', bs[i].Va()) && bs[i].End() <= |v'|
    requires v'[bs[i].addr] == t + 1 && v'[bs[i].addr + t - 4] == t + 1
    requires v'[bs[i].addr + t] == bs[i].size - t && v'[bs[i].End() - 4] == bs[i].size - t
    ensures var cs := bs[..i] + SplitPair(bs[i], t) + bs[i + 1..];
      Spells(v', cs, lo, hi, |cs|) && Links(v', FreeVas(bs))
  {
    var x := SplitPair(bs[i], t);
    assert InRange(bs, lo, hi, i);
    assert HeadAt(v', x, 0) && HeadAt(v', x, 1) && FootAt(v', x, 0) && FootAt(v', x, 1);
    Retag(v, v', bs, lo, hi, i, i + 1, x, n);
    LinksKept(v, v', bs, lo, hi, i, i + 1);
    SplitTiled(bs, lo, hi, i, t);
  }

  /** Everything the list steps of a split rely on. */
  lemma {:induction false} SplitSteps(bs: seq<Block>, lo: nat, hi: nat, i: nat, t: nat)
    requires Tiled(bs, lo, hi) && i < |bs| && bs[i].free && MIN_BLOCK <= t && t + MIN_BLOCK <= bs[i].size
    ensures var xs, k, s, cs := FreeVas(bs), Rank(bs, i), bs[i].Va() + t, bs[..i] + SplitPair(bs[i], t) + bs[i + 1..];
      && k < |xs| && xs[k] == bs[i].Va() && Between(xs, k + 1, s) && s + 12 <= bs[i].End()
      && IsFreeCell(bs, s) && IsCell(cs, s)
      && IsFreeCell(bs, At(xs, k - 1)) && IsCell(cs, At(xs, k - 1))
      && IsFreeCell(bs, At(xs, k)) && IsCell(cs, At(xs, k))
      && IsFreeCell(bs, At(xs, k + 1)) && IsCell(cs, At(xs, k + 1))
      && FreeVas(cs) == xs[k := s]
  {
    ListAroundFree(bs, lo, hi, i);
    SplitList(bs, i, t);
    SplitNewCell(bs, i, t);
    SplitCells(bs, lo, hi, i, t, Rank(bs, i) - 1);
    SplitCells(bs, lo, hi, i, t, Rank(bs, i));
    SplitCells(bs, lo, hi, i, t, Rank(bs, i) + 1);
  }

  // ---------------------------------------------------------------- using a whole free block

  lemma {:induction false} MarkSpells(v: Words, v': Words, bs: seq<Block>, lo: nat, hi: nat, i: nat)
    requires Spells(v, bs, lo, hi, |bs|) && Links(v, FreeVas(bs)) && i < |bs| && bs[i].free
    requires WordsOnlyIn(v, v', bs[i].addr, bs[i].End()) && CellKept(v, v', bs[i].Va()) && bs[i].End() <= |v'|
    requires bs[i].size >= MIN_BLOCK && v'[bs[i].addr] == bs[i].size + 1 && v'[bs[i].End() - 4] == bs[i].size + 1
    ensures var cs := bs[i := bs[i].(free := false)];
      Spells(v', cs, lo, hi, |cs|) && Links(v', FreeVas(bs))
  {
    var x := [bs[i].(free := false)];
    assert InRange(bs, lo, hi, i);
    assert HeadAt(v', x, 0) && FootAt(v', x, 0);
    Retag(v, v', bs, lo, hi, i, i + 1, x, |bs|);
    LinksKept(v, v', bs, lo, hi, i, i + 1);
    MarkTiled(bs, lo, hi, i, false);
  }

  /** A change of status leaves every cell where it is. */
  lemma {:induction false} MarkCells(bs: seq<Block>, lo: nat, hi: nat, i: nat, f: bool, k: int)
    requires Tiled(bs, lo, hi) && i < |bs|
    ensures var c, cs := At(FreeVas(bs), k), bs[i := bs[i].(free := f)];
      IsFreeCell(bs, c) && IsCell(cs, c) && (f ==> IsFreeCell(cs, c))
  {
    var c, cs := At(FreeVas(bs), k), bs[i := bs[i].(free := f)];
    MemberIsFreeCell(bs, lo, hi, k);
    if c != NULL {
      var j :| 0 <= j < |bs| && bs[j].free && Holds(bs[j], c);
      assert Holds(cs[j], c);
    }
  }

  // ---------------------------------------------------------------- freeing

  /** Freeing block i turns blocks MergeFrom .. MergeTo - 1 into this one. */
  function Merged(bs: seq<Block>, i: nat): Block
    requires i < |bs|
  {
    Block(bs[MergeFrom(bs, i)].addr, MergedSize(bs, i), true)
  }

  lemma MergedTiled(bs: seq<Block>, lo: nat, hi: nat, i: nat)
    requires Tiled(bs, lo, hi) && i < |bs|
    ensures Merged(bs, i).End() == bs[MergeTo(bs, i) - 1].End()
    ensures Tiled(Release(bs, i), lo, hi)
  {
    var f, t, x := MergeFrom(bs, i), MergeTo(bs, i), [Merged(bs, i)];
    assert InRange(bs, lo, hi, i) && InRange(bs, lo, hi, f) && InRange(bs, lo, hi, t - 1);
    assert f < i ==> Touching(bs, f);
    assert i + 1 < t ==> Touching(bs, i);
    assert InRange(x, bs[f].addr, bs[t - 1].End(), 0);
    TiledReplace(bs, lo, hi, f, t, x);
  }

  lemma ReleaseCoalesced(bs: seq<Block>, i: nat)
    requires i < |bs| && !bs[i].free && Coalesced(bs)
    ensures Coalesced(Release(bs, i))
  {
    var cs, f, t := Release(bs, i), MergeFrom(bs, i), MergeTo(bs, i);
    forall j | 0 <= j < |cs| - 1
      ensures !FreePair(cs, j)
    {
      assert j + 1 < f ==> !FreePair(bs, j);
      assert j + 1 == f ==> f < i ==> !FreePair(bs, j);
      assert j == f ==> i + 1 < t ==> !FreePair(bs, t - 1);
      assert f < j ==> !FreePair(bs, j - f - 1 + t);
    }
  }

  lemma PlaceCoalesced(bs: seq<Block>, i: nat, total: nat)
    requires i < |bs| && total <= bs[i].size && bs[i].free && Coalesced(bs)
    ensures Coalesced(Place(bs, i, total))
  {
    var cs := Place(bs, i, total);
    forall j | 0 <= j < |cs| - 1
      ensures !FreePair(cs, j)
    {
      if |cs| == |bs| {
        assert !FreePair(bs, j);
      } else {
        assert j < i ==> !FreePair(bs, j);
        assert i < j ==> !FreePair(bs, j - 1);
      }
    }
  }

  /** The part of the free list that freeing block i takes out. */
  ghost function MergedVas(bs: seq<Block>, i: nat): seq<nat>
    requires i < |bs|
  {
    (if FreeBefore(bs, i) then [bs[i - 1].Va()] else []) + (if FreeAfter(bs, i) then [bs[i + 1].Va()] else [])
  }

  lemma {:induction false} MergedList(bs: seq<Block>, i: nat)
    requires i < |bs| && !bs[i].free
    ensures FreeVas(bs[MergeFrom(bs, i)..MergeTo(bs, i)]) == MergedVas(bs, i)
  {
    var f, t := MergeFrom(bs, i), MergeTo(bs, i);
    AtMostOne(bs, f, i);
    AtMostOne(bs, i, i + 1);
    AtMostOne(bs, i + 1, t);
    FreeVasThree(bs[f..i], bs[i..i + 1], bs[i + 1..t]);
    CutInThree(bs, f, i, i + 1, t);
  }

  lemma CutInThree(bs: seq<Block>, f: nat, i: nat, j: nat, t: nat)
    requires f <= i <= j <= t <= |bs|
    ensures bs[f..i] + bs[i..j] + bs[j..t] == bs[f..t]
  {
  }

  lemma {:induction false} AtMostOne(bs: seq<Block>, f: nat, t: nat)
    requires f <= t <= f + 1 && t <= |bs|
    ensures FreeVas(bs[f..t]) == if f < t then OwnVa(bs[f]) else []
  {
    if f < t {
      OneBlock(bs, f);
    }
  }

  lemma {:induction false} RankStep(bs: seq<Block>, i: nat)
    requires i < |bs|
    ensures Rank(bs, i + 1) == Rank(bs, i) + |OwnVa(bs[i])|
  {
    assert bs[..i + 1] == bs[..i] + [bs[i]];
    FreeVasConcat(bs[..i], [bs[i]]);
    FreeVasOne(bs[i]);
  }

  lemma {:induction false} RankOfAll(bs: seq<Block>)
    ensures Rank(bs, |bs|) == |FreeVas(bs)|
  {
    assert bs[..|bs|] == bs;
  }

  /** Where the free list meets block i and its free neighbours, and what it becomes. */
  lemma {:induction false} ReleaseList(bs: seq<Block>, i: nat)
    requires i < |bs| && !bs[i].free
    ensures Rank(bs, i) <= |FreeVas(bs)|
    ensures var xs, k := FreeVas(bs), Rank(bs, i);
      && (FreeBefore(bs, i) ==> k > 0 && xs[k - 1] == bs[i - 1].Va())
      && (FreeAfter(bs, i) ==> k < |xs| && xs[k] == bs[i + 1].Va())
      && FreeVas(Release(bs, i)) ==
        (if FreeBefore(bs, i) then xs[..k - 1] else xs[..k]) + [Merged(bs, i).Va()]
        + (if FreeAfter(bs, i) then xs[k + 1..] else xs[k..])
  {
    ReleaseSpliced(bs, i);
    RankOfMerge(bs, i);
    var f, ms := MergeFrom(bs, i), MergedVas(bs, i);
    MembersOf(FreeVas(bs), Rank(bs, f), ms);
    assert FreeBefore(bs, i) ==> ms[0] == bs[i - 1].Va();
    assert FreeAfter(bs, i) ==> ms[|ms| - 1] == bs[i + 1].Va();
  }

  lemma {:induction false} ReleaseSpliced(bs: seq<Block>, i: nat)
    requires i < |bs| && !bs[i].free
    ensures var xs, k, ms := FreeVas(bs), Rank(bs, MergeFrom(bs, i)), MergedVas(bs, i);
      && k + |ms| <= |xs| && xs[k..k + |ms|] == ms
      && FreeVas(Release(bs, i)) == xs[..k] + [Merged(bs, i).Va()] + xs[k + |ms|..]
  {
    var f, t := MergeFrom(bs, i), MergeTo(bs, i);
    MergedList(bs, i);
    FreeVasOne(Merged(bs, i));
    ListReplaced(bs, f, t, [Merged(bs, i)], MergedVas(bs, i), [Merged(bs, i).Va()]);
  }

  lemma {:induction false} RankOfMerge(bs: seq<Block>, i: nat)
    requires i < |bs| && !bs[i].free
    ensures Rank(bs, i) == Rank(bs, MergeFrom(bs, i)) + if FreeBefore(bs, i) then 1 else 0
    ensures |MergedVas(bs, i)| == (if FreeBefore(bs, i) then 1 else 0) + (if FreeAfter(bs, i) then 1 else 0)
  {
    if FreeBefore(bs, i) {
      RankStep(bs, i - 1);
    }
  }

  lemma MembersOf(xs: seq<nat>, k: nat, ms: seq<nat>)
    requires k + |ms| <= |xs| && xs[k..k + |ms|] == ms
    ensures (|ms| > 0 ==> xs[k] == ms[0]) && (|ms| > 1 ==> xs[k + 1] == ms[1])
  {
    assert |ms| > 0 ==> xs[k..k + |ms|][0] == xs[k];
    assert |ms| > 1 ==> xs[k..k + |ms|][1] == xs[k + 1];
  }

  /** The new tags make memory spell the freed layout; the last footer may stay wrong only if it was. */
  lemma {:induction false} ReleaseSpells(v: Words, v': Words, bs: seq<Block>, lo: nat, hi: nat, i: nat, n: int)
    requires Spells(v, bs, lo, hi, n) && Links(v, FreeVas(bs)) && i < |bs| && !bs[i].free
    requires n >= |bs| || n == i == |bs| - 1
    requires WordsOnlyIn(v, v', bs[MergeFrom(bs, i)].addr, bs[MergeTo(bs, i) - 1].End())
    requires FreeBefore(bs, i) ==> CellKept(v, v', bs[i - 1].Va())
    requires FreeAfter(bs, i) ==> CellKept(v, v', bs[i + 1].Va())
    requires HeadAt(v', [Merged(bs, i)], 0) && (n >= |bs| ==> FootAt(v', [Merged(bs, i)], 0))
    ensures var cs := Release(bs, i);
      && Spells(v', cs, lo, hi, if FootAt(v', [Merged(bs, i)], 0) then |cs| else |cs| - 1)
      && Links(v', FreeVas(bs))
  {
    var f, t, x := MergeFrom(bs, i), MergeTo(bs, i), [Merged(bs, i)];
    assert InRange(bs, lo, hi, f) && InRange(bs, lo, hi, t - 1);
    Retag(v, v', bs, lo, hi, f, t, x, n);
    LinksKept(v, v', bs, lo, hi, f, t);
    MergedTiled(bs, lo, hi, i);
  }

  /** The stores of free_block stay inside the merged block, so they miss every live payload. */
  lemma ReleaseKeepsLive(m: seq<byte>, m': seq<byte>, bs: seq<Block>, lo: nat, hi: nat, i: nat)
    requires Tiled(bs, lo, hi) && i < |bs|
    requires OnlyIn(m, m', bs[MergeFrom(bs, i)].addr, bs[MergeTo(bs, i) - 1].End())
    ensures LiveKept(m, m', bs[i := bs[i].(free := true)])
  {
    MarkTiled(bs, lo, hi, i, true);
    LiveByRange(m, m', bs[i := bs[i].(free := true)], lo, hi, MergeFrom(bs, i), MergeTo(bs, i));
  }

  lemma MergedHolds(bs: seq<Block>, lo: nat, hi: nat, i: nat, j: nat, c: nat)
    requires Tiled(bs, lo, hi) && i < |bs| && MergeFrom(bs, i) <= j < MergeTo(bs, i) && Holds(bs[j], c)
    ensures Holds(Merged(bs, i), c)
  {
    var f, t := MergeFrom(bs, i), MergeTo(bs, i);
    MergedTiled(bs, lo, hi, i);
    assert f < j ==> Ordered(bs, f, j);
    assert j < t - 1 ==> Ordered(bs, j, t - 1);
    assert InRange(bs, lo, hi, f) && InRange(bs, lo, hi, t - 1);
  }

  /** Every cell is still inside a payload after block i is freed. */
  lemma ReleaseCell(bs: seq<Block>, lo: nat, hi: nat, i: nat, c: nat)
    requires Tiled(bs, lo, hi) && i < |bs| && IsCell(bs, c)
    ensures IsCell(Release(bs, i), c)
  {
    var f, t, x := MergeFrom(bs, i), MergeTo(bs, i), [Merged(bs, i)];
    forall j | f <= j < t && Holds(bs[j], c)
      ensures IsCell(x, c)
    {
      MergedHolds(bs, lo, hi, i, j, c);
      assert Holds(x[0], c);
    }
    CellMoves(bs, f, t, x, c);
  }

  /** Cells of list members, and of the freed block itself, before and after freeing block i. */
  lemma {:induction false} ReleaseCells(bs: seq<Block>, lo: nat, hi: nat, i: nat, k: int)
    requires Tiled(bs, lo, hi) && i < |bs|
    ensures var c, va, fs, cs := At(FreeVas(bs), k), bs[i].Va(), bs[i := bs[i].(free := true)], Release(bs, i);
      IsFreeCell(fs, c) && IsCell(cs, c) && IsFreeCell(fs, va) && IsCell(cs, va)
  {
    var va, fs := bs[i].Va(), bs[i := bs[i].(free := true)];
    MemberIsFreeCell(bs, lo, hi, k);
    MarkCells(bs, lo, hi, i, true, k);
    ReleaseCell(bs, lo, hi, i, At(FreeVas(bs), k));
    assert InRange(bs, lo, hi, i) && Holds(bs[i], va) && Holds(fs[i], va);
    ReleaseCell(bs, lo, hi, i, va);
  }

  /** Everything the list steps of freeing a block without free neighbours rely on. */
  lemma {:induction false} AloneSteps(bs: seq<Block>, lo: nat, hi: nat, i: nat)
    requires Tiled(bs, lo, hi) && i < |bs| && !bs[i].free && !FreeBefore(bs, i) && !FreeAfter(bs, i)
    ensures var xs, k, va := FreeVas(bs), Rank(bs, i), bs[i].Va();
      var fs, cs := bs[i := bs[i].(free := true)], Release(bs, i);
      && Tiled(fs, lo, hi) && Between(xs, k, va) && va + 12 <= hi
      && FreeVas(cs) == Inserted(xs, k, va)
      && (i == 0 ==> k == 0) && (i == |bs| - 1 ==> k == |xs|)
      && IsFreeCell(fs, va) && IsCell(cs, va)
      && IsFreeCell(fs, At(xs, k - 1)) && IsCell(cs, At(xs, k - 1))
      && IsFreeCell(fs, At(xs, k)) && IsCell(cs, At(xs, k))
  {
    MarkTiled(bs, lo, hi, i, true);
    AloneList(bs, lo, hi, i);
    ReleaseCells(bs, lo, hi, i, Rank(bs, i));
    ReleaseCells(bs, lo, hi, i, Rank(bs, i) - 1);
  }

  lemma {:induction false} AloneList(bs: seq<Block>, lo: nat, hi: nat, i: nat)
    requires Tiled(bs, lo, hi) && i < |bs| && !bs[i].free && !FreeBefore(bs, i) && !FreeAfter(bs, i)
    ensures var xs, k, va := FreeVas(bs), Rank(bs, i), bs[i].Va();
      && Between(xs, k, va) && va + 12 <= hi && FreeVas(Release(bs, i)) == Inserted(xs, k, va)
      && (i == 0 ==> k == 0) && (i == |bs| - 1 ==> k == |xs|)
  {
    ListAroundUsed(bs, lo, hi, i);
    assert InRange(bs, lo, hi, i);
    AloneInserted(bs, i);
    RankOfAll(bs);
    RankStep(bs, |bs| - 1);
  }

  lemma {:induction false} AloneInserted(bs: seq<Block>, i: nat)
    requires i < |bs| && !bs[i].free && !FreeBefore(bs, i) && !FreeAfter(bs, i)
    ensures Rank(bs, i) <= |FreeVas(bs)| && FreeVas(Release(bs, i)) == Inserted(FreeVas(bs), Rank(bs, i), bs[i].Va())
  {
    ReleaseList(bs, i);
  }

  lemma MergeMember(xs: seq<nat>, k: nat, va: nat)
    requires k < |xs|
    ensures Inserted(xs, k, va)[k + 1] == xs[k] && At(Inserted(xs, k, va), k) == va
    ensures At(Inserted(xs, k, va), k + 2) == At(xs, k + 1)
    ensures Removed(Inserted(xs, k, va), k + 1) == xs[k := va]
  {
  }

  lemma {:induction false} NextList(bs: seq<Block>, lo: nat, hi: nat, i: nat)
    requires Tiled(bs, lo, hi) && i < |bs| && !bs[i].free && !FreeBefore(bs, i) && FreeAfter(bs, i)
    ensures var xs, k, va := FreeVas(bs), Rank(bs, i), bs[i].Va();
      && k < |xs| && xs[k] == bs[i + 1].Va() && Between(xs, k, va)
      && FreeVas(Release(bs, i)) == xs[..k] + [va] + xs[k + 1..]
  {
    ListAroundUsed(bs, lo, hi, i);
    assert InRange(bs, lo, hi, i);
    ReleaseList(bs, i);
  }

  /** Everything the list steps of merging with the next free block rely on. */
  lemma {:induction false} NextSteps(bs: seq<Block>, lo: nat, hi: nat, i: nat)
    requires Tiled(bs, lo, hi) && i < |bs| && !bs[i].free && !FreeBefore(bs, i) && FreeAfter(bs, i)
    ensures var xs, k, va := FreeVas(bs), Rank(bs, i), bs[i].Va();
      var fs, cs := bs[i := bs[i].(free := true)], Release(bs, i);
      && Tiled(fs, lo, hi) && k < |xs| && xs[k] == bs[i + 1].Va() && Between(xs, k, va)
      && FreeVas(cs) == xs[k := va]
      && IsFreeCell(fs, va) && IsCell(cs, va)
      && IsFreeCell(fs, At(xs, k - 1)) && IsCell(cs, At(xs, k - 1))
      && IsFreeCell(fs, At(xs, k)) && IsCell(cs, At(xs, k))
      && IsFreeCell(fs, At(xs, k + 1)) && IsCell(cs, At(xs, k + 1))
  {
    MarkTiled(bs, lo, hi, i, true);
    NextList(bs, lo, hi, i);
    SetMember(FreeVas(bs), Rank(bs, i), bs[i].Va());
    ReleaseCells(bs, lo, hi, i, Rank(bs, i));
    ReleaseCells(bs, lo, hi, i, Rank(bs, i) - 1);
    ReleaseCells(bs, lo, hi, i, Rank(bs, i) + 1);
  }

  /** Everything the list steps of merging with both neighbours rely on. */
  lemma {:induction false} BothSteps(bs: seq<Block>, lo: nat, hi: nat, i: nat)
    requires Tiled(bs, lo, hi) && i < |bs| && !bs[i].free && FreeBefore(bs, i) && FreeAfter(bs, i)
    ensures var xs, k, fs, cs := FreeVas(bs), Rank(bs, i), bs[i := bs[i].(free := true)], Release(bs, i);
      && Tiled(fs, lo, hi) && k < |xs| && xs[k] == bs[i + 1].Va()
      && FreeVas(cs) == Removed(xs, k)
      && IsFreeCell(fs, At(xs, k - 1)) && IsCell(cs, At(xs, k - 1))
      && IsFreeCell(fs, At(xs, k)) && IsCell(cs, At(xs, k))
      && IsFreeCell(fs, At(xs, k + 1)) && IsCell(cs, At(xs, k + 1))
  {
    MarkTiled(bs, lo, hi, i, true);
    BothList(bs, i);
    ReleaseCells(bs, lo, hi, i, Rank(bs, i));
    ReleaseCells(bs, lo, hi, i, Rank(bs, i) - 1);
    ReleaseCells(bs, lo, hi, i, Rank(bs, i) + 1);
  }

  lemma {:induction false} BothList(bs: seq<Block>, i: nat)
    requires i < |bs| && !bs[i].free && FreeBefore(bs, i) && FreeAfter(bs, i)
    ensures var xs, k := FreeVas(bs), Rank(bs, i);
      k < |xs| && xs[k] == bs[i + 1].Va() && FreeVas(Release(bs, i)) == Removed(xs, k)
  {
    ReleaseList(bs, i);
    var xs, k := FreeVas(bs), Rank(bs, i);
    assert Merged(bs, i).Va() == xs[k - 1] && xs[..k - 1] + [xs[k - 1]] == xs[..k];
  }

  lemma {:induction false} PrevSteps(bs: seq<Block>, i: nat)
    requires i < |bs| && !bs[i].free && FreeBefore(bs, i) && !FreeAfter(bs, i)
    ensures FreeVas(Release(bs, i)) == FreeVas(bs)
  {
    ReleaseList(bs, i);
  }

  // ---------------------------------------------------------------- searching the free list

  /** Every free block below address e (every one, for NULL) is too small. */
  ghost predicate SmallBelow(bs: seq<Block>, total: nat, e: nat) {
    forall j :: 0 <= j < |bs| && bs[j].free && (e == NULL || bs[j].Va() < e) ==> bs[j].size < total
  }

  /** i is the best fit among the free blocks below e. */
  ghost predicate BestBelow(bs: seq<Block>, total: nat, e: nat, i: nat) {
    && i < |bs| && Fits(bs[i], total) && (e == NULL || bs[i].Va() < e)
    && (forall j :: 0 <= j < |bs| && Fits(bs[j], total) && (e == NULL || bs[j].Va() < e) ==> bs[i].size <= bs[j].size)
    && (forall j :: 0 <= j < i && Fits(bs[j], total) ==> bs[i].size < bs[j].size)
  }

  /** A free block below member k + 1 is at member k or below it. */
  lemma {:induction false} NotAbove(bs: seq<Block>, lo: nat, hi: nat, k: int, j: nat)
    requires Tiled(bs, lo, hi) && -1 <= k < |FreeVas(bs)| && j < |bs| && bs[j].free
    requires At(FreeVas(bs), k + 1) == NULL || bs[j].Va() < At(FreeVas(bs), k + 1)
    ensures k >= 0 && bs[j].Va() <= FreeVas(bs)[k]
    ensures bs[j].Va() == FreeVas(bs)[k] ==> j == NthFree(bs, k)
  {
    RankOfFree(bs, j);
    FreeVasSorted(bs, lo, hi);
    if k >= 0 {
      var i := NthFree(bs, k);
      assert i < j ==> Ordered(bs, i, j) && InRange(bs, lo, hi, i);
      assert j < i ==> Ordered(bs, j, i) && InRange(bs, lo, hi, j);
    }
  }

  lemma {:induction false} SearchStart(bs: seq<Block>, lo: nat, hi: nat, total: nat)
    requires Tiled(bs, lo, hi)
    ensures SmallBelow(bs, total, At(FreeVas(bs), 0))
  {
    forall j | 0 <= j < |bs| && bs[j].free && (At(FreeVas(bs), 0) == NULL || bs[j].Va() < At(FreeVas(bs), 0))
      ensures false
    {
      NotAbove(bs, lo, hi, -1, j);
    }
  }

  lemma {:induction false} SearchSmall(bs: seq<Block>, lo: nat, hi: nat, total: nat, k: nat)
    requires Tiled(bs, lo, hi) && k < |FreeVas(bs)| && SmallBelow(bs, total, FreeVas(bs)[k])
    requires bs[NthFree(bs, k)].size < total
    ensures SmallBelow(bs, total, At(FreeVas(bs), k + 1))
  {
    forall j | 0 <= j < |bs| && bs[j].free && (At(FreeVas(bs), k + 1) == NULL || bs[j].Va() < At(FreeVas(bs), k + 1))
      ensures bs[j].size < total
    {
      NotAbove(bs, lo, hi, k, j);
    }
  }

  lemma SearchFirst(bs: seq<Block>, lo: nat, hi: nat, total: nat, i: nat)
    requires Tiled(bs, lo, hi) && i < |bs| && Fits(bs[i], total) && SmallBelow(bs, total, bs[i].Va())
    ensures IsFirstFit(bs, total, i)
  {
    forall j | 0 <= j < i
      ensures !Fits(bs[j], total)
    {
      assert Ordered(bs, j, i) && InRange(bs, lo, hi, j);
    }
  }

  /** The first fitting block found is the best so far. */
  lemma {:induction false} SearchBestFirst(bs: seq<Block>, lo: nat, hi: nat, total: nat, k: nat)
    requires Tiled(bs, lo, hi) && k < |FreeVas(bs)| && SmallBelow(bs, total, FreeVas(bs)[k])
    requires Fits(bs[NthFree(bs, k)], total)
    ensures BestBelow(bs, total, At(FreeVas(bs), k + 1), NthFree(bs, k))
  {
    var i := NthFree(bs, k);
    SearchFirst(bs, lo, hi, total, i);
    FreeVasSorted(bs, lo, hi);
    var e := At(FreeVas(bs), k + 1);
    forall j | 0 <= j < |bs| && Fits(bs[j], total) && (e == NULL || bs[j].Va() < e)
      ensures bs[i].size <= bs[j].size
    {
      NotAbove(bs, lo, hi, k, j);
    }
  }

  /** The next member either beats the best so far or changes nothing. */
  lemma {:induction false} SearchBestNext(bs: seq<Block>, lo: nat, hi: nat, total: nat, k: nat, i: nat)
    requires Tiled(bs, lo, hi) && k < |FreeVas(bs)| && BestBelow(bs, total, FreeVas(bs)[k], i)
    ensures var c := NthFree(bs, k);
      BestBelow(bs, total, At(FreeVas(bs), k + 1), if Fits(bs[c], total) && bs[c].size < bs[i].size then c else i)
  {
    var c, e := NthFree(bs, k), At(FreeVas(bs), k + 1);
    var w := if Fits(bs[c], total) && bs[c].size < bs[i].size then c else i;
    FreeVasSorted(bs, lo, hi);
    forall j | 0 <= j < |bs| && Fits(bs[j], total) && (e == NULL || bs[j].Va() < e)
      ensures bs[w].size <= bs[j].size
    {
      NotAbove(bs, lo, hi, k, j);
    }
    forall j | 0 <= j < w && Fits(bs[j], total)
      ensures bs[w].size < bs[j].size
    {
      assert Ordered(bs, j, w) && InRange(bs, lo, hi, j);
    }
  }

  ghost predicate BestSoFar(bs: seq<Block>, total: nat, e: nat, found: bool, i: nat) {
    if found then BestBelow(bs, total, e, i) else SmallBelow(bs, total, e)
  }

  /** Whether free block c replaces the best so far. */
  predicate Improves(bs: seq<Block>, total: nat, found: bool, i: nat, c: nat)
    requires c < |bs| && (found ==> i < |bs|)
  {
    bs[c].size >= total && (found ==> bs[c].size < bs[i].size)
  }

  lemma {:induction false} SearchBestStep(bs: seq<Block>, lo: nat, hi: nat, total: nat, k: nat, found: bool, i: nat)
    requires Tiled(bs, lo, hi) && k < |FreeVas(bs)| && BestSoFar(bs, total, FreeVas(bs)[k], found, i)
    ensures var c := NthFree(bs, k);
      if Improves(bs, total, found, i, c) then BestSoFar(bs, total, At(FreeVas(bs), k + 1), true, c)
      else BestSoFar(bs, total, At(FreeVas(bs), k + 1), found, i)
  {
    if found {
      SearchBestNext(bs, lo, hi, total, k, i);
    } else if Fits(bs[NthFree(bs, k)], total) {
      SearchBestFirst(bs, lo, hi, total, k);
    } else {
      SearchSmall(bs, lo, hi, total, k);
    }
  }

  /** A perfect fit, or the best one after the last member, is the best fit. */
  lemma SearchBestDone(bs: seq<Block>, lo: nat, hi: nat, total: nat, e: nat, i: nat)
    requires Tiled(bs, lo, hi) && BestBelow(bs, total, e, i) && (e == NULL || bs[i].size == total)
    ensures IsBestFit(bs, total, i)
  {
  }

  // ---------------------------------------------------------------- growing the heap

  /** The block that a page from sbrk becomes: it takes over the old end sentinel's word as its header. */
  function NewPage(hi: nat): Block {
    Block(hi, PAGE_SIZE, false)
  }

  /** The layout after the heap grew by one page, which is freed at once. */
  function Grown(bs: seq<Block>, hi: nat): seq<Block> {
    Release(bs + [NewPage(hi)], |bs|)
  }

  lemma {:induction false} GrowSpells(v: Words, v': Words, bs: seq<Block>, lo: nat, hi: nat)
    requires Spells(v, bs, lo, hi, |bs|) && Links(v, FreeVas(bs)) && hi + PAGE_SIZE < |v|
    requires WordsOnlyIn(v, v', hi, hi + PAGE_SIZE + 4)
    requires v'[hi] == PAGE_SIZE + 1 && v'[hi + PAGE_SIZE] == SENTINEL
    ensures Spells(v', bs + [NewPage(hi)], lo, hi + PAGE_SIZE, |bs|)
  {
    var x := [NewPage(hi)];
    var cs := bs + x;
    assert InRange(bs, lo, hi, 0);
    assert InRange(x, hi, hi + PAGE_SIZE, 0);
    TiledJoin(bs, x, lo, hi, hi + PAGE_SIZE);
    forall i | 0 <= i < |cs|
      ensures HeadAt(v', cs, i) && (i < |bs| ==> FootAt(v', cs, i))
    {
      assert i < |bs| ==> HeadAt(v, bs, i) && FootAt(v, bs, i) && InRange(bs, lo, hi, i) && cs[i] == bs[i];
    }
  }

  lemma {:induction false} GrowLinks(v: Words, v': Words, bs: seq<Block>, lo: nat, hi: nat)
    requires Tiled(bs, lo, hi) && hi <= |v| && Links(v, FreeVas(bs)) && WordsOnlyIn(v, v', hi, hi + PAGE_SIZE + 4)
    ensures FreeVas(bs + [NewPage(hi)]) == FreeVas(bs) && Links(v', FreeVas(bs))
  {
    FreeVasConcat(bs, [NewPage(hi)]);
    FreeVasOne(NewPage(hi));
    FreeVasSorted(bs, lo, hi);
    forall k | 0 <= k < |FreeVas(bs)|
      ensures LinkAt(v', FreeVas(bs), k)
    {
      assert LinkAt(v, FreeVas(bs), k);
    }
  }

  /** A new used block above the others, and the list as it was. */
  lemma {:induction false} GrownMemory(v: Words, v': Words, bs: seq<Block>, cs: seq<Block>, lo: nat, hi: nat)
    requires cs == bs + [NewPage(hi)]
    requires Spells(v, bs, lo, hi, |bs|) && Links(v, FreeVas(bs)) && hi + PAGE_SIZE < |v|
    requires WordsOnlyIn(v, v', hi, hi + PAGE_SIZE + 4)
    requires v'[hi] == PAGE_SIZE + 1 && v'[hi + PAGE_SIZE] == SENTINEL
    ensures Spells(v', cs, lo, hi + PAGE_SIZE, |bs|) && FreeVas(cs) == FreeVas(bs) && Links(v', FreeVas(bs))
  {
    GrowSpells(v, v', bs, lo, hi);
    GrowLinks(v, v', bs, lo, hi);
  }

  /** Nothing below the old end of the heap is touched by growing it. */
  lemma LiveAbove(m: seq<byte>, m': seq<byte>, bs: seq<Block>, lo: nat, hi: nat, top: nat)
    requires Tiled(bs, lo, hi) && OnlyIn(m, m', hi, top)
    ensures LiveKept(m, m', bs)
  {
    forall i | 0 <= i < |bs|
      ensures LiveAt(m, m', bs, i)
    {
      assert InRange(bs, lo, hi, i);
    }
  }

  /** After growth only the last block can serve a request that nothing fitted before, and it is split. */
  lemma GrownPick(bs: seq<Block>, lo: nat, hi: nat, total: nat)
    requires |bs| > 0 && Tiled(bs, lo, hi) && Coalesced(bs) && NothingFits(bs, total) && total <= MAX_REQUEST + 8
    ensures var g := Grown(bs, hi);
      && |g| > 0 && Coalesced(g) && g[|g| - 1].free && g[|g| - 1].size >= PAGE_SIZE
      && IsFirstFit(g, total, |g| - 1) && IsBestFit(g, total, |g| - 1)
      && total + MIN_BLOCK <= g[|g| - 1].size
  {
    var cs := bs + [NewPage(hi)];
    var g := Grown(bs, hi);
    forall i | 0 <= i < |cs| - 1
      ensures !FreePair(cs, i)
    {
      assert i < |bs| - 1 ==> !FreePair(bs, i);
    }
    ReleaseCoalesced(cs, |bs|);
    assert forall j :: 0 <= j < |g| - 1 ==> g[j] == bs[j];
  }

  /** Blocks that are live before growing keep their place. */
  lemma GrownLive(m: seq<byte>, m': seq<byte>, bs: seq<Block>, hi: nat)
    requires |bs| > 0 && LiveKept(m, m', Grown(bs, hi))
    ensures LiveKept(m, m', bs)
  {
    var g := Grown(bs, hi);
    forall i | 0 <= i < |bs|
      ensures LiveAt(m, m', bs, i)
    {
      if !bs[i].free {
        assert g[i] == bs[i] && LiveAt(m, m', g, i);
      }
    }
  }

  /** LiveKept on a layout whose last block was then freed. */
  lemma LiveOfAppended(m: seq<byte>, m': seq<byte>, bs: seq<Block>, b: Block)
    requires LiveKept(m, m', (bs + [b])[|bs| := b.(free := true)])
    ensures LiveKept(m, m', bs)
  {
    var cs := (bs + [b])[|bs| := b.(free := true)];
    forall i | 0 <= i < |bs|
      ensures LiveAt(m, m', bs, i)
    {
      assert cs[i] == bs[i] && LiveAt(m, m', cs, i);
    }
  }

  // ---------------------------------------------------------------- resizing in place

  /** Blocks f .. t - 1 replaced by x, inside their own range. */
  function Replaced(bs: seq<Block>, f: nat, t: nat, x: seq<Block>): seq<Block>
    requires f <= t <= |bs|
  {
    bs[..f] + x + bs[t..]
  }

  lemma {:induction false} ReplaceSpells(v: Words, v': Words, bs: seq<Block>, lo: nat, hi: nat, f: nat, t: nat,
                                         x: seq<Block>)
    requires Spells(v, bs, lo, hi, |bs|) && Links(v, FreeVas(bs)) && f < t <= |bs|
    requires WordsOnlyIn(v, v', bs[f].addr, bs[t - 1].End())
    requires forall j :: f <= j < t && bs[j].free ==> CellKept(v, v', bs[j].Va())
    requires Tiled(x, bs[f].addr, bs[t - 1].End()) && |x| > 0 && Headed(v', x) && Footed(v', x, |x|)
    ensures Spells(v', Replaced(bs, f, t, x), lo, hi, |Replaced(bs, f, t, x)|) && Links(v', FreeVas(bs))
  {
    assert InRange(bs, lo, hi, f) && InRange(bs, lo, hi, t - 1);
    Retag(v, v', bs, lo, hi, f, t, x, |bs|);
    LinksKept(v, v', bs, lo, hi, f, t);
    TiledReplace(bs, lo, hi, f, t, x);
  }

  function UsedPair(b: Block, t: nat): seq<Block>
    requires t <= b.size
  {
    [Block(b.addr, t, false), Block(b.addr + t, b.size - t, false)]
  }

  lemma PairTiled(a: Block, b: Block)
    requires a.size >= MIN_BLOCK && a.size % 2 == 0 && b.size >= MIN_BLOCK && b.size % 2 == 0 && a.End() == b.addr
    ensures Tiled([a, b], a.addr, b.End())
  {
    var x := [a, b];
    assert InRange(x, a.addr, b.End(), 0) && InRange(x, a.addr, b.End(), 1) && Touching(x, 0) && Ordered(x, 0, 1);
  }

  lemma OneTiled(a: Block)
    requires a.size >= MIN_BLOCK && a.size % 2 == 0
    ensures Tiled([a], a.addr, a.End())
  {
    assert InRange([a], a.addr, a.End(), 0);
  }

  lemma {:induction false} UsedPairList(bs: seq<Block>, i: nat, t: nat)
    requires i < |bs| && !bs[i].free && t <= bs[i].size
    ensures FreeVas(Replaced(bs, i, i + 1, UsedPair(bs[i], t))) == FreeVas(bs)
  {
    RankOfUsed(bs, i);
    FreeVasAround(bs, i, i + 1, UsedPair(bs[i], t));
    FreeVasTwo(UsedPair(bs[i], t)[0], UsedPair(bs[i], t)[1]);
  }

  /** Live payloads after stores inside blocks f .. t - 1 that spare the live ones among them. */
  lemma LiveInside(m: seq<byte>, m': seq<byte>, bs: seq<Block>, lo: nat, hi: nat, f: nat, t: nat)
    requires Tiled(bs, lo, hi) && f < t <= |bs| && OnlyIn(m, m', bs[f].addr, bs[t - 1].End())
    requires forall j :: f <= j < t ==> LiveAt(m, m', bs, j)
    ensures LiveKept(m, m', bs)
  {
    forall i | 0 <= i < |bs|
      ensures LiveAt(m, m', bs, i)
    {
      assert InRange(bs, lo, hi, i);
      assert i < f ==> Ordered(bs, i, f);
      assert t <= i ==> Ordered(bs, t - 1, i);
    }
  }

  /** The tags of two used parts make memory spell the cut layout, with the free list intact. */
  lemma {:induction false} CutSpells(v: Words, v': Words, bs: seq<Block>, lo: nat, hi: nat, i: nat, t: nat)
    requires Spells(v, bs, lo, hi, |bs|) && Links(v, FreeVas(bs)) && i < |bs| && !bs[i].free
    requires t % 2 == 0 && MIN_BLOCK <= t && t + MIN_BLOCK <= bs[i].size
    requires WordsOnlyIn(v, v', bs[i].addr, bs[i].End()) && bs[i].End() <= |v'|
    requires v'[bs[i].addr] == t + 1 && v'[bs[i].addr + t - 4] == t + 1
    requires v'[bs[i].addr + t] == bs[i].size - t + 1 && v'[bs[i].End() - 4] == bs[i].size - t + 1
    ensures var cs := Replaced(bs, i, i + 1, UsedPair(bs[i], t));
      Spells(v', cs, lo, hi, |cs|) && Links(v', FreeVas(bs))
  {
    var x := UsedPair(bs[i], t);
    assert InRange(bs, lo, hi, i);
    PairTiled(x[0], x[1]);
    assert HeadAt(v', x, 0) && HeadAt(v', x, 1) && FootAt(v', x, 0) && FootAt(v', x, 1);
    ReplaceSpells(v, v', bs, lo, hi, i, i + 1, x);
  }

  /** Cutting block i changes no live payload but that of its tail. */
  lemma CutLive(m: seq<byte>, m': seq<byte>, bs: seq<Block>, lo: nat, hi: nat, i: nat, t: nat)
    requires Tiled(bs, lo, hi) && i < |bs| && t % 2 == 0 && MIN_BLOCK <= t && t + MIN_BLOCK <= bs[i].size
    requires OnlyIn(m, m', bs[i].addr, bs[i].End()) && BytesSame(m, m', bs[i].Va(), bs[i].addr + t - 4)
    ensures LiveKept(m, m', Replaced(bs, i, i + 1, SplitPair(bs[i], t)))
  {
    var fs := Replaced(bs, i, i + 1, SplitPair(bs[i], t));
    SplitTiled(bs, lo, hi, i, t);
    assert LiveAt(m, m', fs, i);
    LiveInside(m, m', fs, lo, hi, i, i + 2);
  }

  /** The tags of the joined block make memory spell the new layout, with the free list intact. */
  lemma {:induction false} AbsorbSpells(v: Words, v': Words, bs: seq<Block>, lo: nat, hi: nat, i: nat)
    requires Spells(v, bs, lo, hi, |bs|) && Links(v, FreeVas(bs)) && i + 1 < |bs| && !bs[i].free
    requires bs[i].size >= MIN_BLOCK
    requires WordsOnlyIn(v, v', bs[i].addr, bs[i + 1].End())
    requires bs[i].addr + bs[i].size + bs[i + 1].size == bs[i + 1].End() <= |v'|
    requires WordsSame(v, v', bs[i].Va(), bs[i + 1].End() - 4)
    requires v'[bs[i].addr] == v'[bs[i + 1].End() - 4] == bs[i].size + bs[i + 1].size + 1
    ensures var cs := Replaced(bs, i, i + 2, [Absorbed(bs, i)]);
      Spells(v', cs, lo, hi, |cs|) && Links(v', FreeVas(bs))
  {
    var x := [Absorbed(bs, i)];
    assert InRange(bs, lo, hi, i) && InRange(bs, lo, hi, i + 1) && Touching(bs, i);
    OneTiled(x[0]);
    assert HeadAt(v', x, 0) && FootAt(v', x, 0);
    assert CellKept(v, v', bs[i + 1].Va());
    ReplaceSpells(v, v', bs, lo, hi, i, i + 2, x);
  }

  /** The tags of a slid pair make memory spell the new layout, with the free list intact. */
  lemma {:induction false} SlideSpells(v: Words, v': Words, bs: seq<Block>, lo: nat, hi: nat, i: nat, t: nat)
    requires Spells(v, bs, lo, hi, |bs|) && Links(v, FreeVas(bs)) && i + 1 < |bs| && !bs[i].free
    requires t % 2 == 0 && bs[i].size + MIN_BLOCK <= t && t + MIN_BLOCK <= bs[i].size + bs[i + 1].size
    requires WordsOnlyIn(v, v', bs[i].addr, bs[i + 1].End())
    requires bs[i].addr + bs[i].size + bs[i + 1].size == bs[i + 1].End() <= |v'|
    requires WordsSame(v, v', bs[i].Va(), bs[i].addr + t - 4)
    requires v'[bs[i].addr] == t + 1 && v'[bs[i].addr + t - 4] == t + 1
    requires v'[bs[i].addr + t] == v'[bs[i + 1].End() - 4] == bs[i].size + bs[i + 1].size - t
    ensures var cs := Replaced(bs, i, i + 2, SlidPair(bs, i, t));
      Spells(v', cs, lo, hi, |cs|) && Links(v', FreeVas(bs))
  {
    var x := SlidPair(bs, i, t);
    assert InRange(bs, lo, hi, i) && InRange(bs, lo, hi, i + 1) && Touching(bs, i);
    PairTiled(x[0], x[1]);
    assert HeadAt(v', x, 0) && HeadAt(v', x, 1) && FootAt(v', x, 0) && FootAt(v', x, 1);
    assert CellKept(v, v', bs[i + 1].Va());
    ReplaceSpells(v, v', bs, lo, hi, i, i + 2, x);
  }

  // ---------------------------------------------------------------- growing a used block into the free block after it

  /** Used block i takes the whole free block after it. */
  function Absorbed(bs: seq<Block>, i: nat): Block
    requires i + 1 < |bs|
  {
    Block(bs[i].addr, bs[i].size + bs[i + 1].size, false)
  }

  /** Used block i grows to t bytes into the free block after it. */
  function SlidPair(bs: seq<Block>, i: nat, t: nat): seq<Block>
    requires i + 1 < |bs| && bs[i].size <= t <= bs[i].size + bs[i + 1].size
  {
    [Block(bs[i].addr, t, false), Block(bs[i].addr + t, bs[i].size + bs[i + 1].size - t, true)]
  }

  /** A cell of the free list is only in the block it belongs to. */
  lemma {:induction false} ListCellHome(bs: seq<Block>, lo: nat, hi: nat, k: nat, j: nat)
    requires Tiled(bs, lo, hi) && k < |FreeVas(bs)| && j < |bs| && Holds(bs[j], FreeVas(bs)[k])
    ensures bs[j].free && FreeVas(bs)[k] == bs[j].Va()
  {
    var i := NthFree(bs, k);
    assert InRange(bs, lo, hi, i);
    assert i < j ==> Ordered(bs, i, j);
    assert j < i ==> Ordered(bs, j, i);
  }

  /** Cells of list members survive when blocks i and i + 1 become x, if x holds the free block's own cell. */
  lemma {:induction false} GrowCells(bs: seq<Block>, lo: nat, hi: nat, i: nat, x: seq<Block>, k: int)
    requires Tiled(bs, lo, hi) && i + 1 < |bs| && !bs[i].free
    requires bs[i + 1].free ==> IsCell(x, bs[i + 1].Va())
    ensures IsFreeCell(bs, At(FreeVas(bs), k)) && IsCell(Replaced(bs, i, i + 2, x), At(FreeVas(bs), k))
  {
    var c := At(FreeVas(bs), k);
    MemberIsFreeCell(bs, lo, hi, k);
    forall j | i <= j < i + 2 && Holds(bs[j], c)
      ensures IsCell(x, c)
    {
      if c != NULL {
        ListCellHome(bs, lo, hi, k, j);
      }
    }
    CellMoves(bs, i, i + 2, x, c);
  }

  /** The free list when used block i and the free block after it are replaced by x. */
  lemma {:induction false} GrowList(bs: seq<Block>, i: nat, x: seq<Block>, ys: seq<nat>)
    requires i + 1 < |bs| && !bs[i].free && bs[i + 1].free && FreeVas(x) == ys
    ensures var xs, k := FreeVas(bs), Rank(bs, i);
      k < |xs| && xs[k] == bs[i + 1].Va() && FreeVas(Replaced(bs, i, i + 2, x)) == xs[..k] + ys + xs[k + 1..]
  {
    FreeVasPair(bs[i..i + 2]);
    ListReplaced(bs, i, i + 2, x, [bs[i + 1].Va()], ys);
    MembersOf(FreeVas(bs), Rank(bs, i), [bs[i + 1].Va()]);
  }

  lemma {:induction false} AbsorbList(bs: seq<Block>, i: nat)
    requires i + 1 < |bs| && !bs[i].free && bs[i + 1].free
    ensures var xs, k := FreeVas(bs), Rank(bs, i);
      k < |xs| && xs[k] == bs[i + 1].Va() && FreeVas(Replaced(bs, i, i + 2, [Absorbed(bs, i)])) == Removed(xs, k)
  {
    FreeVasOne(Absorbed(bs, i));
    GrowList(bs, i, [Absorbed(bs, i)], []);
  }

  lemma {:induction false} AbsorbSteps(bs: seq<Block>, lo: nat, hi: nat, i: nat)
    requires Tiled(bs, lo, hi) && i + 1 < |bs| && !bs[i].free && bs[i + 1].free
    ensures var xs, k, cs := FreeVas(bs), Rank(bs, i), Replaced(bs, i, i + 2, [Absorbed(bs, i)]);
      && k < |xs| && xs[k] == bs[i + 1].Va() && FreeVas(cs) == Removed(xs, k)
      && IsFreeCell(bs, At(xs, k - 1)) && IsCell(cs, At(xs, k - 1))
      && IsFreeCell(bs, At(xs, k)) && IsCell(cs, At(xs, k))
      && IsFreeCell(bs, At(xs, k + 1)) && IsCell(cs, At(xs, k + 1))
  {
    AbsorbList(bs, i);
    assert InRange(bs, lo, hi, i) && InRange(bs, lo, hi, i + 1) && Touching(bs, i);
    assert Holds([Absorbed(bs, i)][0], bs[i + 1].Va());
    GrowCells(bs, lo, hi, i, [Absorbed(bs, i)], Rank(bs, i));
    GrowCells(bs, lo, hi, i, [Absorbed(bs, i)], Rank(bs, i) - 1);
    GrowCells(bs, lo, hi, i, [Absorbed(bs, i)], Rank(bs, i) + 1);
  }

  lemma {:induction false} SlideList(bs: seq<Block>, i: nat, t: nat)
    requires i + 1 < |bs| && !bs[i].free && bs[i + 1].free && bs[i].size <= t <= bs[i].size + bs[i + 1].size
    ensures var xs, k, s := FreeVas(bs), Rank(bs, i), bs[i].Va() + t;
      && k < |xs| && xs[k] == bs[i + 1].Va()
      && FreeVas(Replaced(bs, i, i + 2, SlidPair(bs, i, t))) == xs[k := s]
  {
    SlidPairList(bs, i, t);
    GrowListOne(bs, i, SlidPair(bs, i, t), bs[i].Va() + t);
  }

  lemma {:induction false} SlidPairList(bs: seq<Block>, i: nat, t: nat)
    requires i + 1 < |bs| && bs[i].size <= t <= bs[i].size + bs[i + 1].size
    ensures FreeVas(SlidPair(bs, i, t)) == [bs[i].Va() + t]
  {
    FreeVasTwo(SlidPair(bs, i, t)[0], SlidPair(bs, i, t)[1]);
  }

  lemma {:induction false} GrowListOne(bs: seq<Block>, i: nat, x: seq<Block>, s: nat)
    requires i + 1 < |bs| && !bs[i].free && bs[i + 1].free && FreeVas(x) == [s]
    ensures var xs, k := FreeVas(bs), Rank(bs, i);
      k < |xs| && xs[k] == bs[i + 1].Va() && FreeVas(Replaced(bs, i, i + 2, x)) == xs[k := s]
  {
    GrowList(bs, i, x, [s]);
    SetMember(FreeVas(bs), Rank(bs, i), s);
  }

  lemma {:induction false} SlideSteps(bs: seq<Block>, lo: nat, hi: nat, i: nat, t: nat)
    requires Tiled(bs, lo, hi) && i + 1 < |bs| && !bs[i].free && bs[i + 1].free
    requires bs[i].size + MIN_BLOCK <= t && t + MIN_BLOCK <= bs[i].size + bs[i + 1].size
    ensures var xs, k, s, cs := FreeVas(bs), Rank(bs, i), bs[i].Va() + t, Replaced(bs, i, i + 2, SlidPair(bs, i, t));
      && k < |xs| && xs[k] == bs[i + 1].Va() && Between(xs, k + 1, s) && s + 12 <= bs[i + 1].End()
      && FreeVas(cs) == xs[k := s]
      && IsFreeCell(bs, s) && IsCell(cs, s)
      && IsFreeCell(bs, At(xs, k - 1)) && IsCell(cs, At(xs, k - 1))
      && IsFreeCell(bs, At(xs, k)) && IsCell(cs, At(xs, k))
      && IsFreeCell(bs, At(xs, k + 1)) && IsCell(cs, At(xs, k + 1))
  {
    var x, s := SlidPair(bs, i, t), bs[i].Va() + t;
    SlideList(bs, i, t);
    SlidePlace(bs, lo, hi, i, t);
    assert InRange(bs, lo, hi, i) && InRange(bs, lo, hi, i + 1) && Touching(bs, i);
    assert Holds(x[0], bs[i + 1].Va()) && Holds(x[1], s) && Holds(bs[i + 1], s);
    CellMoves(bs, i, i + 2, x, s);
    GrowCells(bs, lo, hi, i, x, Rank(bs, i));
    GrowCells(bs, lo, hi, i, x, Rank(bs, i) - 1);
    GrowCells(bs, lo, hi, i, x, Rank(bs, i) + 1);
  }

  /** The place of the part that is left of the free block. */
  lemma {:induction false} SlidePlace(bs: seq<Block>, lo: nat, hi: nat, i: nat, t: nat)
    requires Tiled(bs, lo, hi) && i + 1 < |bs| && !bs[i].free && bs[i + 1].free
    requires bs[i].size + MIN_BLOCK <= t && t + MIN_BLOCK <= bs[i].size + bs[i + 1].size
    ensures Rank(bs, i) < |FreeVas(bs)| && Between(FreeVas(bs), Rank(bs, i) + 1, bs[i].Va() + t)
  {
    RankStep(bs, i);
    ListAroundFree(bs, lo, hi, i + 1);
    assert InRange(bs, lo, hi, i) && InRange(bs, lo, hi, i + 1) && Touching(bs, i);
  }

  lemma GrownBlockCoalesced(bs: seq<Block>, i: nat, x: seq<Block>)
    requires i + 1 < |bs| && bs[i + 1].free && Coalesced(bs)
    requires (|x| == 1 && !x[0].free) || (|x| == 2 && !x[0].free)
    ensures Coalesced(Replaced(bs, i, i + 2, x))
  {
    var cs := Replaced(bs, i, i + 2, x);
    forall j | 0 <= j < |cs| - 1
      ensures !FreePair(cs, j)
    {
      assert j < i - 1 ==> !FreePair(bs, j);
      assert i + |x| - 1 <= j ==> !FreePair(bs, j - |x| + 2);
    }
  }

  lemma UsedPairCoalesced(bs: seq<Block>, i: nat, t: nat)
    requires i < |bs| && !bs[i].free && t <= bs[i].size && Coalesced(bs)
    ensures Coalesced(Replaced(bs, i, i + 1, UsedPair(bs[i], t)))
  {
    var cs := Replaced(bs, i, i + 1, UsedPair(bs[i], t));
    forall j | 0 <= j < |cs| - 1
      ensures !FreePair(cs, j)
    {
      assert j < i - 1 ==> !FreePair(bs, j);
      assert i + 1 < j ==> !FreePair(bs, j - 1);
    }
  }

  // ---------------------------------------------------------------- writing into a live payload

  /** Whatever is written inside a live payload, the heap stays sound. */
  lemma {:induction false} PayloadWrite(v: Words, v': Words, bs: seq<Block>, lo: nat, hi: nat, j: nat, n: int)
    requires Spells(v, bs, lo, hi, n) && Links(v, FreeVas(bs)) && j < |bs| && !bs[j].free
    requires WordsOnlyIn(v, v', bs[j].Va(), bs[j].End() - 4)
    ensures Spells(v', bs, lo, hi, n) && Links(v', FreeVas(bs))
  {
    assert InRange(bs, lo, hi, j);
    forall i | 0 <= i < |bs|
      ensures HeadAt(v', bs, i) && (i < n ==> FootAt(v', bs, i))
    {
      assert HeadAt(v, bs, i) && InRange(bs, lo, hi, i) && (i < n ==> FootAt(v, bs, i));
      assert i < j ==> Ordered(bs, i, j);
      assert j < i ==> Ordered(bs, j, i);
    }
    forall k | 0 <= k < |FreeVas(bs)|
      ensures LinkAt(v', FreeVas(bs), k)
    {
      var i := NthFree(bs, k);
      assert LinkAt(v, FreeVas(bs), k) && InRange(bs, lo, hi, i);
      assert i < j ==> Ordered(bs, i, j);
      assert j < i ==> Ordered(bs, j, i);
    }
  }

  /** A write inside one payload changes no other live payload. */
  lemma PayloadWriteLive(m: seq<byte>, m': seq<byte>, bs: seq<Block>, lo: nat, hi: nat, j: nat)
    requires Tiled(bs, lo, hi) && j < |bs| && OnlyIn(m, m', bs[j].Va(), bs[j].End() - 4)
    ensures LiveKept(m, m', bs[j := bs[j].(free := true)])
  {
    var fs := bs[j := bs[j].(free := true)];
    forall i | 0 <= i < |bs|
      ensures LiveAt(m, m', fs, i)
    {
      assert i < j ==> Ordered(bs, i, j);
      assert j < i ==> Ordered(bs, j, i);
    }
  }
}
