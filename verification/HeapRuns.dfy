/** What whole runs of allocations, frees and reallocations keep, and what one call undoes. */
module HeapRuns {
  import opened Machine
  import opened Memory
  import opened BlockLayout
  import opened FreeList
  import opened BoundaryTags
  import opened HeapSteps
  import opened BlockAllocator

  /** The used blocks. */
  ghost function LiveSet(bs: seq<Block>): set<Block> {
    set i | 0 <= i < |bs| && !bs[i].free :: bs[i]
  }

  // ---------------------------------------------------------------- what freeing does, by an independent definition

  /** Block b in front of r; two free blocks become one. */
  function Join(b: Block, r: seq<Block>): seq<Block> {
    if b.free && |r| > 0 && r[0].free then [Block(b.addr, b.size + r[0].size, true)] + r[1..] else [b] + r
  }

  /** Every run of neighbouring free blocks merged into one block, from the right. */
  function Merge(bs: seq<Block>): seq<Block> {
    if |bs| == 0 then bs else Join(bs[0], Merge(bs[1..]))
  }

  lemma {:induction false} MergeIsCoalesced(bs: seq<Block>)
    ensures Coalesced(Merge(bs))
  {
    if |bs| > 0 {
      MergeIsCoalesced(bs[1..]);
      JoinIsCoalesced(bs[0], Merge(bs[1..]));
    }
  }

  lemma JoinIsCoalesced(b: Block, r: seq<Block>)
    requires Coalesced(r)
    ensures Coalesced(Join(b, r))
  {
    var m := Join(b, r);
    forall j | 0 <= j < |m| - 1
      ensures !FreePair(m, j)
    {
      if |m| == |r| {
        assert !FreePair(r, j);
      } else {
        assert j > 0 ==> !FreePair(r, j - 1);
      }
    }
  }

  lemma {:induction false} MergeOfCoalesced(bs: seq<Block>)
    requires Coalesced(bs)
    ensures Merge(bs) == bs
  {
    if |bs| > 0 {
      CoalescedTail(bs);
      MergeOfCoalesced(bs[1..]);
      assert |bs| > 1 ==> !FreePair(bs, 0);
    }
  }

  lemma CoalescedTail(bs: seq<Block>)
    requires Coalesced(bs) && |bs| > 0
    ensures Coalesced(bs[1..])
  {
    forall j | 0 <= j < |bs[1..]| - 1
      ensures !FreePair(bs[1..], j)
    {
      assert !FreePair(bs, j + 1);
    }
  }

  /** The four cases of free_block do exactly what marking the block free and merging everything would do. */
  lemma {:induction false} ReleaseIsMerge(bs: seq<Block>, i: nat)
    requires i < |bs| && !bs[i].free && Coalesced(bs)
    ensures Release(bs, i) == Merge(bs[i := bs[i].(free := true)])
  {
    var b, tail := bs[i].(free := true), bs[1..];
    CoalescedTail(bs);
    if i == 0 {
      ReleaseFirst(bs);
      MergeOfCoalesced(tail);
      MergeCons(b, tail);
      assert bs[i := b] == [b] + tail;
    } else {
      ReleaseIsMerge(tail, i - 1);
      assert !FreePair(bs, 0);
      ReleaseOfTail(bs, i);
      MergeCons(bs[0], tail[i - 1 := b]);
      assert bs[i := b] == [bs[0]] + tail[i - 1 := b];
    }
  }

  lemma {:induction false} MergeCons(b: Block, tail: seq<Block>)
    ensures Merge([b] + tail) == Join(b, Merge(tail))
  {
    assert ([b] + tail)[1..] == tail;
  }

  lemma ReleaseFirst(bs: seq<Block>)
    requires |bs| > 0 && !bs[0].free
    ensures Release(bs, 0) == Join(bs[0].(free := true), bs[1..])
  {
    assert |bs| > 1 ==> bs[1..][1..] == bs[2..];
  }

  /** A block in front of the others takes part in the merge only as the neighbour of the freed block. */
  lemma ReleaseOfTail(bs: seq<Block>, i: nat)
    requires 0 < i < |bs| && !bs[i].free && !FreePair(bs, 0)
    ensures Release(bs, i) == Join(bs[0], Release(bs[1..], i - 1))
  {
    HeadOfRelease(bs[1..], i - 1);
    if bs[0].free && i == 1 {
      ReleaseNextToHead(bs);
    } else {
      ReleaseAwayFromHead(bs, i);
    }
  }

  lemma ReleaseNextToHead(bs: seq<Block>)
    requires 1 < |bs| && !bs[1].free && bs[0].free
    ensures Release(bs, 1) == Join(bs[0], Release(bs[1..], 0))
  {
    var tail := bs[1..];
    TailSlices(bs, 0, MergeTo(tail, 0));
    assert MergeFrom(bs, 1) == 0 && MergeTo(bs, 1) == MergeTo(tail, 0) + 1;
  }

  lemma ReleaseAwayFromHead(bs: seq<Block>, i: nat)
    requires 0 < i < |bs| && !bs[i].free && !(bs[0].free && i == 1)
    ensures Release(bs, i) == [bs[0]] + Release(bs[1..], i - 1)
  {
    var tail := bs[1..];
    var f, t := MergeFrom(tail, i - 1), MergeTo(tail, i - 1);
    TailSlices(bs, f, t);
    assert MergeFrom(bs, i) == f + 1 && MergeTo(bs, i) == t + 1 && tail[f] == bs[f + 1];
    assert MergedSize(bs, i) == MergedSize(tail, i - 1);
  }

  lemma TailSlices(bs: seq<Block>, f: nat, t: nat)
    requires f <= t < |bs|
    ensures bs[..f + 1] == [bs[0]] + bs[1..][..f] && bs[1..][t..] == bs[t + 1..]
  {
  }

  lemma HeadOfRelease(bs: seq<Block>, i: nat)
    requires i < |bs| && !bs[i].free
    ensures |Release(bs, i)| > 0 && Release(bs, i)[0].free == (bs[0].free || i == 0)
  {
  }

  // ---------------------------------------------------------------- freeing undoes allocating

  /** Freeing what was just carved out of free block i gives back the very same layout. */
  lemma FreeUndoesPlace(bs: seq<Block>, i: nat, t: nat)
    requires i < |bs| && bs[i].free && t <= bs[i].size && Coalesced(bs)
    ensures i < |Place(bs, i, t)| && Release(Place(bs, i, t), i) == bs
  {
    var cs := Place(bs, i, t);
    assert i > 0 ==> !FreePair(bs, i - 1);
    assert i + 1 < |bs| ==> !FreePair(bs, i);
    assert bs == bs[..i] + [bs[i]] + bs[i + 1..];
    assert cs[..i] == bs[..i];
    assert cs[MergeTo(cs, i)..] == bs[i + 1..];
  }

  /** Freeing the block an allocation returned restores the blocks, and so the free list, exactly when
      the heap did not grow; otherwise what is left is the old heap with a free page merged onto its end. */
  lemma {:induction false} FreeUndoesAlloc(best: bool, a: Arena, limit: nat, size: nat, b: Arena, va: nat, i: nat,
                                           lo: nat)
    requires a.brk >= 4 && WellFormed(a.blocks, lo, a.brk - 4) && size <= MAX_REQUEST
    requires Allocates(best, a, limit, size, b, va, i) && va != NULL
    ensures i < |b.blocks| && !b.blocks[i].free && b.blocks[i].Va() == va
    ensures Release(b.blocks, i) == if NoRoom(a.blocks, size) then Grown(a.blocks, a.brk - 4) else a.blocks
    ensures !NoRoom(a.blocks, size) <==>
      && Release(b.blocks, i) == a.blocks && FreeVas(Release(b.blocks, i)) == FreeVas(a.blocks)
      && b.brk == a.brk && b.freeFrames == a.freeFrames
  {
    NoRoomIsNoFit(a.blocks, lo, a.brk - 4, size);
    if NothingFits(a.blocks, Total(size)) {
      GrownPick(a.blocks, lo, a.brk - 4, Total(size));
      FreeUndoesPlace(Grown(a.blocks, a.brk - 4), i, Total(size));
    } else {
      FreeUndoesPlace(a.blocks, i, Total(size));
    }
  }

  // ---------------------------------------------------------------- an allocation always has one outcome

  /** Every request has an outcome. */
  lemma AllocHasOutcome(best: bool, a: Arena, limit: nat, size: nat, lo: nat) returns (b: Arena, va: nat, i: nat)
    requires a.brk >= 4 && WellFormed(a.blocks, lo, a.brk - 4) && size <= MAX_REQUEST
    ensures Allocates(best, a, limit, size, b, va, i)
  {
    var t := Total(size);
    b, va, i := a, NULL, 0;
    if size == 0 || (NothingFits(a.blocks, t) && !CanGrow(a, limit)) {
    } else if NothingFits(a.blocks, t) {
      var g := Grown(a.blocks, a.brk - 4);
      GrownPick(a.blocks, lo, a.brk - 4, t);
      i := |g| - 1;
      b, va := Arena(Place(g, i, t), a.brk + PAGE_SIZE, a.freeFrames - 1), g[i].Va();
    } else {
      FirstFitIsFirst(a.blocks, t);
      BestFitIsBest(a.blocks, t);
      i := if best then BestFit(a.blocks, t) else FirstFit(a.blocks, t);
      b, va := Arena(Place(a.blocks, i, t), a.brk, a.freeFrames), a.blocks[i].Va();
    }
  }

  /** And only one: the strategy, the layout and the request determine everything. */
  lemma AllocIsDetermined(best: bool, a: Arena, limit: nat, size: nat, b: Arena, va: nat, i: nat, b': Arena, va': nat,
                          i': nat)
    requires Allocates(best, a, limit, size, b, va, i) && Allocates(best, a, limit, size, b', va', i')
    ensures b == b' && va == va'
  {
    FitIsUnique(a.blocks, Total(size), i);
    FitIsUnique(a.blocks, Total(size), i');
  }

  // ---------------------------------------------------------------- which block serves a request

  /** A free block with room for size bytes between header and footer. */
  predicate HasRoom(b: Block, size: nat) {
    b.free && size + 8 <= b.size
  }

  /** The adjusted size is the least that is even, at least 16, and leaves room for header and footer. */
  lemma TotalIsLeast(size: nat, t: nat)
    requires t % 2 == 0 && 16 <= t && size + 8 <= t
    ensures Total(size) <= t
    ensures Total(size) % 2 == 0 && 16 <= Total(size) && size + 8 <= Total(size)
  {
  }

  /** In a tiled heap the adjusted size fits wherever there is room at all. */
  lemma RoomIsFit(bs: seq<Block>, lo: nat, hi: nat, size: nat, j: nat)
    requires Tiled(bs, lo, hi) && j < |bs|
    ensures Fits(bs[j], Total(size)) <==> HasRoom(bs[j], size)
  {
    assert InRange(bs, lo, hi, j);
    if HasRoom(bs[j], size) {
      TotalIsLeast(size, bs[j].size);
    }
  }

  /** Every free block is smaller than size + 8. */
  ghost predicate NoRoom(bs: seq<Block>, size: nat) {
    forall j :: 0 <= j < |bs| ==> !HasRoom(bs[j], size)
  }

  lemma NoRoomIsNoFit(bs: seq<Block>, lo: nat, hi: nat, size: nat)
    requires Tiled(bs, lo, hi)
    ensures NothingFits(bs, Total(size)) <==> NoRoom(bs, size)
  {
    forall j | 0 <= j < |bs|
      ensures Fits(bs[j], Total(size)) <==> HasRoom(bs[j], size)
    {
      RoomIsFit(bs, lo, hi, size, j);
    }
  }

  /** NULL for a positive size means exactly that every free block is too small and the heap cannot grow;
      then nothing changes. */
  lemma NullMeansFull(best: bool, a: Arena, limit: nat, size: nat, b: Arena, va: nat, i: nat, lo: nat)
    requires size > 0 && Allocates(best, a, limit, size, b, va, i)
    requires a.brk >= 4 && Tiled(a.blocks, lo, a.brk - 4)
    ensures va == NULL <==> NoRoom(a.blocks, size) && (a.brk + PAGE_SIZE > limit || a.freeFrames == 0)
    ensures va == NULL ==> b == a
  {
    NoRoomIsNoFit(a.blocks, lo, a.brk - 4, size);
  }

  /** Block i of bs is the one first fit, or best fit, should give for size bytes. */
  ghost predicate RightBlock(best: bool, bs: seq<Block>, size: nat, i: nat) {
    && i < |bs| && HasRoom(bs[i], size)
    && if best then forall j :: 0 <= j < |bs| && j != i && HasRoom(bs[j], size) ==>
         bs[i].size < bs[j].size || (bs[i].size == bs[j].size && bs[i].addr < bs[j].addr)
       else forall j :: 0 <= j < |bs| && j != i && HasRoom(bs[j], size) ==> bs[i].addr < bs[j].addr
  }

  /** A request is served from the block with room at the lowest address, or from the smallest such block and
      the lowest of those; only when no block has room does the heap grow, by one page. */
  lemma RequestServed(best: bool, a: Arena, limit: nat, size: nat, b: Arena, va: nat, i: nat, lo: nat)
    requires size > 0 && Allocates(best, a, limit, size, b, va, i) && va != NULL
    requires a.brk >= 4 && Tiled(a.blocks, lo, a.brk - 4)
    ensures NoRoom(a.blocks, size) <==> b.brk == a.brk + PAGE_SIZE
    ensures !NoRoom(a.blocks, size) ==>
      RightBlock(best, a.blocks, size, i) && va == a.blocks[i].Va() && b.brk == a.brk && b.freeFrames == a.freeFrames
  {
    NoRoomIsNoFit(a.blocks, lo, a.brk - 4, size);
    if !NoRoom(a.blocks, size) {
      FitIsRight(best, a.blocks, lo, a.brk - 4, size, i);
    }
  }

  lemma FitIsRight(best: bool, bs: seq<Block>, lo: nat, hi: nat, size: nat, i: nat)
    requires Tiled(bs, lo, hi) && IsFit(best, bs, Total(size), i)
    ensures RightBlock(best, bs, size, i)
  {
    RoomIsFit(bs, lo, hi, size, i);
    assert InRange(bs, lo, hi, i);
    forall j | 0 <= j < |bs| && j != i && HasRoom(bs[j], size)
      ensures if best then bs[i].size < bs[j].size || (bs[i].size == bs[j].size && bs[i].addr < bs[j].addr)
        else bs[i].addr < bs[j].addr
    {
      RoomIsFit(bs, lo, hi, size, j);
      assert InRange(bs, lo, hi, j);
      assert i < j ==> Ordered(bs, i, j);
    }
  }

  /** A used block of t bytes may be cut off the front of a range of whole bytes for a request of size bytes:
      what is left is nothing, or a block. */
  predicate CanCut(whole: nat, size: nat, t: nat) {
    t % 2 == 0 && 16 <= t && size + 8 <= t && (t == whole || t + 16 <= whole)
  }

  /** t is the least size that can be cut off. */
  ghost predicate LeastCut(whole: nat, size: nat, t: nat) {
    CanCut(whole, size, t) && forall u :: CanCut(whole, size, u) ==> t <= u
  }

  /** A request gets the front of its block, no more of it than it must, and the rest stays free. */
  lemma PlaceIsLeast(bs: seq<Block>, lo: nat, hi: nat, i: nat, size: nat)
    requires Tiled(bs, lo, hi) && i < |bs| && bs[i].free && Total(size) <= bs[i].size
    ensures var cs := Place(bs, i, Total(size));
      && i < |cs| && cs[i].addr == bs[i].addr && LeastCut(bs[i].size, size, cs[i].size)
      && (cs[i].size < bs[i].size ==> i + 1 < |cs| && cs[i + 1] == Block(cs[i].End(), bs[i].size - cs[i].size, true))
  {
    assert InRange(bs, lo, hi, i);
    forall u | CanCut(bs[i].size, size, u)
      ensures Place(bs, i, Total(size))[i].size <= u
    {
      TotalIsLeast(size, u);
    }
  }

  /** A reallocation in place ends with the least block that can be cut off: off the old one when there is room
      in it, else off the old one and the free block behind it; the block moves only when neither has room. */
  lemma ResizedIsLeast(bs: seq<Block>, lo: nat, hi: nat, i: nat, n: nat)
    requires WellFormed(bs, lo, hi) && i < |bs| && !bs[i].free && WellBehaved(bs, i, n)
    ensures var c, next := CaseOf(bs, i, n), if FreeAfter(bs, i) then bs[i + 1].size else 0;
      && (c.Relocate? <==> bs[i].size + next < n + 8)
      && i < |Resized(bs, i, n)|
      && var whole := if n + 8 <= bs[i].size then bs[i].size else bs[i].size + next;
        c.Relocate? || LeastCut(whole, n, Resized(bs, i, n)[i].size)
  {
    assert InRange(bs, lo, hi, i);
    if FreeAfter(bs, i) {
      assert InRange(bs, lo, hi, i + 1);
    }
    if n + 8 <= bs[i].size {
      ShrunkIsLeast(bs, i, n);
    } else if !CaseOf(bs, i, n).Relocate? {
      GrownIsLeast(bs, i, n);
    }
  }

  lemma ShrunkIsLeast(bs: seq<Block>, i: nat, n: nat)
    requires i < |bs| && bs[i].size % 2 == 0 && 16 <= bs[i].size && n + 8 <= bs[i].size && WellBehaved(bs, i, n)
    ensures !CaseOf(bs, i, n).Relocate? && i < |Resized(bs, i, n)|
    ensures LeastCut(bs[i].size, n, Resized(bs, i, n)[i].size)
  {
    if CaseOf(bs, i, n).CutTail? {
      var x := UsedPair(bs[i], EvenUp(n) + 8);
      ResizedParts(bs, i, n);
      CutFront(bs, i, x);
    }
  }

  lemma CutFront(bs: seq<Block>, i: nat, x: seq<Block>)
    requires i < |bs| && |x| == 2 && !x[0].free
    ensures i + 1 < |Replaced(bs, i, i + 1, x)| && i < |Release(Replaced(bs, i, i + 1, x), i + 1)|
    ensures Release(Replaced(bs, i, i + 1, x), i + 1)[i] == x[0]
  {
    assert Replaced(bs, i, i + 1, x)[i] == x[0];
  }

  lemma GrownIsLeast(bs: seq<Block>, i: nat, n: nat)
    requires i + 1 < |bs| && bs[i + 1].free && bs[i].size % 2 == 0 && bs[i + 1].size % 2 == 0 && WellBehaved(bs, i, n)
    requires 16 <= bs[i].size < n + 8 && !CaseOf(bs, i, n).Relocate?
    ensures i < |Resized(bs, i, n)|
    ensures LeastCut(bs[i].size + bs[i + 1].size, n, Resized(bs, i, n)[i].size)
  {
  }

  // ---------------------------------------------------------------- live blocks

  lemma PlaceLive(bs: seq<Block>, i: nat, t: nat)
    requires i < |bs| && bs[i].free && t <= bs[i].size
    ensures i < |Place(bs, i, t)| && LiveSet(Place(bs, i, t)) == LiveSet(bs) + {Place(bs, i, t)[i]}
  {
    var cs := Place(bs, i, t);
    forall b | b in LiveSet(bs) + {cs[i]}
      ensures b in LiveSet(cs)
    {
      if b in LiveSet(bs) {
        var l :| 0 <= l < |bs| && !bs[l].free && bs[l] == b;
        assert cs[if l < i then l else l + |cs| - |bs|] == b;
      }
    }
    forall l | 0 <= l < |cs| && !cs[l].free
      ensures cs[l] in LiveSet(bs) + {cs[i]}
    {
      assert l < i ==> cs[l] == bs[l];
      assert l > i ==> cs[l].free || cs[l] == bs[l - (|cs| - |bs|)];
    }
  }

  lemma ReleaseLive(bs: seq<Block>, lo: nat, hi: nat, i: nat)
    requires Tiled(bs, lo, hi) && i < |bs| && !bs[i].free
    ensures LiveSet(Release(bs, i)) == LiveSet(bs) - {bs[i]}
  {
    var cs, f, t := Release(bs, i), MergeFrom(bs, i), MergeTo(bs, i);
    forall l | 0 <= l < |bs| && !bs[l].free && l != i
      ensures bs[l] in LiveSet(cs) && bs[l] != bs[i]
    {
      assert InRange(bs, lo, hi, l) && InRange(bs, lo, hi, i);
      assert l < i ==> Ordered(bs, l, i);
      assert i < l ==> Ordered(bs, i, l);
      assert cs[if l < f then l else l - t + f + 1] == bs[l];
    }
    forall l | 0 <= l < |cs| && !cs[l].free
      ensures exists p :: 0 <= p < |bs| && !bs[p].free && p != i && bs[p] == cs[l]
    {
      assert cs[l] == bs[if l < f then l else l - f - 1 + t];
    }
  }

  lemma GrownKeepsLive(bs: seq<Block>, lo: nat, hi: nat)
    requires WellFormed(bs, lo, hi)
    ensures LiveSet(Grown(bs, hi)) == LiveSet(bs)
    ensures Tiled(bs + [NewPage(hi)], lo, hi + PAGE_SIZE)
  {
    var x := [NewPage(hi)];
    assert InRange(x, hi, hi + PAGE_SIZE, 0);
    assert InRange(bs, lo, hi, 0);
    TiledJoin(bs, x, lo, hi, hi + PAGE_SIZE);
    var cs := bs + x;
    ReleaseLive(cs, lo, hi + PAGE_SIZE, |bs|);
    forall l | 0 <= l < |bs|
      ensures cs[l] == bs[l] && cs[l] != x[0]
    {
      assert InRange(bs, lo, hi, l);
    }
    assert LiveSet(cs) == LiveSet(bs) + {x[0]};
  }

  lemma LiveConcat(a: seq<Block>, b: seq<Block>)
    ensures LiveSet(a + b) == LiveSet(a) + LiveSet(b)
  {
    var c := a + b;
    forall x | x in LiveSet(a) + LiveSet(b)
      ensures x in LiveSet(c)
    {
      if x in LiveSet(a) {
        var i :| 0 <= i < |a| && !a[i].free && a[i] == x;
        assert c[i] == x;
      } else {
        var i :| 0 <= i < |b| && !b[i].free && b[i] == x;
        assert c[|a| + i] == x;
      }
    }
    forall x | x in LiveSet(c)
      ensures x in LiveSet(a) + LiveSet(b)
    {
      var i :| 0 <= i < |c| && !c[i].free && c[i] == x;
      assert c[i] == if i < |a| then a[i] else b[i - |a|];
    }
  }

  /** The live blocks before and after blocks f .. t - 1 are replaced by x. */
  lemma ReplacedLive(bs: seq<Block>, f: nat, t: nat, x: seq<Block>)
    requires f <= t <= |bs|
    ensures LiveSet(bs) == LiveSet(bs[..f]) + LiveSet(bs[f..t]) + LiveSet(bs[t..])
    ensures LiveSet(Replaced(bs, f, t, x)) == LiveSet(bs[..f]) + LiveSet(x) + LiveSet(bs[t..])
  {
    assert bs == bs[..f] + bs[f..t] + bs[t..];
    LiveConcat(bs[..f] + bs[f..t], bs[t..]);
    LiveConcat(bs[..f], bs[f..t]);
    LiveConcat(bs[..f] + x, bs[t..]);
    LiveConcat(bs[..f], x);
  }

  /** A block is live nowhere but at its own index. */
  lemma LiveOnce(bs: seq<Block>, lo: nat, hi: nat, i: nat)
    requires Tiled(bs, lo, hi) && i < |bs|
    ensures bs[i] !in LiveSet(bs[..i]) && bs[i] !in LiveSet(bs[i + 1..])
  {
    assert InRange(bs, lo, hi, i);
    forall l | 0 <= l < |bs| && l != i
      ensures bs[l] != bs[i]
    {
      assert InRange(bs, lo, hi, l);
      assert l < i ==> Ordered(bs, l, i);
      assert i < l ==> Ordered(bs, i, l);
    }
  }

  lemma LiveTwo(a: Block, b: Block)
    ensures LiveSet([a, b]) == (if a.free then {} else {a}) + (if b.free then {} else {b})
  {
    assert [a, b][0] == a && [a, b][1] == b;
  }

  /** Growing in place exchanges the old block for the bigger one. */
  lemma GrowLive(bs: seq<Block>, lo: nat, hi: nat, i: nat, x: seq<Block>)
    requires Tiled(bs, lo, hi) && i + 1 < |bs| && !bs[i].free && bs[i + 1].free
    requires 1 <= |x| <= 2 && !x[0].free && (|x| == 2 ==> x[1].free)
    ensures LiveSet(Replaced(bs, i, i + 2, x)) == LiveSet(bs) - {bs[i]} + {x[0]}
  {
    ReplacedLive(bs, i, i + 2, x);
    LiveOnce(bs, lo, hi, i);
    assert bs[i..i + 2] == [bs[i], bs[i + 1]];
    LiveTwo(bs[i], bs[i + 1]);
    assert bs[i + 1..] == [bs[i + 1]] + bs[i + 2..];
    LiveConcat([bs[i + 1]], bs[i + 2..]);
    if |x| == 2 {
      assert x == [x[0], x[1]];
      LiveTwo(x[0], x[1]);
    } else {
      assert x == [x[0]];
      assert LiveSet(x) == {x[0]} by { assert x[0] in LiveSet(x); }
    }
  }

  /** Cutting a block and freeing its tail exchanges it for the smaller one. */
  lemma CutLiveSet(bs: seq<Block>, lo: nat, hi: nat, i: nat, t: nat)
    requires Tiled(bs, lo, hi) && i < |bs| && !bs[i].free && t % 2 == 0 && MIN_BLOCK <= t && t + MIN_BLOCK <= bs[i].size
    ensures LiveSet(Release(Replaced(bs, i, i + 1, UsedPair(bs[i], t)), i + 1)) ==
      LiveSet(bs) - {bs[i]} + {UsedPair(bs[i], t)[0]}
  {
    var x := UsedPair(bs[i], t);
    var cs := Replaced(bs, i, i + 1, x);
    assert InRange(bs, lo, hi, i);
    PairTiled(x[0], x[1]);
    TiledReplace(bs, lo, hi, i, i + 1, x);
    ReleaseLive(cs, lo, hi, i + 1);
    ReplacedLive(bs, i, i + 1, x);
    LiveOnce(bs, lo, hi, i);
    LiveOnce(cs, lo, hi, i + 1);
    LiveTwo(x[0], x[1]);
    assert bs[i..i + 1] == [bs[i]];
    assert LiveSet([bs[i]]) == {bs[i]} by { assert [bs[i]][0] in LiveSet([bs[i]]); }
    assert cs[..i + 1] == bs[..i] + [x[0]] && cs[i + 2..] == bs[i + 1..];
    LiveConcat(bs[..i], [x[0]]);
  }

  /** Two different blocks share no byte. */
  predicate Disjoint(b: Block, c: Block) {
    b.End() <= c.addr || c.End() <= b.addr
  }

  /** What a caller gets: a used block inside the heap with room for the request, new to the set of
      live blocks, which gains nothing else and loses nothing, and sharing no byte with any of them. */
  ghost predicate Isolated(bs: seq<Block>, cs: seq<Block>, i: nat, size: nat, va: nat, lo: nat, hi: nat) {
    && i < |cs| && !cs[i].free && cs[i].Va() == va && lo + 4 <= va && va + size <= cs[i].End() - 4 && cs[i].End() <= hi
    && LiveSet(cs) == LiveSet(bs) + {cs[i]} && cs[i] !in LiveSet(bs)
    && forall l :: l in LiveSet(bs) ==> Disjoint(l, cs[i])
  }

  lemma PlaceTiled(bs: seq<Block>, lo: nat, hi: nat, i: nat, t: nat)
    requires Tiled(bs, lo, hi) && i < |bs| && bs[i].free && t % 2 == 0 && MIN_BLOCK <= t <= bs[i].size
    ensures Tiled(Place(bs, i, t), lo, hi)
  {
    if bs[i].size - t < MIN_BLOCK {
      MarkTiled(bs, lo, hi, i, false);
    } else {
      SplitTiled(bs, lo, hi, i, t);
    }
  }

  lemma PlaceIsolated(bs: seq<Block>, lo: nat, hi: nat, i: nat, size: nat)
    requires Tiled(bs, lo, hi) && i < |bs| && bs[i].free && Total(size) <= bs[i].size
    ensures Isolated(bs, Place(bs, i, Total(size)), i, size, bs[i].Va(), lo, hi)
  {
    var t := Total(size);
    PlaceLive(bs, i, t);
    assert InRange(bs, lo, hi, i);
    forall l | 0 <= l < |bs| && !bs[l].free
      ensures Disjoint(bs[l], bs[i]) && bs[l].addr != bs[i].addr
    {
      assert InRange(bs, lo, hi, l);
      assert l < i ==> Ordered(bs, l, i);
      assert i < l ==> Ordered(bs, i, l);
    }
  }

  /** Every successful request is isolated. */
  lemma AllocIsolated(best: bool, a: Arena, limit: nat, size: nat, b: Arena, va: nat, i: nat, lo: nat)
    requires a.brk >= 4 && WellFormed(a.blocks, lo, a.brk - 4) && size <= MAX_REQUEST
    requires Allocates(best, a, limit, size, b, va, i) && va != NULL
    ensures Isolated(a.blocks, b.blocks, i, size, va, lo, b.brk - 4)
  {
    var hi := a.brk - 4;
    if NothingFits(a.blocks, Total(size)) {
      GrownPick(a.blocks, lo, hi, Total(size));
      GrownKeepsLive(a.blocks, lo, hi);
      MergedTiled(a.blocks + [NewPage(hi)], lo, hi + PAGE_SIZE, |a.blocks|);
      PlaceIsolated(Grown(a.blocks, hi), lo, hi + PAGE_SIZE, i, size);
    } else {
      PlaceIsolated(a.blocks, lo, hi, i, size);
    }
  }

  /** What a caller gets from a reallocation: a live block at r with room for the request, in exchange for
      the old one; every other live block is where it was. */
  ghost predicate Exchanged(bs: seq<Block>, cs: seq<Block>, i: nat, n: nat, r: nat, x: Block)
    requires i < |bs|
  {
    x.Va() == r && n + 8 <= x.size && LiveSet(cs) == LiveSet(bs) - {bs[i]} + {x}
  }

  lemma ExchangeByMove(bs: seq<Block>, cs: seq<Block>, lo: nat, hi: nat, i: nat, n: nat, r: nat, k: nat, j: nat)
    returns (x: Block)
    requires i < |bs| && !bs[i].free && Isolated(bs, cs, k, n, r, lo, hi) && WellFormed(cs, lo, hi) && j < |cs|
    requires cs[j] == bs[i]
    ensures Exchanged(bs, Release(cs, j), i, n, r, x)
  {
    ReleaseLive(cs, lo, hi, j);
    x := cs[k];
    assert bs[i] in LiveSet(bs);
  }

  lemma RelocateExchanges(a: Arena, limit: nat, i: nat, n: nat, b: Arena, r: nat, mid: Arena, k: nat, j: nat, lo: nat)
    returns (x: Block)
    requires ArenaValid(a, lo, limit) && i < |a.blocks| && !a.blocks[i].free && n <= MAX_REQUEST
    requires Relocates(a, limit, i, n, b, r, mid, k, j) && r != NULL
    ensures Exchanged(a.blocks, b.blocks, i, n, r, x)
  {
    var hi := MidArena(a, limit, n, mid, r, k, lo);
    x := ExchangeByMove(a.blocks, mid.blocks, lo, hi, i, n, r, k, j);
  }

  lemma MidArena(a: Arena, limit: nat, n: nat, mid: Arena, r: nat, k: nat, lo: nat) returns (hi: nat)
    requires ArenaValid(a, lo, limit) && n <= MAX_REQUEST && Allocates(false, a, limit, n, mid, r, k) && r != NULL
    ensures WellFormed(mid.blocks, lo, hi) && Isolated(a.blocks, mid.blocks, k, n, r, lo, hi)
  {
    AllocStep(false, a, limit, n, mid, r, k, lo);
    hi := mid.brk - 4;
    AllocIsolated(false, a, limit, n, mid, r, k, lo);
  }

  /** Every well-behaved reallocation that succeeds is such an exchange. */
  lemma ReallocExchanges(a: Arena, limit: nat, i: nat, n: nat, b: Arena, r: nat, mid: Arena, k: nat, j: nat, lo: nat)
    returns (x: Block)
    requires ArenaValid(a, lo, limit) && i < |a.blocks| && !a.blocks[i].free && WellBehaved(a.blocks, i, n)
    requires Reallocates(a, limit, i, n, b, r, mid, k, j) && r != NULL
    ensures Exchanged(a.blocks, b.blocks, i, n, r, x)
  {
    if CaseOf(a.blocks, i, n).Relocate? {
      x := RelocateExchanges(a, limit, i, EvenUp(n), b, r, mid, k, j, lo);
    } else {
      x := InPlaceExchanges(a.blocks, lo, a.brk - 4, i, n, CaseOf(a.blocks, i, n));
    }
  }

  lemma InPlaceExchanges(bs: seq<Block>, lo: nat, hi: nat, i: nat, n: nat, c: ReallocCase) returns (x: Block)
    requires WellFormed(bs, lo, hi) && i < |bs| && !bs[i].free && WellBehaved(bs, i, n)
    requires c == CaseOf(bs, i, n) && !c.Relocate?
    ensures Exchanged(bs, Resized(bs, i, n), i, n, bs[i].Va(), x)
  {
    if c.CutTail? {
      x := CutExchanges(bs, lo, hi, i, n);
    } else if c.TakeWhole? {
      x := WholeExchanges(bs, lo, hi, i, n);
    } else if c.TakePart? {
      x := PartExchanges(bs, lo, hi, i, n);
    } else {
      x := bs[i];
      assert bs[i] in LiveSet(bs);
    }
  }

  lemma CutExchanges(bs: seq<Block>, lo: nat, hi: nat, i: nat, n: nat) returns (x: Block)
    requires WellFormed(bs, lo, hi) && i < |bs| && !bs[i].free && WellBehaved(bs, i, n) && CaseOf(bs, i, n).CutTail?
    ensures Exchanged(bs, Resized(bs, i, n), i, n, bs[i].Va(), x)
  {
    CaseBounds(bs, i, n);
    ResizedParts(bs, i, n);
    CutLiveSet(bs, lo, hi, i, EvenUp(n) + 8);
    x := UsedPair(bs[i], EvenUp(n) + 8)[0];
  }

  lemma WholeExchanges(bs: seq<Block>, lo: nat, hi: nat, i: nat, n: nat) returns (x: Block)
    requires WellFormed(bs, lo, hi) && i < |bs| && !bs[i].free && WellBehaved(bs, i, n) && CaseOf(bs, i, n).TakeWhole?
    ensures Exchanged(bs, Resized(bs, i, n), i, n, bs[i].Va(), x)
  {
    GrowLive(bs, lo, hi, i, [Absorbed(bs, i)]);
    x := Absorbed(bs, i);
  }

  lemma PartExchanges(bs: seq<Block>, lo: nat, hi: nat, i: nat, n: nat) returns (x: Block)
    requires WellFormed(bs, lo, hi) && i < |bs| && !bs[i].free && WellBehaved(bs, i, n) && CaseOf(bs, i, n).TakePart?
    ensures Exchanged(bs, Resized(bs, i, n), i, n, bs[i].Va(), x)
  {
    var y := SlidPair(bs, i, EvenUp(n) + 8);
    GrowLive(bs, lo, hi, i, y);
    x := y[0];
  }

  // ---------------------------------------------------------------- runs

  datatype Op =
    | Alloc(best: bool, size: nat, va: nat, i: nat)
    | Free(j: nat)
    | Realloc(k: nat, newSize: nat, r: nat, mid: Arena, to: nat, from: nat)

  /** One call: a request of at most 2 KB, the freeing of a used block, or a well-behaved reallocation. */
  ghost predicate Step(a: Arena, limit: nat, op: Op, b: Arena) {
    match op
    case Alloc(best, size, va, i) => size <= MAX_REQUEST && Allocates(best, a, limit, size, b, va, i)
    case Free(j) => j < |a.blocks| && !a.blocks[j].free && b == a.(blocks := Release(a.blocks, j))
    case Realloc(k, n, r, mid, to, from) =>
      && k < |a.blocks| && !a.blocks[k].free && WellBehaved(a.blocks, k, n)
      && Reallocates(a, limit, k, n, b, r, mid, to, from)
  }

  /** States a[0], a[1], ... with one call between each and the next. */
  ghost predicate Run(a: seq<Arena>, limit: nat, ops: seq<Op>) {
    |a| == |ops| + 1 && forall k :: 0 <= k < |ops| ==> StepAt(a, limit, ops, k)
  }

  ghost predicate StepAt(a: seq<Arena>, limit: nat, ops: seq<Op>, k: nat)
    requires k < |ops| < |a|
  {
    Step(a[k], limit, ops[k], a[k + 1])
  }

  ghost predicate ArenaValid(a: Arena, lo: nat, limit: nat) {
    4 <= a.brk <= limit && WellFormed(a.blocks, lo, a.brk - 4)
  }

  /** Memory is conserved: what the break has gained, the free frames have lost. */
  ghost predicate Conserves(a: Arena, b: Arena) {
    b.brk >= a.brk && b.brk + PAGE_SIZE * b.freeFrames == a.brk + PAGE_SIZE * a.freeFrames
  }

  lemma GrownStep(bs: seq<Block>, lo: nat, hi: nat, t: nat)
    requires WellFormed(bs, lo, hi) && NothingFits(bs, t) && t <= MAX_REQUEST + 8
    ensures WellFormed(Grown(bs, hi), lo, hi + PAGE_SIZE) && Grown(bs, hi)[|Grown(bs, hi)| - 1].free
  {
    GrownPick(bs, lo, hi, t);
    GrownKeepsLive(bs, lo, hi);
    MergedTiled(bs + [NewPage(hi)], lo, hi + PAGE_SIZE, |bs|);
  }

  lemma PlaceStep(bs: seq<Block>, lo: nat, hi: nat, i: nat, t: nat)
    requires WellFormed(bs, lo, hi) && i < |bs| && bs[i].free && t % 2 == 0 && MIN_BLOCK <= t <= bs[i].size
    ensures WellFormed(Place(bs, i, t), lo, hi)
  {
    PlaceTiled(bs, lo, hi, i, t);
    PlaceCoalesced(bs, i, t);
  }

  lemma AllocStep(best: bool, a: Arena, limit: nat, size: nat, b: Arena, va: nat, i: nat, lo: nat)
    requires ArenaValid(a, lo, limit) && size <= MAX_REQUEST && Allocates(best, a, limit, size, b, va, i)
    ensures ArenaValid(b, lo, limit) && Conserves(a, b)
  {
    var hi, t := a.brk - 4, Total(size);
    if va != NULL {
      if NothingFits(a.blocks, t) {
        GrownStep(a.blocks, lo, hi, t);
        PlaceStep(Grown(a.blocks, hi), lo, hi + PAGE_SIZE, i, t);
      } else {
        PlaceStep(a.blocks, lo, hi, i, t);
      }
    }
  }

  lemma FreeStep(a: Arena, limit: nat, j: nat, lo: nat)
    requires ArenaValid(a, lo, limit) && j < |a.blocks| && !a.blocks[j].free
    ensures ArenaValid(a.(blocks := Release(a.blocks, j)), lo, limit)
  {
    MergedTiled(a.blocks, lo, a.brk - 4, j);
    ReleaseCoalesced(a.blocks, j);
  }

  lemma CutStep(bs: seq<Block>, lo: nat, hi: nat, i: nat, t: nat)
    requires WellFormed(bs, lo, hi) && i < |bs| && !bs[i].free
    requires t % 2 == 0 && MIN_BLOCK <= t && t + MIN_BLOCK <= bs[i].size
    ensures WellFormed(Release(Replaced(bs, i, i + 1, UsedPair(bs[i], t)), i + 1), lo, hi)
  {
    var x := UsedPair(bs[i], t);
    assert InRange(bs, lo, hi, i);
    PairTiled(x[0], x[1]);
    TiledReplace(bs, lo, hi, i, i + 1, x);
    UsedPairCoalesced(bs, i, t);
    MergedTiled(Replaced(bs, i, i + 1, x), lo, hi, i + 1);
    ReleaseCoalesced(Replaced(bs, i, i + 1, x), i + 1);
  }

  lemma GrowStep(bs: seq<Block>, lo: nat, hi: nat, i: nat, x: seq<Block>)
    requires WellFormed(bs, lo, hi) && i + 1 < |bs| && !bs[i].free && bs[i + 1].free
    requires 1 <= |x| <= 2 && !x[0].free && Tiled(x, bs[i].addr, bs[i + 1].End())
    ensures WellFormed(Replaced(bs, i, i + 2, x), lo, hi)
  {
    TiledReplace(bs, lo, hi, i, i + 2, x);
    GrownBlockCoalesced(bs, i, x);
  }

  lemma AbsorbStep(bs: seq<Block>, lo: nat, hi: nat, i: nat)
    requires WellFormed(bs, lo, hi) && i + 1 < |bs| && !bs[i].free && bs[i + 1].free
    ensures WellFormed(Replaced(bs, i, i + 2, [Absorbed(bs, i)]), lo, hi)
  {
    assert InRange(bs, lo, hi, i) && InRange(bs, lo, hi, i + 1) && Touching(bs, i);
    OneTiled(Absorbed(bs, i));
    GrowStep(bs, lo, hi, i, [Absorbed(bs, i)]);
  }

  lemma SlideStep(bs: seq<Block>, lo: nat, hi: nat, i: nat, t: nat)
    requires WellFormed(bs, lo, hi) && i + 1 < |bs| && !bs[i].free && bs[i + 1].free && t % 2 == 0
    requires bs[i].size + MIN_BLOCK <= t && t + MIN_BLOCK <= bs[i].size + bs[i + 1].size
    ensures WellFormed(Replaced(bs, i, i + 2, SlidPair(bs, i, t)), lo, hi)
  {
    assert InRange(bs, lo, hi, i) && InRange(bs, lo, hi, i + 1) && Touching(bs, i);
    PairTiled(SlidPair(bs, i, t)[0], SlidPair(bs, i, t)[1]);
    GrowStep(bs, lo, hi, i, SlidPair(bs, i, t));
  }

  lemma RelocateStep(a: Arena, limit: nat, i: nat, n: nat, b: Arena, r: nat, mid: Arena, k: nat, j: nat, lo: nat)
    requires ArenaValid(a, lo, limit) && i < |a.blocks| && !a.blocks[i].free && n <= MAX_REQUEST
    requires Relocates(a, limit, i, n, b, r, mid, k, j)
    ensures ArenaValid(b, lo, limit) && Conserves(a, b)
  {
    AllocStep(false, a, limit, n, mid, r, k, lo);
    if r != NULL {
      FreeStep(mid, limit, j, lo);
    }
  }

  lemma ReallocStep(a: Arena, limit: nat, i: nat, n: nat, b: Arena, r: nat, mid: Arena, k: nat, j: nat, lo: nat)
    requires ArenaValid(a, lo, limit) && i < |a.blocks| && !a.blocks[i].free && WellBehaved(a.blocks, i, n)
    requires Reallocates(a, limit, i, n, b, r, mid, k, j)
    ensures ArenaValid(b, lo, limit) && Conserves(a, b)
  {
    if CaseOf(a.blocks, i, n).Relocate? {
      RelocateStep(a, limit, i, EvenUp(n), b, r, mid, k, j, lo);
    } else {
      InPlaceStep(a, limit, i, n, b, r, mid, k, j, lo);
    }
  }

  lemma InPlaceStep(a: Arena, limit: nat, i: nat, n: nat, b: Arena, r: nat, mid: Arena, k: nat, j: nat, lo: nat)
    requires ArenaValid(a, lo, limit) && i < |a.blocks| && !a.blocks[i].free && WellBehaved(a.blocks, i, n)
    requires !CaseOf(a.blocks, i, n).Relocate? && Reallocates(a, limit, i, n, b, r, mid, k, j)
    ensures b == a.(blocks := b.blocks) && WellFormed(b.blocks, lo, a.brk - 4)
  {
    ResizeStep(a.blocks, lo, a.brk - 4, i, n, CaseOf(a.blocks, i, n));
  }

  lemma ResizeStep(bs: seq<Block>, lo: nat, hi: nat, i: nat, n: nat, c: ReallocCase)
    requires WellFormed(bs, lo, hi) && i < |bs| && !bs[i].free && WellBehaved(bs, i, n)
    requires c == CaseOf(bs, i, n) && !c.Relocate?
    ensures WellFormed(Resized(bs, i, n), lo, hi)
  {
    if c.CutTail? {
      CutResize(bs, lo, hi, i, n);
    } else if c.TakeWhole? {
      WholeResize(bs, lo, hi, i, n);
    } else if c.TakePart? {
      PartResize(bs, lo, hi, i, n);
    }
  }

  lemma CutResize(bs: seq<Block>, lo: nat, hi: nat, i: nat, n: nat)
    requires WellFormed(bs, lo, hi) && i < |bs| && !bs[i].free && WellBehaved(bs, i, n) && CaseOf(bs, i, n).CutTail?
    ensures WellFormed(Resized(bs, i, n), lo, hi)
  {
    var cs := Resized(bs, i, n);
    CaseBounds(bs, i, n);
    ResizedParts(bs, i, n);
    CutStep(bs, lo, hi, i, EvenUp(n) + 8);
    assert WellFormed(cs, lo, hi);
  }

  /** A tail is cut off safely exactly when a whole block is left in front of it. */
  lemma CutIsExact(bs: seq<Block>, lo: nat, hi: nat, i: nat, n: nat)
    requires WellFormed(bs, lo, hi) && i < |bs| && !bs[i].free && 0 < n <= MAX_REQUEST && CaseOf(bs, i, n).CutTail?
    ensures WellFormed(Resized(bs, i, n), lo, hi) <==> MIN_BLOCK <= EvenUp(n) + 8
  {
    if MIN_BLOCK <= EvenUp(n) + 8 {
      CutResize(bs, lo, hi, i, n);
    } else {
      var x, cs := UsedPair(bs[i], EvenUp(n) + 8), Resized(bs, i, n);
      ResizedParts(bs, i, n);
      assert Replaced(bs, i, i + 1, x)[i] == x[0] && cs[i] == x[0];
      assert !InRange(cs, lo, hi, i);
    }
  }

  lemma WholeResize(bs: seq<Block>, lo: nat, hi: nat, i: nat, n: nat)
    requires WellFormed(bs, lo, hi) && i < |bs| && !bs[i].free && WellBehaved(bs, i, n) && CaseOf(bs, i, n).TakeWhole?
    ensures WellFormed(Resized(bs, i, n), lo, hi)
  {
    CaseBounds(bs, i, n);
    AbsorbStep(bs, lo, hi, i);
  }

  lemma PartResize(bs: seq<Block>, lo: nat, hi: nat, i: nat, n: nat)
    requires WellFormed(bs, lo, hi) && i < |bs| && !bs[i].free && WellBehaved(bs, i, n) && CaseOf(bs, i, n).TakePart?
    ensures WellFormed(Resized(bs, i, n), lo, hi)
  {
    CaseBounds(bs, i, n);
    SlideStep(bs, lo, hi, i, EvenUp(n) + 8);
  }

  /** The sizes at which each case of the reallocation applies. */
  lemma CaseBounds(bs: seq<Block>, i: nat, n: nat)
    requires i < |bs| && WellBehaved(bs, i, n)
    ensures var t, c := EvenUp(n) + 8, CaseOf(bs, i, n);
      && t % 2 == 0
      && (c.CutTail? ==> MIN_BLOCK <= t && t + MIN_BLOCK <= bs[i].size)
      && (c.TakeWhole? || c.TakePart? ==> i + 1 < |bs| && bs[i + 1].free)
      && (c.TakePart? ==> bs[i].size + MIN_BLOCK <= t && t + MIN_BLOCK <= bs[i].size + bs[i + 1].size)
  {
  }

  /** In every state of every run the heap is well formed, and memory is conserved. */
  lemma {:induction false} RunsKeepTheHeap(a: seq<Arena>, limit: nat, ops: seq<Op>, lo: nat, k: nat)
    requires Run(a, limit, ops) && ArenaValid(a[0], lo, limit) && k < |a|
    ensures ArenaValid(a[k], lo, limit) && Conserves(a[0], a[k])
  {
    if k > 0 {
      RunsKeepTheHeap(a, limit, ops, lo, k - 1);
      assert StepAt(a, limit, ops, k - 1);
      match ops[k - 1]
      case Alloc(best, size, va, i) => AllocStep(best, a[k - 1], limit, size, a[k], va, i, lo);
      case Free(j) => FreeStep(a[k - 1], limit, j, lo);
      case Realloc(i, n, r, mid, to, from) => ReallocStep(a[k - 1], limit, i, n, a[k], r, mid, to, from, lo);
    }
  }

  /** What one call should do to the set of live blocks: the block that was returned is added, the one that
      was given up is removed. */
  ghost function Expected(live: set<Block>, a: Arena, op: Op, b: Arena): set<Block> {
    match op
    case Alloc(_, size, va, i) => if va == NULL then live else live + Found(b, va)
    case Free(j) => if j < |a.blocks| then live - {a.blocks[j]} else live
    case Realloc(k, _, r, _, _, _) => if r == NULL || k >= |a.blocks| then live else live - {a.blocks[k]} + Found(b, r)
  }

  /** The live block with payload address va. */
  ghost function Found(a: Arena, va: nat): set<Block> {
    set x | x in LiveSet(a.blocks) && x.Va() == va
  }

  lemma FoundIs(a: Arena, lo: nat, limit: nat, x: Block)
    requires ArenaValid(a, lo, limit) && x in LiveSet(a.blocks)
    ensures Found(a, x.Va()) == {x}
  {
    var i :| 0 <= i < |a.blocks| && !a.blocks[i].free && a.blocks[i] == x;
    forall y | y in Found(a, x.Va())
      ensures y == x
    {
      var j :| 0 <= j < |a.blocks| && !a.blocks[j].free && a.blocks[j] == y;
      OnlyOne(a.blocks, lo, a.brk - 4, i, j);
    }
  }

  ghost function ExpectedRun(a: seq<Arena>, ops: seq<Op>, live: set<Block>, n: nat): set<Block>
    requires |a| == |ops| + 1 && n <= |ops|
  {
    if n == 0 then live else Expected(ExpectedRun(a, ops, live, n - 1), a[n - 1], ops[n - 1], a[n])
  }

  lemma LiveStep(a: Arena, limit: nat, op: Op, b: Arena, lo: nat)
    requires ArenaValid(a, lo, limit) && Step(a, limit, op, b) && ArenaValid(b, lo, limit)
    ensures LiveSet(b.blocks) == Expected(LiveSet(a.blocks), a, op, b)
  {
    match op
    case Alloc(best, size, va, i) =>
      if va != NULL {
        AllocIsolated(best, a, limit, size, b, va, i, lo);
        FoundIs(b, lo, limit, b.blocks[i]);
      }
    case Free(j) => ReleaseLive(a.blocks, lo, a.brk - 4, j);
    case Realloc(k, n, r, mid, to, from) =>
      if r != NULL {
        var x := ReallocExchanges(a, limit, k, n, b, r, mid, to, from, lo);
        FoundIs(b, lo, limit, x);
      } else {
        FailedRealloc(a, limit, k, n, b, r, mid, to, from, lo);
      }
  }

  /** A reallocation that returns NULL changed nothing. */
  lemma FailedRealloc(a: Arena, limit: nat, i: nat, n: nat, b: Arena, r: nat, mid: Arena, k: nat, j: nat, lo: nat)
    requires ArenaValid(a, lo, limit) && i < |a.blocks| && WellBehaved(a.blocks, i, n)
    requires Reallocates(a, limit, i, n, b, r, mid, k, j) && r == NULL
    ensures b == a && CaseOf(a.blocks, i, n) == Relocate
  {
    assert a.blocks[i].Va() != NULL;
  }

  /** After any run the live blocks are those handed out and not given up, each where it was handed out. */
  lemma {:induction false} RunsKeepLiveBlocks(a: seq<Arena>, limit: nat, ops: seq<Op>, lo: nat, n: nat)
    requires Run(a, limit, ops) && ArenaValid(a[0], lo, limit) && n <= |ops|
    ensures LiveSet(a[n].blocks) == ExpectedRun(a, ops, LiveSet(a[0].blocks), n)
  {
    if n > 0 {
      RunsKeepLiveBlocks(a, limit, ops, lo, n - 1);
      RunsKeepTheHeap(a, limit, ops, lo, n - 1);
      RunsKeepTheHeap(a, limit, ops, lo, n);
      assert StepAt(a, limit, ops, n - 1);
      LiveStep(a[n - 1], limit, ops[n - 1], a[n], lo);
    }
  }
}
