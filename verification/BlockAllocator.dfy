/** The dynamic allocator: first fit, best fit, free with coalescing and realloc, on raw memory. */
module BlockAllocator {
  import opened Machine
  import opened Memory
  import opened BlockLayout
  import opened FreeList
  import opened BoundaryTags
  import opened HeapSteps

  const SBRK_FAILED: word := 0xFFFF_FFFF

  // ---------------------------------------------------------------- what an allocation does

  /** The size of the block that serves a request: even, at least 8 bytes, plus header and footer. */
  function Total(size: nat): (t: nat)
    ensures t % 2 == 0 && t >= MIN_BLOCK && t >= size + 8
  {
    Clamp(size) + 8
  }

  /** The adjusted request: even, and at least 8 bytes. */
  function Clamp(size: nat): (sz: nat)
    ensures sz % 2 == 0 && sz >= MIN_PAYLOAD && sz >= size
  {
    var even := if size % 2 != 0 then size + 1 else size;
    if even < MIN_PAYLOAD then MIN_PAYLOAD else even
  }

  /** What the allocator keeps: the blocks, the break and the frames that are left. */
  datatype Arena = Arena(blocks: seq<Block>, brk: nat, freeFrames: nat)

  ghost predicate IsFit(best: bool, bs: seq<Block>, total: nat, i: nat) {
    if best then IsBestFit(bs, total, i) else IsFirstFit(bs, total, i)
  }

  /** The request for size bytes is served from block i of bs: the layout becomes cs, and va is returned. */
  ghost predicate PlacedAt(bs: seq<Block>, i: int, size: nat, cs: seq<Block>, va: nat) {
    0 <= i < |bs| && Total(size) <= bs[i].size && cs == Place(bs, i, Total(size)) && va == bs[i].Va()
  }

  predicate CanGrow(a: Arena, limit: nat) {
    a.brk + PAGE_SIZE <= limit && 1 <= a.freeFrames
  }

  /** A request takes arena a to b and returns va: the fitting block i is used; when nothing fits the
      heap grows by one page, at most once, and the last block is used; when it cannot grow, nothing changes. */
  ghost predicate Allocates(best: bool, a: Arena, limit: nat, size: nat, b: Arena, va: nat, i: nat)
  {
    if size == 0 || (NothingFits(a.blocks, Total(size)) && !CanGrow(a, limit)) then
      b == a && va == NULL
    else if NothingFits(a.blocks, Total(size)) then
      && a.brk >= 4 && |Grown(a.blocks, a.brk - 4)| == i + 1
      && PlacedAt(Grown(a.blocks, a.brk - 4), i, size, b.blocks, va)
      && b.brk == a.brk + PAGE_SIZE && b.freeFrames == a.freeFrames - 1
    else
      && IsFit(best, a.blocks, Total(size), i) && PlacedAt(a.blocks, i, size, b.blocks, va)
      && b.brk == a.brk && b.freeFrames == a.freeFrames
  }

  lemma BlockEnds(bs: seq<Block>, lo: nat, hi: nat, i: nat)
    requires Tiled(bs, lo, hi) && i < |bs|
    ensures bs[i].End() <= hi
  {
    assert InRange(bs, lo, hi, i);
  }

  lemma SplitIsPlace(bs: seq<Block>, i: nat, t: nat)
    requires i < |bs| && t + MIN_BLOCK <= bs[i].size
    ensures Place(bs, i, t) == bs[..i] + SplitPair(bs[i], t) + bs[i + 1..]
  {
  }

  /** A request served from the block its search found. */
  lemma ServedAllocates(best: bool, a: Arena, limit: nat, size: nat, b: Arena, va: nat, i: nat)
    requires size > 0 && IsFit(best, a.blocks, Total(size), i) && PlacedAt(a.blocks, i, Clamp(size), b.blocks, va)
    requires b.brk == a.brk && b.freeFrames == a.freeFrames
    ensures Allocates(best, a, limit, size, b, va, i)
  {
    assert Fits(a.blocks[i], Total(size));
  }

  /** The recursive call after a growth asks for the rounded size, which makes no difference. */
  lemma ClampAllocates(best: bool, a: Arena, limit: nat, size: nat, b: Arena, va: nat, i: nat)
    requires size > 0 && Allocates(best, a, limit, Clamp(size), b, va, i)
    ensures Allocates(best, a, limit, size, b, va, i)
  {
    ClampTwice(size);
    assert Total(Clamp(size)) == Total(size);
    assert PlacedAt(a.blocks, i, Clamp(size), b.blocks, va) == PlacedAt(a.blocks, i, size, b.blocks, va);
  }

  lemma ClampTwice(size: nat)
    ensures Clamp(Clamp(size)) == Clamp(size) > 0
  {
  }

  lemma ExtendedKept(m: seq<byte>, m1: seq<byte>, m2: seq<byte>, bs: seq<Block>, b: Block)
    requires LiveKept(m, m1, bs) && LiveKept(m1, m2, (bs + [b])[|bs| := b.(free := true)])
    ensures LiveKept(m, m2, bs)
  {
    LiveOfAppended(m1, m2, bs, b);
    LiveTrans(m, m1, m2, bs);
  }

  lemma GrownKept(m: seq<byte>, m1: seq<byte>, m2: seq<byte>, bs: seq<Block>, hi: nat)
    requires |bs| > 0 && LiveKept(m, m1, bs) && LiveKept(m1, m2, Grown(bs, hi))
    ensures LiveKept(m, m2, bs)
  {
    GrownLive(m1, m2, bs, hi);
    LiveTrans(m, m1, m2, bs);
  }

  /** Serving a request from the arena that has just grown is how the request is served from the old one. */
  lemma GrewAllocates(best: bool, a: Arena, g: Arena, limit: nat, size: nat, b: Arena, va: nat, i: nat)
    requires size > 0 && NothingFits(a.blocks, Total(size)) && CanGrow(a, limit) && a.brk >= 4
    requires g == Arena(Grown(a.blocks, a.brk - 4), a.brk + PAGE_SIZE, a.freeFrames - 1)
    requires |g.blocks| > 0 && IsFit(best, g.blocks, Total(size), |g.blocks| - 1)
    requires Allocates(best, g, limit, size, b, va, i)
    ensures va != NULL && Allocates(best, a, limit, size, b, va, i)
  {
    FitIsUnique(g.blocks, Total(size), i);
    FitIsUnique(g.blocks, Total(size), |g.blocks| - 1);
    assert Fits(g.blocks[|g.blocks| - 1], Total(size));
  }

  // ---------------------------------------------------------------- what a reallocation does

  /** The next even number. */
  function EvenUp(n: nat): (r: nat)
    ensures r % 2 == 0 && n <= r <= n + 1
  {
    n + n % 2
  }

  /** How realloc_block_FF serves a request for n bytes on used block i. */
  datatype ReallocCase = Same | Padding | CutTail | TakeWhole | TakePart | Relocate

  function CaseOf(bs: seq<Block>, i: nat, n: nat): ReallocCase
    requires i < |bs|
  {
    var t, a := EvenUp(n) + 8, bs[i].size;
    if t == a then Same
    else if t < a then if a - t < MIN_BLOCK then Padding else CutTail
    else if FreeAfter(bs, i) && a + bs[i + 1].size >= t then
      if a + bs[i + 1].size - t < MIN_BLOCK then TakeWhole else TakePart
    else Relocate
  }

  /** The requests for which realloc_block_FF keeps the heap sound: it cuts off a tail only behind a whole
      block, and grows a block by 16 bytes or more into one that is split. (When a block shrinks by less
      than 16, memory has a say: see Quiet.) */
  predicate WellBehaved(bs: seq<Block>, i: nat, n: nat)
    requires i < |bs|
  {
    var t, a := EvenUp(n) + 8, bs[i].size;
    && 0 < n <= MAX_REQUEST
    && (CaseOf(bs, i, n).CutTail? ==> MIN_BLOCK <= t)
    && (CaseOf(bs, i, n).TakePart? ==> a + MIN_BLOCK <= t)
  }

  /** The footer of the grown block and the header of what is left are stored before the list macros read the
      links of the free block, and spare them exactly when the block grows by 16 bytes or more. */
  lemma GrowthSparesLinks(bs: seq<Block>, i: nat, n: nat)
    requires i + 1 < |bs| && bs[i + 1].addr == bs[i].End() && CaseOf(bs, i, n).TakePart?
    ensures var c, footer := bs[i + 1].Va(), bs[i].Va() + EvenUp(n);
      Clear(c, footer) && Clear(c, footer + 4) <==> bs[i].size + MIN_BLOCK <= EvenUp(n) + 8
  {
  }

  /** The blocks after a reallocation in place. */
  function Resized(bs: seq<Block>, i: nat, n: nat): seq<Block>
    requires i < |bs|
  {
    var t := EvenUp(n) + 8;
    match CaseOf(bs, i, n)
    case CutTail => Release(Replaced(bs, i, i + 1, UsedPair(bs[i], t)), i + 1)
    case TakeWhole => Replaced(bs, i, i + 2, [Absorbed(bs, i)])
    case TakePart => Replaced(bs, i, i + 2, SlidPair(bs, i, t))
    case _ => bs
  }

  lemma ResizedParts(bs: seq<Block>, i: nat, n: nat)
    requires i < |bs| && CaseOf(bs, i, n).CutTail?
    ensures i + 1 < |Replaced(bs, i, i + 1, UsedPair(bs[i], EvenUp(n) + 8))|
    ensures Resized(bs, i, n) == Release(Replaced(bs, i, i + 1, UsedPair(bs[i], EvenUp(n) + 8)), i + 1)
  {
  }

  lemma CutCase(bs: seq<Block>, i: nat, n: nat, t: nat)
    requires i < |bs| && t == EvenUp(n) + 8 && t + MIN_BLOCK <= bs[i].size
    ensures CaseOf(bs, i, n).CutTail? && i + 1 < |Replaced(bs, i, i + 1, UsedPair(bs[i], t))|
    ensures Resized(bs, i, n) == Release(Replaced(bs, i, i + 1, UsedPair(bs[i], t)), i + 1)
  {
    ResizedParts(bs, i, n);
  }

  lemma GrowCase(bs: seq<Block>, i: nat, n: nat, t: nat)
    requires i < |bs| && t == EvenUp(n) + 8 && FreeAfter(bs, i) && bs[i].size < t <= bs[i].size + bs[i + 1].size
    requires WellBehaved(bs, i, n)
    ensures !CaseOf(bs, i, n).Relocate?
    ensures bs[i].size + bs[i + 1].size - t < MIN_BLOCK ==>
      Resized(bs, i, n) == Replaced(bs, i, i + 2, [Absorbed(bs, i)])
    ensures bs[i].size + bs[i + 1].size - t >= MIN_BLOCK ==>
      bs[i].size + MIN_BLOCK <= t && Resized(bs, i, n) == Replaced(bs, i, i + 2, SlidPair(bs, i, t))
  {
  }

  /** How arena a becomes b when used block i is resized to n bytes and r is returned. When the block
      moves, mid is the arena after its new place, block k, was allocated; j is the old block in it. */
  ghost predicate Reallocates(a: Arena, limit: nat, i: nat, n: nat, b: Arena, r: nat, mid: Arena, k: nat, j: nat)
    requires i < |a.blocks|
  {
    if CaseOf(a.blocks, i, n).Relocate? then Relocates(a, limit, i, EvenUp(n), b, r, mid, k, j)
    else b == a.(blocks := Resized(a.blocks, i, n)) && r == a.blocks[i].Va()
  }

  /** Used block i moves: a block for n bytes is allocated, which gives mid, and the old one, block j
      of mid, is freed; or the allocation is refused and nothing changes. */
  ghost predicate Relocates(a: Arena, limit: nat, i: nat, n: nat, b: Arena, r: nat, mid: Arena, k: nat, j: nat)
    requires i < |a.blocks|
  {
    && Allocates(false, a, limit, n, mid, r, k)
    && if r == NULL then b == a
      else j < |mid.blocks| && mid.blocks[j] == a.blocks[i] && b == mid.(blocks := Release(mid.blocks, j))
  }

  function Min(a: int, b: int): int {
    if a <= b then a else b
  }

  /** Block i kept its first n bytes, or all it has, and no other live payload changed. */
  ghost predicate Preserved(m: seq<byte>, m': seq<byte>, bs: seq<Block>, i: nat, r: nat, n: nat)
    requires i < |bs|
  {
    && Kept(m, m', bs[i].Va(), r, Min(bs[i].size - 8, n))
    && LiveKept(m, m', bs[i := bs[i].(free := true)])
  }

  /** A block that stays live in place is preserved. */
  lemma InPlacePreserved(m: seq<byte>, m': seq<byte>, bs: seq<Block>, lo: nat, hi: nat, i: nat, n: nat)
    requires Tiled(bs, lo, hi) && hi <= |m| && i < |bs| && !bs[i].free && LiveKept(m, m', bs)
    ensures Preserved(m, m', bs, i, bs[i].Va(), n)
  {
    var fs, va, c := bs[i := bs[i].(free := true)], bs[i].Va(), Min(bs[i].size - 8, n);
    assert InRange(bs, lo, hi, i) && LiveAt(m, m', bs, i);
    assert m'[va..va + c] == m[va..va + c];
    forall l | 0 <= l < |fs|
      ensures LiveAt(m, m', fs, l)
    {
      assert LiveAt(m, m', bs, l);
    }
  }

  /** A block whose tail of at least 16 bytes is cut off is preserved. */
  lemma CutPreserved(m: seq<byte>, m': seq<byte>, bs: seq<Block>, lo: nat, hi: nat, i: nat, t: nat, n: nat)
    requires Tiled(bs, lo, hi) && hi <= |m|
    requires i < |bs| && !bs[i].free && MIN_BLOCK <= t && n + 8 <= t <= bs[i].size
    requires LiveKept(m, m', Replaced(bs, i, i + 1, SplitPair(bs[i], t)))
    ensures Preserved(m, m', bs, i, bs[i].Va(), n)
  {
    var fs, cs := bs[i := bs[i].(free := true)], Replaced(bs, i, i + 1, SplitPair(bs[i], t));
    var va, c := bs[i].Va(), Min(bs[i].size - 8, n);
    assert InRange(bs, lo, hi, i) && LiveAt(m, m', cs, i);
    assert m'[va..va + c] == m[va..va + c];
    forall l | 0 <= l < |fs|
      ensures LiveAt(m, m', fs, l)
    {
      assert LiveAt(m, m', cs, if l <= i then l else l + 1);
    }
  }

  /** Live blocks are still there, away from the block that a request was given. */
  ghost predicate Survive(bs: seq<Block>, cs: seq<Block>, k: nat)
    requires k < |cs|
  {
    forall l :: 0 <= l < |bs| && !bs[l].free ==> bs[l] in cs && bs[l].addr != cs[k].addr
  }

  lemma PlaceSurvive(bs: seq<Block>, lo: nat, hi: nat, i: nat, t: nat)
    requires Tiled(bs, lo, hi) && i < |bs| && bs[i].free && t <= bs[i].size
    ensures i < |Place(bs, i, t)| && Survive(bs, Place(bs, i, t), i) && Place(bs, i, t)[i].addr == bs[i].addr
    ensures !Place(bs, i, t)[i].free && t <= Place(bs, i, t)[i].size
  {
    var cs := Place(bs, i, t);
    forall l | 0 <= l < |bs| && !bs[l].free
      ensures bs[l] in cs && bs[l].addr != cs[i].addr
    {
      assert cs[if l < i then l else l + |cs| - |bs|] == bs[l];
      assert InRange(bs, lo, hi, l) && InRange(bs, lo, hi, i);
      assert l < i ==> Ordered(bs, l, i);
      assert i < l ==> Ordered(bs, i, l);
    }
  }

  lemma GrownSurvive(bs: seq<Block>, lo: nat, hi: nat, t: nat, i: nat)
    requires |bs| > 0 && Tiled(bs, lo, hi) && Coalesced(bs) && NothingFits(bs, t) && t <= MAX_REQUEST + 8
    requires i + 1 == |Grown(bs, hi)| && t <= Grown(bs, hi)[i].size
    ensures var cs := Place(Grown(bs, hi), i, t);
      i < |cs| && Survive(bs, cs, i) && !cs[i].free && t <= cs[i].size && cs[i].addr == Grown(bs, hi)[i].addr
  {
    var g := Grown(bs, hi);
    GrownPick(bs, lo, hi, t);
    var cs := Place(g, i, t);
    forall l | 0 <= l < |bs| && !bs[l].free
      ensures bs[l] in cs && bs[l].addr != cs[i].addr
    {
      assert g[l] == bs[l] && cs[l] == g[l];
      assert InRange(bs, lo, hi, l);
      assert l < |bs| - 1 ==> Ordered(bs, l, |bs| - 1);
    }
  }

  /** A block address occurs once. */
  lemma OnlyOne(bs: seq<Block>, lo: nat, hi: nat, i: nat, j: nat)
    requires Tiled(bs, lo, hi) && i < |bs| && j < |bs| && bs[i].addr == bs[j].addr
    ensures i == j
  {
    assert InRange(bs, lo, hi, i) && InRange(bs, lo, hi, j);
    assert i < j ==> Ordered(bs, i, j);
    assert j < i ==> Ordered(bs, j, i);
  }

  /** Payloads that survive an allocation, a copy into the new block k and the freeing of block j. */
  lemma RelocateLive(m: seq<byte>, m1: seq<byte>, m2: seq<byte>, m3: seq<byte>,
                     bs: seq<Block>, cs: seq<Block>, lo: nat, hi: nat, lo': nat, hi': nat, i: nat, j: nat, k: nat)
    requires Tiled(bs, lo, hi) && Tiled(cs, lo', hi') && i < |bs| && j < |cs| && k < |cs| && cs[j] == bs[i]
    requires Survive(bs, cs, k)
    requires LiveKept(m, m1, bs) && LiveKept(m1, m2, cs[k := cs[k].(free := true)])
    requires LiveKept(m2, m3, cs[j := cs[j].(free := true)])
    ensures LiveKept(m, m3, bs[i := bs[i].(free := true)])
  {
    var fs := bs[i := bs[i].(free := true)];
    forall l | 0 <= l < |bs|
      ensures LiveAt(m, m3, fs, l)
    {
      if l != i && !bs[l].free {
        var p :| 0 <= p < |cs| && cs[p] == bs[l];
        if p == j {
          OnlyOne(bs, lo, hi, l, i);
        }
        assert LiveAt(m, m1, bs, l);
        assert LiveAt(m1, m2, cs[k := cs[k].(free := true)], p) && LiveAt(m2, m3, cs[j := cs[j].(free := true)], p);
      }
    }
  }

  /** Where the block given by a request lies, and that no live block was lost. */
  lemma Allocated(a: Arena, limit: nat, size: nat, b: Arena, va: nat, i: nat, lo: nat)
    requires a.brk >= 4 && WellFormed(a.blocks, lo, a.brk - 4) && 0 < size <= MAX_REQUEST
    requires Allocates(false, a, limit, size, b, va, i) && va != NULL
    ensures Given(a.blocks, b.blocks, i, va, Total(size))
  {
    if NothingFits(a.blocks, Total(size)) {
      GrownGiven(a.blocks, lo, a.brk - 4, size, i, b.blocks, va);
    } else {
      PlaceGiven(a.blocks, lo, a.brk - 4, size, i, b.blocks, va);
    }
  }

  /** Block k of cs, with payload va and t bytes or more, is new, and every live block of bs is still there. */
  ghost predicate Given(bs: seq<Block>, cs: seq<Block>, k: nat, va: nat, t: nat) {
    k < |cs| && Survive(bs, cs, k) && cs[k].Va() == va && !cs[k].free && t <= cs[k].size
  }

  lemma GrownGiven(bs: seq<Block>, lo: nat, hi: nat, size: nat, i: nat, cs: seq<Block>, va: nat)
    requires WellFormed(bs, lo, hi) && size <= MAX_REQUEST && NothingFits(bs, Total(size))
    requires i + 1 == |Grown(bs, hi)| && PlacedAt(Grown(bs, hi), i, size, cs, va)
    ensures Given(bs, cs, i, va, Total(size))
  {
    GrownSurvive(bs, lo, hi, Total(size), i);
  }

  lemma PlaceGiven(bs: seq<Block>, lo: nat, hi: nat, size: nat, i: nat, cs: seq<Block>, va: nat)
    requires WellFormed(bs, lo, hi) && IsFit(false, bs, Total(size), i) && PlacedAt(bs, i, size, cs, va)
    ensures Given(bs, cs, i, va, Total(size))
  {
    PlaceSurvive(bs, lo, hi, i, Total(size));
  }

  lemma Survivor(bs: seq<Block>, cs: seq<Block>, k: nat, i: nat) returns (j: nat)
    requires k < |cs| && i < |bs| && !bs[i].free && Survive(bs, cs, k)
    ensures j < |cs| && cs[j] == bs[i]
  {
    j :| 0 <= j < |cs| && cs[j] == bs[i];
  }

  /** The bytes of the old payload are found at the new address. */
  ghost predicate Kept(m: seq<byte>, m': seq<byte>, va: nat, r: nat, n: int) {
    0 <= n && va + n <= |m| && r + n <= |m'| && m'[r..r + n] == m[va..va + n]
  }

  /** Bytes copied from block j to block k stay there when block j is freed. */
  lemma RelocateKept(m: seq<byte>, m1: seq<byte>, m2: seq<byte>, m3: seq<byte>,
                     bs: seq<Block>, cs: seq<Block>, i: nat, j: nat, k: nat)
    requires i < |bs| && j < |cs| && k < |cs| && j != k && cs[j] == bs[i] && !bs[i].free && !cs[k].free
    requires 8 <= bs[i].size <= cs[k].size
    requires LiveKept(m, m1, bs) && LiveKept(m2, m3, cs[j := cs[j].(free := true)])
    requires Kept(m1, m2, bs[i].Va(), cs[k].Va(), bs[i].size - 8)
    ensures Kept(m, m3, bs[i].Va(), cs[k].Va(), bs[i].size - 8)
  {
    var va, r, n := bs[i].Va(), cs[k].Va(), bs[i].size - 8;
    assert LiveAt(m, m1, bs, i) && LiveAt(m2, m3, cs[j := cs[j].(free := true)], k);
    assert m1[va..va + n] == m[va..va + n];
    assert m3[r..r + n] == m2[r..r + n];
  }

  /** A copy to block k of cs, then the freeing of the old block, amount to a move. */
  lemma MovePreserves(m: seq<byte>, m1: seq<byte>, m2: seq<byte>, m3: seq<byte>, bs: seq<Block>, cs: seq<Block>,
                      lo: nat, hi: nat, lo': nat, hi': nat, i: nat, j: nat, k: nat, n: nat)
    requires Tiled(bs, lo, hi) && Tiled(cs, lo', hi') && i < |bs| && j < |cs| && k < |cs| && j != k && cs[j] == bs[i]
    requires !bs[i].free && !cs[k].free && 8 <= bs[i].size <= cs[k].size && bs[i].size <= n + 8 && Survive(bs, cs, k)
    requires LiveKept(m, m1, bs) && LiveKept(m1, m2, cs[k := cs[k].(free := true)])
    requires LiveKept(m2, m3, cs[j := cs[j].(free := true)]) && Kept(m1, m2, bs[i].Va(), cs[k].Va(), bs[i].size - 8)
    ensures Preserved(m, m3, bs, i, cs[k].Va(), n)
  {
    RelocateLive(m, m1, m2, m3, bs, cs, lo, hi, lo', hi', i, j, k);
    RelocateKept(m, m1, m2, m3, bs, cs, i, j, k);
  }

  /** The heap size after initialize_dynamic_allocator's rounding: even, at least 24. */
  function InitialSize(size: nat): (r: nat)
    ensures r % 2 == 0 && r >= size && r >= 24
  {
    var even := if size % 2 != 0 then size + 1 else size;
    if even < 24 then 24 else even
  }

  /** It is the least such size. */
  lemma InitialSizeIsLeast(size: nat, t: nat)
    requires t % 2 == 0 && 24 <= t && size <= t
    ensures InitialSize(size) <= t
  {
  }

  class Heap {
    const ram: Ram
    const free: BlockList
    const daStart: nat
    const hardLimit: nat
    var brk: nat
    var freeFrames: nat
    ghost var blocks: seq<Block>

    /** initialize_dynamic_allocator: one free block between two sentinels. */
    constructor (ram: Ram, daStart: word, initSize: nat, daLimit: nat, frames: nat)
      requires ram.Sound() && 0 < daStart && 0 < initSize && daStart + InitialSize(initSize) <= daLimit <= 0xFFFF_E000
      modifies ram, ram.bytes
      ensures Valid() && this.ram == ram && this.daStart == daStart && hardLimit == daLimit && fresh(free)
      ensures var size := InitialSize(initSize);
        Now() == Arena([Block(daStart + 4, size - 8, true)], daStart + size, frames)
      ensures OnlyIn(old(ram.image), ram.image, daStart, daStart + InitialSize(initSize))
    {
      var size := InitialSize(initSize);
      this.ram := ram;
      this.daStart := daStart;
      hardLimit := daLimit;
      freeFrames := frames;
      brk := daStart + size;
      blocks := [Block(daStart + 4, size - 8, true)];
      free := new BlockList(ram);
      new;
      StoreInitial(size);
      InitialSpells(ram.words, daStart, size);
      LinkInitial();
    }

    /** The list step of initialize_dynamic_allocator. */
    method LinkInitial()
      requires Woven(1) && free.list == [] && |blocks| == 1 && blocks[0].free && blocks[0].addr == daStart + 4
      modifies free, ram, ram.bytes
      ensures Valid() && OnlyIn(old(ram.image), ram.image, daStart, brk)
    {
      assert InRange(blocks, daStart + 4, brk - 4, 0) && Holds(blocks[0], daStart + 8);
      FreeVasOne(blocks[0]);
      assert blocks == [blocks[0]];
      free.InsertHead(daStart + 8);
      TagsKept(old(ram.words), ram.words, blocks, daStart + 4, brk - 4, 1, NULL, daStart + 8, NULL);
    }

    /** The tag stores of initialize_dynamic_allocator. */
    method StoreInitial(size: nat)
      requires ram.Sound() && 0 < daStart && 24 <= size && size % 2 == 0 && daStart + size < WORD_LIMIT
      modifies ram, ram.bytes
      ensures ram.Sound() && OnlyIn(old(ram.image), ram.image, daStart, daStart + size)
      ensures ram.words[daStart] == SENTINEL && ram.words[daStart + size - 4] == SENTINEL
      ensures ram.words[daStart + 4] == size - 8 && ram.words[daStart + size - 8] == size - 8
    {
      ram.Write(daStart, SENTINEL);
      ram.Write(daStart + size - 4, SENTINEL);
      ram.Write(daStart + 4, size - 8);
      ram.Write(daStart + size - 8, size - 8);
    }

    /** Memory spells the blocks, and the free list is a sound list, of whatever members. */
    ghost predicate Woven(n: int)
      reads this, free, ram, ram.bytes
    {
      && free.ram == ram && free.Valid()
      && 4 <= brk <= hardLimit <= 0xFFFF_E000
      && Spells(ram.words, blocks, daStart + 4, brk - 4, n)
    }

    ghost predicate Shape(n: int)
      reads this, free, ram, ram.bytes
    {
      Woven(n) && free.list == FreeVas(blocks)
    }

    ghost predicate Valid()
      reads this, free, ram, ram.bytes
    {
      Shape(|blocks|) && Coalesced(blocks)
    }

    ghost function Now(): Arena
      reads this
    {
      Arena(blocks, brk, freeFrames)
    }

    /** The tag stores that split a free block of h bytes into a used one of size + 8 and the rest. */
    method StoreSplit(element: word, size: nat, h: word)
      requires ram.Sound() && 4 <= element && element + h < WORD_LIMIT
      requires 8 <= size && size % 2 == 0 && size + 24 <= h
      modifies ram, ram.bytes
      ensures ram.Sound()
      ensures WordsOnlyIn(old(ram.words), ram.words, element - 4, element - 4 + h)
      ensures OnlyIn(old(ram.image), ram.image, element - 4, element - 4 + h)
      ensures WordsSame(old(ram.words), ram.words, element, element + size)
      ensures BytesSame(old(ram.image), ram.image, element, element + size)
      ensures ram.words[element - 4] == size + 9 && ram.words[element + size] == size + 9
      ensures ram.words[element + size + 4] == h - size - 8 && ram.words[element + h - 8] == h - size - 8
    {
      var footer := element + size;
      ram.Write(footer, Or1(size + 8));
      ram.Write(element - 4, Or1(size + 8));
      ram.Write(footer + 4, h - size - 8);
      ram.Write(element + h - 8, h - size - 8);
    }

    /** The tag stores that mark a whole free block used. */
    method StoreMark(element: word, h: word)
      requires ram.Sound() && 4 <= element && element + h < WORD_LIMIT
      requires 16 <= h && h % 2 == 0 && ram.words[element - 4] == h && ram.words[element + h - 8] == h
      modifies ram, ram.bytes
      ensures ram.Sound()
      ensures WordsOnlyIn(old(ram.words), ram.words, element - 4, element - 4 + h)
      ensures OnlyIn(old(ram.image), ram.image, element - 4, element - 4 + h)
      ensures CellKept(old(ram.words), ram.words, element)
      ensures ram.words[element - 4] == h + 1 && ram.words[element + h - 8] == h + 1
    {
      ram.Write(element - 4, Or1(h));
      var f := ram.Read(element + h - 8);
      ram.Write(element + h - 8, Or1(f));
    }


    // Each list operation, on a heap where bs tells which payloads are live: it changes neither tags nor live bytes.

    ghost predicate Joinable(bs: seq<Block>, c: nat)
      reads this
    {
      IsCell(blocks, c) && IsFreeCell(bs, c)
    }

    method LinkAfter(listelm: word, elm: word, ghost k: nat, ghost bs: seq<Block>, ghost n: int)
      requires Woven(n) && Tiled(bs, daStart + 4, brk - 4)
      requires 0 < k <= |free.list| && free.list[k - 1] == listelm && Between(free.list, k, elm)
      requires elm + 4 < |ram.words|
      requires Joinable(bs, At(free.list, k - 1)) && Joinable(bs, elm) && Joinable(bs, At(free.list, k))
      modifies free, ram, ram.bytes
      ensures Woven(n) && LiveKept(old(ram.image), ram.image, bs)
      ensures free.list == Inserted(old(free.list), k, elm)
    {
      ghost var p, x, s := At(free.list, k - 1), elm, At(free.list, k);
      free.InsertAfter(listelm, elm, k);
      TagsKept(old(ram.words), ram.words, blocks, daStart + 4, brk - 4, n, p, x, s);
      LiveByCells(old(ram.image), ram.image, bs, daStart + 4, brk - 4, p, x, s);
    }

    method LinkBefore(listelm: word, elm: word, ghost k: nat, ghost bs: seq<Block>, ghost n: int)
      requires Woven(n) && Tiled(bs, daStart + 4, brk - 4)
      requires k < |free.list| && free.list[k] == listelm && Between(free.list, k, elm)
      requires Joinable(bs, At(free.list, k - 1)) && Joinable(bs, elm) && Joinable(bs, At(free.list, k))
      modifies free, ram, ram.bytes
      ensures Woven(n) && LiveKept(old(ram.image), ram.image, bs)
      ensures free.list == Inserted(old(free.list), k, elm)
    {
      ghost var p, x, s := At(free.list, k - 1), elm, At(free.list, k);
      free.InsertBefore(listelm, elm, k);
      TagsKept(old(ram.words), ram.words, blocks, daStart + 4, brk - 4, n, p, x, s);
      LiveByCells(old(ram.image), ram.image, bs, daStart + 4, brk - 4, p, x, s);
    }

    method LinkHead(elm: word, ghost bs: seq<Block>, ghost n: int)
      requires Woven(n) && Tiled(bs, daStart + 4, brk - 4)
      requires Between(free.list, 0, elm) && elm + 4 < |ram.words|
      requires Joinable(bs, NULL) && Joinable(bs, elm) && Joinable(bs, At(free.list, 0))
      modifies free, ram, ram.bytes
      ensures Woven(n) && LiveKept(old(ram.image), ram.image, bs)
      ensures free.list == Inserted(old(free.list), 0, elm)
    {
      ghost var p, x, s := NULL, elm, At(free.list, 0);
      free.InsertHead(elm);
      TagsKept(old(ram.words), ram.words, blocks, daStart + 4, brk - 4, n, p, x, s);
      LiveByCells(old(ram.image), ram.image, bs, daStart + 4, brk - 4, p, x, s);
    }

    method LinkTail(elm: word, ghost bs: seq<Block>, ghost n: int)
      requires Woven(n) && Tiled(bs, daStart + 4, brk - 4)
      requires Between(free.list, |free.list|, elm) && elm + 4 < |ram.words|
      requires Joinable(bs, At(free.list, |free.list| - 1)) && Joinable(bs, elm) && Joinable(bs, NULL)
      modifies free, ram, ram.bytes
      ensures Woven(n) && LiveKept(old(ram.image), ram.image, bs)
      ensures free.list == Inserted(old(free.list), |old(free.list)|, elm)
    {
      ghost var p, x, s := At(free.list, |free.list| - 1), elm, NULL;
      free.InsertTail(elm);
      TagsKept(old(ram.words), ram.words, blocks, daStart + 4, brk - 4, n, p, x, s);
      LiveByCells(old(ram.image), ram.image, bs, daStart + 4, brk - 4, p, x, s);
    }

    method Unlink(elm: word, ghost k: nat, ghost bs: seq<Block>, ghost n: int)
      requires Woven(n) && Tiled(bs, daStart + 4, brk - 4)
      requires k < |free.list| && free.list[k] == elm
      requires Joinable(bs, At(free.list, k - 1)) && Joinable(bs, elm) && Joinable(bs, At(free.list, k + 1))
      modifies free, ram, ram.bytes
      ensures Woven(n) && LiveKept(old(ram.image), ram.image, bs)
      ensures free.list == Removed(old(free.list), k)
    {
      ghost var p, x, s := At(free.list, k - 1), elm, At(free.list, k + 1);
      free.Remove(elm, k);
      TagsKept(old(ram.words), ram.words, blocks, daStart + 4, brk - 4, n, p, x, s);
      LiveByCells(old(ram.image), ram.image, bs, daStart + 4, brk - 4, p, x, s);
    }

    /** Member k gives way to elm, which stands after it. */
    method SwapAfter(listelm: word, elm: word, ghost k: nat, ghost bs: seq<Block>, ghost n: int)
      requires Woven(n) && Tiled(bs, daStart + 4, brk - 4)
      requires k < |free.list| && free.list[k] == listelm && Between(free.list, k + 1, elm) && elm + 4 < |ram.words|
      requires Joinable(bs, At(free.list, k - 1)) && Joinable(bs, listelm) && Joinable(bs, elm)
      requires Joinable(bs, At(free.list, k + 1))
      modifies free, ram, ram.bytes
      ensures Woven(n) && LiveKept(old(ram.image), ram.image, bs)
      ensures free.list == old(free.list)[k := elm]
    {
      SwapMember(free.list, k, elm);
      LinkAfter(listelm, elm, k + 1, bs, n);
      ghost var m := ram.image;
      Unlink(listelm, k, bs, n);
      LiveTrans(old(ram.image), m, ram.image, bs);
    }

    /** Member k gives way to elm, which stands before it. */
    method SwapBefore(listelm: word, elm: word, ghost k: nat, ghost bs: seq<Block>, ghost n: int)
      requires Woven(n) && Tiled(bs, daStart + 4, brk - 4)
      requires k < |free.list| && free.list[k] == listelm && Between(free.list, k, elm)
      requires Joinable(bs, At(free.list, k - 1)) && Joinable(bs, listelm) && Joinable(bs, elm)
      requires Joinable(bs, At(free.list, k + 1))
      modifies free, ram, ram.bytes
      ensures Woven(n) && LiveKept(old(ram.image), ram.image, bs)
      ensures free.list == old(free.list)[k := elm]
    {
      MergeMember(free.list, k, elm);
      LinkBefore(listelm, elm, k, bs, n);
      ghost var m := ram.image;
      Unlink(listelm, k + 1, bs, n);
      LiveTrans(old(ram.image), m, ram.image, bs);
    }

    /** What the list steps of a split rely on, at the place k of the block. */
    lemma {:induction false} SplitReady(bs: seq<Block>, i: nat, t: nat, k: nat, s: nat)
      requires brk >= 4 && Tiled(bs, daStart + 4, brk - 4) && free.list == FreeVas(bs)
      requires i < |bs| && bs[i].free && k == Rank(bs, i)
      requires MIN_BLOCK <= t && t + MIN_BLOCK <= bs[i].size && s == bs[i].Va() + t
      requires blocks == bs[..i] + SplitPair(bs[i], t) + bs[i + 1..]
      ensures k < |free.list| && free.list[k] == bs[i].Va() && Between(free.list, k + 1, s) && s + 16 <= brk
      ensures Joinable(bs, At(free.list, k - 1)) && Joinable(bs, free.list[k]) && Joinable(bs, s)
      ensures Joinable(bs, At(free.list, k + 1)) && FreeVas(blocks) == free.list[k := s]
    {
      SplitSteps(bs, daStart + 4, brk - 4, i, t);
      assert InRange(bs, daStart + 4, brk - 4, i);
    }

    /** The list steps of a split. */
    method SplitInList(element: word, splitted: word, ghost bs: seq<Block>, ghost i: nat, ghost t: nat)
      requires Woven(|blocks|) && Tiled(bs, daStart + 4, brk - 4) && free.list == FreeVas(bs)
      requires i < |bs| && bs[i].free && bs[i].Va() == element && MIN_BLOCK <= t && t + MIN_BLOCK <= bs[i].size
      requires blocks == bs[..i] + SplitPair(bs[i], t) + bs[i + 1..] && splitted == element + t
      modifies free, ram, ram.bytes
      ensures Shape(|blocks|) && LiveKept(old(ram.image), ram.image, bs)
    {
      ghost var k := Rank(bs, i);
      SplitReady(bs, i, t, k, splitted);
      SwapAfter(element, splitted, k, bs, |blocks|);
    }

    /** The tag steps of a split. */
    method SplitInTags(element: word, size: nat, ghost i: nat)
      requires i < |blocks| && blocks[i].free && blocks[i].Va() == element
      requires Shape(|blocks|) || (i == |blocks| - 1 && Shape(i))
      requires 8 <= size && size % 2 == 0 && size + 8 + MIN_BLOCK <= blocks[i].size
      modifies this`blocks, ram, ram.bytes
      ensures Woven(|blocks|) && LiveKept(old(ram.image), ram.image, old(blocks))
      ensures blocks == old(blocks)[..i] + SplitPair(old(blocks)[i], size + 8) + old(blocks)[i + 1..]
    {
      ghost var bs, lo, hi, t := blocks, daStart + 4, brk - 4, size + 8;
      assert HeadAt(ram.words, bs, i) && InRange(bs, lo, hi, i);
      var h := ram.Read(element - 4);
      StoreSplit(element, size, h);
      SplitSpells(old(ram.words), ram.words, bs, lo, hi, i, t, if i == |bs| - 1 then i else |bs|);
      LiveByRange(old(ram.image), ram.image, bs, lo, hi, i, i + 1);
      blocks := bs[..i] + SplitPair(bs[i], t) + bs[i + 1..];
    }

    /** A free block of at least size + 16 bytes more is split: its front is used, its rest stays free. */
    method Split(element: word, size: nat, ghost i: nat)
      requires i < |blocks| && blocks[i].free && blocks[i].Va() == element
      requires Shape(|blocks|) || (i == |blocks| - 1 && Shape(i))
      requires 8 <= size && size % 2 == 0 && size + 8 + MIN_BLOCK <= blocks[i].size
      modifies this`blocks, free, ram, ram.bytes
      ensures Shape(|blocks|) && blocks == Place(old(blocks), i, size + 8)
      ensures LiveKept(old(ram.image), ram.image, old(blocks))
    {
      ghost var bs := blocks;
      SplitIsPlace(bs, i, size + 8);
      BlockEnds(bs, daStart + 4, brk - 4, i);
      SplitInTags(element, size, i);
      ghost var m := ram.image;
      SplitInList(element, element + size + 8, bs, i, size + 8);
      LiveTrans(old(ram.image), m, ram.image, bs);
    }

    /** The tag stores that mark a used block of sz bytes free. */
    method StoreFree(va: word, sz: nat)
      requires ram.Sound() && 4 <= va && 16 <= sz && sz % 2 == 0 && va + sz < WORD_LIMIT
      requires ram.words[va - 4] == sz + 1
      modifies ram, ram.bytes
      ensures ram.Sound()
      ensures WordsOnlyIn(old(ram.words), ram.words, va - 4, va - 4 + sz)
      ensures OnlyIn(old(ram.image), ram.image, va - 4, va - 4 + sz)
      ensures ram.words[va - 4] == sz && ram.words[va + sz - 8] == Dec(old(ram.words)[va + sz - 8])
    {
      ram.Write(va - 4, sz);
      var f := ram.Read(va + sz - 8);
      ram.Write(va + sz - 8, Dec(f));
    }

    /** The tag stores that merge a freed block of sz bytes into the free block of p bytes before it. */
    method StoreMergePrev(va: word, sz: nat, p: word)
      requires ram.Sound() && 16 <= sz && sz % 2 == 0 && va + sz < WORD_LIMIT && 16 <= p && p + 4 <= va
      requires ram.words[va - 4] == sz + 1 && ram.words[va - 8] == p
      modifies ram, ram.bytes
      ensures ram.Sound()
      ensures WordsOnlyIn(old(ram.words), ram.words, va - 4 - p, va - 4 + sz)
      ensures OnlyIn(old(ram.image), ram.image, va - 4 - p, va - 4 + sz)
      ensures ram.words[va - 4 - p] == sz + p && ram.words[va + sz - 8] == sz + p
      ensures CellKept(old(ram.words), ram.words, va - p)
    {
      StoreFree(va, sz);
      var headerPrev := va - 4 - p;
      ram.Write(headerPrev, sz + p);
      ram.Write(va + sz - 8, sz + p);
    }

    /** The tag stores that merge a freed block of sz bytes with the free block of q bytes after it. */
    method StoreMergeNext(va: word, sz: nat, q: word)
      requires ram.Sound() && 4 <= va && 16 <= sz && sz % 2 == 0 && 16 <= q && va + sz + q < WORD_LIMIT
      requires ram.words[va - 4] == sz + 1 && ram.words[va + sz - 4] == q
      modifies ram, ram.bytes
      ensures ram.Sound()
      ensures WordsOnlyIn(old(ram.words), ram.words, va - 4, va - 4 + sz + q)
      ensures OnlyIn(old(ram.image), ram.image, va - 4, va - 4 + sz + q)
      ensures ram.words[va - 4] == sz + q && ram.words[va + sz + q - 8] == sz + q
      ensures CellKept(old(ram.words), ram.words, va + sz)
    {
      StoreFree(va, sz);
      ram.Write(va - 4, sz + q);
      var footerNext := va + sz - 4 + q - 4;
      ram.Write(footerNext, sz + q);
    }

    /** The tag stores that merge a freed block of sz bytes with both its free neighbours. */
    method StoreMergeBoth(va: word, sz: nat, p: word, q: word)
      requires ram.Sound() && 16 <= sz && sz % 2 == 0 && 16 <= p && p + 4 <= va && 16 <= q && va + sz + q < WORD_LIMIT
      requires ram.words[va - 4] == sz + 1 && ram.words[va - 4 - p] == p
      modifies ram, ram.bytes
      ensures ram.Sound()
      ensures WordsOnlyIn(old(ram.words), ram.words, va - 4 - p, va - 4 + sz + q)
      ensures OnlyIn(old(ram.image), ram.image, va - 4 - p, va - 4 + sz + q)
      ensures ram.words[va - 4 - p] == p + sz + q && ram.words[va + sz + q - 8] == p + sz + q
      ensures CellKept(old(ram.words), ram.words, va - p) && CellKept(old(ram.words), ram.words, va + sz)
    {
      StoreFree(va, sz);
      var headerPrev := va - 4 - p;
      var h := ram.Read(headerPrev);
      ram.Write(headerPrev, h + sz + q);
      var footerNext := va + sz - 4 + q - 4;
      ram.Write(footerNext, h + sz + q);
    }

    /** Block i, at va, is used; n says whether its own footer, if it is the last block, is trusted. */
    ghost predicate Freeable(va: nat, i: nat, n: int)
      reads this, free, ram, ram.bytes
    {
      && Shape(n) && i < |blocks| && !blocks[i].free && blocks[i].Va() == va
      && (n >= |blocks| || n == i == |blocks| - 1)
    }

    method TagsAlone(va: word, sz: nat, ghost i: nat, ghost n: int)
      requires Freeable(va, i, n) && !FreeBefore(blocks, i) && !FreeAfter(blocks, i) && sz == blocks[i].size
      modifies this`blocks, ram, ram.bytes
      ensures blocks == Release(old(blocks), i) && Woven(if n >= |old(blocks)| then |blocks| else |blocks| - 1)
      ensures LiveKept(old(ram.image), ram.image, old(blocks)[i := old(blocks)[i].(free := true)])
    {
      ghost var bs, lo, hi := blocks, daStart + 4, brk - 4;
      assert InRange(bs, lo, hi, i) && HeadAt(ram.words, bs, i) && (n >= |bs| ==> FootAt(ram.words, bs, i));
      StoreFree(va, sz);
      ReleaseSpells(old(ram.words), ram.words, bs, lo, hi, i, n);
      ReleaseKeepsLive(old(ram.image), ram.image, bs, lo, hi, i);
      blocks := Release(bs, i);
    }

    method TagsPrev(va: word, sz: nat, p: word, ghost i: nat, ghost n: int)
      requires Freeable(va, i, n) && FreeBefore(blocks, i) && !FreeAfter(blocks, i) && sz == blocks[i].size
      requires p == blocks[i - 1].size
      modifies this`blocks, ram, ram.bytes
      ensures blocks == Release(old(blocks), i) && Woven(|blocks|)
      ensures LiveKept(old(ram.image), ram.image, old(blocks)[i := old(blocks)[i].(free := true)])
    {
      ghost var bs, lo, hi := blocks, daStart + 4, brk - 4;
      assert InRange(bs, lo, hi, i) && InRange(bs, lo, hi, i - 1) && Touching(bs, i - 1);
      assert HeadAt(ram.words, bs, i) && FootAt(ram.words, bs, i - 1);
      StoreMergePrev(va, sz, p);
      ReleaseSpells(old(ram.words), ram.words, bs, lo, hi, i, n);
      ReleaseKeepsLive(old(ram.image), ram.image, bs, lo, hi, i);
      blocks := Release(bs, i);
    }

    method TagsNext(va: word, sz: nat, q: word, ghost i: nat)
      requires Freeable(va, i, |blocks|) && !FreeBefore(blocks, i) && FreeAfter(blocks, i)
      requires sz == blocks[i].size && q == blocks[i + 1].size
      modifies this`blocks, ram, ram.bytes
      ensures blocks == Release(old(blocks), i) && Woven(|blocks|)
      ensures LiveKept(old(ram.image), ram.image, old(blocks)[i := old(blocks)[i].(free := true)])
    {
      ghost var bs, lo, hi := blocks, daStart + 4, brk - 4;
      assert InRange(bs, lo, hi, i) && InRange(bs, lo, hi, i + 1) && Touching(bs, i);
      assert HeadAt(ram.words, bs, i) && HeadAt(ram.words, bs, i + 1);
      StoreMergeNext(va, sz, q);
      ReleaseSpells(old(ram.words), ram.words, bs, lo, hi, i, |bs|);
      ReleaseKeepsLive(old(ram.image), ram.image, bs, lo, hi, i);
      blocks := Release(bs, i);
    }

    method TagsBoth(va: word, sz: nat, p: word, q: word, ghost i: nat)
      requires Freeable(va, i, |blocks|) && FreeBefore(blocks, i) && FreeAfter(blocks, i)
      requires sz == blocks[i].size && p == blocks[i - 1].size && q == blocks[i + 1].size
      modifies this`blocks, ram, ram.bytes
      ensures blocks == Release(old(blocks), i) && Woven(|blocks|)
      ensures LiveKept(old(ram.image), ram.image, old(blocks)[i := old(blocks)[i].(free := true)])
    {
      ghost var bs, lo, hi := blocks, daStart + 4, brk - 4;
      assert InRange(bs, lo, hi, i) && InRange(bs, lo, hi, i - 1) && InRange(bs, lo, hi, i + 1);
      assert Touching(bs, i) && Touching(bs, i - 1);
      assert HeadAt(ram.words, bs, i) && HeadAt(ram.words, bs, i - 1);
      StoreMergeBoth(va, sz, p, q);
      ReleaseSpells(old(ram.words), ram.words, bs, lo, hi, i, |bs|);
      ReleaseKeepsLive(old(ram.image), ram.image, bs, lo, hi, i);
      blocks := Release(bs, i);
    }

    /** The list steps of freeing a block without free neighbours: head, tail, or a search for the place. */
    lemma {:induction false} AloneReady(bs: seq<Block>, fs: seq<Block>, i: nat, k: nat, va: nat)
      requires brk >= 4 && Tiled(bs, daStart + 4, brk - 4) && free.list == FreeVas(bs) && i < |bs| && k == Rank(bs, i)
      requires i < |bs| && !bs[i].free && !FreeBefore(bs, i) && !FreeAfter(bs, i) && va == bs[i].Va()
      requires blocks == Release(bs, i) && fs == bs[i := bs[i].(free := true)]
      ensures Tiled(fs, daStart + 4, brk - 4) && Between(free.list, k, va) && va + 16 <= brk
      ensures (i == 0 ==> k == 0) && (i == |bs| - 1 ==> k == |free.list|)
      ensures FreeVas(blocks) == Inserted(free.list, k, va)
      ensures Joinable(fs, At(free.list, k - 1)) && Joinable(fs, va) && Joinable(fs, At(free.list, k))
    {
      AloneSteps(bs, daStart + 4, brk - 4, i);
    }

    method ListAlone(va: word, first: bool, last: bool, ghost bs: seq<Block>, ghost i: nat, ghost n: int)
      requires Woven(n) && Tiled(bs, daStart + 4, brk - 4) && free.list == FreeVas(bs)
      requires i < |bs| && !bs[i].free && bs[i].Va() == va && !FreeBefore(bs, i) && !FreeAfter(bs, i)
      requires blocks == Release(bs, i) && first == (i == 0) && last == (i == |bs| - 1)
      modifies free, ram, ram.bytes
      ensures Shape(n) && LiveKept(old(ram.image), ram.image, bs[i := bs[i].(free := true)])
    {
      ghost var k, fs := Rank(bs, i), bs[i := bs[i].(free := true)];
      AloneReady(bs, fs, i, k, va);
      InsertInOrder(va, first, last, k, fs, n);
    }

    /** The insertion into the address-ordered list: at the head, at the tail, or where the search says. */
    method InsertInOrder(va: word, first: bool, last: bool, ghost k: nat, ghost bs: seq<Block>, ghost n: int)
      requires Woven(n) && Tiled(bs, daStart + 4, brk - 4)
      requires Between(free.list, k, va) && va + 4 < |ram.words| && (first ==> k == 0) && (last ==> k == |free.list|)
      requires Joinable(bs, At(free.list, k - 1)) && Joinable(bs, va) && Joinable(bs, At(free.list, k))
      modifies free, ram, ram.bytes
      ensures Woven(n) && LiveKept(old(ram.image), ram.image, bs)
      ensures free.list == Inserted(old(free.list), k, va)
    {
      if first {
        LinkHead(va, bs, n);
      } else if last {
        LinkTail(va, bs, n);
      } else {
        var element := FindAfter(va, k);
        if element != NULL {
          LinkBefore(element, va, k, bs, n);
        } else {
          LinkTail(va, bs, n);
        }
      }
    }

    /** A member not above va comes before the place of va. */
    static lemma {:induction false} NotAbove(xs: seq<nat>, j: nat, k: nat, va: nat)
      requires Spaced(xs) && Between(xs, k, va) && j < |xs| && xs[j] <= va
      ensures j < k
    {
      assert k < j ==> Apart(xs, k, j);
    }

    /** The search ends at the end of the list or at a member above va: either way at the place of va. */
    static lemma {:induction false} StopsAt(v: Words, xs: seq<nat>, j: nat, k: nat, va: nat)
      requires Links(v, xs) && Spaced(xs) && Between(xs, k, va) && j <= k
      requires At(xs, j) == NULL || va < At(xs, j)
      ensures j == k
    {
      assert j < k ==> LinkAt(v, xs, j) && xs[j] == At(xs, j);
      assert j < k - 1 ==> Apart(xs, j, k - 1);
    }

    /** The first list member above va, by LIST_FOREACH. */
    method FindAfter(va: word, ghost k: nat) returns (element: word)
      requires free.ram == ram && free.Valid() && Between(free.list, k, va)
      ensures element == At(free.list, k)
    {
      ghost var j := 0;
      element := free.lhFirst;
      while element != NULL
        invariant j <= k && element == At(free.list, j)
        decreases |free.list| - j
      {
        if element > va {
          break;
        }
        assert LinkAt(ram.words, free.list, j);
        NotAbove(free.list, j, k, va);
        element := ram.Read(element);
        j := j + 1;
      }
      assert element == NULL || va < element;
      StopsAt(ram.words, free.list, j, k, va);
    }

    lemma {:induction false} NextReady(bs: seq<Block>, fs: seq<Block>, i: nat, k: nat, va: nat)
      requires brk >= 4 && Tiled(bs, daStart + 4, brk - 4) && free.list == FreeVas(bs) && i < |bs| && k == Rank(bs, i)
      requires i < |bs| && !bs[i].free && !FreeBefore(bs, i) && FreeAfter(bs, i) && va == bs[i].Va()
      requires blocks == Release(bs, i) && fs == bs[i := bs[i].(free := true)]
      ensures Tiled(fs, daStart + 4, brk - 4) && k < |free.list| && free.list[k] == bs[i + 1].Va()
      ensures Between(free.list, k, va) && FreeVas(blocks) == free.list[k := va]
      ensures Joinable(fs, At(free.list, k - 1)) && Joinable(fs, free.list[k]) && Joinable(fs, va)
      ensures Joinable(fs, At(free.list, k + 1))
    {
      NextSteps(bs, daStart + 4, brk - 4, i);
    }

    method ListNext(va: word, nextVa: word, ghost bs: seq<Block>, ghost i: nat)
      requires Woven(|blocks|) && Tiled(bs, daStart + 4, brk - 4) && free.list == FreeVas(bs)
      requires i < |bs| && !bs[i].free && bs[i].Va() == va && !FreeBefore(bs, i) && FreeAfter(bs, i)
      requires blocks == Release(bs, i) && nextVa == bs[i + 1].Va()
      modifies free, ram, ram.bytes
      ensures Shape(|blocks|) && LiveKept(old(ram.image), ram.image, bs[i := bs[i].(free := true)])
    {
      ghost var k, fs := Rank(bs, i), bs[i := bs[i].(free := true)];
      NextReady(bs, fs, i, k, va);
      SwapBefore(nextVa, va, k, fs, |blocks|);
    }

    method ListBoth(nextVa: word, ghost bs: seq<Block>, ghost i: nat)
      requires Woven(|blocks|) && Tiled(bs, daStart + 4, brk - 4) && free.list == FreeVas(bs)
      requires i < |bs| && !bs[i].free && FreeBefore(bs, i) && FreeAfter(bs, i)
      requires blocks == Release(bs, i) && nextVa == bs[i + 1].Va()
      modifies free, ram, ram.bytes
      ensures Shape(|blocks|) && LiveKept(old(ram.image), ram.image, bs[i := bs[i].(free := true)])
    {
      ghost var fs, k := bs[i := bs[i].(free := true)], Rank(bs, i);
      BothSteps(bs, daStart + 4, brk - 4, i);
      Unlink(nextVa, k, fs, |blocks|);
    }

    /** What the words around a used block say about its neighbours. */
    lemma {:induction false} Neighbours(va: word, i: nat, n: int)
      requires Freeable(va, i, n)
      ensures var bs, v := blocks, ram.words;
        && 16 <= bs[i].size && bs[i].size % 2 == 0 && 8 <= va && va - 8 < |v| && va + bs[i].size < WORD_LIMIT
        && va + bs[i].size - 4 < |v|
        && v[va - 4] == bs[i].size + 1
        && v[va - 8] == (if i == 0 then SENTINEL else Tag(bs[i - 1]))
        && v[va + bs[i].size - 4] == (if i == |bs| - 1 then SENTINEL else Tag(bs[i + 1]))
        && (i + 1 < |bs| ==> bs[i + 1].Va() == va + bs[i].size)
        && (FreeBefore(bs, i) <==> v[va - 8] % 2 == 0)
        && (FreeAfter(bs, i) <==> v[va + bs[i].size - 4] % 2 == 0)
        && (i == 0 <==> v[va - 8] == SENTINEL)
        && (i == |bs| - 1 <==> v[va + bs[i].size - 4] == SENTINEL)
    {
      var bs, v, lo, hi := blocks, ram.words, daStart + 4, brk - 4;
      assert InRange(bs, lo, hi, i) && HeadAt(v, bs, i);
      if i > 0 {
        assert InRange(bs, lo, hi, i - 1) && FootAt(v, bs, i - 1) && Touching(bs, i - 1);
      }
      if i < |bs| - 1 {
        assert InRange(bs, lo, hi, i + 1) && HeadAt(v, bs, i + 1) && Touching(bs, i);
      }
    }

    method FreeAlone(va: word, sz: nat, first: bool, last: bool, ghost i: nat, ghost n: int)
      requires Freeable(va, i, n) && !FreeBefore(blocks, i) && !FreeAfter(blocks, i) && sz == blocks[i].size
      requires first == (i == 0) && last == (i == |blocks| - 1)
      modifies this`blocks, free, ram, ram.bytes
      ensures blocks == Release(old(blocks), i) && Shape(if n >= |old(blocks)| then |blocks| else |blocks| - 1)
      ensures LiveKept(old(ram.image), ram.image, old(blocks)[i := old(blocks)[i].(free := true)])
    {
      ghost var bs := blocks;
      TagsAlone(va, sz, i, n);
      ghost var m := ram.image;
      ListAlone(va, first, last, bs, i, if n >= |bs| then |blocks| else |blocks| - 1);
      LiveTrans(old(ram.image), m, ram.image, bs[i := bs[i].(free := true)]);
    }

    method FreePrev(va: word, sz: nat, p: word, ghost i: nat, ghost n: int)
      requires Freeable(va, i, n) && FreeBefore(blocks, i) && !FreeAfter(blocks, i) && sz == blocks[i].size
      requires p == blocks[i - 1].size
      modifies this`blocks, free, ram, ram.bytes
      ensures blocks == Release(old(blocks), i) && Shape(|blocks|)
      ensures LiveKept(old(ram.image), ram.image, old(blocks)[i := old(blocks)[i].(free := true)])
    {
      PrevSteps(blocks, i);
      TagsPrev(va, sz, p, i, n);
    }

    method FreeNext(va: word, sz: nat, q: word, ghost i: nat)
      requires Freeable(va, i, |blocks|) && !FreeBefore(blocks, i) && FreeAfter(blocks, i)
      requires sz == blocks[i].size && q == blocks[i + 1].size
      requires va + sz == blocks[i + 1].Va() < WORD_LIMIT
      modifies this`blocks, free, ram, ram.bytes
      ensures blocks == Release(old(blocks), i) && Shape(|blocks|)
      ensures LiveKept(old(ram.image), ram.image, old(blocks)[i := old(blocks)[i].(free := true)])
    {
      ghost var bs := blocks;
      TagsNext(va, sz, q, i);
      ghost var m := ram.image;
      ListNext(va, va + sz, bs, i);
      LiveTrans(old(ram.image), m, ram.image, bs[i := bs[i].(free := true)]);
    }

    method FreeBoth(va: word, sz: nat, p: word, q: word, ghost i: nat)
      requires Freeable(va, i, |blocks|) && FreeBefore(blocks, i) && FreeAfter(blocks, i)
      requires sz == blocks[i].size && p == blocks[i - 1].size && q == blocks[i + 1].size
      requires va + sz == blocks[i + 1].Va() < WORD_LIMIT
      modifies this`blocks, free, ram, ram.bytes
      ensures blocks == Release(old(blocks), i) && Shape(|blocks|)
      ensures LiveKept(old(ram.image), ram.image, old(blocks)[i := old(blocks)[i].(free := true)])
    {
      ghost var bs := blocks;
      TagsBoth(va, sz, p, q, i);
      ghost var m := ram.image;
      ListBoth(va + sz, bs, i);
      LiveTrans(old(ram.image), m, ram.image, bs[i := bs[i].(free := true)]);
    }

    /** free_block on a used block: it is freed and merged with its free neighbours. */
    method FreeUsed(va: word, ghost i: nat, ghost n: int)
      requires Freeable(va, i, n)
      modifies this`blocks, free, ram, ram.bytes
      ensures blocks == Release(old(blocks), i)
      ensures Shape(if n >= |old(blocks)| || FreeBefore(old(blocks), i) then |blocks| else |blocks| - 1)
      ensures LiveKept(old(ram.image), ram.image, old(blocks)[i := old(blocks)[i].(free := true)])
    {
      Neighbours(va, i, n);
      var h := ram.Read(va - 4);
      var sz := h - 1;
      var footerPrev := ram.Read(va - 8);
      var headerNext := ram.Read(va + sz - 4);
      if footerPrev % 2 != 0 && headerNext % 2 != 0 {
        FreeAlone(va, sz, footerPrev == SENTINEL, headerNext == SENTINEL, i, n);
      } else if footerPrev % 2 == 0 && headerNext % 2 != 0 {
        FreePrev(va, sz, footerPrev, i, n);
      } else if footerPrev % 2 != 0 && headerNext % 2 == 0 {
        FreeNext(va, sz, headerNext, i);
      } else {
        FreeBoth(va, sz, footerPrev, headerNext, i);
      }
    }

    /** free_block: nothing happens to NULL or to a block that is already free. */
    method FreeBlock(va: word, ghost i: nat)
      requires Valid() && (va != NULL ==> i < |blocks| && blocks[i].Va() == va)
      modifies this`blocks, free, ram, ram.bytes
      ensures Valid()
      ensures va == NULL || old(blocks)[i].free ==> blocks == old(blocks) && ram.image == old(ram.image)
      ensures va != NULL && !old(blocks)[i].free ==>
        && blocks == Release(old(blocks), i)
        && LiveKept(old(ram.image), ram.image, old(blocks)[i := old(blocks)[i].(free := true)])
    {
      if va == NULL {
        return;
      }
      assert HeadAt(ram.words, blocks, i) && InRange(blocks, daStart + 4, brk - 4, i);
      var h := ram.Read(va - 4);
      if h % 2 == 0 {
        return;
      }
      ReleaseCoalesced(blocks, i);
      FreeUsed(va, i, |blocks|);
    }

    /** sbrk: move the break up by whole pages, if the limit and the free frames allow it. */
    method Sbrk(numOfPages: nat) returns (addr: word)
      requires 4 <= brk <= hardLimit <= 0xFFFF_E000 && brk + numOfPages * PAGE_SIZE < WORD_LIMIT
      modifies this`brk, this`freeFrames
      ensures numOfPages == 0 ==> addr == brk == old(brk) && freeFrames == old(freeFrames)
      ensures numOfPages > 0 && (old(brk) + numOfPages * PAGE_SIZE > hardLimit || old(freeFrames) < numOfPages) ==>
        addr == SBRK_FAILED && brk == old(brk) && freeFrames == old(freeFrames)
      ensures numOfPages > 0 && old(brk) + numOfPages * PAGE_SIZE <= hardLimit && numOfPages <= old(freeFrames) ==>
        addr == old(brk) && brk == old(brk) + numOfPages * PAGE_SIZE && freeFrames == old(freeFrames) - numOfPages
    {
      if numOfPages == 0 {
        return brk;
      }
      var noBytes := numOfPages * PAGE_SIZE;
      if brk + noBytes - 1 >= hardLimit {
        return SBRK_FAILED;
      }
      if freeFrames < numOfPages {
        return SBRK_FAILED;
      }
      freeFrames := freeFrames - numOfPages;
      addr := brk;
      brk := brk + noBytes;
    }

    /** The search loop of alloc_block_FF. */
    method SearchFirstFit(total: nat) returns (element: word, ghost i: nat)
      requires exists n :: Shape(n)
      ensures element == NULL <==> NothingFits(blocks, total)
      ensures element != NULL ==> IsFirstFit(blocks, total, i) && blocks[i].Va() == element
    {
      ghost var k, lo, hi, bs := 0, daStart + 4, brk - 4, blocks;
      element, i := free.lhFirst, 0;
      SearchStart(bs, lo, hi, total);
      while element != NULL
        invariant k <= |free.list| && element == At(free.list, k) && SmallBelow(bs, total, element)
        decreases |free.list| - k
      {
        i := NthFree(bs, k);
        assert LinkAt(ram.words, free.list, k) && HeadAt(ram.words, bs, i);
        var next := ram.Read(element);
        var header := ram.Read(element - 4);
        if header >= total {
          SearchFirst(bs, lo, hi, total, i);
          return;
        }
        SearchSmall(bs, lo, hi, total, k);
        element := next;
        k := k + 1;
      }
    }

    /** The search loop of alloc_block_BF. */
    method SearchBestFit(total: nat) returns (found: bool, blockAddress: word, minSize: nat, ghost b: nat)
      requires exists n :: Shape(n)
      ensures !found <==> NothingFits(blocks, total)
      ensures found ==>
        IsBestFit(blocks, total, b) && blocks[b].Va() == blockAddress && minSize == blocks[b].size - total
    {
      ghost var lo, hi, bs := daStart + 4, brk - 4, blocks;
      ghost var k: nat := 0;
      var element := free.lhFirst;
      found, blockAddress, minSize, b := false, NULL, 0, 0;
      SearchStart(bs, lo, hi, total);
      while element != NULL
        invariant k <= |free.list| && element == At(free.list, k)
        invariant BestSoFar(bs, total, element, found, b)
        invariant found ==> blockAddress == bs[b].Va() && minSize == bs[b].size - total
        decreases |free.list| - k
      {
        ghost var i := NthFree(bs, k);
        assert LinkAt(ram.words, free.list, k) && HeadAt(ram.words, bs, i);
        var next := ram.Read(element);
        var header := ram.Read(element - 4);
        SearchBestStep(bs, lo, hi, total, k, found, b);
        k := k + 1;
        if header >= total && (!found || header - total < minSize) {
          found, blockAddress, minSize, b := true, element, header - total, i;
          if minSize == 0 {
            SearchBestDone(bs, lo, hi, total, next, b);
            return;
          }
        }
        element := next;
      }
      if found {
        SearchBestDone(bs, lo, hi, total, NULL, b);
      }
    }

    /** A free block that cannot be split is used whole. */
    method UseWhole(element: word, ghost i: nat)
      requires Shape(|blocks|) && i < |blocks| && blocks[i].free && blocks[i].Va() == element
      modifies this`blocks, free, ram, ram.bytes
      ensures Shape(|blocks|) && blocks == old(blocks)[i := old(blocks)[i].(free := false)]
      ensures LiveKept(old(ram.image), ram.image, old(blocks))
    {
      ghost var bs := blocks;
      MarkInTags(element, i);
      ghost var m := ram.image;
      MarkInList(element, bs, i);
      LiveTrans(old(ram.image), m, ram.image, bs);
    }

    method MarkInTags(element: word, ghost i: nat)
      requires Shape(|blocks|) && i < |blocks| && blocks[i].free && blocks[i].Va() == element
      modifies this`blocks, ram, ram.bytes
      ensures Woven(|blocks|) && blocks == old(blocks)[i := old(blocks)[i].(free := false)]
      ensures LiveKept(old(ram.image), ram.image, old(blocks))
    {
      ghost var bs, lo, hi := blocks, daStart + 4, brk - 4;
      assert HeadAt(ram.words, bs, i) && FootAt(ram.words, bs, i) && InRange(bs, lo, hi, i);
      var h := ram.Read(element - 4);
      StoreMark(element, h);
      MarkSpells(old(ram.words), ram.words, bs, lo, hi, i);
      LiveByRange(old(ram.image), ram.image, bs, lo, hi, i, i + 1);
      blocks := bs[i := bs[i].(free := false)];
    }

    lemma {:induction false} MarkReady(bs: seq<Block>, i: nat, k: nat)
      requires brk >= 4 && Tiled(bs, daStart + 4, brk - 4) && free.list == FreeVas(bs) && i < |bs| && k == Rank(bs, i)
      requires i < |bs| && bs[i].free && blocks == bs[i := bs[i].(free := false)]
      ensures k < |free.list| && free.list[k] == bs[i].Va() && FreeVas(blocks) == Removed(free.list, k)
      ensures Joinable(bs, At(free.list, k - 1)) && Joinable(bs, free.list[k]) && Joinable(bs, At(free.list, k + 1))
    {
      ListAroundFree(bs, daStart + 4, brk - 4, i);
      MarkList(bs, i);
      MarkedCells(bs, i, k);
    }

    lemma {:induction false} MarkedCells(bs: seq<Block>, i: nat, k: nat)
      requires brk >= 4 && Tiled(bs, daStart + 4, brk - 4) && free.list == FreeVas(bs) && k < |free.list|
      requires i < |bs| && bs[i].free && blocks == bs[i := bs[i].(free := false)]
      ensures Joinable(bs, At(free.list, k - 1)) && Joinable(bs, free.list[k]) && Joinable(bs, At(free.list, k + 1))
    {
      MarkCells(bs, daStart + 4, brk - 4, i, false, k);
      MarkCells(bs, daStart + 4, brk - 4, i, false, (k as int) - 1);
      MarkCells(bs, daStart + 4, brk - 4, i, false, k + 1);
    }

    method MarkInList(element: word, ghost bs: seq<Block>, ghost i: nat)
      requires Woven(|blocks|) && Tiled(bs, daStart + 4, brk - 4) && free.list == FreeVas(bs)
      requires i < |bs| && bs[i].free && bs[i].Va() == element && blocks == bs[i := bs[i].(free := false)]
      modifies free, ram, ram.bytes
      ensures Shape(|blocks|) && LiveKept(old(ram.image), ram.image, bs)
    {
      ghost var k := Rank(bs, i);
      MarkReady(bs, i, k);
      Unlink(element, k, bs, |blocks|);
    }

    /** The request for size bytes is served from free block i: whole, or split. */
    method Take(element: word, size: nat, ghost i: nat)
      requires i < |blocks| && blocks[i].free && blocks[i].Va() == element
      requires 8 <= size && size % 2 == 0 && size + 8 <= blocks[i].size
      requires Shape(|blocks|) || (i == |blocks| - 1 && Shape(i) && size + 8 + MIN_BLOCK <= blocks[i].size)
      modifies this`blocks, free, ram, ram.bytes
      ensures Shape(|blocks|) && blocks == Place(old(blocks), i, size + 8)
      ensures LiveKept(old(ram.image), ram.image, old(blocks))
    {
      assert HeadAt(ram.words, blocks, i);
      var h := ram.Read(element - 4);
      if h - (size + 8) < MIN_BLOCK {
        UseWhole(element, i);
      } else {
        Split(element, size, i);
      }
    }

    /** The growth path: a page from sbrk is made to look like a used block and freed. */
    method Extend(totalBlockSize: nat) returns (ok: bool)
      requires Valid() && MIN_BLOCK <= totalBlockSize <= PAGE_SIZE
      modifies this, free, ram, ram.bytes
      ensures ok == (old(brk) + PAGE_SIZE <= hardLimit && 1 <= old(freeFrames))
      ensures !ok ==>
        && blocks == old(blocks) && brk == old(brk) && freeFrames == old(freeFrames)
        && ram.image == old(ram.image) && Valid()
      ensures ok ==>
        && blocks == Grown(old(blocks), old(brk) - 4) && brk == old(brk) + PAGE_SIZE
        && freeFrames == old(freeFrames) - 1
        && Shape(|blocks| - 1) && LiveKept(old(ram.image), ram.image, old(blocks))
    {
      var rounded := RoundUpPages(totalBlockSize);
      assert rounded == PAGE_SIZE;
      var noPages := rounded / PAGE_SIZE;
      ghost var bs := blocks;
      var addr := Sbrk(noPages);
      if addr == SBRK_FAILED {
        return false;
      }
      NewBlock(addr, rounded, bs);
      ghost var m := ram.image;
      FreeUsed(addr, |bs|, |bs|);
      ExtendedKept(old(ram.image), m, ram.image, bs, NewPage(addr - 4));
      return true;
    }

    /** Growth for a request that nothing fits. */
    method Grow(sz: nat) returns (ok: bool)
      requires Valid() && 0 < sz <= MAX_REQUEST && sz == Clamp(sz) && NothingFits(blocks, Total(sz))
      modifies this, free, ram, ram.bytes
      ensures ok == CanGrow(old(Now()), hardLimit)
      ensures !ok ==> Now() == old(Now()) && ram.image == old(ram.image) && Valid()
      ensures ok ==>
        && Now() == Arena(Grown(old(blocks), old(brk) - 4), old(brk) + PAGE_SIZE, old(freeFrames) - 1)
        && Outgrown(Total(sz)) && LiveKept(old(ram.image), ram.image, old(blocks))
    {
      GrownPick(blocks, daStart + 4, brk - 4, sz + 8);
      ok := Extend(sz + 8);
    }

    /** The tag stores of the growth path: the footer lands four bytes short. */
    method StoreNewPage(header: word, total: nat)
      requires ram.Sound() && total == PAGE_SIZE && header + total + 4 < WORD_LIMIT
      modifies ram, ram.bytes
      ensures ram.Sound() && WordsOnlyIn(old(ram.words), ram.words, header, header + total + 4)
      ensures OnlyIn(old(ram.image), ram.image, header, header + total + 4)
      ensures ram.words[header] == total + 1 && ram.words[header + total] == SENTINEL
    {
      var footer := header + total - 8;
      ram.Write(header, Or1(total));
      ram.Write(footer, Or1(total));
      ram.Write(header + total, SENTINEL);
    }

    /** The page at addr becomes a used block whose real footer is garbage. */
    method NewBlock(addr: word, total: nat, ghost bs: seq<Block>)
      requires addr + PAGE_SIZE == brk <= hardLimit <= 0xFFFF_E000 && total == PAGE_SIZE
      requires blocks == bs && free.ram == ram && free.Valid() && free.list == FreeVas(bs)
      requires 4 <= addr && Spells(ram.words, bs, daStart + 4, addr - 4, |bs|)
      modifies this`blocks, ram, ram.bytes
      ensures Shape(|bs|) && blocks == bs + [NewPage(addr - 4)]
      ensures LiveKept(old(ram.image), ram.image, bs)
    {
      var header := addr - 4;
      ghost var cs := bs + [NewPage(header)];
      StoreNewPage(header, total);
      LiveAbove(old(ram.image), ram.image, bs, daStart + 4, header, header + PAGE_SIZE + 4);
      GrownMemory(old(ram.words), ram.words, bs, cs, daStart + 4, header);
      blocks := cs;
    }

    /** The heap right after growth: the footer of the last block is not to be trusted, but that block
        alone fits the request and will be split, which writes the footer anew. */
    ghost predicate Outgrown(total: nat)
      reads this, free, ram, ram.bytes
    {
      && Shape(|blocks| - 1) && Coalesced(blocks)
      && IsFirstFit(blocks, total, |blocks| - 1) && IsBestFit(blocks, total, |blocks| - 1)
      && total + MIN_BLOCK <= blocks[|blocks| - 1].size
    }

    /** Serve a request from free block i, which fits. */
    method ServeFrom(element: word, sz: nat, ghost i: nat)
      requires i < |blocks| && blocks[i].free && blocks[i].Va() == element && Coalesced(blocks)
      requires sz == Clamp(sz) && sz + 8 <= blocks[i].size
      requires Shape(|blocks|) || (i == |blocks| - 1 && Shape(i) && sz + 8 + MIN_BLOCK <= blocks[i].size)
      modifies this`blocks, free, ram, ram.bytes
      ensures Valid() && LiveKept(old(ram.image), ram.image, old(blocks))
      ensures PlacedAt(old(blocks), i, sz, blocks, element)
    {
      PlaceCoalesced(blocks, i, sz + 8);
      Take(element, sz, i);
    }

    /** Serve a request from the block its search found. */
    method Serve(best: bool, element: word, size: nat, ghost i: nat)
      requires 0 < size <= MAX_REQUEST && IsFit(best, blocks, Total(size), i) && blocks[i].Va() == element
      requires Valid() || Outgrown(Total(size))
      modifies this`blocks, free, ram, ram.bytes
      ensures Valid() && LiveKept(old(ram.image), ram.image, old(blocks))
      ensures Allocates(best, old(Now()), hardLimit, size, Now(), element, i)
    {
      assert Fits(blocks[i], Total(size));
      if !Valid() {
        FitIsUnique(blocks, Total(size), i);
        FitIsUnique(blocks, Total(size), |blocks| - 1);
      }
      ServeFrom(element, Clamp(size), i);
      ServedAllocates(best, old(Now()), hardLimit, size, Now(), element, i);
    }

    /** alloc_block_FF: the lowest block that fits; else one more page, at most once; else NULL. */
    method AllocBlockFF(size: nat, ghost grown: bool) returns (va: word, ghost i: nat)
      requires size <= MAX_REQUEST && (if grown then size > 0 && Outgrown(Total(size)) else Valid())
      modifies this, free, ram, ram.bytes
      ensures Valid() && LiveKept(old(ram.image), ram.image, old(blocks))
      ensures Allocates(false, old(Now()), hardLimit, size, Now(), va, i)
      ensures va == NULL ==> ram.image == old(ram.image)
      decreases !grown, 1
    {
      i := 0;
      if size == 0 {
        return NULL, 0;
      }
      var sz := Clamp(size);
      var total := sz + 8;
      var element, f := SearchFirstFit(total);
      i := f;
      if element != NULL {
        Serve(false, element, size, i);
        return element, i;
      }
      va, i := GrowFF(sz);
      ClampAllocates(false, old(Now()), hardLimit, size, Now(), va, i);
    }

    method GrowFF(sz: nat) returns (va: word, ghost i: nat)
      requires Valid() && 0 < sz <= MAX_REQUEST && sz == Clamp(sz) && NothingFits(blocks, Total(sz))
      modifies this, free, ram, ram.bytes
      ensures Valid() && LiveKept(old(ram.image), ram.image, old(blocks))
      ensures Allocates(false, old(Now()), hardLimit, sz, Now(), va, i)
      ensures va == NULL ==> ram.image == old(ram.image)
      decreases true, 0
    {
      ghost var a := Now();
      var ok := Grow(sz);
      if !ok {
        return NULL, 0;
      }
      va, i := RegrownFF(sz, a, old(ram.image));
    }

    /** The recursive call, on the heap that has just grown from arena a. */
    method RegrownFF(sz: nat, ghost a: Arena, ghost m: seq<byte>) returns (va: word, ghost i: nat)
      requires 0 < sz <= MAX_REQUEST && sz == Clamp(sz) && Outgrown(Total(sz)) && LiveKept(m, ram.image, a.blocks)
      requires |a.blocks| > 0 && a.brk >= 4 && NothingFits(a.blocks, Total(sz)) && CanGrow(a, hardLimit)
      requires Now() == Arena(Grown(a.blocks, a.brk - 4), a.brk + PAGE_SIZE, a.freeFrames - 1)
      modifies this, free, ram, ram.bytes
      ensures Valid() && LiveKept(m, ram.image, a.blocks)
      ensures va != NULL && Allocates(false, a, hardLimit, sz, Now(), va, i)
      decreases false, 2
    {
      ghost var g, m1 := Now(), ram.image;
      assert IsFit(false, g.blocks, Total(sz), |g.blocks| - 1);
      va, i := AllocBlockFF(sz, true);
      GrewAllocates(false, a, g, hardLimit, sz, Now(), va, i);
      GrownKept(m, m1, ram.image, a.blocks, a.brk - 4);
    }

    /** alloc_block_BF: the smallest block that fits, the lowest on ties; else one more page, at most once;
        else NULL. */
    method AllocBlockBF(size: nat, ghost grown: bool) returns (va: word, ghost i: nat)
      requires size <= MAX_REQUEST && (if grown then size > 0 && Outgrown(Total(size)) else Valid())
      modifies this, free, ram, ram.bytes
      ensures Valid() && LiveKept(old(ram.image), ram.image, old(blocks))
      ensures Allocates(true, old(Now()), hardLimit, size, Now(), va, i)
      ensures va == NULL ==> ram.image == old(ram.image)
      decreases !grown, 1
    {
      i := 0;
      if size == 0 {
        return NULL, 0;
      }
      var sz := Clamp(size);
      var total := sz + 8;
      var found, element, minSize, b := SearchBestFit(total);
      i := b;
      if found {
        Serve(true, element, size, i);
        return element, i;
      }
      va, i := GrowBF(sz);
      ClampAllocates(true, old(Now()), hardLimit, size, Now(), va, i);
    }

    method GrowBF(sz: nat) returns (va: word, ghost i: nat)
      requires Valid() && 0 < sz <= MAX_REQUEST && sz == Clamp(sz) && NothingFits(blocks, Total(sz))
      modifies this, free, ram, ram.bytes
      ensures Valid() && LiveKept(old(ram.image), ram.image, old(blocks))
      ensures Allocates(true, old(Now()), hardLimit, sz, Now(), va, i)
      ensures va == NULL ==> ram.image == old(ram.image)
      decreases true, 0
    {
      ghost var a := Now();
      var ok := Grow(sz);
      if !ok {
        return NULL, 0;
      }
      va, i := RegrownBF(sz, a, old(ram.image));
    }

    /** The recursive call, on the heap that has just grown from arena a. */
    method RegrownBF(sz: nat, ghost a: Arena, ghost m: seq<byte>) returns (va: word, ghost i: nat)
      requires 0 < sz <= MAX_REQUEST && sz == Clamp(sz) && Outgrown(Total(sz)) && LiveKept(m, ram.image, a.blocks)
      requires |a.blocks| > 0 && a.brk >= 4 && NothingFits(a.blocks, Total(sz)) && CanGrow(a, hardLimit)
      requires Now() == Arena(Grown(a.blocks, a.brk - 4), a.brk + PAGE_SIZE, a.freeFrames - 1)
      modifies this, free, ram, ram.bytes
      ensures Valid() && LiveKept(m, ram.image, a.blocks)
      ensures va != NULL && Allocates(true, a, hardLimit, sz, Now(), va, i)
      decreases false, 2
    {
      ghost var g, m1 := Now(), ram.image;
      assert IsFit(true, g.blocks, Total(sz), |g.blocks| - 1);
      va, i := AllocBlockBF(sz, true);
      GrewAllocates(true, a, g, hardLimit, sz, Now(), va, i);
      GrownKept(m, m1, ram.image, a.blocks, a.brk - 4);
    }

    // ---------------------------------------------------------------- realloc_block_FF, case by case

    /** The tag stores that cut a used block of sz bytes into two used ones. */
    method StoreCut(va: word, newSize: nat, sz: nat)
      requires ram.Sound() && 4 <= va && va + sz < WORD_LIMIT
      requires 8 <= newSize && newSize % 2 == 0 && sz % 2 == 0 && newSize + 24 <= sz
      modifies ram, ram.bytes
      ensures ram.Sound()
      ensures WordsOnlyIn(old(ram.words), ram.words, va - 4, va - 4 + sz)
      ensures OnlyIn(old(ram.image), ram.image, va - 4, va - 4 + sz)
      ensures BytesSame(old(ram.image), ram.image, va, va + newSize)
      ensures ram.words[va - 4] == newSize + 9 && ram.words[va + newSize] == newSize + 9
      ensures ram.words[va + newSize + 4] == sz - newSize - 7 && ram.words[va + sz - 8] == sz - newSize - 7
    {
      var footer := va + newSize;
      ram.Write(footer, Or1(newSize + 8));
      ram.Write(va - 4, Or1(newSize + 8));
      ram.Write(footer + 4, Or1(sz - newSize - 8));
      ram.Write(va + sz - 8, Or1(sz - newSize - 8));
    }

    method CutTags(va: word, newSize: nat, sz: nat, ghost i: nat)
      requires Freeable(va, i, |blocks|) && Coalesced(blocks) && sz == blocks[i].size
      requires 8 <= newSize && newSize % 2 == 0 && newSize + 24 <= sz
      modifies this`blocks, ram, ram.bytes
      ensures Valid() && blocks == Replaced(old(blocks), i, i + 1, UsedPair(old(blocks)[i], newSize + 8))
      ensures LiveKept(old(ram.image), ram.image,
        Replaced(old(blocks), i, i + 1, SplitPair(old(blocks)[i], newSize + 8)))
    {
      ghost var cs := Replaced(blocks, i, i + 1, UsedPair(blocks[i], newSize + 8));
      CutLayout(i, newSize + 8, cs);
      CutWords(va, newSize, sz, i, cs);
      blocks := cs;
    }

    lemma {:induction false} CutLayout(i: nat, t: nat, cs: seq<Block>)
      requires i < |blocks| && !blocks[i].free && t <= blocks[i].size && Coalesced(blocks)
      requires cs == Replaced(blocks, i, i + 1, UsedPair(blocks[i], t))
      ensures FreeVas(cs) == FreeVas(blocks) && Coalesced(cs)
    {
      UsedPairList(blocks, i, t);
      UsedPairCoalesced(blocks, i, t);
    }

    method CutWords(va: word, newSize: nat, sz: nat, ghost i: nat, ghost cs: seq<Block>)
      requires Freeable(va, i, |blocks|) && sz == blocks[i].size
      requires 8 <= newSize && newSize % 2 == 0 && newSize + 24 <= sz
      requires cs == Replaced(blocks, i, i + 1, UsedPair(blocks[i], newSize + 8))
      modifies ram, ram.bytes
      ensures ram.Sound() && Links(ram.words, FreeVas(blocks)) && Spells(ram.words, cs, daStart + 4, brk - 4, |cs|)
      ensures LiveKept(old(ram.image), ram.image, Replaced(blocks, i, i + 1, SplitPair(blocks[i], newSize + 8)))
    {
      ghost var lo, hi, t := daStart + 4, brk - 4, newSize + 8;
      assert InRange(blocks, lo, hi, i);
      StoreCut(va, newSize, sz);
      CutSpells(old(ram.words), ram.words, blocks, lo, hi, i, t);
      CutLive(old(ram.image), ram.image, blocks, lo, hi, i, t);
    }

    /** Shrinking by at least 16 bytes: the tail becomes a used block and is freed. */
    method Shrink(va: word, newSize: nat, sz: nat, ghost i: nat)
      requires Freeable(va, i, |blocks|) && Coalesced(blocks) && sz == blocks[i].size
      requires 8 <= newSize && newSize % 2 == 0 && newSize + 24 <= sz
      modifies this`blocks, free, ram, ram.bytes
      ensures Valid()
      ensures blocks == Release(Replaced(old(blocks), i, i + 1, UsedPair(old(blocks)[i], newSize + 8)), i + 1)
      ensures LiveKept(old(ram.image), ram.image,
        Replaced(old(blocks), i, i + 1, SplitPair(old(blocks)[i], newSize + 8)))
    {
      ghost var bs, t := blocks, newSize + 8;
      ghost var fs := Replaced(bs, i, i + 1, SplitPair(bs[i], t));
      assert InRange(bs, daStart + 4, brk - 4, i);
      CutTags(va, newSize, sz, i);
      ghost var m, cs := ram.image, blocks;
      assert cs[i + 1 := cs[i + 1].(free := true)] == fs;
      ReleaseCoalesced(cs, i + 1);
      FreeUsed(va + newSize + 8, i + 1, |cs|);
      LiveTrans(old(ram.image), m, ram.image, fs);
    }

    /** The tag stores that join a used block of sz bytes with the q bytes after it. */
    method StoreJoin(va: word, sz: nat, q: word)
      requires ram.Sound() && 4 <= va && 16 <= sz && sz % 2 == 0 && 16 <= q && q % 2 == 0 && va + sz + q < WORD_LIMIT
      requires ram.words[va - 4] == sz + 1
      modifies ram, ram.bytes
      ensures ram.Sound()
      ensures WordsOnlyIn(old(ram.words), ram.words, va - 4, va - 4 + sz + q)
      ensures OnlyIn(old(ram.image), ram.image, va - 4, va - 4 + sz + q)
      ensures WordsSame(old(ram.words), ram.words, va, va + sz + q - 8)
      ensures BytesSame(old(ram.image), ram.image, va, va + sz + q - 8)
      ensures ram.words[va - 4] == sz + q + 1 && ram.words[va + sz + q - 8] == sz + q + 1
    {
      ram.Write(va - 4, sz + 1 + q);
      var footerNext := va + sz - 4 + q - 4;
      ram.Write(footerNext, sz + 1 + q);
    }

    method AbsorbTags(va: word, sz: nat, q: word, ghost i: nat)
      requires Freeable(va, i, |blocks|) && Coalesced(blocks) && FreeAfter(blocks, i) && sz == blocks[i].size
      requires q == blocks[i + 1].size
      modifies this`blocks, ram, ram.bytes
      ensures Woven(|blocks|) && blocks == Replaced(old(blocks), i, i + 2, [Absorbed(old(blocks), i)])
      ensures LiveKept(old(ram.image), ram.image, old(blocks))
    {
      ghost var bs, lo, hi := blocks, daStart + 4, brk - 4;
      assert InRange(bs, lo, hi, i) && InRange(bs, lo, hi, i + 1) && Touching(bs, i) && HeadAt(ram.words, bs, i);
      StoreJoin(va, sz, q);
      AbsorbSpells(old(ram.words), ram.words, bs, lo, hi, i);
      assert LiveAt(old(ram.image), ram.image, bs, i);
      LiveInside(old(ram.image), ram.image, bs, lo, hi, i, i + 2);
      blocks := Replaced(bs, i, i + 2, [Absorbed(bs, i)]);
    }

    /** Growing over the whole free block after va. */
    method Absorb(va: word, sz: nat, q: word, ghost i: nat)
      requires Freeable(va, i, |blocks|) && Coalesced(blocks) && FreeAfter(blocks, i) && sz == blocks[i].size
      requires q == blocks[i + 1].size
      requires va + sz == blocks[i + 1].Va() < WORD_LIMIT
      modifies this`blocks, free, ram, ram.bytes
      ensures Valid() && blocks == Replaced(old(blocks), i, i + 2, [Absorbed(old(blocks), i)])
      ensures LiveKept(old(ram.image), ram.image, old(blocks))
    {
      ghost var bs := blocks;
      GrownBlockCoalesced(bs, i, [Absorbed(bs, i)]);
      AbsorbTags(va, sz, q, i);
      ghost var m := ram.image;
      AbsorbInList(va + sz, bs, i);
      LiveTrans(old(ram.image), m, ram.image, bs);
    }

    method AbsorbInList(next: word, ghost bs: seq<Block>, ghost i: nat)
      requires Woven(|blocks|) && Tiled(bs, daStart + 4, brk - 4) && free.list == FreeVas(bs)
      requires i + 1 < |bs| && !bs[i].free && bs[i + 1].free && next == bs[i + 1].Va()
      requires blocks == Replaced(bs, i, i + 2, [Absorbed(bs, i)])
      modifies free, ram, ram.bytes
      ensures Shape(|blocks|) && LiveKept(old(ram.image), ram.image, bs)
    {
      AbsorbSteps(bs, daStart + 4, brk - 4, i);
      Unlink(next, Rank(bs, i), bs, |blocks|);
    }

    method SlideTags(va: word, newSize: nat, w: word, ghost i: nat)
      requires Freeable(va, i, |blocks|) && Coalesced(blocks) && FreeAfter(blocks, i)
      requires w == blocks[i].size + blocks[i + 1].size
      requires newSize % 2 == 0 && blocks[i].size + MIN_BLOCK <= newSize + 8 && newSize + 24 <= w
      modifies this`blocks, ram, ram.bytes
      ensures Woven(|blocks|) && blocks == Replaced(old(blocks), i, i + 2, SlidPair(old(blocks), i, newSize + 8))
      ensures LiveKept(old(ram.image), ram.image, old(blocks))
    {
      ghost var bs, lo, hi := blocks, daStart + 4, brk - 4;
      assert InRange(bs, lo, hi, i) && InRange(bs, lo, hi, i + 1) && Touching(bs, i);
      StoreSplit(va, newSize, w);
      SlideSpells(old(ram.words), ram.words, bs, lo, hi, i, newSize + 8);
      assert LiveAt(old(ram.image), ram.image, bs, i);
      LiveInside(old(ram.image), ram.image, bs, lo, hi, i, i + 2);
      blocks := Replaced(bs, i, i + 2, SlidPair(bs, i, newSize + 8));
    }

    lemma {:induction false} SlideReady(bs: seq<Block>, i: nat, t: nat, k: nat, s: nat)
      requires brk >= 4 && Tiled(bs, daStart + 4, brk - 4) && free.list == FreeVas(bs) && i < |bs| && k == Rank(bs, i)
      requires i + 1 < |bs| && !bs[i].free && bs[i + 1].free && s == bs[i].Va() + t
      requires bs[i].size + MIN_BLOCK <= t && t + MIN_BLOCK <= bs[i].size + bs[i + 1].size
      requires blocks == Replaced(bs, i, i + 2, SlidPair(bs, i, t))
      ensures k < |free.list| && free.list[k] == bs[i + 1].Va() && Between(free.list, k + 1, s) && s + 16 <= brk
      ensures Joinable(bs, At(free.list, k - 1)) && Joinable(bs, free.list[k]) && Joinable(bs, s)
      ensures Joinable(bs, At(free.list, k + 1)) && FreeVas(blocks) == free.list[k := s]
    {
      SlideSteps(bs, daStart + 4, brk - 4, i, t);
      assert InRange(bs, daStart + 4, brk - 4, i + 1);
    }

    method SlideInList(whole: word, splitted: word, ghost bs: seq<Block>, ghost i: nat, ghost t: nat)
      requires Woven(|blocks|) && Tiled(bs, daStart + 4, brk - 4) && free.list == FreeVas(bs)
      requires i + 1 < |bs| && !bs[i].free && bs[i + 1].free && whole == bs[i + 1].Va() && splitted == bs[i].Va() + t
      requires bs[i].size + MIN_BLOCK <= t && t + MIN_BLOCK <= bs[i].size + bs[i + 1].size
      requires blocks == Replaced(bs, i, i + 2, SlidPair(bs, i, t))
      modifies free, ram, ram.bytes
      ensures Shape(|blocks|) && LiveKept(old(ram.image), ram.image, bs)
    {
      ghost var k := Rank(bs, i);
      SlideReady(bs, i, t, k, splitted);
      SwapAfter(whole, splitted, k, bs, |blocks|);
    }

    /** Growing by at least 16 bytes into the free block after va, whose rest stays free. */
    method Slide(va: word, newSize: nat, sz: nat, q: word, ghost i: nat)
      requires Freeable(va, i, |blocks|) && Coalesced(blocks) && FreeAfter(blocks, i) && sz == blocks[i].size
      requires q == blocks[i + 1].size
      requires newSize % 2 == 0 && sz + MIN_BLOCK <= newSize + 8 && newSize + 24 <= sz + q
      requires va + sz == blocks[i + 1].Va() && va + sz + q < WORD_LIMIT
      modifies this`blocks, free, ram, ram.bytes
      ensures Valid() && blocks == Replaced(old(blocks), i, i + 2, SlidPair(old(blocks), i, newSize + 8))
      ensures LiveKept(old(ram.image), ram.image, old(blocks))
    {
      ghost var bs := blocks;
      GrownBlockCoalesced(bs, i, SlidPair(bs, i, newSize + 8));
      SlideTags(va, newSize, sz + q, i);
      ghost var m := ram.image;
      SlideInList(va + sz, va + newSize + 8, bs, i, newSize + 8);
      LiveTrans(old(ram.image), m, ram.image, bs);
    }

    /** memcpy from one used block's payload into another's. */
    method CopyPayload(dst: word, src: word, n: nat, ghost k: nat, ghost j: nat)
      requires Valid() && k < |blocks| && j < |blocks| && k != j && !blocks[k].free
      requires blocks[k].Va() == dst && blocks[j].Va() == src && n + 8 <= blocks[j].size && n + 8 <= blocks[k].size
      modifies ram, ram.bytes
      ensures Valid() && LiveKept(old(ram.image), ram.image, blocks[k := blocks[k].(free := true)])
      ensures Kept(old(ram.image), ram.image, src, dst, n)
    {
      ghost var bs, lo, hi := blocks, daStart + 4, brk - 4;
      assert InRange(bs, lo, hi, k) && InRange(bs, lo, hi, j);
      assert j < k ==> Ordered(bs, j, k);
      assert k < j ==> Ordered(bs, k, j);
      ram.MemCpy(dst, src, n);
      PayloadWrite(old(ram.words), ram.words, bs, lo, hi, k, |bs|);
      PayloadWriteLive(old(ram.image), ram.image, bs, lo, hi, k);
    }

    /** Growing by moving: allocate, copy the old payload, free the old block. */
    method Move(va: word, newSize: nat, ghost i: nat, ghost n: nat)
      returns (r: word, ghost mid: Arena, ghost k: nat, ghost j: nat)
      requires Freeable(va, i, |blocks|) && Coalesced(blocks) && blocks[i].size < newSize + 8
      requires newSize % 2 == 0 && MIN_PAYLOAD <= newSize <= MAX_REQUEST && blocks[i].size <= n + 8
      modifies this, free, ram, ram.bytes
      ensures Valid() && Relocates(old(Now()), hardLimit, i, newSize, Now(), r, mid, k, j)
      ensures r == NULL ==> ram.image == old(ram.image)
      ensures r != NULL ==> Preserved(old(ram.image), ram.image, old(blocks), i, r, n)
    {
      ghost var bs, hi := blocks, brk - 4;
      r, k, j := MoveAlloc(newSize, i);
      mid := Now();
      if r == NULL {
        return;
      }
      MoveTo(va, r, bs, daStart + 4, hi, i, j, k, old(ram.image), n);
    }

    /** The allocation of a move, with the new block k and the old one, block i, now at j. */
    method MoveAlloc(newSize: nat, ghost i: nat) returns (r: word, ghost k: nat, ghost j: nat)
      requires Valid() && i < |blocks| && !blocks[i].free && newSize % 2 == 0 && MIN_PAYLOAD <= newSize <= MAX_REQUEST
      modifies this, free, ram, ram.bytes
      ensures Valid() && Allocates(false, old(Now()), hardLimit, newSize, Now(), r, k)
      ensures r == NULL ==> ram.image == old(ram.image)
      ensures r != NULL ==>
        && j < |blocks| && blocks[j] == old(blocks)[i] && k < |blocks| && blocks[k].Va() == r && !blocks[k].free
        && Survive(old(blocks), blocks, k) && newSize + 8 <= blocks[k].size
      ensures LiveKept(old(ram.image), ram.image, old(blocks))
    {
      ghost var a := Now();
      j := 0;
      r, k := AllocBlockFF(newSize, false);
      if r != NULL {
        Allocated(a, hardLimit, newSize, Now(), r, k, daStart + 4);
        j := Survivor(a.blocks, blocks, k, i);
      }
    }

    /** The copy of a move: all the payload of the old block, by its header. */
    method CopyOver(va: word, r: word, ghost k: nat, ghost j: nat)
      requires Valid() && k < |blocks| && j < |blocks| && k != j && !blocks[k].free && !blocks[j].free
      requires blocks[k].Va() == r && blocks[j].Va() == va && blocks[j].size <= blocks[k].size
      modifies ram, ram.bytes
      ensures Valid() && LiveKept(old(ram.image), ram.image, blocks[k := blocks[k].(free := true)])
      ensures Kept(old(ram.image), ram.image, va, r, blocks[j].size - 8)
    {
      assert HeadAt(ram.words, blocks, j) && InRange(blocks, daStart + 4, brk - 4, j);
      var h := ram.Read(va - 4);
      CopyPayload(r, va, h - 9, k, j);
    }

    method CopyAndFree(va: word, r: word, ghost j: nat, ghost k: nat) returns (ghost m2: seq<byte>)
      requires Valid() && k < |blocks| && j < |blocks| && k != j && !blocks[k].free && !blocks[j].free
      requires blocks[k].Va() == r && blocks[j].Va() == va && blocks[j].size <= blocks[k].size && va != NULL
      modifies this`blocks, free, ram, ram.bytes
      ensures Valid() && blocks == Release(old(blocks), j)
      ensures LiveKept(old(ram.image), m2, old(blocks)[k := old(blocks)[k].(free := true)])
      ensures Kept(old(ram.image), m2, va, r, old(blocks)[j].size - 8)
      ensures LiveKept(m2, ram.image, old(blocks)[j := old(blocks)[j].(free := true)])
      ensures Tiled(old(blocks), daStart + 4, old(brk) - 4)
    {
      CopyOver(va, r, k, j);
      m2 := ram.image;
      FreeBlock(va, j);
    }

    method MoveTo(va: word, r: word, ghost bs: seq<Block>, ghost lo: nat, ghost hi: nat,
                  ghost i: nat, ghost j: nat, ghost k: nat, ghost m: seq<byte>, ghost n: nat)
      requires Valid() && Tiled(bs, lo, hi) && i < |bs| && !bs[i].free && bs[i].Va() == va && hi < WORD_LIMIT
      requires j < |blocks| && blocks[j] == bs[i] && k < |blocks| && blocks[k].Va() == r && !blocks[k].free
      requires Survive(bs, blocks, k) && bs[i].size <= blocks[k].size && bs[i].size <= n + 8
      requires LiveKept(m, ram.image, bs)
      modifies this`blocks, free, ram, ram.bytes
      ensures Valid() && blocks == Release(old(blocks), j)
      ensures Preserved(m, ram.image, bs, i, r, n)
    {
      ghost var cs, m1 := blocks, ram.image;
      assert InRange(bs, lo, hi, i);
      assert cs[k].addr != bs[i].addr;
      ghost var m2 := CopyAndFree(va, r, j, k);
      MovePreserves(m, m1, m2, ram.image, bs, cs, lo, hi, daStart + 4, brk - 4, i, j, k, n);
    }

    /** Shrinking. */
    method ResizeDown(va: word, newSize: nat, sz: nat, ghost i: nat, ghost n: nat)
      requires Freeable(va, i, |blocks|) && Coalesced(blocks) && sz == blocks[i].size
      requires MIN_PAYLOAD <= newSize == EvenUp(n)
      requires newSize + 24 <= sz
      modifies this`blocks, free, ram, ram.bytes
      ensures Valid() && !CaseOf(old(blocks), i, n).Relocate? && blocks == Resized(old(blocks), i, n)
      ensures Preserved(old(ram.image), ram.image, old(blocks), i, va, n)
    {
      ghost var bs, hi := blocks, brk - 4;
      Shrink(va, newSize, sz, i);
      CutCase(bs, i, n, newSize + 8);
      CutPreserved(old(ram.image), ram.image, bs, daStart + 4, hi, i, newSize + 8, n);
    }

    /** Growing into the free block of q bytes that follows. */
    method ResizeUp(va: word, newSize: nat, sz: nat, q: word, ghost i: nat, ghost n: nat)
      requires Freeable(va, i, |blocks|) && Coalesced(blocks) && FreeAfter(blocks, i) && sz == blocks[i].size
      requires q == blocks[i + 1].size
      requires sz < newSize + 8 <= sz + q && newSize == EvenUp(n) && WellBehaved(blocks, i, n)
      requires va + sz == blocks[i + 1].Va() && va + sz + q < WORD_LIMIT
      modifies this`blocks, free, ram, ram.bytes
      ensures Valid() && !CaseOf(old(blocks), i, n).Relocate? && blocks == Resized(old(blocks), i, n)
      ensures Preserved(old(ram.image), ram.image, old(blocks), i, va, n)
    {
      ghost var bs, hi := blocks, brk - 4;
      GrowCase(bs, i, n, newSize + 8);
      if sz + q - (newSize + 8) < MIN_BLOCK {
        Absorb(va, sz, q, i);
      } else {
        Slide(va, newSize, sz, q, i);
      }
      InPlacePreserved(old(ram.image), ram.image, bs, daStart + 4, hi, i, n);
    }

    /** alloc_block, for the two strategies that are implemented. */
    method AllocBlock(size: nat, best: bool) returns (va: word, ghost i: nat)
      requires size <= MAX_REQUEST && Valid()
      modifies this, free, ram, ram.bytes
      ensures Valid() && LiveKept(old(ram.image), ram.image, old(blocks))
      ensures Allocates(best, old(Now()), hardLimit, size, Now(), va, i)
      ensures va == NULL ==> ram.image == old(ram.image)
    {
      if best {
        va, i := AllocBlockBF(size, false);
      } else {
        va, i := AllocBlockFF(size, false);
      }
    }

    /** When a block shrinks by less than 16 bytes, the payload word that realloc_block_FF takes for the next
        block's header is odd; an even one would be taken for a free block, and the padding carved out. */
    ghost predicate Quiet(i: nat, n: nat)
      requires i < |blocks|
      reads this, ram
    {
      CaseOf(blocks, i, n).Padding? ==>
        blocks[i].Va() + EvenUp(n) + 4 < |ram.words| && ram.words[blocks[i].Va() + EvenUp(n) + 4] % 2 == 1
    }

    /** realloc_block_FF on a used block and a positive size. */
    method Resize(va: word, newSize: nat, ghost i: nat, ghost n: nat)
      returns (r: word, ghost mid: Arena, ghost k: nat, ghost j: nat)
      requires Freeable(va, i, |blocks|) && Coalesced(blocks) && newSize == EvenUp(n) && WellBehaved(blocks, i, n)
      requires Quiet(i, n)
      modifies this, free, ram, ram.bytes
      ensures Valid() && Reallocates(old(Now()), hardLimit, i, n, Now(), r, mid, k, j)
      ensures r == NULL ==> ram.image == old(ram.image)
      ensures r != NULL ==> Preserved(old(ram.image), ram.image, old(blocks), i, r, n)
    {
      assert HeadAt(ram.words, blocks, i) && InRange(blocks, daStart + 4, brk - 4, i);
      var h := ram.Read(va - 4);
      var sz, total := h - 1, newSize + 8;
      r, mid, k, j := va, Now(), 0, 0;
      if total == sz {
        LiveSame(ram.image, blocks);
        InPlacePreserved(ram.image, ram.image, blocks, daStart + 4, brk - 4, i, n);
        return;
      }
      if total < sz {
        if sz - total < MIN_BLOCK {
          var headerNext := ram.Read(va + total - 4);
          assert headerNext % 2 == 1;
          LiveSame(ram.image, blocks);
          InPlacePreserved(ram.image, ram.image, blocks, daStart + 4, brk - 4, i, n);
          return;
        }
        ResizeDown(va, newSize, sz, i, n);
        return;
      }
      r, mid, k, j := Enlarge(va, newSize, sz, i, n);
    }

    method EnlargeHere(va: word, newSize: nat, sz: nat, q: word, ghost i: nat, ghost n: nat)
      requires Freeable(va, i, |blocks|) && Coalesced(blocks) && FreeAfter(blocks, i) && sz == blocks[i].size
      requires q == blocks[i + 1].size && sz < newSize + 8 <= sz + q && newSize == EvenUp(n)
      requires WellBehaved(blocks, i, n)
      requires va + sz == blocks[i + 1].Va() && va + sz + q < WORD_LIMIT
      modifies this`blocks, free, ram, ram.bytes
      ensures Valid() && Reallocates(old(Now()), hardLimit, i, n, Now(), va, old(Now()), 0, 0)
      ensures Preserved(old(ram.image), ram.image, old(blocks), i, va, n)
    {
      ResizeUp(va, newSize, sz, q, i, n);
    }

    /** The growing half of realloc_block_FF: into the next block if it is free and big enough, else by moving. */
    method Enlarge(va: word, newSize: nat, sz: nat, ghost i: nat, ghost n: nat)
      returns (r: word, ghost mid: Arena, ghost k: nat, ghost j: nat)
      requires Freeable(va, i, |blocks|) && Coalesced(blocks) && newSize == EvenUp(n) && WellBehaved(blocks, i, n)
      requires sz == blocks[i].size < newSize + 8
      modifies this, free, ram, ram.bytes
      ensures Valid() && Reallocates(old(Now()), hardLimit, i, n, Now(), r, mid, k, j)
      ensures r == NULL ==> ram.image == old(ram.image)
      ensures r != NULL ==> Preserved(old(ram.image), ram.image, old(blocks), i, r, n)
    {
      Neighbours(va, i, |blocks|);
      assert i + 1 < |blocks| ==> InRange(blocks, daStart + 4, brk - 4, i + 1);
      var total := newSize + 8;
      r, mid, k, j := va, Now(), 0, 0;
      var q := ram.Read(va + sz - 4);
      if q % 2 == 0 && total <= sz + q {
        EnlargeHere(va, newSize, sz, q, i, n);
        return;
      }
      r, mid, k, j := Move(va, newSize, i, n);
    }

    /** realloc_block_FF: allocate for NULL, free for size 0, otherwise resize block i. */
    method ReallocBlockFF(va: word, newSize: nat, ghost i: nat)
      returns (r: word, ghost mid: Arena, ghost k: nat, ghost j: nat)
      requires Valid() && newSize <= MAX_REQUEST
      requires va != NULL ==> i < |blocks| && !blocks[i].free && blocks[i].Va() == va
      requires va != NULL && newSize > 0 ==> WellBehaved(blocks, i, newSize) && Quiet(i, newSize)
      modifies this, free, ram, ram.bytes
      ensures Valid()
      ensures va == NULL ==>
        && Allocates(false, old(Now()), hardLimit, newSize, Now(), r, k)
        && LiveKept(old(ram.image), ram.image, old(blocks))
      ensures va != NULL && newSize == 0 ==>
        && r == NULL && Now() == old(Now()).(blocks := Release(old(blocks), i))
        && LiveKept(old(ram.image), ram.image, old(blocks)[i := old(blocks)[i].(free := true)])
      ensures va != NULL && newSize > 0 ==>
        && Reallocates(old(Now()), hardLimit, i, newSize, Now(), r, mid, k, j)
        && (r == NULL ==> ram.image == old(ram.image))
        && (r != NULL ==> Preserved(old(ram.image), ram.image, old(blocks), i, r, newSize))
    {
      mid, k, j := Now(), 0, 0;
      if newSize == 0 && va != NULL {
        FreeBlock(va, i);
        return NULL, mid, k, j;
      } else if va == NULL {
        r, k := AllocBlockFF(newSize, false);
        return;
      }
      var size := if newSize % 2 == 1 then newSize + 1 else newSize;
      r, mid, k, j := Resize(va, size, i, newSize);
    }
  }
}
