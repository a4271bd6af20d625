/** The two allocators of the kernel heap together: page runs, blocks, and the blocks in which the page
    allocator keeps the nodes of its list of free extents. */
module KernelRuns {
  import opened Machine
  import opened Memory
  import opened FreeList
  import opened BlockLayout
  import opened HeapSteps
  import opened BlockAllocator
  import opened HeapRuns
  import FrameManager
  import Extents
  import KernelHeap

  /** sizeof(struct FreePagesInfo). */
  const NODE_SIZE := 16

  /** pages is the state of the page allocator, arena that of the block allocator; nodes are the blocks of
      the list's nodes. */
  datatype Whole = Whole(pages: KernelHeap.Kernel, arena: Arena, nodes: set<Block>)

  function Limit(area: KernelHeap.Area): nat {
    area.limit * PAGE_SIZE
  }

  /** Both allocators see the same break and the same free frames. */
  ghost predicate Coupled(k: KernelHeap.Kernel, a: Arena) {
    a.brk == k.brk * PAGE_SIZE && a.freeFrames == |k.mem.freeList|
  }

  /** Every extent has a live block of its own, with room for a node. */
  ghost predicate NodesOk(nodes: set<Block>, extents: seq<Extents.Extent>, bs: seq<Block>) {
    && nodes <= LiveSet(bs) && |nodes| == |extents|
    && forall b :: b in nodes ==> NODE_SIZE + 8 <= b.size
  }

  ghost predicate WholeGood(w: Whole, area: KernelHeap.Area, lo: nat) {
    && KernelHeap.Good(w.pages, area) && ArenaValid(w.arena, lo, Limit(area)) && Coupled(w.pages, w.arena)
    && NodesOk(w.nodes, w.pages.extents, w.arena.blocks)
  }

  /** Every size goes to one of the two allocators: up to 2 KB to the blocks, above to the pages. */
  lemma EverySizeIsServed(size: nat)
    ensures size <= MAX_REQUEST <==> size <= 2048
    ensures size > KernelHeap.MAX_BLOCK <==> size > 2048
  {
  }

  // ---------------------------------------------------------------- steps

  /** sbrk mapped one page at the break. */
  ghost predicate MapsPage(k: KernelHeap.Kernel, k': KernelHeap.Kernel) {
    && KernelHeap.RunState(k.mem, k'.mem, k.brk, 1, false, 1) && FrameManager.Sound(k'.mem)
    && k' == KernelHeap.Kernel(k'.mem, k.extents, k.live, k.brk + 1)
  }

  /** A request to the block allocator, with the page that sbrk maps when the heap grows. */
  ghost predicate Requests(best: bool, k: KernelHeap.Kernel, a: Arena, limit: nat, size: nat,
                           k': KernelHeap.Kernel, a': Arena, va: nat, i: nat)
  {
    && size <= MAX_REQUEST && Allocates(best, a, limit, size, a', va, i)
    && if a'.brk == a.brk then k' == k else MapsPage(k, k')
  }

  /** Node block j is freed. */
  ghost predicate DropsNode(nodes: set<Block>, a: Arena, j: nat, nodes': set<Block>, a': Arena) {
    && j < |a.blocks| && !a.blocks[j].free && a.blocks[j] in nodes
    && nodes' == nodes - {a.blocks[j]} && a' == a.(blocks := Release(a.blocks, j))
  }

  datatype Op =
    | Small(best: bool, size: nat, va: nat, i: nat)
    | FreeSmall(j: nat)
    | Large(n: nat, i: nat, j: nat)
    | FreeLarge(s: nat, i: nat, mid: KernelHeap.Kernel, best: bool, va: nat, k: nat, j: nat)

  /** kmalloc takes n pages from extent i; an extent that is used up gives its node back. */
  ghost predicate TakesPages(w: Whole, n: nat, i: nat, j: nat, w': Whole) {
    && n > 0 && KernelHeap.IsFirst(w.pages.extents, n, i)
    && KernelHeap.Kmallocs(w.pages, w'.pages, w.pages.extents[i].first, n) && FrameManager.Sound(w'.pages.mem)
    && w'.pages.extents == KernelHeap.Taken(w.pages.extents, i, n) && n <= w.arena.freeFrames
    && var a := w.arena.(freeFrames := w.arena.freeFrames - n);
      if w.pages.extents[i].pages == n then DropsNode(w.nodes, a, j, w'.nodes, w'.arena)
      else w'.arena == a && w'.nodes == w.nodes
  }

  /** kfree unmaps run s, which gives mid, and puts its pages back before extent i: a new extent asks for a
      node, two extents that become one give a node back. */
  ghost predicate ReturnsPages(w: Whole, limit: nat, s: nat, i: nat, mid: KernelHeap.Kernel, best: bool,
                               va: nat, k: nat, j: nat, w': Whole)
  {
    && KernelHeap.Kfrees(w.pages, mid, s) && FrameManager.Sound(mid.mem)
    && Extents.Before(w.pages.extents, i, s, w.pages.live[s])
    && mid.extents == Extents.Rejoined(w.pages.extents, i, s, w.pages.live[s])
    && var a := w.arena.(freeFrames := w.arena.freeFrames + w.pages.live[s]);
      if |mid.extents| > |w.pages.extents| then
        && Requests(best, mid, a, limit, NODE_SIZE, w'.pages, w'.arena, va, k)
        && w'.nodes == if va == NULL || k >= |w'.arena.blocks| then w.nodes else w.nodes + {w'.arena.blocks[k]}
      else if |mid.extents| < |w.pages.extents| then w'.pages == mid && DropsNode(w.nodes, a, j, w'.nodes, w'.arena)
      else w' == Whole(mid, a, w.nodes)
  }

  /** One call of kmalloc or kfree that succeeds; nobody else frees a node. */
  ghost predicate WholeStep(w: Whole, area: KernelHeap.Area, op: Op, w': Whole) {
    match op
    case Small(best, size, va, i) =>
      Requests(best, w.pages, w.arena, Limit(area), size, w'.pages, w'.arena, va, i) && w'.nodes == w.nodes
    case FreeSmall(j) =>
      && j < |w.arena.blocks| && !w.arena.blocks[j].free && w.arena.blocks[j] !in w.nodes
      && w' == w.(arena := w.arena.(blocks := Release(w.arena.blocks, j)))
    case Large(n, i, j) => TakesPages(w, n, i, j, w')
    case FreeLarge(s, i, mid, best, va, k, j) => ReturnsPages(w, Limit(area), s, i, mid, best, va, k, j, w')
  }

  /** kfree needs a node, and the block heap is full and at its limit: the node is then written through NULL. */
  ghost predicate Starved(w: Whole, area: KernelHeap.Area, op: Op) {
    && op.FreeLarge? && op.s in w.pages.live && op.i <= |w.pages.extents|
    && |Extents.Rejoined(w.pages.extents, op.i, op.s, w.pages.live[op.s])| > |w.pages.extents|
    && NoRoom(w.arena.blocks, NODE_SIZE) && w.arena.brk + PAGE_SIZE > Limit(area)
  }

  // ---------------------------------------------------------------- what every step keeps

  /** A request keeps both allocators good and coupled; it fails exactly when nothing fits and sbrk refuses. */
  lemma RequestKeeps(best: bool, k: KernelHeap.Kernel, a: Arena, area: KernelHeap.Area, size: nat,
                     k': KernelHeap.Kernel, a': Arena, va: nat, i: nat, lo: nat)
    requires KernelHeap.Good(k, area) && ArenaValid(a, lo, Limit(area)) && Coupled(k, a)
    requires Requests(best, k, a, Limit(area), size, k', a', va, i)
    ensures KernelHeap.Good(k', area) && ArenaValid(a', lo, Limit(area)) && Coupled(k', a') && k'.extents == k.extents
    ensures va == NULL ==> a' == a && k' == k
    ensures va != NULL ==> Isolated(a.blocks, a'.blocks, i, size, va, lo, a'.brk - 4)
  {
    AllocStep(best, a, Limit(area), size, a', va, i, lo);
    if va != NULL {
      AllocIsolated(best, a, Limit(area), size, a', va, i, lo);
    }
    if a'.brk != a.brk {
      KernelHeap.SbrkGood(k, k', area, 1);
    }
  }

  /** Dropping a node for an extent that is gone. */
  lemma DropKeeps(nodes: set<Block>, a: Arena, j: nat, nodes': set<Block>, a': Arena, limit: nat, lo: nat)
    requires ArenaValid(a, lo, limit) && nodes <= LiveSet(a.blocks) && DropsNode(nodes, a, j, nodes', a')
    ensures ArenaValid(a', lo, limit) && nodes' <= LiveSet(a'.blocks) && |nodes'| == |nodes| - 1
  {
    FreeStep(a, limit, j, lo);
    ReleaseLive(a.blocks, lo, a.brk - 4, j);
  }

  lemma SmallKeeps(w: Whole, area: KernelHeap.Area, best: bool, size: nat, va: nat, i: nat, w': Whole, lo: nat)
    requires WholeGood(w, area, lo) && WholeStep(w, area, Small(best, size, va, i), w')
    ensures WholeGood(w', area, lo)
  {
    RequestKeeps(best, w.pages, w.arena, area, size, w'.pages, w'.arena, va, i, lo);
  }

  lemma FreeSmallKeeps(w: Whole, area: KernelHeap.Area, j: nat, w': Whole, lo: nat)
    requires WholeGood(w, area, lo) && WholeStep(w, area, FreeSmall(j), w')
    ensures WholeGood(w', area, lo)
  {
    FreeStep(w.arena, Limit(area), j, lo);
    ReleaseLive(w.arena.blocks, lo, w.arena.brk - 4, j);
  }

  lemma LargeKeeps(w: Whole, area: KernelHeap.Area, n: nat, i: nat, j: nat, w': Whole, lo: nat)
    requires WholeGood(w, area, lo) && TakesPages(w, n, i, j, w')
    ensures WholeGood(w', area, lo)
  {
    var a := w.arena.(freeFrames := w.arena.freeFrames - n);
    KernelHeap.KmallocGood(w.pages, w'.pages, area, w.pages.extents[i].first, n);
    if w.pages.extents[i].pages == n {
      DropKeeps(w.nodes, a, j, w'.nodes, w'.arena, Limit(area), lo);
    }
  }

  /** How many extents the returned pages leave. */
  lemma RejoinedSize(xs: seq<Extents.Extent>, i: nat, s: nat, n: nat)
    requires i <= |xs|
    ensures |xs| - 1 <= |Extents.Rejoined(xs, i, s, n)| <= |xs| + 1
  {
  }

  /** Once the run is unmapped its frames are free again for both allocators. */
  lemma UnmappedKeeps(w: Whole, area: KernelHeap.Area, s: nat, mid: KernelHeap.Kernel, a: Arena, lo: nat)
    requires WholeGood(w, area, lo) && KernelHeap.Kfrees(w.pages, mid, s) && FrameManager.Sound(mid.mem)
    requires a == w.arena.(freeFrames := w.arena.freeFrames + w.pages.live[s])
    ensures KernelHeap.Good(mid, area) && ArenaValid(a, lo, Limit(area)) && Coupled(mid, a) && a.freeFrames > 0
  {
    KernelHeap.KfreeGood(w.pages, mid, area, s);
    assert KernelHeap.LiveRun(w.pages, area, s);
  }

  /** A new extent has its node exactly when the request for it was served. */
  lemma NodeFor(nodes: set<Block>, extents: seq<Extents.Extent>, more: nat, bs: seq<Block>, cs: seq<Block>,
                k: nat, va: nat, lo: nat, hi: nat)
    requires NodesOk(nodes, extents, bs) && more == |extents| + 1
    requires Isolated(bs, cs, k, NODE_SIZE, va, lo, hi)
    ensures var nodes' := nodes + {cs[k]};
      nodes' <= LiveSet(cs) && |nodes'| == more && forall b :: b in nodes' ==> NODE_SIZE + 8 <= b.size
  {
    assert cs[k] !in nodes;
  }

  lemma GainServed(w: Whole, mid: KernelHeap.Kernel, a: Arena, area: KernelHeap.Area, best: bool, va: nat, k: nat,
                   w': Whole, lo: nat)
    requires KernelHeap.Good(mid, area) && ArenaValid(a, lo, Limit(area)) && Coupled(mid, a) && va != NULL
    requires NodesOk(w.nodes, w.pages.extents, a.blocks) && |mid.extents| == |w.pages.extents| + 1
    requires Requests(best, mid, a, Limit(area), NODE_SIZE, w'.pages, w'.arena, va, k)
    requires w'.nodes == if k >= |w'.arena.blocks| then w.nodes else w.nodes + {w'.arena.blocks[k]}
    ensures WholeGood(w', area, lo)
  {
    RequestKeeps(best, mid, a, area, NODE_SIZE, w'.pages, w'.arena, va, k, lo);
    NodeFor(w.nodes, w.pages.extents, |mid.extents|, a.blocks, w'.arena.blocks, k, va, lo, w'.arena.brk - 4);
  }

  lemma GainKeeps(w: Whole, mid: KernelHeap.Kernel, a: Arena, area: KernelHeap.Area, best: bool, va: nat, k: nat,
                  w': Whole, lo: nat)
    requires KernelHeap.Good(mid, area) && ArenaValid(a, lo, Limit(area)) && Coupled(mid, a) && a.freeFrames > 0
    requires NodesOk(w.nodes, w.pages.extents, a.blocks) && |mid.extents| == |w.pages.extents| + 1
    requires Requests(best, mid, a, Limit(area), NODE_SIZE, w'.pages, w'.arena, va, k)
    requires w'.nodes == if va == NULL || k >= |w'.arena.blocks| then w.nodes else w.nodes + {w'.arena.blocks[k]}
    ensures WholeGood(w', area, lo) <==> va != NULL
  {
    if va != NULL {
      GainServed(w, mid, a, area, best, va, k, w', lo);
    } else {
      RequestKeeps(best, mid, a, area, NODE_SIZE, w'.pages, w'.arena, va, k, lo);
    }
  }

  /** The request for a node is refused exactly when no block has room and the break is at the limit. */
  lemma NodeRefused(best: bool, k: KernelHeap.Kernel, a: Arena, area: KernelHeap.Area, k': KernelHeap.Kernel,
                    a': Arena, va: nat, i: nat, lo: nat)
    requires ArenaValid(a, lo, Limit(area)) && a.freeFrames > 0
    requires Requests(best, k, a, Limit(area), NODE_SIZE, k', a', va, i)
    ensures va == NULL <==> NoRoom(a.blocks, NODE_SIZE) && a.brk + PAGE_SIZE > Limit(area)
  {
    NullMeansFull(best, a, Limit(area), NODE_SIZE, a', va, i, lo);
  }

  lemma LossKeeps(w: Whole, mid: KernelHeap.Kernel, a: Arena, area: KernelHeap.Area, j: nat, w': Whole, lo: nat)
    requires KernelHeap.Good(mid, area) && ArenaValid(a, lo, Limit(area)) && Coupled(mid, a)
    requires NodesOk(w.nodes, w.pages.extents, a.blocks) && |mid.extents| == |w.pages.extents| - 1
    requires w'.pages == mid && DropsNode(w.nodes, a, j, w'.nodes, w'.arena)
    ensures WholeGood(w', area, lo)
  {
    DropKeeps(w.nodes, a, j, w'.nodes, w'.arena, Limit(area), lo);
  }

  /** kfree of a run keeps everything exactly unless it is starved of a node. */
  lemma FreeLargeKeeps(w: Whole, area: KernelHeap.Area, s: nat, i: nat, mid: KernelHeap.Kernel, best: bool,
                       va: nat, k: nat, j: nat, w': Whole, lo: nat)
    requires WholeGood(w, area, lo) && ReturnsPages(w, Limit(area), s, i, mid, best, va, k, j, w')
    ensures WholeGood(w', area, lo) <==> !Starved(w, area, FreeLarge(s, i, mid, best, va, k, j))
  {
    var n := w.pages.live[s];
    var a := w.arena.(freeFrames := w.arena.freeFrames + n);
    UnmappedKeeps(w, area, s, mid, a, lo);
    RejoinedSize(w.pages.extents, i, s, n);
    if |mid.extents| > |w.pages.extents| {
      GainKeeps(w, mid, a, area, best, va, k, w', lo);
      NodeRefused(best, mid, a, area, w'.pages, w'.arena, va, k, lo);
    } else if |mid.extents| < |w.pages.extents| {
      LossKeeps(w, mid, a, area, j, w', lo);
    }
  }

  /** Every call keeps both allocators and the nodes, exactly unless kfree is starved of a node. */
  lemma StepKeepsWhole(w: Whole, area: KernelHeap.Area, op: Op, w': Whole, lo: nat)
    requires WholeGood(w, area, lo) && WholeStep(w, area, op, w')
    ensures WholeGood(w', area, lo) <==> !Starved(w, area, op)
  {
    match op
    case Small(best, size, va, i) => SmallKeeps(w, area, best, size, va, i, w', lo);
    case FreeSmall(j) => FreeSmallKeeps(w, area, j, w', lo);
    case Large(n, i, j) => LargeKeeps(w, area, n, i, j, w', lo);
    case FreeLarge(s, i, mid, best, va, k, j) => FreeLargeKeeps(w, area, s, i, mid, best, va, k, j, w', lo);
  }

  ghost predicate WholeRun(ws: seq<Whole>, area: KernelHeap.Area, ops: seq<Op>) {
    |ws| == |ops| + 1 && forall k :: 0 <= k < |ops| ==> WholeStepAt(ws, area, ops, k)
  }

  ghost predicate WholeStepAt(ws: seq<Whole>, area: KernelHeap.Area, ops: seq<Op>, k: nat)
    requires k < |ops| < |ws|
  {
    WholeStep(ws[k], area, ops[k], ws[k + 1]) && !Starved(ws[k], area, ops[k])
  }

  /** In every state of every run that is never starved, both allocators are good and agree, and every
      extent has its node. */
  lemma {:induction false} RunsKeepWhole(ws: seq<Whole>, area: KernelHeap.Area, ops: seq<Op>, lo: nat, k: nat)
    requires WholeRun(ws, area, ops) && WholeGood(ws[0], area, lo) && k < |ws|
    ensures WholeGood(ws[k], area, lo)
  {
    if k > 0 {
      RunsKeepWhole(ws, area, ops, lo, k - 1);
      assert WholeStepAt(ws, area, ops, k - 1);
      RunStepKeeps(ws, area, ops, lo, k - 1);
    }
  }

  lemma RunStepKeeps(ws: seq<Whole>, area: KernelHeap.Area, ops: seq<Op>, lo: nat, k: nat)
    requires k < |ops| < |ws| && WholeStepAt(ws, area, ops, k) && WholeGood(ws[k], area, lo)
    ensures WholeGood(ws[k + 1], area, lo)
  {
    StepKeepsWhole(ws[k], area, ops[k], ws[k + 1], lo);
  }

  /** The first kmalloc of pages asks for the node of the one extent there is. */
  lemma FirstNode(best: bool, k: KernelHeap.Kernel, a: Arena, area: KernelHeap.Area, k': KernelHeap.Kernel, a': Arena,
                  va: nat, i: nat, lo: nat)
    requires KernelHeap.Good(k, area) && ArenaValid(a, lo, Limit(area)) && Coupled(k, a) && |k.extents| == 1
    requires Requests(best, k, a, Limit(area), NODE_SIZE, k', a', va, i) && va != NULL
    ensures i < |a'.blocks| && WholeGood(Whole(k', a', {a'.blocks[i]}), area, lo)
  {
    RequestKeeps(best, k, a, area, NODE_SIZE, k', a', va, i, lo);
  }

  // ---------------------------------------------------------------- what the two allocators leave alone

  /** The live blocks of everybody but the list of extents. */
  ghost function Callers(w: Whole): set<Block> {
    LiveSet(w.arena.blocks) - w.nodes
  }

  /** Page requests leave every caller's block alone, and block requests every run of pages. */
  lemma AllocatorsApart(w: Whole, area: KernelHeap.Area, op: Op, w': Whole, lo: nat)
    requires WholeGood(w, area, lo) && WholeStep(w, area, op, w')
    ensures op.Large? || op.FreeLarge? ==> Callers(w') == Callers(w)
    ensures op.Small? || op.FreeSmall? ==> w'.pages.live == w.pages.live && w'.pages.extents == w.pages.extents
  {
    match op
    case Small(best, size, va, i) =>
    case FreeSmall(j) =>
    case Large(n, i, j) =>
      if w.pages.extents[i].pages == n {
        DropSpares(w, w.arena.(freeFrames := w.arena.freeFrames - n), j, w', Limit(area), lo);
      }
    case FreeLarge(s, i, mid, best, va, k, j) =>
      ReturnSpares(w, area, s, i, mid, best, va, k, j, w', lo);
  }

  lemma DropSpares(w: Whole, a: Arena, j: nat, w': Whole, limit: nat, lo: nat)
    requires ArenaValid(a, lo, limit) && a.blocks == w.arena.blocks && DropsNode(w.nodes, a, j, w'.nodes, w'.arena)
    ensures Callers(w') == Callers(w)
  {
    ReleaseLive(a.blocks, lo, a.brk - 4, j);
  }

  lemma ReturnSpares(w: Whole, area: KernelHeap.Area, s: nat, i: nat, mid: KernelHeap.Kernel, best: bool,
                     va: nat, k: nat, j: nat, w': Whole, lo: nat)
    requires WholeGood(w, area, lo) && ReturnsPages(w, Limit(area), s, i, mid, best, va, k, j, w')
    ensures Callers(w') == Callers(w)
  {
    var a := w.arena.(freeFrames := w.arena.freeFrames + w.pages.live[s]);
    UnmappedKeeps(w, area, s, mid, a, lo);
    if |mid.extents| > |w.pages.extents| {
      RequestKeeps(best, mid, a, area, NODE_SIZE, w'.pages, w'.arena, va, k, lo);
    } else if |mid.extents| < |w.pages.extents| {
      DropSpares(w, a, j, w', Limit(area), lo);
    }
  }

  // ---------------------------------------------------------------- conservation

  /** The pages of the page region that are in some run. */
  ghost function InUse(k: KernelHeap.Kernel, area: KernelHeap.Area): set<nat> {
    set p: nat | area.lo <= p < area.hi && !Extents.Covers(k.extents, p)
  }

  /** The free frames, the pages of blocks and the pages of runs. */
  ghost function Stock(k: KernelHeap.Kernel, area: KernelHeap.Area): nat {
    |k.mem.freeList| + k.brk + |InUse(k, area)|
  }

  ghost predicate InPages(s: nat, n: nat, p: nat) {
    s <= p < s + n
  }

  ghost function Pages(s: nat, n: nat): set<nat> {
    set p: nat | p < s + n && InPages(s, n, p)
  }

  lemma {:induction false} PagesSize(s: nat, n: nat)
    ensures |Pages(s, n)| == n
  {
    if n > 0 {
      PagesSize(s, n - 1);
      assert Pages(s, n) == Pages(s, n - 1) + {s + n - 1};
    }
  }

  /** Extents xs lost pages s .. s + n - 1 of the region to runs. */
  lemma TakenInUse(xs: seq<Extents.Extent>, ys: seq<Extents.Extent>, k: KernelHeap.Kernel, k': KernelHeap.Kernel,
                   area: KernelHeap.Area, s: nat, n: nat)
    requires k.extents == xs && k'.extents == ys && area.lo <= s && s + n <= area.hi
    requires forall p: nat :: s <= p < s + n ==> Extents.Covers(xs, p)
    requires forall p: nat :: Extents.Covers(ys, p) <==> Extents.Covers(xs, p) && !(s <= p < s + n)
    ensures |InUse(k', area)| == |InUse(k, area)| + n
  {
    assert InUse(k', area) == InUse(k, area) + Pages(s, n) && InUse(k, area) !! Pages(s, n);
    PagesSize(s, n);
  }

  lemma KmallocConserves(k: KernelHeap.Kernel, k': KernelHeap.Kernel, area: KernelHeap.Area, s: nat, n: nat)
    requires KernelHeap.Good(k, area) && KernelHeap.Kmallocs(k, k', s, n)
    ensures Stock(k', area) == Stock(k, area)
  {
    assert Extents.Covers(k.extents, s) && Extents.Covers(k.extents, s + n - 1);
    TakenInUse(k.extents, k'.extents, k, k', area, s, n);
  }

  lemma KfreeConserves(k: KernelHeap.Kernel, k': KernelHeap.Kernel, area: KernelHeap.Area, s: nat)
    requires KernelHeap.Good(k, area) && KernelHeap.Kfrees(k, k', s)
    ensures Stock(k', area) == Stock(k, area)
  {
    assert KernelHeap.LiveRun(k, area, s);
    KernelHeap.RunUncovered(k, area, s);
    TakenInUse(k'.extents, k.extents, k', k, area, s, k.live[s]);
  }

  lemma SbrkConserves(k: KernelHeap.Kernel, k': KernelHeap.Kernel, area: KernelHeap.Area)
    requires MapsPage(k, k')
    ensures Stock(k', area) == Stock(k, area)
  {
    assert InUse(k', area) == InUse(k, area);
  }

  /** No call loses a frame or makes one: free frames, block pages and run pages add up to the same. */
  lemma FramesConserved(w: Whole, area: KernelHeap.Area, op: Op, w': Whole, lo: nat)
    requires WholeGood(w, area, lo) && WholeStep(w, area, op, w')
    ensures Stock(w'.pages, area) == Stock(w.pages, area)
  {
    match op
    case Small(best, size, va, i) =>
      if w'.pages != w.pages {
        SbrkConserves(w.pages, w'.pages, area);
      }
    case FreeSmall(j) =>
    case Large(n, i, j) => KmallocConserves(w.pages, w'.pages, area, w.pages.extents[i].first, n);
    case FreeLarge(s, i, mid, best, va, k, j) =>
      KfreeConserves(w.pages, mid, area, s);
      if w'.pages != mid {
        SbrkConserves(mid, w'.pages, area);
      }
  }

  // ---------------------------------------------------------------- a kernel that is starved

  /** One page of blocks, at its limit, and one page for runs. */
  const SMALL := KernelHeap.Area(1, 2, 2, 3)

  function OneTable(): seq<FrameManager.Entry> {
    seq(FrameManager.ENTRIES, j => if j == 1 || j == 2 then
      FrameManager.Entry(j, FrameManager.PERM_PRESENT | FrameManager.PERM_WRITEABLE) else FrameManager.EMPTY)
  }

  /** Frames 1 and 2 are mapped at pages 1 and 2, and no frame is left. */
  function FullMemory(): FrameManager.FrameState {
    FrameManager.FrameState(
      [FrameManager.CLEARED, FrameManager.FrameInfo(1, PAGE_SIZE), FrameManager.FrameInfo(1, 2 * PAGE_SIZE)], [],
      map[(0, 0) := OneTable()], {}, {1, 2})
  }

  /** Two blocks fill the page of blocks; the page for runs is given out, so there is no extent and no node. */
  function FullKernel(): Whole {
    Whole(KernelHeap.Kernel(FullMemory(), [], map[2 := 1], 2),
      Arena([Block(4100, 2040, false), Block(6140, 2048, false)], 2 * PAGE_SIZE, 0), {})
  }

  lemma FullEntries(d: nat, p: nat)
    ensures FrameManager.EntryAt(FullMemory().tables, d, p) ==
      if d == 0 && 1 <= p <= 2 then OneTable()[p] else FrameManager.EMPTY
  {
    assert p == FrameManager.PDX(p) * FrameManager.ENTRIES + FrameManager.PTX(p);
  }

  lemma FullNames(f: nat)
    requires 1 <= f <= 2
    ensures FrameManager.Names(FullMemory().tables, f) == {(0, f)}
  {
    var t := FullMemory().tables;
    forall x | x in FrameManager.Names(t, f) || x == (0, f)
      ensures x in FrameManager.Names(t, f) && x == (0, f)
    {
      assert x == (x.0, x.1);
      FrameManager.NamesIff(t, f, x.0, x.1);
      FullEntries(x.0, x.1);
    }
  }

  lemma FullIsSound()
    ensures FrameManager.Sound(FullMemory())
  {
    var m := FullMemory();
    forall f | f in m.managed
      ensures f < |m.frames| && FrameManager.FrameOk(m, f)
    {
      FullNames(f);
    }
    forall d, p
      ensures FrameManager.EntryOk(m, FrameManager.EntryAt(m.tables, d, p))
    {
      FullEntries(d, p);
      var perm := FrameManager.PERM_PRESENT;
      assert (perm | FrameManager.PERM_WRITEABLE) & perm == perm;
    }
  }

  lemma FullHeld(p: nat)
    requires 1 <= p <= 2
    ensures KernelHeap.Held(FullMemory(), p)
  {
    FullEntries(0, p);
  }

  lemma FullRun()
    ensures KernelHeap.LiveRun(FullKernel().pages, SMALL, 2)
  {
    FullEntries(0, 2);
  }

  lemma FullPages()
    ensures KernelHeap.Good(FullKernel().pages, SMALL)
  {
    FullIsSound();
    FullHeld(1);
    FullHeld(2);
    FullRun();
    assert KernelHeap.InRun(FullKernel().pages.live, 2, 2);
  }

  lemma FullIsGood()
    ensures WholeGood(FullKernel(), SMALL, PAGE_SIZE + 4)
  {
    var bs := FullKernel().arena.blocks;
    FullPages();
    PairTiled(bs[0], bs[1]);
    assert !FreePair(bs, 0);
  }

  /** The memory once page 2 is unmapped. */
  lemma FullUnmapped() returns (m: FrameManager.FrameState)
    ensures FrameManager.Sound(m) && KernelHeap.UndoState(FullMemory(), m, 2, 1)
  {
    var m0, perm := FullMemory(), FrameManager.PERM_PRESENT | FrameManager.PERM_WRITEABLE;
    FullIsSound();
    FullHeld(2);
    FullEntries(0, 2);
    assert perm & FrameManager.PERM_AVAILABLE == 0;
    KernelHeap.ClearAndUnmap(m0, m0, 2, perm);
    m := FrameManager.Unmapped(m0, 0, 2);
    KernelHeap.UndoStep(m0, m0, m, 2, 0);
  }

  /** Starving happens: in a good state, freeing the one run asks for a node that the block heap cannot give. */
  lemma StarvedWitness() returns (w: Whole, op: Op, w': Whole)
    ensures WholeGood(w, SMALL, PAGE_SIZE + 4) && WholeStep(w, SMALL, op, w') && Starved(w, SMALL, op)
    ensures !WholeGood(w', SMALL, PAGE_SIZE + 4)
  {
    w := FullKernel();
    FullIsGood();
    var m := FullUnmapped();
    var mid := KernelHeap.Kernel(m, [Extents.Extent(2, 1)], map[], 2);
    op := FreeLarge(2, 0, mid, false, NULL, 0, 0);
    w' := Whole(mid, w.arena.(freeFrames := 1), {});
    StarvedStep(w, mid, w');
    StepKeepsWhole(w, SMALL, op, w', PAGE_SIZE + 4);
  }

  lemma StarvedStep(w: Whole, mid: KernelHeap.Kernel, w': Whole)
    requires w == FullKernel() && w' == Whole(mid, w.arena.(freeFrames := 1), {})
    requires FrameManager.Sound(mid.mem) && KernelHeap.UndoState(w.pages.mem, mid.mem, 2, 1)
    requires mid == KernelHeap.Kernel(mid.mem, [Extents.Extent(2, 1)], map[], 2)
    ensures ReturnsPages(w, Limit(SMALL), 2, 0, mid, false, NULL, 0, 0, w')
  {
    var xs: seq<Extents.Extent> := [];
    Extents.RejoinedWith(xs, 0, 2, 1);
    assert Extents.Rejoined(xs, 0, 2, 1) == [Extents.Extent(2, 1)];
    assert w.pages.live - {2} == map[];
    assert KernelHeap.Kfrees(w.pages, mid, 2);
    assert NothingFits(w.arena.blocks, Total(NODE_SIZE));
  }
}
