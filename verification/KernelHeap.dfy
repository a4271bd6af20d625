/** The kernel heap: pages handed out in runs, whose lengths are kept only as marks in page table entries. */
module KernelHeap {
  import opened Machine
  import opened Wrappers
  import opened FrameManager
  import opened Extents

  const MARK: bv12 := 0x200
  const KERNEL := 0
  const MAX_BLOCK := 2048

  /** The rounding gives enough pages exactly for sizes up to 0xFFFFF000; above, it gives none. */
  lemma PagesAreEnough(size: nat)
    requires 0 < size < WORD_LIMIT
    ensures PagesFor(size) * PAGE_SIZE >= size <==> size <= 0xFFFF_F000
    ensures size <= 0xFFFF_F000 ==> (PagesFor(size) - 1) * PAGE_SIZE < size
    ensures size > 0xFFFF_F000 ==> PagesFor(size) == 0
  {
  }

  /** The pages of the heap: blocks live in [base, brk) below limit, page runs in [lo, hi). */
  datatype Area = Area(base: nat, limit: nat, lo: nat, hi: nat) {
    predicate Ordered() { 0 < base <= limit <= lo <= hi }
  }

  /** The state of the kernel heap; live maps the first page of every run that was given out to its length. */
  datatype Kernel = Kernel(mem: FrameState, extents: seq<Extent>, live: map<nat, nat>, brk: nat)

  ghost predicate Blank(m: FrameState, p: nat) {
    EntryAt(m.tables, KERNEL, p) == EMPTY
  }

  /** Page p has a frame of its own, which knows the page it is mapped at. */
  ghost predicate Held(m: FrameState, p: nat) {
    var f := EntryAt(m.tables, KERNEL, p).frame;
    f != 0 && f in m.managed && f < |m.frames| && m.frames[f] == FrameInfo(1, p * PAGE_SIZE)
  }

  /** A page of blocks: held, and not marked. */
  ghost predicate BlockPage(m: FrameState, p: nat) {
    Held(m, p) && EntryAt(m.tables, KERNEL, p).perm == RunPerm(false, 1, 0)
  }

  /** The low bits of page j of a run of n: the first and the last page of a longer run are marked. */
  function RunPerm(marked: bool, n: nat, j: nat): bv12 {
    if marked && n > 1 && (j == 0 || j == n - 1) then MARK | PERM_PRESENT | PERM_WRITEABLE
    else PERM_PRESENT | PERM_WRITEABLE
  }

  ghost predicate InRun(live: map<nat, nat>, s: nat, p: nat) {
    s in live && s <= p < s + live[s]
  }

  ghost predicate InLive(live: map<nat, nat>, p: nat) {
    exists s :: InRun(live, s, p)
  }

  /** A page of the page region is either free, blank and in an extent, or held and in a run. */
  ghost predicate RegionPage(k: Kernel, p: nat) {
    if Covers(k.extents, p) then Blank(k.mem, p) && !InLive(k.live, p) else Held(k.mem, p) && InLive(k.live, p)
  }

  ghost predicate MarkedAt(m: FrameState, s: nat, n: nat, j: nat) {
    EntryAt(m.tables, KERNEL, s + j).perm == RunPerm(true, n, j)
  }

  ghost predicate LiveRun(k: Kernel, area: Area, s: nat)
    requires s in k.live
  {
    && k.live[s] > 0 && area.lo <= s && s + k.live[s] <= area.hi
    && forall j :: 0 <= j < k.live[s] ==> MarkedAt(k.mem, s, k.live[s], j)
  }

  ghost predicate RunsApart(k: Kernel, s: nat, r: nat)
    requires s in k.live && r in k.live
  {
    s + k.live[s] <= r
  }

  ghost predicate HasTables(m: FrameState, area: Area) {
    forall p :: area.base <= p < area.hi ==> HasTable(m.tables, KERNEL, p)
  }

  /** The invariant of the kernel heap. */
  ghost predicate Good(k: Kernel, area: Area) {
    && area.Ordered() && area.base <= k.brk <= area.limit && Sound(k.mem) && HasTables(k.mem, area)
    && Sorted(k.extents) && (forall p: nat :: Covers(k.extents, p) ==> area.lo <= p < area.hi)
    && (forall p :: area.lo <= p < area.hi ==> RegionPage(k, p))
    && (forall s :: s in k.live ==> LiveRun(k, area, s))
    && (forall s, r :: s in k.live && r in k.live && s < r ==> RunsApart(k, s, r))
    && (forall p :: area.base <= p < k.brk ==> BlockPage(k.mem, p))
    && (forall p :: k.brk <= p < area.limit ==> Blank(k.mem, p))
  }

  // ---------------------------------------------------------------- mapping a run of pages

  /** Frames from the head of the free list are mapped, in order, at the first k of the pages s .. s + n - 1. */
  ghost predicate RunState(m: FrameState, m': FrameState, s: nat, n: nat, marked: bool, k: nat) {
    && k <= n <= |m.freeList| && m'.managed == m.managed && m'.transit == m.transit
    && m'.tables.Keys == m.tables.Keys && |m'.frames| == |m.frames| && m'.freeList == m.freeList[k..]
    && (forall c: nat, q: nat {:trigger EntryAt(m'.tables, c, q)} ::
          EntryAt(m'.tables, c, q) ==
          if c == KERNEL && s <= q < s + k then Entry(m.freeList[q - s], RunPerm(marked, n, q - s))
          else EntryAt(m.tables, c, q))
    && (forall j :: 0 <= j < k ==>
          m.freeList[j] < |m.frames| && m'.frames[m.freeList[j]] == FrameInfo(1, (s + j) * PAGE_SIZE))
    && (forall f :: 0 <= f < |m.frames| && f !in m.freeList[..k] ==> m'.frames[f] == m.frames[f])
  }

  lemma BlankEntry(perm: bv12)
    ensures !EMPTY.Present() && EMPTY.perm & PERM_AVAILABLE == 0
    ensures NewEntry(EMPTY, 1, perm).perm == perm | PERM_PRESENT
  {
  }

  lemma RunPermPresent(marked: bool, n: nat, j: nat)
    ensures RunPerm(marked, n, j) | PERM_PRESENT == RunPerm(marked, n, j)
    ensures (0 as bv12) | RunPerm(marked, n, j) | PERM_PRESENT == RunPerm(marked, n, j)
  {
  }

  /** The next page of a run can be mapped to the next free frame. */
  lemma RunNext(m: FrameState, m1: FrameState, s: nat, n: nat, marked: bool, k: nat)
    requires Sound(m) && RunState(m, m1, s, n, marked, k) && Sound(m1) && k < n
    requires HasTable(m.tables, KERNEL, s + k) && Blank(m, s + k)
    ensures |m1.freeList| > 0 && m1.freeList[0] == m.freeList[k] && m1.freeList[0] < |m1.frames|
    ensures m.freeList[k] in m.managed
    ensures Mappable(Allocated(m1), KERNEL, m.freeList[k], s + k) && Sound(Allocated(m1))
    ensures EntryAt(m1.tables, KERNEL, s + k) == EMPTY && m1.transit == m.transit && m.freeList[k] !in m1.transit
  {
    var f := m.freeList[k];
    assert m1.freeList[0] == f && f in m1.freeList;
    AllocatedSound(m1);
    assert FrameOk(m1, f);
    assert f !in Allocated(m1).freeList;
  }

  /** One more page of a run. */
  lemma RunStep(m: FrameState, m1: FrameState, s: nat, n: nat, marked: bool, k: nat)
    requires Sound(m) && RunState(m, m1, s, n, marked, k) && Sound(m1) && k < n
    requires HasTable(m.tables, KERNEL, s + k) && Blank(m, s + k)
    ensures |m1.freeList| > 0 && m1.freeList[0] == m.freeList[k] && m1.freeList[0] < |m1.frames|
    ensures Mappable(Allocated(m1), KERNEL, m.freeList[k], s + k) && Sound(Allocated(m1))
    ensures var m2 := Mapped(Allocated(m1), KERNEL, m.freeList[k], s + k, RunPerm(marked, n, k));
      Sound(m2) && RunState(m, m2, s, n, marked, k + 1)
  {
    RunNext(m, m1, s, n, marked, k);
    var f, a := m.freeList[k], Allocated(m1);
    BlankEntry(0);
    RunPermPresent(marked, n, k);
    MappedSound(a, KERNEL, f, s + k, RunPerm(marked, n, k));
    RunExtended(m, m1, Mapped(a, KERNEL, f, s + k, RunPerm(marked, n, k)), s, n, marked, k);
  }

  lemma RunExtended(m: FrameState, m1: FrameState, m2: FrameState, s: nat, n: nat, marked: bool, k: nat)
    requires Sound(m) && RunState(m, m1, s, n, marked, k) && k < n && m.freeList[k] < |m.frames|
    requires m2.managed == m1.managed && m2.transit == m1.transit && m2.freeList == m1.freeList[1..]
    requires m2.frames == m1.frames[m.freeList[k] := FrameInfo(1, (s + k) * PAGE_SIZE)]
    requires OneEntry(m1.tables, m2.tables, KERNEL, s + k, Entry(m.freeList[k], RunPerm(marked, n, k)))
    ensures RunState(m, m2, s, n, marked, k + 1)
  {
    assert m.freeList[..k + 1] == m.freeList[..k] + [m.freeList[k]];
    assert forall j :: 0 <= j < k ==> m.freeList[j] != m.freeList[k];
  }

  // ---------------------------------------------------------------- unmapping a run of pages

  ghost function FrameAt(m: FrameState, s: nat, j: nat): nat {
    EntryAt(m.tables, KERNEL, s + j).frame
  }

  /** The first k pages from s are unmapped; their frames are back on the free list, the last one first. */
  ghost predicate UndoState(m: FrameState, m': FrameState, s: nat, k: nat) {
    && m'.managed == m.managed && m'.transit == m.transit
    && m'.tables.Keys == m.tables.Keys && |m'.frames| == |m.frames|
    && |m'.freeList| == k + |m.freeList| && m'.freeList[k..] == m.freeList
    && (forall j :: 0 <= j < k ==> m'.freeList[k - 1 - j] == FrameAt(m, s, j))
    && (forall c: nat, q: nat {:trigger EntryAt(m'.tables, c, q)} ::
          EntryAt(m'.tables, c, q) == if c == KERNEL && s <= q < s + k then EMPTY else EntryAt(m.tables, c, q))
    && (forall j :: 0 <= j < k ==> FrameAt(m, s, j) < |m.frames| && m'.frames[FrameAt(m, s, j)] == CLEARED)
    && (forall f :: 0 <= f < |m.frames| && (forall j :: 0 <= j < k ==> FrameAt(m, s, j) != f) ==>
          m'.frames[f] == m.frames[f])
  }

  lemma ClearedPerm(perm: bv12)
    requires perm == PERM_PRESENT | PERM_WRITEABLE || perm == MARK | PERM_PRESENT | PERM_WRITEABLE
    ensures ((perm | 0) & !PERM_AVAILABLE) & PERM_AVAILABLE == 0
    ensures ((perm | 0) & !PERM_AVAILABLE) & PERM_PRESENT == PERM_PRESENT
    ensures perm & MARK == MARK <==> perm == MARK | PERM_PRESENT | PERM_WRITEABLE
  {
  }

  /** Page p alone is unmapped, and its frame f freed. */
  ghost predicate UndoOne(m: FrameState, m': FrameState, p: nat, f: nat) {
    && f < |m.frames| && m' == m.(tables := m'.tables, frames := m.frames[f := CLEARED], freeList := [f] + m.freeList)
    && OneEntry(m.tables, m'.tables, KERNEL, p, EMPTY)
  }

  /** Clearing the marks of a held page and unmapping it frees its frame. */
  lemma ClearAndUnmap(m: FrameState, mc: FrameState, p: nat, perm: bv12)
    requires Held(m, p) && Sound(mc) && mc == m.(tables := mc.tables) && perm & PERM_AVAILABLE == 0
    requires OneEntry(m.tables, mc.tables, KERNEL, p, Entry(EntryAt(m.tables, KERNEL, p).frame, perm))
    requires HasTable(mc.tables, KERNEL, p)
    ensures Sound(Unmapped(mc, KERNEL, p)) && UndoOne(m, Unmapped(mc, KERNEL, p), p, EntryAt(m.tables, KERNEL, p).frame)
  {
    UnmappedSound(mc, KERNEL, p);
  }

  /** One more page of kfree's walk. */
  lemma UndoStep(m: FrameState, m1: FrameState, m2: FrameState, s: nat, k: nat)
    requires UndoState(m, m1, s, k) && UndoOne(m1, m2, s + k, FrameAt(m, s, k))
    requires forall p: nat :: s <= p <= s + k ==> Held(m, p)
    ensures UndoState(m, m2, s, k + 1)
  {
    var f := FrameAt(m, s, k);
    assert Held(m, s + k);
    forall j | 0 <= j < k
      ensures FrameAt(m, s, j) != f
    {
      assert Held(m, s + j);
    }
    assert m2.freeList[k + 1..] == m1.freeList[k..];
  }

  lemma StillHeld(m: FrameState, m1: FrameState, s: nat, k: nat)
    requires UndoState(m, m1, s, k) && (forall p: nat :: s <= p <= s + k ==> Held(m, p))
    ensures Held(m1, s + k) && EntryAt(m1.tables, KERNEL, s + k) == EntryAt(m.tables, KERNEL, s + k)
  {
    assert Held(m, s + k);
    forall j | 0 <= j < k
      ensures FrameAt(m, s, j) != FrameAt(m, s, k)
    {
      assert Held(m, s + j);
    }
  }

  // ---------------------------------------------------------------- what kmalloc and kfree keep

  /** kmalloc gave out the free pages s .. s + n - 1. */
  ghost predicate Kmallocs(a: Kernel, b: Kernel, s: nat, n: nat) {
    && n > 0 && (forall p: nat :: s <= p < s + n ==> Covers(a.extents, p))
    && RunState(a.mem, b.mem, s, n, true, n) && Without(a.extents, b.extents, s, n)
    && b.live == a.live[s := n] && b.brk == a.brk
  }

  /** kfree took back the run that starts at page s, all of it and nothing else. */
  ghost predicate Kfrees(a: Kernel, b: Kernel, s: nat) {
    && s in a.live && UndoState(a.mem, b.mem, s, a.live[s]) && With(a.extents, b.extents, s, a.live[s])
    && b.live == a.live - {s} && b.brk == a.brk
  }

  lemma RunKeepsHeld(m: FrameState, m': FrameState, s: nat, n: nat, marked: bool, p: nat)
    requires Sound(m) && RunState(m, m', s, n, marked, n)
    ensures s <= p < s + n ==> Held(m', p)
    ensures !(s <= p < s + n) && Held(m, p) ==> Held(m', p)
    ensures !(s <= p < s + n) ==> EntryAt(m'.tables, KERNEL, p) == EntryAt(m.tables, KERNEL, p)
  {
    if s <= p < s + n {
      assert m.freeList[p - s] in m.freeList;
      assert m.freeList[p - s] in m.managed;
    } else if Held(m, p) {
      var f := EntryAt(m.tables, KERNEL, p).frame;
      assert FrameOk(m, f);
      assert f !in m.freeList[..n];
    }
  }

  lemma TablesStay(m: FrameState, m': FrameState, area: Area)
    requires HasTables(m, area) && m'.tables.Keys == m.tables.Keys && WellSized(m'.tables)
    ensures HasTables(m', area)
  {
    forall p | area.base <= p < area.hi
      ensures HasTable(m'.tables, KERNEL, p)
    {
      assert HasTable(m.tables, KERNEL, p);
      assert (KERNEL, PDX(p)) in m'.tables;
    }
  }

  /** Pages of a run are not in any extent. */
  lemma RunIsUsed(k: Kernel, area: Area, s: nat, p: nat)
    requires Good(k, area) && InRun(k.live, s, p)
    ensures area.lo <= p < area.hi && !Covers(k.extents, p) && Held(k.mem, p)
  {
    assert LiveRun(k, area, s);
    assert RegionPage(k, p);
  }

  lemma KmallocPage(a: Kernel, b: Kernel, area: Area, s: nat, n: nat, p: nat)
    requires Good(a, area) && Kmallocs(a, b, s, n) && area.lo <= p < area.hi
    ensures RegionPage(b, p)
  {
    assert RegionPage(a, p);
    RunKeepsHeld(a.mem, b.mem, s, n, true, p);
    if s <= p < s + n {
      assert InRun(b.live, s, p);
    } else if Covers(a.extents, p) {
      if r: nat :| InRun(b.live, r, p) {
        assert InRun(a.live, r, p);
      }
    } else {
      var r: nat :| InRun(a.live, r, p);
      StartIsUsed(a, area, r);
      assert InRun(b.live, r, p);
    }
  }

  lemma StartIsUsed(k: Kernel, area: Area, s: nat)
    requires Good(k, area) && s in k.live
    ensures !Covers(k.extents, s) && InRun(k.live, s, s)
  {
    assert LiveRun(k, area, s);
    assert InRun(k.live, s, s);
    RunIsUsed(k, area, s, s);
  }

  lemma KmallocRuns(a: Kernel, b: Kernel, area: Area, s: nat, n: nat)
    requires Good(a, area) && Kmallocs(a, b, s, n)
    ensures forall r :: r in b.live ==> LiveRun(b, area, r)
    ensures forall r, q :: r in b.live && q in b.live && r < q ==> RunsApart(b, r, q)
  {
    assert Covers(a.extents, s) && Covers(a.extents, s + n - 1);
    forall r | r in b.live
      ensures LiveRun(b, area, r)
    {
      if r != s {
        assert LiveRun(a, area, r);
        forall j | 0 <= j < a.live[r]
          ensures MarkedAt(b.mem, r, b.live[r], j)
        {
          assert InRun(a.live, r, r + j) && MarkedAt(a.mem, r, a.live[r], j);
          RunIsUsed(a, area, r, r + j);
        }
      }
    }
    forall r, q | r in b.live && q in b.live && r < q
      ensures RunsApart(b, r, q)
    {
      if r != s && q != s {
        assert RunsApart(a, r, q);
      } else if r == s {
        StartIsUsed(a, area, q);
      } else if a.live[r] + r > s {
        RunIsUsed(a, area, r, s);
      }
    }
  }

  /** kmalloc keeps the invariant. */
  lemma KmallocGood(a: Kernel, b: Kernel, area: Area, s: nat, n: nat)
    requires Good(a, area) && Kmallocs(a, b, s, n) && Sound(b.mem)
    ensures Good(b, area)
  {
    TablesStay(a.mem, b.mem, area);
    KmallocRuns(a, b, area, s, n);
    assert Covers(a.extents, s);
    forall p | area.lo <= p < area.hi
      ensures RegionPage(b, p)
    {
      KmallocPage(a, b, area, s, n, p);
    }
    forall p | area.base <= p < b.brk
      ensures BlockPage(b.mem, p)
    {
      assert BlockPage(a.mem, p);
      RunKeepsHeld(a.mem, b.mem, s, n, true, p);
    }
    forall p | b.brk <= p < area.limit
      ensures Blank(b.mem, p)
    {
      assert Blank(a.mem, p);
      RunKeepsHeld(a.mem, b.mem, s, n, true, p);
    }
  }

  lemma UndoKeepsHeld(m: FrameState, m': FrameState, s: nat, n: nat, p: nat)
    requires UndoState(m, m', s, n) && (forall q: nat :: s <= q < s + n ==> Held(m, q)) && !(s <= p < s + n)
    ensures Held(m, p) ==> Held(m', p)
    ensures EntryAt(m'.tables, KERNEL, p) == EntryAt(m.tables, KERNEL, p)
  {
    if Held(m, p) {
      forall j | 0 <= j < n
        ensures FrameAt(m, s, j) != EntryAt(m.tables, KERNEL, p).frame
      {
        assert Held(m, s + j);
      }
    }
  }

  lemma RunHeld(k: Kernel, area: Area, s: nat)
    requires Good(k, area) && s in k.live
    ensures forall q: nat :: s <= q < s + k.live[s] ==> Held(k.mem, q)
  {
    forall q: nat | s <= q < s + k.live[s]
      ensures Held(k.mem, q)
    {
      assert InRun(k.live, s, q);
      RunIsUsed(k, area, s, q);
    }
  }

  /** A page is in one run at most. */
  lemma OneRun(k: Kernel, area: Area, r: nat, s: nat, p: nat)
    requires Good(k, area) && InRun(k.live, r, p) && InRun(k.live, s, p)
    ensures r == s
  {
    assert (r < s ==> RunsApart(k, r, s)) && (s < r ==> RunsApart(k, s, r));
  }

  lemma KfreePage(a: Kernel, b: Kernel, area: Area, s: nat, p: nat)
    requires Good(a, area) && Kfrees(a, b, s) && area.lo <= p < area.hi
    ensures RegionPage(b, p)
  {
    RunHeld(a, area, s);
    assert RegionPage(a, p);
    if s <= p < s + a.live[s] {
      if r: nat :| InRun(b.live, r, p) {
        OneRun(a, area, r, s, p);
      }
    } else {
      UndoKeepsHeld(a.mem, b.mem, s, a.live[s], p);
      if Covers(a.extents, p) {
        if r: nat :| InRun(b.live, r, p) {
          assert InRun(a.live, r, p);
        }
      } else {
        var r: nat :| InRun(a.live, r, p);
        assert InRun(b.live, r, p);
      }
    }
  }

  lemma KfreeRuns(a: Kernel, b: Kernel, area: Area, s: nat)
    requires Good(a, area) && Kfrees(a, b, s)
    ensures forall r :: r in b.live ==> LiveRun(b, area, r)
    ensures forall r, q :: r in b.live && q in b.live && r < q ==> RunsApart(b, r, q)
  {
    forall r | r in b.live
      ensures LiveRun(b, area, r)
    {
      assert LiveRun(a, area, r);
      assert r < s ==> RunsApart(a, r, s);
      assert s < r ==> RunsApart(a, s, r);
      forall j | 0 <= j < a.live[r]
        ensures MarkedAt(b.mem, r, b.live[r], j)
      {
        assert MarkedAt(a.mem, r, a.live[r], j);
      }
    }
    forall r, q | r in b.live && q in b.live && r < q
      ensures RunsApart(b, r, q)
    {
      assert RunsApart(a, r, q);
    }
  }

  /** kfree keeps the invariant. */
  lemma KfreeGood(a: Kernel, b: Kernel, area: Area, s: nat)
    requires Good(a, area) && Kfrees(a, b, s) && Sound(b.mem)
    ensures Good(b, area)
  {
    TablesStay(a.mem, b.mem, area);
    KfreeRuns(a, b, area, s);
    RunHeld(a, area, s);
    assert LiveRun(a, area, s);
    forall p | area.lo <= p < area.hi
      ensures RegionPage(b, p)
    {
      KfreePage(a, b, area, s, p);
    }
    forall p | area.base <= p < b.brk
      ensures BlockPage(b.mem, p)
    {
      assert BlockPage(a.mem, p);
      UndoKeepsHeld(a.mem, b.mem, s, a.live[s], p);
    }
    forall p | b.brk <= p < area.limit
      ensures Blank(b.mem, p)
    {
      assert Blank(a.mem, p);
      UndoKeepsHeld(a.mem, b.mem, s, a.live[s], p);
    }
  }

  // ---------------------------------------------------------------- kfree undoes kmalloc

  lemma SameTables(t: Tables, u: Tables)
    requires WellSized(t) && WellSized(u) && t.Keys == u.Keys
    requires forall c: nat, q: nat :: EntryAt(t, c, q) == EntryAt(u, c, q)
    ensures t == u
  {
    forall x: (nat, nat) | x in t
      ensures t[x] == u[x]
    {
      assert x == (x.0, x.1) && x in u.Keys;
      forall i | 0 <= i < ENTRIES
        ensures t[x][i] == u[x][i]
      {
        PageOf(x.1, i);
        assert EntryAt(t, x.0, x.1 * ENTRIES + i) == EntryAt(u, x.0, x.1 * ENTRIES + i);
      }
      assert |t[x]| == |u[x]| == ENTRIES;
    }
    assert forall x: (nat, nat) :: x in t <==> x in t.Keys;
    assert forall x: (nat, nat) :: x in u <==> x in u.Keys;
  }

  lemma UndoneEntries(a: FrameState, b: FrameState, c: FrameState, s: nat, n: nat)
    requires RunState(a, b, s, n, true, n) && UndoState(b, c, s, n)
    requires forall p: nat :: s <= p < s + n ==> Blank(a, p)
    ensures forall d: nat, q: nat :: EntryAt(c.tables, d, q) == EntryAt(a.tables, d, q)
  {
    forall d: nat, q: nat
      ensures EntryAt(c.tables, d, q) == EntryAt(a.tables, d, q)
    {
      assert EntryAt(b.tables, d, q) == EntryAt(b.tables, d, q);
      assert d == KERNEL && s <= q < s + n ==> Blank(a, q);
    }
  }

  lemma UndoneFrames(a: FrameState, b: FrameState, c: FrameState, s: nat, n: nat)
    requires Sound(a) && RunState(a, b, s, n, true, n) && UndoState(b, c, s, n)
    ensures c.frames == a.frames
  {
    forall j | 0 <= j < n
      ensures FrameAt(b, s, j) == a.freeList[j]
    {
    }
    forall f | 0 <= f < |a.frames|
      ensures c.frames[f] == a.frames[f]
    {
      if j :| 0 <= j < n && a.freeList[j] == f {
        assert FrameAt(b, s, j) == f;
        assert f in a.freeList && FrameOk(a, f);
      } else {
        assert f !in a.freeList[..n];
      }
    }
  }

  lemma UndoneList(a: FrameState, b: FrameState, c: FrameState, s: nat, n: nat)
    requires RunState(a, b, s, n, true, n) && UndoState(b, c, s, n)
    ensures |c.freeList| == |a.freeList|
    ensures forall j :: 0 <= j < |a.freeList| ==> c.freeList[j] == a.freeList[if j < n then n - 1 - j else j]
  {
    forall j | 0 <= j < |a.freeList|
      ensures c.freeList[j] == a.freeList[if j < n then n - 1 - j else j]
    {
      if j < n {
        assert FrameAt(b, s, n - 1 - j) == a.freeList[n - 1 - j];
        assert c.freeList[n - 1 - (n - 1 - j)] == FrameAt(b, s, n - 1 - j);
      } else {
        assert c.freeList[j] == c.freeList[n..][j - n];
        assert b.freeList[j - n] == a.freeList[n..][j - n];
      }
    }
  }

  /** kfree right after kmalloc restores the extents, the page tables and every frame's record, and gives
      back exactly the frames that were taken, in the opposite order. */
  lemma KfreeUndoesKmalloc(a: Kernel, b: Kernel, c: Kernel, area: Area, s: nat, n: nat)
    requires Good(a, area) && Kmallocs(a, b, s, n) && Kfrees(b, c, s) && WellSized(c.mem.tables)
    ensures c.extents == a.extents && c.live == a.live && c.brk == a.brk
    ensures c.mem.tables == a.mem.tables && c.mem.frames == a.mem.frames && c.mem.transit == a.mem.transit
    ensures |c.mem.freeList| == |a.mem.freeList|
    ensures forall j :: 0 <= j < |a.mem.freeList| ==>
      c.mem.freeList[j] == a.mem.freeList[if j < n then n - 1 - j else j]
  {
    TakeBack(a.extents, b.extents, c.extents, s, n);
    forall p: nat | s <= p < s + n
      ensures Blank(a.mem, p)
    {
      assert Covers(a.extents, p) && RegionPage(a, p);
    }
    UndoneEntries(a.mem, b.mem, c.mem, s, n);
    SameTables(c.mem.tables, a.mem.tables);
    UndoneFrames(a.mem, b.mem, c.mem, s, n);
    UndoneList(a.mem, b.mem, c.mem, s, n);
    if s in a.live {
      StartIsUsed(a, area, s);
    }
  }

  /** sbrk keeps the invariant. */
  lemma SbrkGood(a: Kernel, b: Kernel, area: Area, n: nat)
    requires Good(a, area) && a.brk + n <= area.limit && RunState(a.mem, b.mem, a.brk, n, false, n) && Sound(b.mem)
    requires b == Kernel(b.mem, a.extents, a.live, a.brk + n)
    ensures Good(b, area)
  {
    TablesStay(a.mem, b.mem, area);
    forall p | area.lo <= p < area.hi
      ensures RegionPage(b, p)
    {
      assert RegionPage(a, p);
      RunKeepsHeld(a.mem, b.mem, a.brk, n, false, p);
    }
    forall r | r in b.live
      ensures LiveRun(b, area, r)
    {
      assert LiveRun(a, area, r);
      forall j | 0 <= j < a.live[r]
        ensures MarkedAt(b.mem, r, b.live[r], j)
      {
        assert MarkedAt(a.mem, r, a.live[r], j);
      }
    }
    forall r, q | r in b.live && q in b.live && r < q
      ensures RunsApart(b, r, q)
    {
      assert RunsApart(a, r, q);
    }
    forall p | area.base <= p < b.brk
      ensures BlockPage(b.mem, p)
    {
      assert p < a.brk ==> BlockPage(a.mem, p);
      RunKeepsHeld(a.mem, b.mem, a.brk, n, false, p);
    }
    forall p | b.brk <= p < area.limit
      ensures Blank(b.mem, p)
    {
      assert Blank(a.mem, p);
      RunKeepsHeld(a.mem, b.mem, a.brk, n, false, p);
    }
  }

  // ---------------------------------------------------------------- the low bits

  /** Every page of blocks is present and writable, for the kernel only. */
  lemma BlockPageBits(k: Kernel, area: Area, p: nat)
    requires Good(k, area) && area.base <= p < k.brk
    ensures EntryAt(k.mem.tables, KERNEL, p).perm == 0x003
  {
    assert BlockPage(k.mem, p);
  }

  /** So is every page of a run; only the first and the last page of a run of two or more carry the mark. */
  lemma RunPageBits(k: Kernel, area: Area, s: nat, j: nat)
    requires Good(k, area) && s in k.live && j < k.live[s]
    ensures EntryAt(k.mem.tables, KERNEL, s + j).perm ==
      if k.live[s] > 1 && (j == 0 || j == k.live[s] - 1) then 0x203 else 0x003
  {
    assert LiveRun(k, area, s) && MarkedAt(k.mem, s, k.live[s], j);
  }

  // ---------------------------------------------------------------- address translation

  /** kheap_physical_address. */
  function PhysicalAddress(m: FrameState, va: nat): nat {
    var f := EntryAt(m.tables, KERNEL, va / PAGE_SIZE).frame;
    if f == 0 then 0 else f * PAGE_SIZE + va % PAGE_SIZE
  }

  /** kheap_virtual_address. */
  function VirtualAddress(m: FrameState, pa: nat): nat
    requires pa / PAGE_SIZE < |m.frames|
  {
    var info := m.frames[pa / PAGE_SIZE];
    if info.references == 0 then 0 else info.baseVa + pa % PAGE_SIZE
  }

  ghost predicate MappedPage(k: Kernel, area: Area, p: nat) {
    area.base <= p < k.brk || (area.lo <= p < area.hi && InLive(k.live, p))
  }

  ghost predicate HeapPage(area: Area, p: nat) {
    area.base <= p < area.limit || area.lo <= p < area.hi
  }

  lemma MappedIsHeld(k: Kernel, area: Area, p: nat)
    requires Good(k, area) && HeapPage(area, p)
    ensures if MappedPage(k, area, p) then Held(k.mem, p) else Blank(k.mem, p)
  {
    if area.lo <= p < area.hi {
      assert RegionPage(k, p);
    }
    assert area.base <= p < k.brk ==> BlockPage(k.mem, p);
  }

  lemma OffsetParts(f: nat, o: nat)
    requires o < PAGE_SIZE
    ensures (f * PAGE_SIZE + o) / PAGE_SIZE == f && (f * PAGE_SIZE + o) % PAGE_SIZE == o
  {
  }

  /** An address translates to 0 exactly when its page is not mapped; otherwise to one with the same offset
      that translates back. */
  ghost predicate TranslatesBack(k: Kernel, area: Area, va: nat) {
    var pa := PhysicalAddress(k.mem, va);
    && (pa != 0 <==> MappedPage(k, area, va / PAGE_SIZE))
    && (pa != 0 ==>
          pa / PAGE_SIZE < |k.mem.frames| && pa % PAGE_SIZE == va % PAGE_SIZE && VirtualAddress(k.mem, pa) == va)
  }

  /** Translating a mapped kernel heap address there and back gives the address, offset included; an
      address translates to 0 exactly when its page is not mapped. */
  lemma TranslationRoundTrip(k: Kernel, area: Area, va: nat)
    requires Good(k, area) && HeapPage(area, va / PAGE_SIZE)
    ensures TranslatesBack(k, area, va)
  {
    MappedIsHeld(k, area, va / PAGE_SIZE);
    if MappedPage(k, area, va / PAGE_SIZE) {
      OffsetParts(EntryAt(k.mem.tables, KERNEL, va / PAGE_SIZE).frame, va % PAGE_SIZE);
    }
  }

  /** Every mapped heap address with this physical address is what it translates to. */
  ghost predicate OnlyMapped(k: Kernel, area: Area, pa: nat)
    requires pa / PAGE_SIZE < |k.mem.frames|
  {
    forall x: nat {:trigger PhysicalAddress(k.mem, x)} ::
      MappedPage(k, area, x / PAGE_SIZE) && PhysicalAddress(k.mem, x) == pa ==> VirtualAddress(k.mem, pa) == x
  }

  lemma OnlyMappedAddress(k: Kernel, area: Area, pa: nat)
    requires Good(k, area) && pa / PAGE_SIZE < |k.mem.frames|
    ensures OnlyMapped(k, area, pa)
  {
    forall x: nat | MappedPage(k, area, x / PAGE_SIZE) && PhysicalAddress(k.mem, x) == pa
      ensures VirtualAddress(k.mem, pa) == x
    {
      TranslationRoundTrip(k, area, x);
    }
  }

  /** No two mapped kernel heap addresses share a physical address. */
  lemma TranslationIsInjective(k: Kernel, area: Area, va: nat, va': nat)
    requires Good(k, area) && MappedPage(k, area, va / PAGE_SIZE) && MappedPage(k, area, va' / PAGE_SIZE)
    requires PhysicalAddress(k.mem, va) == PhysicalAddress(k.mem, va')
    ensures va == va'
  {
    TranslationRoundTrip(k, area, va);
    TranslationRoundTrip(k, area, va');
  }

  /** Unreferenced frames translate to 0; so do, in particular, all free ones. */
  lemma FreeFramesTranslateToZero(m: FrameState, pa: nat)
    requires Sound(m) && pa / PAGE_SIZE in m.managed
    ensures pa / PAGE_SIZE < |m.frames|
    ensures Names(m.tables, pa / PAGE_SIZE) == {} ==> VirtualAddress(m, pa) == 0
    ensures pa / PAGE_SIZE in m.freeList ==> VirtualAddress(m, pa) == 0
  {
    assert FrameOk(m, pa / PAGE_SIZE);
  }

  // ---------------------------------------------------------------- mappings outside the heap

  /** Frame f backs no page of the kernel heap. */
  ghost predicate NotHeap(m: FrameState, area: Area, f: nat) {
    forall p :: area.base <= p < area.hi ==> EntryAt(m.tables, KERNEL, p).frame != f
  }

  /** The heap's own entries, and the records of its frames, are the same. */
  ghost predicate SameHeap(m: FrameState, m': FrameState, area: Area) {
    && m'.managed == m.managed && |m'.frames| == |m.frames|
    && forall p {:trigger EntryAt(m'.tables, KERNEL, p)} :: area.base <= p < area.hi ==>
      && EntryAt(m'.tables, KERNEL, p) == EntryAt(m.tables, KERNEL, p)
      && (Held(m, p) ==> m'.frames[EntryAt(m.tables, KERNEL, p).frame] == m.frames[EntryAt(m.tables, KERNEL, p).frame])
  }

  lemma SameHeapGood(k: Kernel, m': FrameState, area: Area)
    requires Good(k, area) && Sound(m') && HasTables(m', area) && SameHeap(k.mem, m', area)
    ensures Good(k.(mem := m'), area)
  {
    var b := k.(mem := m');
    forall p | area.lo <= p < area.hi
      ensures RegionPage(b, p)
    {
      assert RegionPage(k, p);
      assert EntryAt(m'.tables, KERNEL, p) == EntryAt(k.mem.tables, KERNEL, p);
    }
    forall r | r in b.live
      ensures LiveRun(b, area, r)
    {
      assert LiveRun(k, area, r);
      forall j | 0 <= j < k.live[r]
        ensures MarkedAt(b.mem, r, b.live[r], j)
      {
        assert MarkedAt(k.mem, r, k.live[r], j);
        assert EntryAt(m'.tables, KERNEL, r + j) == EntryAt(k.mem.tables, KERNEL, r + j);
      }
    }
    forall r, q | r in b.live && q in b.live && r < q
      ensures RunsApart(b, r, q)
    {
      assert RunsApart(k, r, q);
    }
    forall p | area.base <= p < area.limit
      ensures if p < k.brk then BlockPage(m', p) else Blank(m', p)
    {
      assert EntryAt(m'.tables, KERNEL, p) == EntryAt(k.mem.tables, KERNEL, p);
      assert if p < k.brk then BlockPage(k.mem, p) else Blank(k.mem, p);
    }
  }

  /** A frame that a heap page holds is named by no other entry. */
  lemma HeldOnce(m: FrameState, p: nat, d: nat, page: nat)
    requires Sound(m) && Held(m, p) && (d != KERNEL || page != p)
    ensures EntryAt(m.tables, d, page).frame != EntryAt(m.tables, KERNEL, p).frame
  {
    var f := EntryAt(m.tables, KERNEL, p).frame;
    assert FrameOk(m, f);
    NamesIff(m.tables, f, KERNEL, p);
    NamesIff(m.tables, f, d, page);
    Size(Names(m.tables, f), (KERNEL, p));
    assert Names(m.tables, f) - {(KERNEL, p)} == {};
  }

  /** Mapping and unmapping outside the heap leave it alone. */
  lemma MappedOutside(k: Kernel, area: Area, d: nat, f: nat, page: nat, perm: bv12)
    requires Good(k, area) && Mappable(k.mem, d, f, page) && NotHeap(k.mem, area, f) && f < |k.mem.frames|
    requires d != KERNEL || !(area.base <= page < area.hi)
    requires Sound(Mapped(k.mem, d, f, page, perm))
    ensures Good(k.(mem := Mapped(k.mem, d, f, page, perm)), area)
  {
    var m, m' := k.mem, Mapped(k.mem, d, f, page, perm);
    MappedSound(m, d, f, page, perm);
    forall p | area.base <= p < area.hi
      ensures EntryAt(m'.tables, KERNEL, p) == EntryAt(m.tables, KERNEL, p)
      ensures Held(m, p) ==>
        m'.frames[EntryAt(m.tables, KERNEL, p).frame] == m.frames[EntryAt(m.tables, KERNEL, p).frame]
    {
      if Held(m, p) {
        HeldOnce(m, p, d, page);
      }
    }
    TablesStay(m, m', area);
    SameHeapGood(k, m', area);
  }

  lemma UnmappedOutside(k: Kernel, area: Area, d: nat, page: nat)
    requires Good(k, area) && (d != KERNEL || !(area.base <= page < area.hi))
    ensures Good(k.(mem := Unmapped(k.mem, d, page)), area)
  {
    var m, m' := k.mem, Unmapped(k.mem, d, page);
    UnmappedSound(m, d, page);
    forall p | area.base <= p < area.hi
      ensures EntryAt(m'.tables, KERNEL, p) == EntryAt(m.tables, KERNEL, p)
      ensures Held(m, p) ==>
        m'.frames[EntryAt(m.tables, KERNEL, p).frame] == m.frames[EntryAt(m.tables, KERNEL, p).frame]
    {
      if Held(m, p) {
        HeldOnce(m, p, d, page);
      }
    }
    TablesStay(m, m', area);
    SameHeapGood(k, m', area);
  }

  // ---------------------------------------------------------------- the heap

  /** i is the lowest extent with at least n pages. */
  ghost predicate IsFirst(xs: seq<Extent>, n: nat, i: nat) {
    i < |xs| && n <= xs[i].pages && forall j :: 0 <= j < i ==> xs[j].pages < n
  }

  ghost predicate NoExtent(xs: seq<Extent>, n: nat) {
    forall j :: 0 <= j < |xs| ==> xs[j].pages < n
  }

  /** The list after the first n pages of extent i are given out. */
  function Taken(xs: seq<Extent>, i: nat, n: nat): seq<Extent>
    requires i < |xs| && n <= xs[i].pages
  {
    if xs[i].pages == n then xs[..i] + xs[i + 1..]
    else xs[i := Extent(xs[i].first + n, xs[i].pages - n)]
  }

  lemma TakenWithout(xs: seq<Extent>, i: nat, n: nat)
    requires Sorted(xs) && i < |xs| && n <= xs[i].pages
    ensures Without(xs, Taken(xs, i, n), xs[i].first, n)
    ensures forall p: nat :: xs[i].first <= p < xs[i].first + n ==> Covers(xs, p)
  {
    if xs[i].pages == n {
      RemoveWhole(xs, i);
    } else {
      CutFront(xs, i, n);
    }
    forall p: nat | xs[i].first <= p < xs[i].first + n
      ensures Covers(xs, p)
    {
      assert xs[i].Holds(p);
    }
  }

  lemma InitialGood(m: FrameState, b: Kernel, area: Area, pages: nat)
    requires Sound(m) && HasTables(m, area) && area.Ordered() && area.lo < area.hi && area.base + pages <= area.limit
    requires RunState(m, b.mem, area.base, pages, false, pages) && Sound(b.mem)
    requires forall p: nat :: area.base <= p < area.hi ==> Blank(m, p)
    requires b == Kernel(b.mem, [Extent(area.lo, area.hi - area.lo)], map[], area.base + pages)
    ensures Good(b, area)
  {
    TablesStay(m, b.mem, area);
    forall p: nat | area.base <= p < area.hi
      ensures if p < b.brk then BlockPage(b.mem, p) else Blank(b.mem, p)
    {
      assert Blank(m, p);
      RunKeepsHeld(m, b.mem, area.base, pages, false, p);
    }
    forall p: nat
      ensures Covers(b.extents, p) <==> area.lo <= p < area.hi
    {
      CoversOne(b.extents[0], p);
    }
  }

  class Heap {
    const fm: Manager
    const area: Area
    var freePages: seq<Extent>
    var brk: nat
    ghost var live: map<nat, nat>

    ghost function Now(): Kernel
      reads this, fm, fm.frames
    {
      Kernel(fm.Now(), freePages, live, brk)
    }

    /** initialize_kheap_dynamic_allocator maps the first pages of blocks; all page runs are one free extent. */
    constructor (fm: Manager, area: Area, pages: nat)
      requires Sound(fm.Now()) && HasTables(fm.Now(), area) && area.Ordered() && area.lo < area.hi
      requires area.base + pages <= area.limit && pages <= |fm.freeList|
      requires forall p: nat :: area.base <= p < area.hi ==> Blank(fm.Now(), p)
      modifies fm, fm.frames
      ensures this.fm == fm && this.area == area && Good(Now(), area)
      ensures brk == area.base + pages && freePages == [Extent(area.lo, area.hi - area.lo)] && live == map[]
    {
      this.fm, this.area := fm, area;
      freePages := [Extent(area.lo, area.hi - area.lo)];
      brk := area.base + pages;
      live := map[];
      new;
      ghost var m := fm.Now();
      MapRun(area.base, pages, false);
      InitialGood(m, Now(), area, pages);
    }

    /** sbrk, in pages: the old break, or nothing when the limit or the free frames do not allow it. */
    method Sbrk(n: nat) returns (r: Option<nat>)
      requires Good(Now(), area)
      modifies this`brk, fm, fm.frames
      ensures Good(Now(), area) && freePages == old(freePages) && live == old(live)
      ensures r.None? <==> n > 0 && (old(brk) + n > area.limit || n > |old(fm.freeList)|)
      ensures r.None? ==> Now() == old(Now())
      ensures r.Some? ==>
        r.value == old(brk) && brk == old(brk) + n && RunState(old(fm.Now()), fm.Now(), old(brk), n, false, n)
    {
      ghost var a := Now();
      if n > 0 {
        if brk + n > area.limit || |fm.freeList| < n {
          return None;
        }
      }
      MapRun(brk, n, false);
      r := Some(brk);
      brk := brk + n;
      SbrkGood(a, Now(), area, n);
    }

    /** The mapping loop of kmalloc and sbrk. */
    method MapRun(s: nat, n: nat, marked: bool)
      requires Sound(fm.Now()) && n <= |fm.freeList|
      requires forall p: nat :: s <= p < s + n ==> HasTable(fm.tables, KERNEL, p) && Blank(fm.Now(), p)
      modifies fm, fm.frames
      ensures RunState(old(fm.Now()), fm.Now(), s, n, marked, n) && Sound(fm.Now())
    {
      ghost var m := fm.Now();
      var k := 0;
      assert m.freeList[0..] == m.freeList;
      while k < n
        invariant k <= n && RunState(m, fm.Now(), s, n, marked, k) && Sound(fm.Now())
      {
        MapNext(m, s, n, marked, k);
        k := k + 1;
      }
    }

    /** One turn of that loop. */
    method MapNext(ghost m: FrameState, s: nat, n: nat, marked: bool, k: nat)
      requires Sound(m) && RunState(m, fm.Now(), s, n, marked, k) && Sound(fm.Now()) && k < n
      requires HasTable(m.tables, KERNEL, s + k) && Blank(m, s + k)
      modifies fm, fm.frames
      ensures RunState(m, fm.Now(), s, n, marked, k + 1) && Sound(fm.Now())
    {
      RunStep(m, fm.Now(), s, n, marked, k);
      var f := fm.AllocateFrame();
      fm.MapFrame(KERNEL, f, s + k, RunPerm(marked, n, k));
    }

    /** The search loop of kmalloc: the extent found gives up its first n pages. */
    method FindExtent(n: nat) returns (found: bool, s: nat, ghost i: nat)
      requires Sorted(freePages)
      modifies this`freePages
      ensures !found ==> NoExtent(old(freePages), n) && freePages == old(freePages)
      ensures found ==>
        IsFirst(old(freePages), n, i) && s == old(freePages)[i].first && freePages == Taken(old(freePages), i, n)
    {
      var k := 0;
      while k < |freePages|
        invariant k <= |freePages| && freePages == old(freePages)
        invariant forall j :: 0 <= j < k ==> freePages[j].pages < n
      {
        var element := freePages[k];
        if element.pages == n {
          freePages := freePages[..k] + freePages[k + 1..];
          return true, element.first, k;
        } else if element.pages > n {
          freePages := freePages[k := Extent(element.first + n, element.pages - n)];
          return true, element.first, k;
        }
        k := k + 1;
      }
      return false, 0, 0;
    }

    /** kmalloc for more than 2 KB: the first page of the run, or 0. */
    method Kmalloc(size: nat) returns (first: nat, ghost i: nat)
      requires Good(Now(), area) && MAX_BLOCK < size < WORD_LIMIT
      modifies this, fm, fm.frames
      ensures Good(Now(), area)
      ensures PagesFor(size) > |old(fm.freeList)| || NoExtent(old(freePages), PagesFor(size)) ==>
        first == 0 && Now() == old(Now())
      ensures PagesFor(size) <= |old(fm.freeList)| && !NoExtent(old(freePages), PagesFor(size)) ==>
        && IsFirst(old(freePages), PagesFor(size), i) && first == old(freePages)[i].first
        && if PagesFor(size) == 0 then Now() == old(Now()) else Kmallocs(old(Now()), Now(), first, PagesFor(size))
    {
      var n := PagesFor(size);
      if |fm.freeList| < n {
        return 0, 0;
      }
      ghost var a := Now();
      var found;
      found, first, i := FindExtent(n);
      if !found {
        return 0, 0;
      }
      TakenWithout(a.extents, i, n);
      if n == 0 {
        NothingTaken(a.extents, i);
        MapRun(first, 0, true);
        NothingMapped(a.mem, fm.Now(), first);
        return;
      }
      forall p: nat | first <= p < first + n
        ensures HasTable(fm.tables, KERNEL, p) && Blank(fm.Now(), p)
      {
        assert Covers(a.extents, p) && RegionPage(a, p);
      }
      MapRun(first, n, true);
      live := live[first := n];
      KmallocGood(a, Now(), area, first, n);
    }

    /** Clear the marks of page p and unmap it. */
    method ReleasePage(p: nat, ghost n: nat, ghost j: nat)
      requires Sound(fm.Now()) && Held(fm.Now(), p) && HasTable(fm.tables, KERNEL, p)
      requires EntryAt(fm.tables, KERNEL, p).perm == RunPerm(true, n, j)
      modifies fm, fm.frames
      ensures Sound(fm.Now()) && UndoOne(old(fm.Now()), fm.Now(), p, old(EntryAt(fm.tables, KERNEL, p)).frame)
    {
      ghost var m, e := fm.Now(), EntryAt(fm.tables, KERNEL, p);
      ClearedPerm(e.perm);
      fm.SetPagePermissions(KERNEL, p, 0, PERM_AVAILABLE);
      ghost var mc := fm.Now();
      ClearAndUnmap(m, mc, p, (e.perm | 0) & !PERM_AVAILABLE);
      fm.UnmapFrame(KERNEL, p);
    }

    /** One turn of kfree's walk. */
    method ReleaseNext(ghost m: FrameState, va: nat, k: nat, ghost n: nat)
      requires Sound(fm.Now()) && UndoState(m, fm.Now(), va, k) && Walkable(m, va, n) && k < n
      modifies fm, fm.frames
      ensures Sound(fm.Now()) && UndoState(m, fm.Now(), va, k + 1)
    {
      ghost var m1 := fm.Now();
      assert MarkedAt(m, va, n, k) && Held(m, va + k);
      StillHeld(m, m1, va, k);
      ReleasePage(va + k, n, k);
      UndoStep(m, m1, fm.Now(), va, k);
    }

    /** kfree's walk: from the first page to the next marked one, or one page when the first is unmarked. */
    method UnmapRun(va: nat) returns (last: nat, pageNo: nat)
      requires Good(Now(), area) && va in live
      modifies fm, fm.frames
      ensures Sound(fm.Now()) && UndoState(old(fm.Now()), fm.Now(), va, live[va])
      ensures pageNo == live[va] && last == va + pageNo - 1
    {
      RunHeld(Now(), area, va);
      RunTables(Now(), area, va);
      assert LiveRun(Now(), area, va);
      last, pageNo := Walk(va, live[va]);
    }

    method Walk(va: nat, ghost n: nat) returns (last: nat, pageNo: nat)
      requires Sound(fm.Now()) && Walkable(fm.Now(), va, n)
      modifies fm, fm.frames
      ensures Sound(fm.Now()) && UndoState(old(fm.Now()), fm.Now(), va, n)
      ensures pageNo == n && last == va + pageNo - 1
    {
      ghost var m := fm.Now();
      last, pageNo := va, 1;
      var marked := ReadMark(m, va, 0, n);
      if marked {
        var end := false;
        while !end
          invariant 1 <= pageNo <= n && last == va + pageNo - 1 && Sound(fm.Now())
          invariant UndoState(m, fm.Now(), va, if end then pageNo else pageNo - 1)
          invariant end ==> pageNo == n
          invariant !end ==> marked == IsMarked(n, pageNo - 1)
          decreases n - pageNo, !end
        {
          ReleaseNext(m, va, pageNo - 1, n);
          end := marked && pageNo > 1;
          if !end {
            last := last + 1;
            pageNo := pageNo + 1;
            marked := ReadMark(m, va, pageNo - 1, n);
          }
        }
      } else {
        ReleaseNext(m, va, 0, n);
      }
    }

    /** The second half of kfree: the pages from begin to last go back into the list, merged with what they touch. */
    method AddExtent(begin: nat, last: nat, pageNo: nat)
      requires Sorted(freePages) && pageNo > 0 && last == begin + pageNo - 1
      requires forall p: nat :: begin <= p < begin + pageNo ==> !Covers(freePages, p)
      modifies this`freePages
      ensures With(old(freePages), freePages, begin, pageNo)
    {
      ghost var xs := freePages;
      var k := 0;
      while k < |freePages| && freePages[k].first <= last
        invariant k <= |freePages| && freePages == xs
        invariant k > 0 ==> freePages[k - 1].first <= last
      {
        k := k + 1;
      }
      if k > 0 {
        EndsBelow(xs, k - 1, begin, pageNo);
      }
      RejoinedWith(xs, k, begin, pageNo);
      if k < |freePages| {
        var element := freePages[k];
        var diffRight := element.first - last;
        if k == 0 {
          if diffRight == 1 {
            freePages := freePages[0 := Extent(begin, element.pages + pageNo)];
          } else {
            freePages := [Extent(begin, pageNo)] + freePages;
          }
        } else {
          var prev := freePages[k - 1];
          var diffLeft := begin - (prev.first + prev.pages - 1);
          if diffRight == 1 && diffLeft != 1 {
            freePages := freePages[k := Extent(begin, element.pages + pageNo)];
          } else if diffRight != 1 && diffLeft == 1 {
            freePages := freePages[k - 1 := Extent(prev.first, prev.pages + pageNo)];
          } else if diffRight == 1 && diffLeft == 1 {
            freePages := freePages[k - 1 := Extent(prev.first, prev.pages + pageNo + element.pages)];
            freePages := freePages[..k] + freePages[k + 1..];
          } else {
            freePages := freePages[..k] + [Extent(begin, pageNo)] + freePages[k..];
          }
        }
      } else if |freePages| > 0 {
        var prev := freePages[|freePages| - 1];
        var diffLeft := begin - (prev.first + prev.pages - 1);
        if diffLeft == 1 {
          freePages := freePages[|freePages| - 1 := Extent(prev.first, prev.pages + pageNo)];
        } else {
          freePages := freePages + [Extent(begin, pageNo)];
        }
      } else {
        freePages := [Extent(begin, pageNo)];
      }
      assert freePages == Rejoined(xs, k, begin, pageNo);
    }

    /** kfree on the first page of a run, or on an unmapped page, for which it panics: then ok is false. */
    method Kfree(va: nat) returns (ok: bool)
      requires Good(Now(), area) && area.lo <= va < area.hi && (va in live || !InLive(live, va))
      modifies this, fm, fm.frames
      ensures Good(Now(), area) && (ok <==> va in old(live))
      ensures if ok then Kfrees(old(Now()), Now(), va) else Now() == old(Now())
    {
      ghost var a := Now();
      MappedIsHeld(a, area, va);
      if va in live {
        StartIsUsed(a, area, va);
      }
      if fm.GetFrameInfo(KERNEL, va) == 0 {
        return false;
      }
      RunUncovered(a, area, va);
      assert LiveRun(a, area, va);
      var last, pageNo := UnmapRun(va);
      AddExtent(va, last, pageNo);
      live := live - {va};
      KfreeGood(a, Now(), area, va);
      return true;
    }

    /** kheap_physical_address: 0 exactly for unmapped pages; otherwise an address with the same offset that
        kheap_virtual_address translates back. */
    function KheapPhysicalAddress(va: nat): (pa: nat)
      reads this, fm, fm.frames
      ensures Good(Now(), area) && HeapPage(area, va / PAGE_SIZE) ==>
        (pa != 0 <==> MappedPage(Now(), area, va / PAGE_SIZE))
      ensures Good(Now(), area) && MappedPage(Now(), area, va / PAGE_SIZE) ==>
        && pa == EntryAt(fm.tables, KERNEL, va / PAGE_SIZE).frame * PAGE_SIZE + va % PAGE_SIZE
        && pa / PAGE_SIZE < fm.frames.Length && KheapVirtualAddress(pa) == va
    {
      assert Good(Now(), area) && HeapPage(area, va / PAGE_SIZE) ==> TranslatesBack(Now(), area, va) by {
        if Good(Now(), area) && HeapPage(area, va / PAGE_SIZE) {
          TranslationRoundTrip(Now(), area, va);
        }
      }
      var f := fm.GetFrameInfo(KERNEL, va / PAGE_SIZE);
      if f == 0 then 0 else f * PAGE_SIZE + va % PAGE_SIZE
    }

    /** kheap_virtual_address: the one mapped heap address with this physical address; 0 for a frame that no
        entry names. to_frame_info panics beyond the last frame. */
    function KheapVirtualAddress(pa: nat): (va: nat)
      requires pa / PAGE_SIZE < fm.frames.Length
      reads this, fm, fm.frames
      ensures Good(Now(), area) ==> forall x: nat {:trigger PhysicalAddress(fm.Now(), x)} ::
        MappedPage(Now(), area, x / PAGE_SIZE) && PhysicalAddress(fm.Now(), x) == pa ==> va == x
      ensures Sound(fm.Now()) && pa / PAGE_SIZE in fm.managed && Names(fm.tables, pa / PAGE_SIZE) == {} ==> va == 0
      ensures va == VirtualAddress(fm.Now(), pa)
    {
      assert Good(Now(), area) ==> OnlyMapped(Now(), area, pa) by {
        if Good(Now(), area) {
          OnlyMappedAddress(Now(), area, pa);
        }
      }
      assert Sound(fm.Now()) && pa / PAGE_SIZE in fm.managed ==> FrameOk(fm.Now(), pa / PAGE_SIZE);
      var info := fm.frames[pa / PAGE_SIZE];
      if info.references == 0 then 0 else info.baseVa + (pa - pa / PAGE_SIZE * PAGE_SIZE)
    }

    /** create_page_table: one page of kernel heap becomes an empty table; false where the source panics. */
    method CreatePageTable(d: nat, page: nat) returns (ok: bool)
      requires Good(Now(), area) && !HasTable(fm.tables, d, page)
      modifies this, fm, fm.frames
      ensures Good(Now(), area)
      ensures !ok ==> Now() == old(Now())
      ensures ok ==> HasTable(fm.tables, d, page) && TableTaken(old(Now()), Now(), area)
    {
      ghost var a, i := Now(), 0;
      var first;
      first, i := Kmalloc(PAGE_SIZE);
      assert PagesFor(PAGE_SIZE) == 1;
      if first == 0 {
        assert Kmallocs(a, Now(), first, 1) ==> Covers(a.extents, first);
        return false;
      }
      assert Covers(a.extents, first);
      if first in a.live {
        StartIsUsed(a, area, first);
      }
      ghost var k := Now();
      fm.AddTable(d, page);
      SameHeapGood(k, fm.Now(), area);
      TookTable(a, k, Now(), area, first);
      return true;
    }

    /** map_frame: a missing table is made first; false where the source panics, and then nothing has changed. */
    method MapFrame(d: nat, f: nat, page: nat, perm: bv12) returns (ok: bool)
      requires Good(Now(), area) && f in fm.managed && f !in fm.freeList && f < fm.frames.Length
      requires NotHeap(fm.Now(), area, f) && fm.frames[f].references < MAX_REFERENCES
      requires d != KERNEL || !(area.base <= page < area.hi)
      modifies this, fm, fm.frames
      ensures Good(Now(), area)
      ensures !ok ==> Now() == old(Now())
      ensures ok && HasTable(old(fm.tables), d, page) ==>
        Now() == old(Now()).(mem := Mapped(old(fm.Now()), d, f, page, perm))
      ensures ok && !HasTable(old(fm.tables), d, page) ==>
        exists k: Kernel :: TableTaken(old(Now()), k, area) && MapsIn(k, Now(), d, f, page, perm)
    {
      ghost var a := Now();
      if !HasTable(fm.tables, d, page) {
        ok := CreatePageTable(d, page);
        if !ok {
          return;
        }
        TableLeavesFrame(a, Now(), area, f);
      }
      ghost var k := Now();
      MappedSound(k.mem, d, f, page, perm);
      MappedOutside(k, area, d, f, page, perm);
      fm.MapFrame(d, f, page, perm);
      ok := true;
    }

    /** unmap_frame, outside the heap. */
    method UnmapFrame(d: nat, page: nat)
      requires Good(Now(), area) && (d != KERNEL || !(area.base <= page < area.hi))
      modifies fm, fm.frames
      ensures Good(Now(), area) && Now() == old(Now()).(mem := Unmapped(old(fm.Now()), d, page))
    {
      UnmappedOutside(Now(), area, d, page);
      fm.UnmapFrame(d, page);
    }

    /** Whether page k of the run is marked, while the first k pages are already unmapped. */
    method ReadMark(ghost m: FrameState, va: nat, k: nat, ghost n: nat) returns (marked: bool)
      requires UndoState(m, fm.Now(), va, k) && Walkable(m, va, n) && k < n
      ensures marked == IsMarked(n, k)
    {
      assert MarkedAt(m, va, n, k);
      MarkMeans(n, k);
      var permissions := EntryAt(fm.tables, KERNEL, va + k).perm;
      marked := permissions & MARK == MARK;
    }
  }

  /** The pages va .. va + n - 1 are held and marked as one run. */
  ghost predicate Walkable(m: FrameState, va: nat, n: nat) {
    && n > 0 && (forall j :: 0 <= j < n ==> MarkedAt(m, va, n, j))
    && forall p: nat :: va <= p < va + n ==> Held(m, p) && HasTable(m.tables, KERNEL, p)
  }

  /** The pages of a run of n that carry a mark. */
  predicate IsMarked(n: nat, k: nat) {
    n > 1 && (k == 0 || k == n - 1)
  }

  lemma MarkMeans(n: nat, k: nat)
    ensures RunPerm(true, n, k) & MARK == MARK <==> IsMarked(n, k)
  {
    ClearedPerm(RunPerm(true, n, k));
  }

  /** Two states of the tables read the same but at page s of the kernel's directory. */
  ghost predicate SameEntriesBut(t: Tables, t': Tables, s: nat) {
    forall c: nat, q: nat {:trigger EntryAt(t', c, q)} :: c != KERNEL || q != s ==>
      EntryAt(t', c, q) == EntryAt(t, c, q)
  }

  /** A heap page s was taken for a new, empty table: one frame fewer is free, and every entry but that
      page's reads the same. */
  ghost predicate TookPage(a: Kernel, b: Kernel, area: Area, s: nat) {
    && area.lo <= s < area.hi && s !in a.live && b.live == a.live[s := 1]
    && |a.mem.freeList| > 0 && b.mem.freeList == a.mem.freeList[1..]
    && EntryAt(b.mem.tables, KERNEL, s).frame == a.mem.freeList[0]
    && SameEntriesBut(a.mem.tables, b.mem.tables, s) && Blank(a.mem, s)
    && b.mem.managed == a.mem.managed && b.mem.transit == a.mem.transit && |b.mem.frames| == |a.mem.frames|
    && forall f :: 0 <= f < |a.mem.frames| && f != a.mem.freeList[0] ==> b.mem.frames[f] == a.mem.frames[f]
  }

  ghost predicate TableTaken(a: Kernel, b: Kernel, area: Area) {
    exists s :: TookPage(a, b, area, s)
  }

  lemma TookTable(a: Kernel, k: Kernel, b: Kernel, area: Area, s: nat)
    requires Good(a, area) && Kmallocs(a, k, s, 1) && s !in a.live && b == k.(mem := b.mem)
    requires b.mem == k.mem.(tables := b.mem.tables)
    requires forall c: nat, q: nat :: EntryAt(b.mem.tables, c, q) == EntryAt(k.mem.tables, c, q)
    ensures TableTaken(a, b, area)
  {
    assert Covers(a.extents, s) && RegionPage(a, s);
    assert TookPage(a, b, area, s);
  }

  lemma TableLeavesFrame(a: Kernel, b: Kernel, area: Area, f: nat)
    requires Good(a, area) && TableTaken(a, b, area) && f in a.mem.managed && f !in a.mem.freeList && f < |a.mem.frames|
    requires NotHeap(a.mem, area, f)
    ensures NotHeap(b.mem, area, f) && f !in b.mem.freeList && f < |b.mem.frames| && b.mem.frames[f] == a.mem.frames[f]
  {
    var s: nat :| TookPage(a, b, area, s);
    assert a.mem.freeList[0] in a.mem.freeList;
    forall p | area.base <= p < area.hi
      ensures EntryAt(b.mem.tables, KERNEL, p).frame != f
    {
      assert EntryAt(a.mem.tables, KERNEL, p).frame != f;
    }
  }

  ghost predicate MapsIn(k: Kernel, b: Kernel, d: nat, f: nat, page: nat, perm: bv12) {
    f < |k.mem.frames| && HasTable(k.mem.tables, d, page) && b == k.(mem := Mapped(k.mem, d, f, page, perm))
  }

  lemma RunUncovered(k: Kernel, area: Area, s: nat)
    requires Good(k, area) && s in k.live
    ensures forall p: nat :: s <= p < s + k.live[s] ==> !Covers(k.extents, p)
  {
    forall p: nat | s <= p < s + k.live[s]
      ensures !Covers(k.extents, p)
    {
      assert InRun(k.live, s, p);
      RunIsUsed(k, area, s, p);
    }
  }

  lemma RunTables(k: Kernel, area: Area, s: nat)
    requires Good(k, area) && s in k.live
    ensures forall p: nat :: s <= p < s + k.live[s] ==> HasTable(k.mem.tables, KERNEL, p)
  {
    assert LiveRun(k, area, s);
  }

  lemma NothingTaken(xs: seq<Extent>, i: nat)
    requires Sorted(xs) && i < |xs|
    ensures Taken(xs, i, 0) == xs
  {
    assert Nonempty(xs, i);
  }

  lemma NothingMapped(m: FrameState, m': FrameState, s: nat)
    requires RunState(m, m', s, 0, true, 0) && Sound(m) && Sound(m')
    ensures m' == m
  {
    forall c: nat, q: nat
      ensures EntryAt(m'.tables, c, q) == EntryAt(m.tables, c, q)
    {
    }
    SameTables(m.tables, m'.tables);
    assert m'.frames == m.frames;
  }
}
