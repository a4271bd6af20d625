/** The page file: disk frames, the disk page tables of each environment, and the pages written through them. */
module PageFile {
  import opened Machine
  import opened Wrappers
  import opened FrameManager

  type Page = seq<bv8>

  const USER_HEAP_START := 0x8000_0000
  const USER_HEAP_MAX := 0xA000_0000
  const USER_TOP := 0xEEC0_0000
  const USTACKTOP := USER_TOP - 2 * PAGE_SIZE
  const KERNEL_BASE := 0xF000_0000

  /** sizeof(struct WorkingSetElement). */
  const ELEMENT_SIZE := 24

  /** The stack begins above the room reserved for working sets; the product in its definition wraps. */
  const USTACKBOTTOM := PagesFor(USER_HEAP_MAX + (ELEMENT_SIZE * USER_TOP) % WORD_LIMIT / PAGE_SIZE) * PAGE_SIZE

  /** The addresses whose pages an update may add: the user heap and the user stack. */
  predicate InUserRange(va: nat) {
    USER_HEAP_START <= va < USER_HEAP_MAX || USTACKBOTTOM <= va < USTACKTOP
  }

  /** Page directory entries below USER_TOP, and the pages they reach. */
  const USER_TABLES := 955
  const USER_PAGES := USER_TABLES * ENTRIES

  /** Pages below KERNEL_BASE: those that may be added. */
  const KERNEL_PAGES := 0xF0000

  /** The page numbers are those of the addresses. */
  lemma PagesOfAddresses(va: nat)
    ensures va / PAGE_SIZE < USER_PAGES <==> va < USER_TOP == 0xEEC0_0000
    ensures va / PAGE_SIZE < KERNEL_PAGES <==> va < KERNEL_BASE == 0xF000_0000
    ensures InUserRange(va / PAGE_SIZE * PAGE_SIZE) <==>
      0x8000_0000 <= va < 0xA000_0000 || 0xA006_2000 <= va < 0xEEBF_E000
  {
  }

  // ---------------------------------------------------------------- pages that have a disk frame

  /** The pages, of all environments, that have a disk frame. */
  ghost function Used(t: Tables): set<(nat, nat)> {
    set s: (nat, nat), i: nat | s in t && i < |t[s]| && t[s][i].frame != 0 :: (s.0, s.1 * ENTRIES + i)
  }

  lemma UsedIff(t: Tables, e: nat, p: nat)
    requires WellSized(t)
    ensures (e, p) in Used(t) <==> EntryAt(t, e, p).frame != 0
  {
    if (e, p) in Used(t) {
      var s: (nat, nat), i: nat :| s in t && i < |t[s]| && t[s][i].frame != 0 && (e, p) == (s.0, s.1 * ENTRIES + i);
      PageOf(s.1, i);
      assert s == (e, PDX(p));
    }
    if EntryAt(t, e, p).frame != 0 {
      var s: (nat, nat), i: nat := (e, PDX(p)), PTX(p);
      assert s in t && t[s][i].frame != 0 && (e, p) == (s.0, s.1 * ENTRIES + i);
    }
  }

  lemma UsedMoves(t: Tables, t': Tables, e: nat, p: nat, x: Entry)
    requires WellSized(t) && OneEntry(t, t', e, p, x)
    ensures Used(t') == if x.frame != 0 then Used(t) + {(e, p)} else Used(t) - {(e, p)}
    ensures |Used(t')| == |Used(t)| - (if EntryAt(t, e, p).frame != 0 then 1 else 0) + (if x.frame != 0 then 1 else 0)
  {
    var n := if x.frame != 0 then Used(t) + {(e, p)} else Used(t) - {(e, p)};
    forall y | y in Used(t') || y in n
      ensures y in Used(t') && y in n
    {
      assert y == (y.0, y.1);
      UsedIff(t, y.0, y.1);
      UsedIff(t', y.0, y.1);
    }
    UsedIff(t, e, p);
    Size(Used(t), (e, p));
  }

  /** Every page has the same frame, or none, in both. */
  ghost predicate SameFrames(t: Tables, t': Tables) {
    forall c: nat, q: nat :: EntryAt(t', c, q).frame == EntryAt(t, c, q).frame
  }

  /** Tables that read the same use the same pages. */
  lemma SameUsed(t: Tables, t': Tables)
    requires WellSized(t) && WellSized(t') && SameFrames(t, t')
    ensures Used(t') == Used(t)
    ensures forall f :: f != 0 ==> Names(t', f) == Names(t, f)
  {
    forall y | y in Used(t') || y in Used(t)
      ensures y in Used(t') && y in Used(t)
    {
      assert y == (y.0, y.1);
      UsedIff(t, y.0, y.1);
      UsedIff(t', y.0, y.1);
    }
    forall f | f != 0
      ensures Names(t', f) == Names(t, f)
    {
      forall y | y in Names(t', f) || y in Names(t, f)
        ensures y in Names(t', f) && y in Names(t, f)
      {
        assert y == (y.0, y.1);
        NamesIff(t, f, y.0, y.1);
        NamesIff(t', f, y.0, y.1);
      }
    }
  }

  // ---------------------------------------------------------------- the invariant

  /** n disk frames, of which frame 0 is never used. lost is history: frames that left with the tables of an
      environment without being freed. */
  datatype File = File(free: seq<nat>, lost: set<nat>, tables: Tables, n: nat)

  /** A disk frame is free, or lost, or backs exactly one page. */
  ghost predicate DiskFrameOk(f: File, d: nat) {
    |Names(f.tables, d)| == if d in f.free || d in f.lost then 0 else 1
  }

  ghost predicate PageOk(f: File, e: nat, p: nat) {
    EntryAt(f.tables, e, p).frame != 0 ==> EntryAt(f.tables, e, p).frame < f.n && p < KERNEL_PAGES
  }

  ghost predicate FileOk(f: File) {
    && f.n > 0 && WellSized(f.tables) && Distinct(f.free)
    && (forall d :: d in f.free ==> 0 < d < f.n && d !in f.lost)
    && (forall d :: d in f.lost ==> 0 < d < f.n)
    && (forall d :: 0 < d < f.n ==> DiskFrameOk(f, d))
    && (forall e, p :: PageOk(f, e, p))
    && |f.free| + |Used(f.tables)| + |f.lost| == f.n - 1
  }

  /** No disk frame backs two pages. */
  lemma FramesAreNotShared(f: File, e: nat, p: nat, e': nat, p': nat)
    requires FileOk(f) && EntryAt(f.tables, e, p).frame != 0
    requires EntryAt(f.tables, e, p).frame == EntryAt(f.tables, e', p').frame
    ensures e == e' && p == p'
    ensures EntryAt(f.tables, e, p).frame !in f.free && EntryAt(f.tables, e, p).frame !in f.lost
  {
    var d := EntryAt(f.tables, e, p).frame;
    assert PageOk(f, e, p) && Distinct(f.free);
    assert DiskFrameOk(f, d);
    NamesIff(f.tables, d, e, p);
    NamesIff(f.tables, d, e', p');
    Size(Names(f.tables, d), (e, p));
    assert d !in f.free && d !in f.lost ==> Names(f.tables, d) - {(e, p)} == {};
  }

  /** A free frame is given to a page that had none. */
  function Claimed(f: File, e: nat, p: nat): File
    requires |f.free| > 0 && HasTable(f.tables, e, p)
  {
    f.(free := f.free[1..], tables := SetEntry(f.tables, e, p, Entry(f.free[0], 0)))
  }

  /** The frame of a page, if any, is free again. */
  function Released(f: File, e: nat, p: nat): File
    requires HasTable(f.tables, e, p)
  {
    var d := EntryAt(f.tables, e, p).frame;
    f.(free := if d == 0 then f.free else [d] + f.free, tables := SetEntry(f.tables, e, p, EMPTY))
  }

  lemma HeadLeaves(xs: seq<nat>)
    requires |xs| > 0 && Distinct(xs)
    ensures Distinct(xs[1..]) && forall x :: x in xs[1..] <==> x in xs && x != xs[0]
  {
    assert xs == [xs[0]] + xs[1..];
  }

  lemma ClaimedSound(f: File, e: nat, p: nat)
    requires FileOk(f) && |f.free| > 0 && HasTable(f.tables, e, p) && EntryAt(f.tables, e, p).frame == 0
    requires p < KERNEL_PAGES
    ensures FileOk(Claimed(f, e, p)) && 0 < f.free[0] < f.n
    ensures OneEntry(f.tables, Claimed(f, e, p).tables, e, p, Entry(f.free[0], 0))
  {
    var d, g := f.free[0], Claimed(f, e, p);
    assert d in f.free;
    SetEntryIsUpdate(f.tables, e, p, Entry(d, 0));
    UsedMoves(f.tables, g.tables, e, p, Entry(d, 0));
    HeadLeaves(f.free);
    forall c | 0 < c < g.n
      ensures DiskFrameOk(g, c)
    {
      ClaimedFrame(f, e, p, c);
    }
    forall c: nat, q: nat
      ensures PageOk(g, c, q)
    {
      assert PageOk(f, c, q);
    }
  }

  lemma ClaimedFrame(f: File, e: nat, p: nat, c: nat)
    requires FileOk(f) && |f.free| > 0 && HasTable(f.tables, e, p) && EntryAt(f.tables, e, p).frame == 0 && 0 < c < f.n
    ensures DiskFrameOk(Claimed(f, e, p), c)
  {
    var d, g := f.free[0], Claimed(f, e, p);
    SetEntryIsUpdate(f.tables, e, p, Entry(d, 0));
    HeadLeaves(f.free);
    assert DiskFrameOk(f, c) && d in f.free;
    NamesAfter(f.tables, g.tables, e, p, Entry(d, 0), c);
  }

  lemma ReleasedSound(f: File, e: nat, p: nat)
    requires FileOk(f) && HasTable(f.tables, e, p)
    ensures FileOk(Released(f, e, p)) && OneEntry(f.tables, Released(f, e, p).tables, e, p, EMPTY)
  {
    var d, g := EntryAt(f.tables, e, p).frame, Released(f, e, p);
    assert PageOk(f, e, p);
    SetEntryIsUpdate(f.tables, e, p, EMPTY);
    UsedMoves(f.tables, g.tables, e, p, EMPTY);
    if d != 0 {
      FramesAreNotShared(f, e, p, e, p);
      Prepend(f.free, d);
    }
    forall c | 0 < c < g.n
      ensures DiskFrameOk(g, c)
    {
      assert DiskFrameOk(f, c);
      NamesAfter(f.tables, g.tables, e, p, EMPTY, c);
    }
    forall c: nat, q: nat
      ensures PageOk(g, c, q)
    {
      assert PageOk(f, c, q);
    }
  }

  /** A change of tables that reads the same keeps the books. */
  lemma SameReadingSound(f: File, t: Tables)
    requires FileOk(f) && WellSized(t) && SameFrames(f.tables, t)
    ensures FileOk(f.(tables := t))
  {
    var g := f.(tables := t);
    SameUsed(f.tables, t);
    forall d | 0 < d < g.n
      ensures DiskFrameOk(g, d)
    {
      assert DiskFrameOk(f, d);
    }
    forall c: nat, q: nat
      ensures PageOk(g, c, q)
    {
      assert PageOk(f, c, q);
    }
  }

  // ---------------------------------------------------------------- frames that nobody frees

  /** A page's table goes away without its frame being freed. */
  function Abandoned(f: File, e: nat, p: nat): File
  {
    var d := EntryAt(f.tables, e, p).frame;
    if d == 0 then f else f.(lost := f.lost + {d}, tables := SetEntry(f.tables, e, p, EMPTY))
  }

  lemma AbandonedOk(f: File, e: nat, p: nat)
    requires FileOk(f) && EntryAt(f.tables, e, p).frame != 0
    ensures FileOk(Abandoned(f, e, p)) && OneEntry(f.tables, Abandoned(f, e, p).tables, e, p, EMPTY)
  {
    var d, g := EntryAt(f.tables, e, p).frame, Abandoned(f, e, p);
    assert PageOk(f, e, p);
    FramesAreNotShared(f, e, p, e, p);
    SetEntryIsUpdate(f.tables, e, p, EMPTY);
    UsedMoves(f.tables, g.tables, e, p, EMPTY);
    forall c | 0 < c < g.n
      ensures DiskFrameOk(g, c)
    {
      assert DiskFrameOk(f, c);
      NamesAfter(f.tables, g.tables, e, p, EMPTY, c);
    }
    forall c: nat, q: nat
      ensures PageOk(g, c, q)
    {
      assert PageOk(f, c, q);
    }
  }

  /** The same for all pages of environment e below k. */
  function AllAbandoned(f: File, e: nat, k: nat): File {
    if k == 0 then f else Abandoned(AllAbandoned(f, e, k - 1), e, k - 1)
  }

  /** g is f with the pages of e below k, and nothing else, abandoned. */
  ghost predicate AbandonedBelow(f: File, g: File, e: nat, k: nat) {
    && FileOk(g) && g.n == f.n && g.free == f.free
    && (forall c: nat, q: nat {:trigger EntryAt(g.tables, c, q)} :: EntryAt(g.tables, c, q).frame ==
          if c == e && q < k then 0 else EntryAt(f.tables, c, q).frame)
    && (forall d :: d in g.lost <==> d in f.lost || BacksBelow(f.tables, e, k, d))
  }

  /** Frame d backs a page of environment e below k. */
  ghost predicate BacksBelow(t: Tables, e: nat, k: nat, d: nat) {
    d != 0 && exists p: nat :: p < k && EntryAt(t, e, p).frame == d
  }

  lemma {:induction false} AllAbandonedOk(f: File, e: nat, k: nat)
    requires FileOk(f)
    ensures AbandonedBelow(f, AllAbandoned(f, e, k), e, k)
  {
    if k > 0 {
      AllAbandonedOk(f, e, k - 1);
      var g := AllAbandoned(f, e, k - 1);
      assert EntryAt(g.tables, e, k - 1).frame == EntryAt(f.tables, e, k - 1).frame;
      if EntryAt(g.tables, e, k - 1).frame != 0 {
        AbandonedOk(g, e, k - 1);
      }
      AbandonMore(f, g, e, k);
    }
  }

  lemma AbandonMore(f: File, g: File, e: nat, k: nat)
    requires k > 0 && AbandonedBelow(f, g, e, k - 1) && FileOk(Abandoned(g, e, k - 1))
    requires EntryAt(g.tables, e, k - 1).frame != 0 ==>
      OneEntry(g.tables, Abandoned(g, e, k - 1).tables, e, k - 1, EMPTY)
    ensures AbandonedBelow(f, Abandoned(g, e, k - 1), e, k)
  {
    var h := Abandoned(g, e, k - 1);
    assert EntryAt(g.tables, e, k - 1).frame == EntryAt(f.tables, e, k - 1).frame;
    forall d: nat
      ensures d in h.lost <==> d in f.lost || BacksBelow(f.tables, e, k, d)
    {
      if BacksBelow(f.tables, e, k, d) && !BacksBelow(f.tables, e, k - 1, d) {
        var p: nat :| p < k && EntryAt(f.tables, e, p).frame == d;
        assert p == k - 1;
      }
    }
  }

  // ---------------------------------------------------------------- the abstract page file

  /** What the page file holds for a page: nothing, or the contents of its disk frame. */
  ghost function Content(t: Tables, disk: seq<Page>, e: nat, p: nat): Option<Page> {
    var d := EntryAt(t, e, p).frame;
    if d == 0 || d >= |disk| then None else Some(disk[d])
  }

  /** Only what the page file holds for one page is different. */
  ghost predicate OnePage(t: Tables, disk: seq<Page>, t': Tables, disk': seq<Page>, e: nat, p: nat, x: Option<Page>) {
    forall c: nat, q: nat {:trigger Content(t', disk', c, q)} ::
      Content(t', disk', c, q) == if c == e && q == p then x else Content(t, disk, c, q)
  }

  /** The pages below k of environment e that have a disk frame. */
  ghost function UsedBelow(t: Tables, e: nat, k: nat): set<nat> {
    set p: nat | p < k && EntryAt(t, e, p).frame != 0
  }

  lemma WrittenOnce(f: File, t: Tables, disk: seq<Page>, disk': seq<Page>, e: nat, p: nat, data: Page)
    requires FileOk(f) && f.n == |disk| == |disk'|
    requires var d := EntryAt(f.tables, e, p).frame; 0 < d < f.n && disk' == disk[d := data]
    requires forall c: nat, q: nat :: c != e || q != p ==> EntryAt(f.tables, c, q) == EntryAt(t, c, q)
    ensures OnePage(t, disk, f.tables, disk', e, p, Some(data))
  {
    forall c: nat, q: nat
      ensures Content(f.tables, disk', c, q) == if c == e && q == p then Some(data) else Content(t, disk, c, q)
    {
      assert c != e || q != p ==> EntryAt(f.tables, c, q) == EntryAt(t, c, q);
      if (c != e || q != p) && EntryAt(f.tables, c, q).frame == EntryAt(f.tables, e, p).frame {
        FramesAreNotShared(f, c, q, e, p);
      }
    }
  }

  lemma CountOne(t: Tables, e: nat, k: nat)
    ensures |UsedBelow(t, e, k + 1)| == |UsedBelow(t, e, k)| + (if EntryAt(t, e, k).frame != 0 then 1 else 0)
  {
    if EntryAt(t, e, k).frame != 0 {
      assert UsedBelow(t, e, k + 1) == UsedBelow(t, e, k) + {k};
    } else {
      assert UsedBelow(t, e, k + 1) == UsedBelow(t, e, k);
    }
  }

  /** A missing table has no pages. */
  lemma CountNone(t: Tables, e: nat, i: nat)
    requires !HasTable(t, e, i * ENTRIES)
    ensures UsedBelow(t, e, (i + 1) * ENTRIES) == UsedBelow(t, e, i * ENTRIES)
  {
    PageOf(i, 0);
    forall p: nat | i * ENTRIES <= p < (i + 1) * ENTRIES
      ensures EntryAt(t, e, p).frame == 0
    {
      PageOf(i, p - i * ENTRIES);
    }
  }

  /** Environment e has no page at or above USER_TOP: what pf_free_env and the count rely on. */
  ghost predicate NoneAbove(t: Tables, e: nat) {
    forall p: nat :: p * PAGE_SIZE >= USER_TOP ==> EntryAt(t, e, p).frame == 0
  }

  /** The pages below USER_TOP are all the pages exactly when there is none above. */
  lemma CountIsComplete(f: File, e: nat)
    requires FileOk(f)
    ensures |UsedBelow(f.tables, e, USER_PAGES)| == |UsedBelow(f.tables, e, KERNEL_PAGES)| <==> NoneAbove(f.tables, e)
    ensures forall p: nat :: p in UsedBelow(f.tables, e, KERNEL_PAGES) <==> EntryAt(f.tables, e, p).frame != 0
  {
    var a, b := UsedBelow(f.tables, e, USER_PAGES), UsedBelow(f.tables, e, KERNEL_PAGES);
    forall p: nat
      ensures p in b <==> EntryAt(f.tables, e, p).frame != 0
    {
      assert PageOk(f, e, p);
    }
    assert a <= b;
    if NoneAbove(f.tables, e) {
      assert a == b;
    } else {
      var p: nat :| p >= USER_PAGES && EntryAt(f.tables, e, p).frame != 0;
      assert p in b && p !in a;
      Smaller(a, b, p);
    }
  }

  lemma Smaller(a: set<nat>, b: set<nat>, x: nat)
    requires a <= b && x in b && x !in a
    ensures |a| < |b|
  {
    var c := b - {x};
    assert b == c + {x} && a <= c;
    Fewer(a, c);
  }

  lemma {:induction false} Fewer(a: set<nat>, b: set<nat>)
    requires a <= b
    ensures |a| <= |b|
    decreases |a|
  {
    if x :| x in a {
      Fewer(a - {x}, b - {x});
    }
  }

  /** It happens: the only page of environment 0 is the first one above USER_TOP, and is not counted. */
  lemma PageAboveWitness() returns (f: File)
    ensures FileOk(f) && EntryAt(f.tables, 0, USER_PAGES).frame == 1 && !NoneAbove(f.tables, 0)
    ensures |UsedBelow(f.tables, 0, USER_PAGES)| == 0 && |UsedBelow(f.tables, 0, KERNEL_PAGES)| == 1
  {
    var t: Tables := map[(0, USER_TABLES) := seq(ENTRIES, _ => EMPTY)];
    var g := File([1], {}, t, 2);
    assert Used(t) == {} && Names(t, 1) == {};
    forall d | 0 < d < g.n
      ensures DiskFrameOk(g, d)
    {
      assert d == 1;
    }
    PageOf(USER_TABLES, 0);
    ClaimedSound(g, 0, USER_PAGES);
    f := Claimed(g, 0, USER_PAGES);
    assert forall p: nat :: EntryAt(f.tables, 0, p).frame == if p == USER_PAGES then 1 else 0;
    assert UsedBelow(f.tables, 0, USER_PAGES) == {};
    assert UsedBelow(f.tables, 0, KERNEL_PAGES) == {USER_PAGES};
  }

  /** The pages of environment e below k have been given up, and their frames are free. */
  ghost predicate Freed(f: File, g: File, e: nat, k: nat) {
    && FileOk(g) && g.n == f.n && g.lost == f.lost && |g.free| == |f.free| + |UsedBelow(f.tables, e, k)|
    && (forall d :: d in g.free <==> d in f.free || BacksBelow(f.tables, e, k, d))
    && forall c: nat, q: nat {:trigger EntryAt(g.tables, c, q)} ::
      EntryAt(g.tables, c, q) == if c == e && q < k then EMPTY else EntryAt(f.tables, c, q)
  }

  /** One more page given up. */
  lemma FreedOne(f: File, g: File, e: nat, k: nat)
    requires Freed(f, g, e, k) && HasTable(g.tables, e, k)
    ensures Freed(f, Released(g, e, k), e, k + 1)
  {
    ReleasedSound(g, e, k);
    CountOne(f.tables, e, k);
    assert EntryAt(g.tables, e, k) == EntryAt(f.tables, e, k);
    forall d: nat
      ensures BacksBelow(f.tables, e, k + 1, d) <==>
        BacksBelow(f.tables, e, k, d) || (d != 0 && EntryAt(f.tables, e, k).frame == d)
    {
      BacksOne(f.tables, e, k, d);
    }
  }

  lemma BacksOne(t: Tables, e: nat, k: nat, d: nat)
    ensures BacksBelow(t, e, k + 1, d) <==> BacksBelow(t, e, k, d) || (d != 0 && EntryAt(t, e, k).frame == d)
  {
    if BacksBelow(t, e, k + 1, d) {
      var p: nat :| p < k + 1 && EntryAt(t, e, p).frame == d;
      assert p == k || p < k;
    }
  }

  lemma FreedNone(f: File, g: File, e: nat, i: nat)
    requires Freed(f, g, e, i * ENTRIES) && !HasTable(g.tables, e, i * ENTRIES)
    ensures Freed(f, g, e, (i + 1) * ENTRIES)
  {
    forall p: nat | i * ENTRIES <= p < (i + 1) * ENTRIES
      ensures EntryAt(g.tables, e, p) == EMPTY && EntryAt(f.tables, e, p).frame == 0
    {
      PageOf(i, 0);
      PageOf(i, p - i * ENTRIES);
      assert EntryAt(g.tables, e, p) == EntryAt(f.tables, e, p);
    }
    assert UsedBelow(f.tables, e, (i + 1) * ENTRIES) == UsedBelow(f.tables, e, i * ENTRIES);
    forall d: nat
      ensures BacksBelow(f.tables, e, (i + 1) * ENTRIES, d) <==> BacksBelow(f.tables, e, i * ENTRIES, d)
    {
      if BacksBelow(f.tables, e, (i + 1) * ENTRIES, d) {
        var p: nat :| p < (i + 1) * ENTRIES && EntryAt(f.tables, e, p).frame == d;
        assert p < i * ENTRIES;
      }
    }
  }

  /** The tables of the other environments. */
  function WithoutEnv(t: Tables, e: nat): Tables {
    map s | s in t && s.0 != e :: t[s]
  }

  lemma WithoutEnvReads(t: Tables, e: nat)
    requires WellSized(t)
    ensures WellSized(WithoutEnv(t, e))
    ensures forall c: nat, q: nat :: EntryAt(WithoutEnv(t, e), c, q) == if c == e then EMPTY else EntryAt(t, c, q)
  {
  }

  /** When an environment's directory goes, whatever its tables still named is lost. */
  lemma DirectoryGone(f: File, e: nat)
    requires FileOk(f)
    ensures FileOk(f.(lost := AllAbandoned(f, e, KERNEL_PAGES).lost, tables := WithoutEnv(f.tables, e)))
    ensures forall d :: d in AllAbandoned(f, e, KERNEL_PAGES).lost <==>
      d in f.lost || BacksBelow(f.tables, e, KERNEL_PAGES, d)
  {
    var g := AllAbandoned(f, e, KERNEL_PAGES);
    AllAbandonedOk(f, e, KERNEL_PAGES);
    WithoutEnvReads(f.tables, e);
    forall c: nat, q: nat
      ensures EntryAt(WithoutEnv(f.tables, e), c, q).frame == EntryAt(g.tables, c, q).frame
    {
      assert PageOk(f, c, q);
      assert EntryAt(g.tables, c, q).frame == if c == e && q < KERNEL_PAGES then 0 else EntryAt(f.tables, c, q).frame;
    }
    SameReadingSound(g, WithoutEnv(f.tables, e));
    assert f.(lost := g.lost, tables := WithoutEnv(f.tables, e)) == g.(tables := WithoutEnv(f.tables, e));
  }

  /** After all pages below USER_TOP are freed, every frame of the environment is free exactly when there were
      no others; those of other pages are what the environment's directory takes with it. */
  lemma FreeIsComplete(f: File, g: File, e: nat)
    requires FileOk(f) && Freed(f, g, e, USER_PAGES)
    ensures (forall d :: BacksBelow(f.tables, e, KERNEL_PAGES, d) ==> d in g.free) <==> NoneAbove(f.tables, e)
    ensures forall d :: BacksBelow(g.tables, e, KERNEL_PAGES, d) <==>
      BacksBelow(f.tables, e, KERNEL_PAGES, d) && d !in g.free
  {
    forall p: nat | p >= USER_PAGES && EntryAt(f.tables, e, p).frame != 0
      ensures BacksBelow(f.tables, e, KERNEL_PAGES, EntryAt(f.tables, e, p).frame)
      ensures EntryAt(f.tables, e, p).frame !in g.free
    {
      var d := EntryAt(f.tables, e, p).frame;
      assert PageOk(f, e, p);
      FramesAreNotShared(f, e, p, e, p);
      if q: nat :| q < USER_PAGES && EntryAt(f.tables, e, q).frame == d {
        FramesAreNotShared(f, e, p, e, q);
      }
    }
    forall d: nat
      ensures BacksBelow(g.tables, e, KERNEL_PAGES, d) <==> BacksBelow(f.tables, e, KERNEL_PAGES, d) && d !in g.free
    {
      AboveOnly(f, g, e, d);
    }
    if NoneAbove(f.tables, e) {
      forall d | BacksBelow(f.tables, e, KERNEL_PAGES, d)
        ensures d in g.free
      {
        var p: nat :| p < KERNEL_PAGES && EntryAt(f.tables, e, p).frame == d;
        assert p < USER_PAGES;
        assert BacksBelow(f.tables, e, USER_PAGES, d);
      }
    }
  }

  lemma AboveOnly(f: File, g: File, e: nat, d: nat)
    requires FileOk(f) && Freed(f, g, e, USER_PAGES)
    ensures BacksBelow(g.tables, e, KERNEL_PAGES, d) <==> BacksBelow(f.tables, e, KERNEL_PAGES, d) && d !in g.free
  {
    if BacksBelow(g.tables, e, KERNEL_PAGES, d) {
      var p: nat :| p < KERNEL_PAGES && EntryAt(g.tables, e, p).frame == d;
      assert EntryAt(f.tables, e, p).frame == d;
      FramesAreNotShared(g, e, p, e, p);
    }
    if BacksBelow(f.tables, e, KERNEL_PAGES, d) && d !in g.free {
      assert !BacksBelow(f.tables, e, USER_PAGES, d);
      var p: nat :| p < KERNEL_PAGES && EntryAt(f.tables, e, p).frame == d;
      assert EntryAt(g.tables, e, p) == EntryAt(f.tables, e, p);
    }
  }

  /** An empty table can be dropped. */
  lemma DroppedReads(f: File, e: nat, i: nat)
    requires FileOk(f) && forall p: nat :: i * ENTRIES <= p < (i + 1) * ENTRIES ==> EntryAt(f.tables, e, p) == EMPTY
    ensures FileOk(f.(tables := f.tables - {(e, i)}))
    ensures forall c: nat, q: nat :: EntryAt(f.tables - {(e, i)}, c, q) == EntryAt(f.tables, c, q)
  {
    var t := f.tables - {(e, i)};
    forall c: nat, q: nat
      ensures EntryAt(t, c, q) == EntryAt(f.tables, c, q)
    {
      if c == e && PDX(q) == i {
        assert q == i * ENTRIES + PTX(q);
      }
    }
    SameReadingSound(f, t);
  }

  class Store {
    const disk: array<Page>
    var free: seq<nat>
    var tables: Tables
    var directories: set<nat>

    ghost var lost: set<nat>

    ghost function Now(): File
      reads this
    {
      File(free, lost, tables, disk.Length)
    }

    ghost predicate Valid()
      reads this
    {
      FileOk(Now()) && forall s :: s in tables ==> s.0 in directories
    }

    /** initialize_disk_page_file. */
    constructor (n: nat, blank: Page)
      requires n > 0
      ensures Valid() && disk.Length == n && |free| == n - 1 && directories == {} && lost == {} && fresh(disk)
      ensures forall e: nat, p: nat :: EntryAt(tables, e, p) == EMPTY
    {
      disk := new Page[n](_ => blank);
      free, lost, tables, directories := [], {}, map[], {};
      new;
      var i := 1;
      while i < n
        invariant 1 <= i <= n && |free| == i - 1 && Distinct(free) && tables == map[] && directories == lost == {}
        invariant forall d :: d in free <==> 0 < d < i
      {
        Prepend(free, i);
        free := [i] + free;
        i := i + 1;
      }
      assert Used(tables) == {};
      forall d | 0 < d < n
        ensures DiskFrameOk(Now(), d)
      {
        assert Names(tables, d) == {};
      }
    }

    /** allocate_disk_frame: 0 when there is none. */
    method AllocateDiskFrame() returns (dfn: nat)
      modifies this`free
      ensures |old(free)| == 0 ==> dfn == 0 && free == old(free)
      ensures |old(free)| > 0 ==> dfn == old(free)[0] && free == old(free)[1..]
    {
      if |free| == 0 {
        return 0;
      }
      dfn := free[0];
      free := free[1..];
    }

    /** free_disk_frame. */
    method FreeDiskFrame(dfn: nat)
      modifies this`free
      ensures free == if dfn == 0 then old(free) else [dfn] + old(free)
    {
      if dfn != 0 {
        free := [dfn] + free;
      }
    }

    /** get_disk_page_directory and get_disk_page_table with create. */
    method MakeTable(e: nat, p: nat)
      requires Valid()
      modifies this`tables, this`directories
      ensures Valid() && HasTable(tables, e, p) && directories == old(directories) + {e}
      ensures forall c: nat, q: nat :: EntryAt(tables, c, q) == EntryAt(old(tables), c, q)
    {
      directories := directories + {e};
      if !HasTable(tables, e, p) {
        ghost var f := Now();
        tables := tables[(e, PDX(p)) := seq(ENTRIES, _ => EMPTY)];
        forall c: nat, q: nat
          ensures EntryAt(tables, c, q) == EntryAt(f.tables, c, q)
        {
          assert (e, PDX(p)) !in f.tables;
        }
        SameReadingSound(f, tables);
      }
    }

    /** The part of pf_add_empty_env_page and pf_add_env_page that gives the page a disk frame. */
    method Claim(e: nat, p: nat) returns (dfn: nat)
      requires Valid() && p * PAGE_SIZE < KERNEL_BASE
      modifies this`free, this`tables, this`directories
      ensures Valid() && dfn == EntryAt(tables, e, p).frame && dfn < disk.Length
      ensures dfn == 0 <==> EntryAt(old(tables), e, p).frame == 0 && |old(free)| == 0
      ensures EntryAt(old(tables), e, p).frame != 0 || dfn == 0 ==> free == old(free) && forall c: nat, q: nat ::
        EntryAt(tables, c, q) == EntryAt(old(tables), c, q)
      ensures EntryAt(old(tables), e, p).frame == 0 && dfn != 0 ==>
        && free == old(free)[1..] && dfn == old(free)[0]
        && forall c: nat, q: nat ::
              EntryAt(tables, c, q) == if c == e && q == p then Entry(dfn, 0) else EntryAt(old(tables), c, q)
    {
      MakeTable(e, p);
      dfn := EntryAt(tables, e, p).frame;
      assert PageOk(Now(), e, p);
      if dfn == 0 && |free| > 0 {
        ClaimedSound(Now(), e, p);
        dfn := AllocateDiskFrame();
        tables := SetEntry(tables, e, p, Entry(dfn, 0));
      }
    }

    /** pf_add_env_page: false for E_NO_PAGE_FILE_SPACE. */
    method AddEnvPage(e: nat, p: nat, data: Page) returns (ok: bool)
      requires Valid() && p * PAGE_SIZE < KERNEL_BASE
      modifies this`free, this`tables, this`directories, disk
      ensures Valid()
      ensures ok <==> Content(old(tables), old(disk[..]), e, p).Some? || |old(free)| > 0
      ensures ok ==> OnePage(old(tables), old(disk[..]), tables, disk[..], e, p, Some(data))
      ensures !ok ==> free == old(free) && forall c: nat, q: nat ::
        Content(tables, disk[..], c, q) == Content(old(tables), old(disk[..]), c, q)
    {
      assert PageOk(Now(), e, p);
      var dfn := Claim(e, p);
      if dfn == 0 {
        return false;
      }
      disk[dfn] := data;
      WrittenOnce(Now(), old(tables), old(disk[..]), disk[..], e, p, data);
      return true;
    }

    /** pf_remove_env_page. */
    method RemoveEnvPage(e: nat, p: nat)
      requires Valid()
      modifies this`free, this`tables
      ensures Valid() && OnePage(old(tables), disk[..], tables, disk[..], e, p, None)
      ensures |free| == |old(free)| + (if EntryAt(old(tables), e, p).frame != 0 then 1 else 0)
      ensures directories == old(directories)
    {
      if e !in directories {
        return;
      }
      if !HasTable(tables, e, p) {
        return;
      }
      ReleasedSound(Now(), e, p);
      var dfn := EntryAt(tables, e, p).frame;
      tables := SetEntry(tables, e, p, EMPTY);
      FreeDiskFrame(dfn);
    }

    /** pf_read_env_page: nothing stands for E_PAGE_NOT_EXIST_IN_PF. */
    method ReadEnvPage(e: nat, p: nat) returns (r: Option<Page>)
      requires Valid()
      ensures r == Content(tables, disk[..], e, p)
    {
      if e !in directories {
        return None;
      }
      if !HasTable(tables, e, p) {
        return None;
      }
      assert PageOk(Now(), e, p);
      var dfn := EntryAt(tables, e, p).frame;
      if dfn == 0 {
        return None;
      }
      return Some(disk[dfn]);
    }

    /** pf_update_env_page: false where it panics, because the page file is full or, for a page outside the
        user heap and stack, because the page was never added. */
    method UpdateEnvPage(e: nat, p: nat, data: Page) returns (ok: bool)
      requires Valid() && p * PAGE_SIZE < KERNEL_BASE
      modifies this`free, this`tables, this`directories, disk
      ensures Valid()
      ensures ok <==> Content(old(tables), old(disk[..]), e, p).Some? || (InUserRange(p * PAGE_SIZE) && |old(free)| > 0)
      ensures ok ==> OnePage(old(tables), old(disk[..]), tables, disk[..], e, p, Some(data))
      ensures !ok ==> free == old(free) && forall c: nat, q: nat ::
        Content(tables, disk[..], c, q) == Content(old(tables), old(disk[..]), c, q)
    {
      assert PageOk(Now(), e, p);
      if EntryAt(tables, e, p).frame == 0 && !InUserRange(p * PAGE_SIZE) {
        return false;
      }
      var dfn := Claim(e, p);
      if dfn == 0 {
        return false;
      }
      disk[dfn] := data;
      WrittenOnce(Now(), old(tables), old(disk[..]), disk[..], e, p, data);
      return true;
    }

    /** pf_calculate_allocated_pages counts the environment's pages below USER_TOP, which are all its pages in
        the file exactly when it has none above. */
    method CalculateAllocatedPages(e: nat) returns (counter: nat)
      requires Valid()
      ensures counter == |UsedBelow(tables, e, USER_PAGES)|
      ensures counter == |UsedBelow(tables, e, KERNEL_PAGES)| <==> NoneAbove(tables, e)
      ensures forall p: nat :: p in UsedBelow(tables, e, KERNEL_PAGES) <==> Content(tables, disk[..], e, p).Some?
    {
      counter := 0;
      var i := 0;
      assert UsedBelow(tables, e, 0) == {};
      while i < USER_TABLES
        invariant i <= USER_TABLES && counter == |UsedBelow(tables, e, i * ENTRIES)|
      {
        if HasTable(tables, e, i * ENTRIES) {
          var j := 0;
          while j < ENTRIES
            invariant j <= ENTRIES && counter == |UsedBelow(tables, e, i * ENTRIES + j)|
          {
            PageOf(i, j);
            PageOf(i, 0);
            CountOne(tables, e, i * ENTRIES + j);
            if tables[(e, i)][j].frame != 0 {
              counter := counter + 1;
            }
            j := j + 1;
          }
        } else {
          CountNone(tables, e, i);
        }
        i := i + 1;
      }
      CountIsComplete(Now(), e);
      forall p: nat
        ensures p in UsedBelow(tables, e, KERNEL_PAGES) <==> Content(tables, disk[..], e, p).Some?
      {
        assert PageOk(Now(), e, p);
      }
    }

    /** pf_free_env: the frames of the environment's pages below USER_TOP are free again, which are all its
        frames exactly when it has no page above; those of pages above are lost. No other page is touched. */
    method FreeEnv(e: nat)
      requires Valid() && e in directories
      modifies this`free, this`lost, this`tables, this`directories
      ensures Valid() && e !in directories
      ensures |free| == |old(free)| + |UsedBelow(old(tables), e, USER_PAGES)|
      ensures forall d :: d in free <==> d in old(free) || BacksBelow(old(tables), e, USER_PAGES, d)
      ensures (forall d :: BacksBelow(old(tables), e, KERNEL_PAGES, d) ==> d in free) <==> NoneAbove(old(tables), e)
      ensures forall d :: d in lost <==> d in old(lost) || (BacksBelow(old(tables), e, KERNEL_PAGES, d) && d !in free)
      ensures forall c: nat, q: nat :: EntryAt(tables, c, q) == if c == e then EMPTY else EntryAt(old(tables), c, q)
    {
      ghost var f := Now();
      FreeTables(f, e);
      FreeIsComplete(f, Now(), e);
      DropDirectory(e);
    }

    /** The outer loop of pf_free_env. */
    method FreeTables(ghost f: File, e: nat)
      requires Valid() && f == Now()
      modifies this`free, this`tables
      ensures Valid() && Freed(f, Now(), e, USER_PAGES)
    {
      var i := 0;
      assert UsedBelow(tables, e, 0) == {};
      while i < USER_TABLES
        invariant i <= USER_TABLES && Valid() && Freed(f, Now(), e, i * ENTRIES)
      {
        FreeTableAt(f, e, i);
        i := i + 1;
      }
    }

    method FreeTableAt(ghost f: File, e: nat, i: nat)
      requires Valid() && i < USER_TABLES && Freed(f, Now(), e, i * ENTRIES)
      modifies this`free, this`tables
      ensures Valid() && Freed(f, Now(), e, (i + 1) * ENTRIES)
    {
      if HasTable(tables, e, i * ENTRIES) {
        FreeTable(f, e, i);
        DroppedReads(Now(), e, i);
        tables := tables - {(e, i)};
      } else {
        FreedNone(f, Now(), e, i);
      }
    }

    /** The directory itself goes, and with it the tables it still leads to. */
    method DropDirectory(e: nat)
      requires Valid()
      modifies this`lost, this`tables, this`directories
      ensures Valid() && directories == old(directories) - {e}
      ensures forall d :: d in lost <==> d in old(lost) || BacksBelow(old(tables), e, KERNEL_PAGES, d)
      ensures forall c: nat, q: nat :: EntryAt(tables, c, q) == if c == e then EMPTY else EntryAt(old(tables), c, q)
    {
      DirectoryGone(Now(), e);
      WithoutEnvReads(tables, e);
      lost := AllAbandoned(Now(), e, KERNEL_PAGES).lost;
      tables := WithoutEnv(tables, e);
      directories := directories - {e};
    }

    /** The inner loop of pf_free_env. */
    method FreeTable(ghost f: File, e: nat, i: nat)
      requires Valid() && i < USER_TABLES && HasTable(tables, e, i * ENTRIES) && Freed(f, Now(), e, i * ENTRIES)
      modifies this`free, this`tables
      ensures Valid() && Freed(f, Now(), e, (i + 1) * ENTRIES) && tables.Keys == old(tables.Keys)
    {
      var j := 0;
      while j < ENTRIES
        invariant j <= ENTRIES && Valid() && tables.Keys == old(tables.Keys) && Freed(f, Now(), e, i * ENTRIES + j)
      {
        PageOf(i, 0);
        PageOf(i, j);
        FreeSlot(f, e, i * ENTRIES + j);
        j := j + 1;
      }
    }

    method FreeSlot(ghost f: File, e: nat, k: nat)
      requires Valid() && HasTable(tables, e, k) && Freed(f, Now(), e, k)
      modifies this`free, this`tables
      ensures Valid() && Freed(f, Now(), e, k + 1) && tables.Keys == old(tables.Keys)
    {
      FreedOne(f, Now(), e, k);
      var dfn := EntryAt(tables, e, k).frame;
      tables := SetEntry(tables, e, k, EMPTY);
      FreeDiskFrame(dfn);
    }
  }
}
