/** Shared memory objects: the same frames mapped, in the same order, wherever an object is attached. */
module Shares {
  import opened Machine
  import opened Wrappers
  import opened FrameManager

  const SHARED: bv12 := 0x800
  const PERM_USER: bv12 := 0x004
  const KERNEL_HEAP_START := 0xF600_0000

  /** addr is where the object lives in the kernel heap. */
  datatype Share = Share(addr: nat, owner: int, name: string, size: nat, writable: bool, references: nat,
                         frames: seq<nat>) {
    function Pages(): nat { size / PAGE_SIZE }
    /** The address without its top bit. */
    function Id(): nat { addr % 0x8000_0000 }
  }

  /** The places where an object is attached, page directory and first page; true marks its creator's. */
  type Places = map<(nat, nat), bool>

  function PermFor(writable: bool): bv12 {
    if writable then SHARED | PERM_PRESENT | PERM_WRITEABLE | PERM_USER else SHARED | PERM_PRESENT | PERM_USER
  }

  /** An entry through which user code may read, or read and write: present and for the user, marked as shared, and
      with the write bit exactly when it may write. */
  ghost predicate Access(perm: bv12, write: bool) {
    perm & 0x001 == 0x001 && perm & 0x004 == 0x004 && perm & 0x800 == 0x800 && (perm & 0x002 == 0x002 <==> write)
  }

  lemma PermForAccess(write: bool)
    ensures Access(PermFor(write), write)
  {
  }

  /** Pages page, page + 1, ... of directory d map the frames fr in order, with that access. */
  ghost predicate Reaches(t: Tables, d: nat, page: nat, fr: seq<nat>, write: bool) {
    forall j :: 0 <= j < |fr| ==> ReachesPage(t, d, page, fr, write, j)
  }

  ghost predicate ReachesPage(t: Tables, d: nat, page: nat, fr: seq<nat>, write: bool, j: nat)
    requires j < |fr|
  {
    EntryAt(t, d, page + j).frame == fr[j] && Access(EntryAt(t, d, page + j).perm, write)
  }

  ghost function Shift(s: set<(nat, nat)>, j: nat): set<(nat, nat)> {
    set x | x in s :: (x.0, x.1 + j)
  }

  ghost predicate EntryShared(t: Tables, sh: Share, at: Places, j: nat, x: (nat, nat))
    requires j < |sh.frames| && x in at
  {
    EntryAt(t, x.0, x.1 + j) == Entry(sh.frames[j], PermFor(at[x] || sh.writable))
  }

  /** Frame j of the object is mapped as page j at every place, writable where it should be, and nowhere else. */
  ghost predicate FrameShared(t: Tables, sh: Share, at: Places, j: nat)
    requires j < |sh.frames|
  {
    && sh.frames[j] != 0 && Names(t, sh.frames[j]) == Shift(at.Keys, j)
    && forall x :: x in at ==> EntryShared(t, sh, at, j, x)
  }

  /** An object of less than a page maps nothing: its references are not tied to places. */
  ghost predicate Counted(sh: Share, references: nat, at: Places) {
    && |sh.frames| == sh.Pages() && KERNEL_HEAP_START <= sh.addr < WORD_LIMIT
    && (sh.Pages() > 0 ==> references == |at|)
  }

  ghost predicate ShareOk(t: Tables, sh: Share, at: Places) {
    && Counted(sh, sh.references, at) && sh.references > 0
    && forall j :: 0 <= j < |sh.frames| ==> FrameShared(t, sh, at, j)
  }

  /** Different objects have different addresses and names. */
  ghost predicate Apart(a: Share, b: Share) {
    a.addr != b.addr && (a.owner != b.owner || a.name != b.name)
  }

  ghost predicate FramesApart(a: Share, j: nat, b: Share, k: nat)
    requires j < |a.frames| && k < |b.frames|
  {
    a.frames[j] == b.frames[k] ==> a == b && j == k
  }

  ghost predicate AllOk(t: Tables, shares: seq<Share>, at: map<nat, Places>) {
    && (forall i :: 0 <= i < |shares| ==> shares[i].addr in at && ShareOk(t, shares[i], at[shares[i].addr]))
    && (forall i, k :: 0 <= i < k < |shares| ==> Apart(shares[i], shares[k]))
    && (forall i, k, j, l ::
          0 <= i < |shares| && 0 <= k < |shares| && 0 <= j < |shares[i].frames| && 0 <= l < |shares[k].frames| ==>
          FramesApart(shares[i], j, shares[k], l))
  }

  /** Wherever an object is attached its frames can be read in order, and written exactly by its creator, or by
      everybody when the object is writable. */
  lemma EveryPlaceReaches(t: Tables, shares: seq<Share>, at: map<nat, Places>, i: nat, x: (nat, nat))
    requires AllOk(t, shares, at) && i < |shares| && shares[i].addr in at && x in at[shares[i].addr]
    ensures Reaches(t, x.0, x.1, shares[i].frames, at[shares[i].addr][x] || shares[i].writable)
  {
    var sh, places := shares[i], at[shares[i].addr];
    var write := places[x] || sh.writable;
    PermForAccess(write);
    forall j | 0 <= j < |sh.frames|
      ensures ReachesPage(t, x.0, x.1, sh.frames, write, j)
    {
      assert ShareOk(t, sh, places) && FrameShared(t, sh, places, j) && EntryShared(t, sh, places, j, x);
    }
  }

  /** No two objects have the same ID, although it drops the top bit of the address. */
  lemma IdsDiffer(t: Tables, shares: seq<Share>, at: map<nat, Places>, i: nat, k: nat)
    requires AllOk(t, shares, at) && i < k < |shares|
    ensures shares[i].Id() != shares[k].Id() && (shares[i].owner != shares[k].owner || shares[i].name != shares[k].name)
  {
    assert Apart(shares[i], shares[k]);
    assert ShareOk(t, shares[i], at[shares[i].addr]) && ShareOk(t, shares[k], at[shares[k].addr]);
  }

  /** The object maps size / PAGE_SIZE pages, which cover its size exactly when that is a whole number of pages. */
  lemma PagesCoverSize(sh: Share)
    ensures sh.Pages() * PAGE_SIZE >= sh.size <==> sh.size % PAGE_SIZE == 0
  {
  }

  lemma {:induction false} ShiftSize(s: set<(nat, nat)>, j: nat)
    ensures |Shift(s, j)| == |s|
    decreases |s|
  {
    if x :| x in s {
      ShiftSize(s - {x}, j);
      assert Shift(s, j) == Shift(s - {x}, j) + {(x.0, x.1 + j)};
      assert (x.0, x.1 + j) !in Shift(s - {x}, j);
    }
  }

  /** Each stored frame is referenced as often as the object is attached. */
  lemma ReferencesAgree(m: FrameState, sh: Share, at: Places, j: nat)
    requires Sound(m) && ShareOk(m.tables, sh, at) && j < |sh.frames| && sh.frames[j] in m.managed
    ensures sh.frames[j] < |m.frames| && m.frames[sh.frames[j]].references == sh.references
    ensures sh.frames[j] !in m.freeList
  {
    assert FrameShared(m.tables, sh, at, j) && FrameOk(m, sh.frames[j]);
    ShiftSize(at.Keys, j);
  }

  // ---------------------------------------------------------------- mapping and unmapping a whole object

  /** The first k pages from page on, in directory d, now map fr. */
  ghost predicate Attached(m: FrameState, m': FrameState, d: nat, page: nat, fr: seq<nat>, perm: bv12, k: nat) {
    && k <= |fr| && Sound(m') && m'.managed == m.managed && m'.tables.Keys == m.tables.Keys && m'.transit == m.transit
    && forall c: nat, q: nat {:trigger EntryAt(m'.tables, c, q)} ::
      EntryAt(m'.tables, c, q) ==
      if c == d && page <= q < page + k then Entry(fr[q - page], perm) else EntryAt(m.tables, c, q)
  }

  /** The first k pages from page on, in directory d, are unmapped. */
  ghost predicate Detached(m: FrameState, m': FrameState, d: nat, page: nat, k: nat) {
    && Sound(m') && m'.managed == m.managed && m'.tables.Keys == m.tables.Keys && m'.transit == m.transit
    && forall c: nat, q: nat {:trigger EntryAt(m'.tables, c, q)} ::
      EntryAt(m'.tables, c, q) == if c == d && page <= q < page + k then EMPTY else EntryAt(m.tables, c, q)
  }

  lemma AttachedReaches(m: FrameState, m': FrameState, d: nat, page: nat, fr: seq<nat>, write: bool)
    requires Attached(m, m', d, page, fr, PermFor(write), |fr|)
    ensures Reaches(m'.tables, d, page, fr, write)
  {
    PermForAccess(write);
    forall j | 0 <= j < |fr|
      ensures ReachesPage(m'.tables, d, page, fr, write, j)
    {
      assert EntryAt(m'.tables, d, page + j) == Entry(fr[(page + j) - page], PermFor(write));
    }
  }

  ghost predicate Vacant(m: FrameState, d: nat, page: nat, n: nat) {
    forall q: nat :: page <= q < page + n ==> HasTable(m.tables, d, q) && EntryAt(m.tables, d, q) == EMPTY
  }

  lemma AttachedNames(m: FrameState, m': FrameState, d: nat, page: nat, fr: seq<nat>, perm: bv12, f: nat)
    requires WellSized(m.tables) && Attached(m, m', d, page, fr, perm, |fr|) && Vacant(m, d, page, |fr|) && f != 0
    ensures f !in fr ==> Names(m'.tables, f) == Names(m.tables, f)
    ensures forall j :: 0 <= j < |fr| && fr[j] == f && (forall l :: 0 <= l < |fr| && fr[l] == f ==> l == j) ==>
      Names(m'.tables, f) == Names(m.tables, f) + {(d, page + j)}
  {
    forall x | true
      ensures x in Names(m'.tables, f) <==>
        x in Names(m.tables, f) || (x.0 == d && page <= x.1 < page + |fr| && fr[x.1 - page] == f)
    {
      assert x == (x.0, x.1);
      NamesIff(m.tables, f, x.0, x.1);
      NamesIff(m'.tables, f, x.0, x.1);
    }
    forall j | 0 <= j < |fr| && fr[j] == f && (forall l :: 0 <= l < |fr| && fr[l] == f ==> l == j)
      ensures Names(m'.tables, f) == Names(m.tables, f) + {(d, page + j)}
    {
      forall x | x in Names(m'.tables, f)
        ensures x in Names(m.tables, f) + {(d, page + j)}
      {
        assert x == (x.0, x.1);
      }
      assert fr[(page + j) - page] == f;
    }
  }

  lemma DetachedNames(m: FrameState, m': FrameState, d: nat, page: nat, n: nat, f: nat)
    requires WellSized(m.tables) && Detached(m, m', d, page, n) && f != 0
    ensures forall x :: x in Names(m'.tables, f) <==> x in Names(m.tables, f) && !(x.0 == d && page <= x.1 < page + n)
  {
    forall x | true
      ensures x in Names(m'.tables, f) <==> x in Names(m.tables, f) && !(x.0 == d && page <= x.1 < page + n)
    {
      assert x == (x.0, x.1);
      NamesIff(m.tables, f, x.0, x.1);
      NamesIff(m'.tables, f, x.0, x.1);
    }
  }

  /** An object whose frames are not touched stays as it was. */
  lemma AttachOther(m: FrameState, m': FrameState, d: nat, page: nat, fr: seq<nat>, perm: bv12, sh: Share, at: Places)
    requires WellSized(m.tables) && Attached(m, m', d, page, fr, perm, |fr|) && Vacant(m, d, page, |fr|)
    requires ShareOk(m.tables, sh, at) && forall j :: 0 <= j < |sh.frames| ==> sh.frames[j] !in fr
    ensures ShareOk(m'.tables, sh, at)
  {
    forall j | 0 <= j < |sh.frames|
      ensures FrameShared(m'.tables, sh, at, j)
    {
      assert FrameShared(m.tables, sh, at, j);
      AttachedNames(m, m', d, page, fr, perm, sh.frames[j]);
      forall x | x in at
        ensures EntryShared(m'.tables, sh, at, j, x)
      {
        assert EntryShared(m.tables, sh, at, j, x);
      }
    }
  }

  /** The object itself, attached at one more place. */
  lemma AttachSelf(m: FrameState, m': FrameState, d: nat, page: nat, sh: Share, at: Places, creator: bool)
    requires Sound(m) && Counted(sh, sh.references, at)
    requires Attached(m, m', d, page, sh.frames, PermFor(creator || sh.writable), |sh.frames|)
    requires Vacant(m, d, page, |sh.frames|)
    requires forall j :: 0 <= j < |sh.frames| ==> FrameShared(m.tables, sh, at, j)
    requires forall j, l :: 0 <= j < |sh.frames| && 0 <= l < |sh.frames| ==> FramesApart(sh, j, sh, l)
    ensures ShareOk(m'.tables, sh.(references := sh.references + 1), at[(d, page) := creator])
  {
    var sh', at' := sh.(references := sh.references + 1), at[(d, page) := creator];
    if |sh.frames| > 0 {
      PlaceIsNew(m, d, page, sh, at, creator);
    }
    forall j | 0 <= j < |sh.frames|
      ensures FrameShared(m'.tables, sh', at', j)
    {
      AttachFrame(m, m', d, page, sh, at, creator, j);
      AttachEntries(m, m', d, page, sh, at, creator, j);
    }
  }

  lemma AttachFrame(m: FrameState, m': FrameState, d: nat, page: nat, sh: Share, at: Places, creator: bool, j: nat)
    requires Sound(m) && j < |sh.frames| && FrameShared(m.tables, sh, at, j)
    requires Attached(m, m', d, page, sh.frames, PermFor(creator || sh.writable), |sh.frames|)
    requires Vacant(m, d, page, |sh.frames|)
    requires forall l :: 0 <= l < |sh.frames| ==> FramesApart(sh, l, sh, j)
    ensures Names(m'.tables, sh.frames[j]) == Shift(at[(d, page) := creator].Keys, j)
  {
    forall l | 0 <= l < |sh.frames| && sh.frames[l] == sh.frames[j]
      ensures l == j
    {
      assert FramesApart(sh, l, sh, j);
    }
    AttachedNames(m, m', d, page, sh.frames, PermFor(creator || sh.writable), sh.frames[j]);
    ShiftAdd(at, d, page, creator, j);
  }

  lemma ShiftAdd(at: Places, d: nat, page: nat, creator: bool, j: nat)
    ensures Shift(at[(d, page) := creator].Keys, j) == Shift(at.Keys, j) + {(d, page + j)}
  {
    assert at[(d, page) := creator].Keys == at.Keys + {(d, page)};
  }

  lemma AttachEntries(m: FrameState, m': FrameState, d: nat, page: nat, sh: Share, at: Places, creator: bool, j: nat)
    requires j < |sh.frames| && FrameShared(m.tables, sh, at, j)
    requires Attached(m, m', d, page, sh.frames, PermFor(creator || sh.writable), |sh.frames|)
    requires Vacant(m, d, page, |sh.frames|)
    ensures var sh', at' := sh.(references := sh.references + 1), at[(d, page) := creator];
      forall x :: x in at' ==> EntryShared(m'.tables, sh', at', j, x)
  {
    var sh', at' := sh.(references := sh.references + 1), at[(d, page) := creator];
    forall x | x in at'
      ensures EntryShared(m'.tables, sh', at', j, x)
    {
      if x == (d, page) {
        assert EntryAt(m'.tables, d, page + j) == Entry(sh.frames[(page + j) - page], PermFor(creator || sh.writable));
      } else {
        assert x in at && EntryShared(m.tables, sh, at, j, x);
      }
    }
  }

  lemma PlaceIsNew(m: FrameState, d: nat, page: nat, sh: Share, at: Places, creator: bool)
    requires WellSized(m.tables) && |sh.frames| > 0 && Vacant(m, d, page, |sh.frames|)
    requires FrameShared(m.tables, sh, at, 0)
    ensures (d, page) !in at && |at[(d, page) := creator]| == |at| + 1
  {
    NamesIff(m.tables, sh.frames[0], d, page);
    assert (d, page + 0) !in Shift(at.Keys, 0);
    assert at[(d, page) := creator].Keys == at.Keys + {(d, page)};
  }

  /** An object with no page among those unmapped stays as it was. */
  lemma DetachOther(m: FrameState, m': FrameState, d: nat, page: nat, n: nat, sh: Share, at: Places)
    requires WellSized(m.tables) && Detached(m, m', d, page, n) && ShareOk(m.tables, sh, at)
    requires forall q: nat :: page <= q < page + n ==> EntryAt(m.tables, d, q).frame !in sh.frames
    ensures ShareOk(m'.tables, sh, at)
  {
    forall j | 0 <= j < |sh.frames|
      ensures FrameShared(m'.tables, sh, at, j)
    {
      var f := sh.frames[j];
      assert FrameShared(m.tables, sh, at, j);
      DetachedNames(m, m', d, page, n, f);
      forall x | x in Names(m.tables, f)
        ensures x in Names(m'.tables, f)
      {
        assert x == (x.0, x.1);
        NamesIff(m.tables, f, x.0, x.1);
      }
      assert Names(m'.tables, f) == Names(m.tables, f);
      forall x | x in at
        ensures EntryShared(m'.tables, sh, at, j, x)
      {
        assert EntryShared(m.tables, sh, at, j, x);
        assert f in sh.frames;
      }
    }
  }

  /** The object itself, detached from one place: its frames lose that name each. */
  lemma DetachSelf(m: FrameState, m': FrameState, d: nat, page: nat, sh: Share, at: Places, j: nat)
    requires WellSized(m.tables) && ShareOk(m.tables, sh, at) && (d, page) in at
    requires Detached(m, m', d, page, |sh.frames|) && j < |sh.frames|
    requires forall l :: 0 <= l < |sh.frames| ==> FramesApart(sh, j, sh, l)
    ensures FrameShared(m'.tables, sh, at - {(d, page)}, j)
  {
    var at' := at - {(d, page)};
    assert FrameShared(m.tables, sh, at, j);
    forall x | x in at'
      ensures EntryShared(m'.tables, sh, at', j, x)
    {
      assert EntryShared(m.tables, sh, at, j, x);
      OtherPlace(m, d, page, sh, at, j, x);
    }
    DetachFrame(m, m', d, page, sh, at, j);
  }

  /** A page of the object at another place is not among those unmapped. */
  lemma OtherPlace(m: FrameState, d: nat, page: nat, sh: Share, at: Places, j: nat, x: (nat, nat))
    requires ShareOk(m.tables, sh, at) && (d, page) in at && j < |sh.frames| && x in at && x != (d, page)
    requires forall l :: 0 <= l < |sh.frames| ==> FramesApart(sh, j, sh, l)
    ensures !(x.0 == d && page <= x.1 + j < page + |sh.frames|)
  {
    assert x == (x.0, x.1);
    assert FrameShared(m.tables, sh, at, j) && EntryShared(m.tables, sh, at, j, x);
    var l := x.1 + j - page;
    if 0 <= l < |sh.frames| {
      assert FrameShared(m.tables, sh, at, l) && EntryShared(m.tables, sh, at, l, (d, page));
      assert FramesApart(sh, j, sh, l);
    }
  }

  lemma DetachFrame(m: FrameState, m': FrameState, d: nat, page: nat, sh: Share, at: Places, j: nat)
    requires WellSized(m.tables) && ShareOk(m.tables, sh, at) && (d, page) in at
    requires Detached(m, m', d, page, |sh.frames|) && j < |sh.frames|
    requires forall l :: 0 <= l < |sh.frames| ==> FramesApart(sh, j, sh, l)
    ensures Names(m'.tables, sh.frames[j]) == Shift((at - {(d, page)}).Keys, j)
  {
    var f, at' := sh.frames[j], at - {(d, page)};
    assert FrameShared(m.tables, sh, at, j);
    DetachedNames(m, m', d, page, |sh.frames|, f);
    forall x | x in Names(m'.tables, f)
      ensures x in Shift(at'.Keys, j)
    {
      var y :| y in at.Keys && x == (y.0, y.1 + j);
      assert y in at'.Keys;
    }
    forall x | x in Shift(at'.Keys, j)
      ensures x in Names(m'.tables, f)
    {
      KeptName(m, m', d, page, sh, at, j, x);
    }
  }

  /** The name that page j of the object has at another place stays. */
  lemma KeptName(m: FrameState, m': FrameState, d: nat, page: nat, sh: Share, at: Places, j: nat, x: (nat, nat))
    requires WellSized(m.tables) && ShareOk(m.tables, sh, at) && (d, page) in at
    requires Detached(m, m', d, page, |sh.frames|) && j < |sh.frames| && x in Shift((at - {(d, page)}).Keys, j)
    requires forall l :: 0 <= l < |sh.frames| ==> FramesApart(sh, j, sh, l)
    ensures x in Names(m'.tables, sh.frames[j])
  {
    assert FrameShared(m.tables, sh, at, j);
    DetachedNames(m, m', d, page, |sh.frames|, sh.frames[j]);
    var y :| y in (at - {(d, page)}).Keys && x == (y.0, y.1 + j);
    OtherPlace(m, d, page, sh, at, j, y);
    assert y in at.Keys;
  }

  // ---------------------------------------------------------------- keeping all objects

  /** The frames of an object are managed and in use. */
  lemma FramesInUse(m: FrameState, sh: Share, at: Places, j: nat)
    requires Sound(m) && ShareOk(m.tables, sh, at) && j < |sh.frames|
    ensures sh.frames[j] in m.managed && sh.frames[j] < |m.frames| && sh.frames[j] !in m.freeList
    ensures sh.frames[j] !in m.transit
    ensures m.frames[sh.frames[j]].references == sh.references
  {
    assert FrameShared(m.tables, sh, at, j);
    var x :| x in at.Keys;
    assert EntryShared(m.tables, sh, at, j, x);
    assert FrameManager.EntryOk(m, EntryAt(m.tables, x.0, x.1 + j));
    ReferencesAgree(m, sh, at, j);
    assert FrameOk(m, sh.frames[j]);
  }

  /** The first frame of an object can be attached at a further place only while its counter has room. */
  lemma AttachLimit(m: FrameState, sh: Share, at: Places, d: nat, page: nat)
    requires Sound(m) && ShareOk(m.tables, sh, at) && |sh.frames| > 0 && Vacant(m, d, page, |sh.frames|)
    ensures sh.frames[0] < |m.frames|
    ensures Sound(Mapped(m, d, sh.frames[0], page, PermFor(sh.writable))) <==> sh.references < MAX_REFERENCES
  {
    FramesInUse(m, sh, at, 0);
    assert FrameShared(m.tables, sh, at, 0) && HasTable(m.tables, d, page) && EntryAt(m.tables, d, page) == EMPTY;
    PermIsPresent(sh.writable);
    MappedSound(m, d, sh.frames[0], page, PermFor(sh.writable));
  }

  /** A free frame is mapped nowhere. */
  lemma FreeIsUnnamed(m: FrameState, f: nat)
    requires Sound(m) && f in m.freeList
    ensures f in m.managed && f != 0 && Names(m.tables, f) == {}
  {
    assert FrameOk(m, f);
  }

  lemma NewShare(m: FrameState, m': FrameState, d: nat, page: nat, sh: Share)
    requires Sound(m) && Attached(m, m', d, page, sh.frames, PermFor(true), |sh.frames|)
    requires Vacant(m, d, page, |sh.frames|)
    requires |sh.frames| == sh.Pages() && sh.references == 1 && KERNEL_HEAP_START <= sh.addr < WORD_LIMIT
    requires |sh.frames| <= |m.freeList| && sh.frames == m.freeList[..|sh.frames|]
    ensures ShareOk(m'.tables, sh, map[(d, page) := true])
    ensures forall j, l :: 0 <= j < |sh.frames| && 0 <= l < |sh.frames| ==> FramesApart(sh, j, sh, l)
  {
    var none: Places := map[];
    var sh0 := sh.(references := 0);
    forall j | 0 <= j < |sh.frames|
      ensures FrameShared(m.tables, sh0, none, j)
    {
      assert sh.frames[j] == m.freeList[j] && sh.frames[j] in m.freeList;
      FreeIsUnnamed(m, sh.frames[j]);
    }
    forall j, l | 0 <= j < |sh.frames| && 0 <= l < |sh.frames|
      ensures FramesApart(sh, j, sh, l) && FramesApart(sh0, j, sh0, l)
    {
      assert sh.frames[j] == m.freeList[j] && sh.frames[l] == m.freeList[l];
    }
    AttachSelf(m, m', d, page, sh0, none, true);
    assert none[(d, page) := true] == map[(d, page) := true];
    assert sh0.(references := sh0.references + 1) == sh;
  }

  /** A new object at the head of the list, made of frames that were free. */
  lemma CreateKeeps(m: FrameState, m': FrameState, d: nat, page: nat, sh: Share, shares: seq<Share>,
                    places: map<nat, Places>)
    requires Sound(m) && AllOk(m.tables, shares, places) && ShareOk(m'.tables, sh, map[(d, page) := true])
    requires Attached(m, m', d, page, sh.frames, PermFor(true), |sh.frames|) && Vacant(m, d, page, |sh.frames|)
    requires |sh.frames| <= |m.freeList| && sh.frames == m.freeList[..|sh.frames|]
    requires forall j, l :: 0 <= j < |sh.frames| && 0 <= l < |sh.frames| ==> FramesApart(sh, j, sh, l)
    requires forall i :: 0 <= i < |shares| ==> Apart(sh, shares[i])
    ensures AllOk(m'.tables, [sh] + shares, places[sh.addr := map[(d, page) := true]])
  {
    var all, at := [sh] + shares, places[sh.addr := map[(d, page) := true]];
    forall i, j | 0 <= i < |shares| && 0 <= j < |shares[i].frames|
      ensures shares[i].frames[j] !in sh.frames
    {
      FramesInUse(m, shares[i], places[shares[i].addr], j);
    }
    forall i | 0 <= i < |all|
      ensures all[i].addr in at && ShareOk(m'.tables, all[i], at[all[i].addr])
    {
      if i > 0 {
        assert Apart(sh, shares[i - 1]);
        AttachOther(m, m', d, page, sh.frames, PermFor(true), shares[i - 1], places[shares[i - 1].addr]);
      }
    }
    forall i, k | 0 <= i < k < |all|
      ensures Apart(all[i], all[k])
    {
      assert i > 0 ==> Apart(shares[i - 1], shares[k - 1]);
    }
    forall i, k, j, l | 0 <= i < |all| && 0 <= k < |all| && 0 <= j < |all[i].frames| && 0 <= l < |all[k].frames|
      ensures FramesApart(all[i], j, all[k], l)
    {
      if i > 0 && k > 0 {
        assert FramesApart(shares[i - 1], j, shares[k - 1], l);
      }
    }
  }

  /** Object i changes its references and places; the others keep theirs. */
  lemma UpdateKeeps(t: Tables, t': Tables, shares: seq<Share>, places: map<nat, Places>, i: nat, sh': Share,
                    at': Places)
    requires AllOk(t, shares, places) && i < |shares| && sh' == shares[i].(references := sh'.references)
    requires ShareOk(t', sh', at')
    requires forall k :: 0 <= k < |shares| && k != i ==> ShareOk(t', shares[k], places[shares[k].addr])
    ensures AllOk(t', shares[i := sh'], places[sh'.addr := at'])
  {
    var all, at := shares[i := sh'], places[sh'.addr := at'];
    forall k | 0 <= k < |all|
      ensures all[k].addr in at && ShareOk(t', all[k], at[all[k].addr])
    {
      if k != i {
        assert Apart(shares[if i < k then i else k], shares[if i < k then k else i]);
      }
    }
    forall k, l | 0 <= k < l < |all|
      ensures Apart(all[k], all[l])
    {
      assert Apart(shares[k], shares[l]);
    }
    forall k, l, j, h | 0 <= k < |all| && 0 <= l < |all| && 0 <= j < |all[k].frames| && 0 <= h < |all[l].frames|
      ensures FramesApart(all[k], j, all[l], h)
    {
      assert FramesApart(shares[k], j, shares[l], h);
      assert k < l ==> Apart(shares[k], shares[l]);
      assert l < k ==> Apart(shares[l], shares[k]);
    }
  }

  lemma RemoveKeeps(t: Tables, t': Tables, shares: seq<Share>, places: map<nat, Places>, i: nat)
    requires AllOk(t, shares, places) && i < |shares|
    requires forall k :: 0 <= k < |shares| && k != i ==> ShareOk(t', shares[k], places[shares[k].addr])
    ensures AllOk(t', shares[..i] + shares[i + 1..], places - {shares[i].addr})
  {
    var all, at := shares[..i] + shares[i + 1..], places - {shares[i].addr};
    forall k | 0 <= k < |all|
      ensures all[k].addr in at && ShareOk(t', all[k], at[all[k].addr])
    {
      var h := if k < i then k else k + 1;
      assert all[k] == shares[h];
      assert Apart(shares[if i < h then i else h], shares[if i < h then h else i]);
    }
    forall k, l | 0 <= k < l < |all|
      ensures Apart(all[k], all[l])
    {
      assert Apart(shares[if k < i then k else k + 1], shares[if l < i then l else l + 1]);
    }
    forall k, l, j, h | 0 <= k < |all| && 0 <= l < |all| && 0 <= j < |all[k].frames| && 0 <= h < |all[l].frames|
      ensures FramesApart(all[k], j, all[l], h)
    {
      assert FramesApart(shares[if k < i then k else k + 1], j, shares[if l < i then l else l + 1], h);
    }
  }

  /** Attaching object i keeps the others. */
  lemma GetKeeps(m: FrameState, m': FrameState, d: nat, page: nat, shares: seq<Share>, places: map<nat, Places>, i: nat)
    requires Sound(m) && AllOk(m.tables, shares, places) && i < |shares|
    requires Attached(m, m', d, page, shares[i].frames, PermFor(shares[i].writable), |shares[i].frames|)
    requires Vacant(m, d, page, |shares[i].frames|)
    ensures var sh := shares[i];
      AllOk(m'.tables, shares[i := sh.(references := sh.references + 1)],
        places[sh.addr := places[sh.addr][(d, page) := false]])
  {
    var sh := shares[i];
    forall j, l | 0 <= j < |sh.frames| && 0 <= l < |sh.frames|
      ensures FramesApart(sh, j, sh, l)
    {
      assert FramesApart(shares[i], j, shares[i], l);
    }
    AttachSelf(m, m', d, page, sh, places[sh.addr], false);
    forall k | 0 <= k < |shares| && k != i
      ensures ShareOk(m'.tables, shares[k], places[shares[k].addr])
    {
      forall j | 0 <= j < |shares[k].frames|
        ensures shares[k].frames[j] !in sh.frames
      {
        DifferentFrames(m.tables, shares, places, k, i, j);
      }
      AttachOther(m, m', d, page, sh.frames, PermFor(sh.writable), shares[k], places[shares[k].addr]);
    }
    UpdateKeeps(m.tables, m'.tables, shares, places, i, sh.(references := sh.references + 1),
      places[sh.addr][(d, page) := false]);
  }

  lemma DifferentFrames(t: Tables, shares: seq<Share>, places: map<nat, Places>, k: nat, i: nat, j: nat)
    requires AllOk(t, shares, places) && k < |shares| && i < |shares| && k != i && j < |shares[k].frames|
    ensures shares[k].frames[j] !in shares[i].frames
  {
    assert Apart(shares[if i < k then i else k], shares[if i < k then k else i]);
    forall l | 0 <= l < |shares[i].frames|
      ensures shares[i].frames[l] != shares[k].frames[j]
    {
      assert FramesApart(shares[k], j, shares[i], l);
    }
  }

  /** Detaching object i from one of its places keeps the others; at the last place its frames go free. */
  lemma FreeKeeps(m: FrameState, m': FrameState, d: nat, page: nat, shares: seq<Share>, places: map<nat, Places>,
                  i: nat)
    requires Sound(m) && AllOk(m.tables, shares, places) && i < |shares|
    requires shares[i].frames != [] ==> (d, page) in places[shares[i].addr]
    requires Detached(m, m', d, page, |shares[i].frames|)
    ensures var sh := shares[i];
      && (sh.references > 1 ==>
            AllOk(m'.tables, shares[i := sh.(references := sh.references - 1)],
              places[sh.addr := places[sh.addr] - {(d, page)}]))
      && (sh.references == 1 ==>
            && AllOk(m'.tables, shares[..i] + shares[i + 1..], places - {sh.addr})
            && forall j :: 0 <= j < |sh.frames| ==> sh.frames[j] in m'.freeList)
  {
    var sh, at := shares[i], places[shares[i].addr];
    forall k | 0 <= k < |shares| && k != i
      ensures ShareOk(m'.tables, shares[k], places[shares[k].addr])
    {
      OthersPages(m, d, page, shares, places, i, k);
      DetachOther(m, m', d, page, |sh.frames|, shares[k], places[shares[k].addr]);
    }
    forall j | 0 <= j < |sh.frames|
      ensures FrameShared(m'.tables, sh, at - {(d, page)}, j)
    {
      assert forall l :: 0 <= l < |sh.frames| ==> FramesApart(shares[i], j, shares[i], l);
      DetachSelf(m, m', d, page, sh, at, j);
    }
    assert (at - {(d, page)}).Keys == at.Keys - {(d, page)};
    if sh.references > 1 {
      Lowered(m'.tables, sh, at - {(d, page)});
      UpdateKeeps(m.tables, m'.tables, shares, places, i, sh.(references := sh.references - 1), at - {(d, page)});
    } else {
      RemoveKeeps(m.tables, m'.tables, shares, places, i);
      forall j | 0 <= j < |sh.frames|
        ensures sh.frames[j] in m'.freeList
      {
        FramesInUse(m, sh, at, j);
        assert FrameShared(m'.tables, sh, at - {(d, page)}, j) && (at - {(d, page)}).Keys == {};
        assert FrameOk(m', sh.frames[j]) && Names(m'.tables, sh.frames[j]) == {};
      }
    }
  }

  lemma Lowered(t: Tables, sh: Share, at: Places)
    requires sh.references > 1 && Counted(sh, sh.references - 1, at)
    requires forall j :: 0 <= j < |sh.frames| ==> FrameShared(t, sh, at, j)
    ensures ShareOk(t, sh.(references := sh.references - 1), at)
  {
    var sh' := sh.(references := sh.references - 1);
    forall j | 0 <= j < |sh'.frames|
      ensures FrameShared(t, sh', at, j)
    {
      assert FrameShared(t, sh, at, j);
      forall x | x in at
        ensures EntryShared(t, sh', at, j, x)
      {
        assert EntryShared(t, sh, at, j, x);
      }
    }
  }

  lemma OthersPages(m: FrameState, d: nat, page: nat, shares: seq<Share>, places: map<nat, Places>, i: nat, k: nat)
    requires AllOk(m.tables, shares, places) && i < |shares| && k < |shares| && k != i
    requires shares[i].frames != [] ==> (d, page) in places[shares[i].addr]
    ensures forall q: nat :: page <= q < page + |shares[i].frames| ==>
      EntryAt(m.tables, d, q).frame !in shares[k].frames
  {
    forall q: nat | page <= q < page + |shares[i].frames|
      ensures EntryAt(m.tables, d, q).frame !in shares[k].frames
    {
      var j := q - page;
      assert FrameShared(m.tables, shares[i], places[shares[i].addr], j);
      assert EntryShared(m.tables, shares[i], places[shares[i].addr], j, (d, page));
      DifferentFrames(m.tables, shares, places, i, k, j);
    }
  }

  // ---------------------------------------------------------------- the shares

  ghost predicate Listed(shares: seq<Share>, owner: int, name: string) {
    exists i :: 0 <= i < |shares| && shares[i].owner == owner && shares[i].name == name
  }

  /** What createSharedObject leaves in the list when there are too few frames: no slot of its storage is filled. */
  function NoFrames(addr: nat, owner: int, name: string, size: nat, writable: bool): Share {
    Share(addr, owner, name, size, writable, 1, seq(size / PAGE_SIZE, _ => 0))
  }

  lemma NoFramesIsBroken(t: Tables, addr: nat, owner: int, name: string, size: nat, writable: bool,
                         shares: seq<Share>, places: map<nat, Places>)
    requires size >= PAGE_SIZE
    ensures !AllOk(t, [NoFrames(addr, owner, name, size, writable)] + shares, places)
  {
    var sh := NoFrames(addr, owner, name, size, writable);
    assert ([sh] + shares)[0] == sh && |sh.frames| > 0 && sh.frames[0] == 0;
    assert !FrameShared(t, sh, if sh.addr in places then places[sh.addr] else map[], 0);
  }

  datatype Outcome = Done(id: nat) | Exists | NoShare | NotExists

  class AllShares {
    const fm: Manager
    var shares: seq<Share>
    ghost var places: map<nat, Places>

    constructor (fm: Manager)
      requires Sound(fm.Now())
      ensures this.fm == fm && shares == [] && Valid()
    {
      this.fm, shares, places := fm, [], map[];
    }

    ghost predicate Valid()
      reads this, fm, fm.frames
    {
      Sound(fm.Now()) && AllOk(fm.tables, shares, places)
    }

    /** get_share: the index of the object, or the number of objects. */
    method GetShare(owner: int, name: string) returns (i: nat)
      ensures i <= |shares|
      ensures i < |shares| ==> shares[i].owner == owner && shares[i].name == name
      ensures i == |shares| ==> forall k :: 0 <= k < |shares| ==> shares[k].owner != owner || shares[k].name != name
    {
      i := 0;
      while i < |shares| && (shares[i].owner != owner || shares[i].name != name)
        invariant i <= |shares| && forall k :: 0 <= k < i ==> shares[k].owner != owner || shares[k].name != name
      {
        i := i + 1;
      }
    }

    /** Map frame f at one vacant page. */
    method MapOne(d: nat, page: nat, f: nat, perm: bv12)
      requires Sound(fm.Now()) && f in fm.managed && f !in fm.freeList && HasTable(fm.tables, d, page)
      requires EntryAt(fm.tables, d, page) == EMPTY
      requires f < fm.frames.Length && fm.frames[f].references < MAX_REFERENCES && perm & PERM_PRESENT == PERM_PRESENT
      modifies fm, fm.frames
      ensures Sound(fm.Now()) && OneEntry(old(fm.tables), fm.tables, d, page, Entry(f, perm))
      ensures fm.freeList == old(fm.freeList) && fm.transit == old(fm.transit) - {f}
      ensures fm.frames[..] == old(fm.frames[..])[f := FrameInfo(old(fm.frames[f].references) + 1, page * PAGE_SIZE)]
    {
      MappedSound(fm.Now(), d, f, page, perm);
      BlankPerm(perm);
      fm.MapFrame(d, f, page, perm);
    }

    /** The loop of createSharedObject: frames from the free list, mapped in order, always writable. */
    method AllocateAndMap(d: nat, page: nat, n: nat) returns (fr: seq<nat>)
      requires Sound(fm.Now()) && n <= |fm.freeList| && Vacant(fm.Now(), d, page, n)
      modifies fm, fm.frames
      ensures |fr| == n && fr == old(fm.freeList)[..n]
      ensures Attached(old(fm.Now()), fm.Now(), d, page, fr, PermFor(true), n)
    {
      ghost var m := fm.Now();
      ghost var all := m.freeList[..n];
      fr := [];
      var k := 0;
      assert m.freeList[0..] == m.freeList;
      while k < n
        invariant k <= n && |fr| == k && fm.freeList == m.freeList[k..]
        invariant Attached(m, fm.Now(), d, page, all, PermFor(true), k)
        invariant forall j :: 0 <= j < k ==> fr[j] == all[j]
      {
        var f := AllocateOne(m, d, page, all, k);
        fr := fr + [f];
        k := k + 1;
      }
      assert fr == all;
    }

    method AllocateOne(ghost m: FrameState, d: nat, page: nat, ghost all: seq<nat>, k: nat) returns (f: nat)
      requires k < |all| <= |m.freeList| && fm.freeList == m.freeList[k..] && all == m.freeList[..|all|]
      requires Attached(m, fm.Now(), d, page, all, PermFor(true), k) && Vacant(m, d, page, |all|)
      modifies fm, fm.frames
      ensures f == all[k] && fm.freeList == m.freeList[k + 1..]
      ensures Attached(m, fm.Now(), d, page, all, PermFor(true), k + 1)
    {
      assert EntryAt(m.tables, d, page + k) == EMPTY && EntryAt(fm.tables, d, page + k) == EMPTY;
      assert HasTable(m.tables, d, page + k);
      assert fm.freeList[0] == m.freeList[k] == all[k] && fm.freeList[0] in fm.managed;
      assert FrameOk(fm.Now(), fm.freeList[0]);
      PermIsPresent(true);
      ghost var t := fm.transit;
      f := fm.AllocateFrame();
      assert FrameOk(fm.Now(), f);
      MapOne(d, page + k, f, PermFor(true));
      assert fm.transit == t;
      assert all[(page + k) - page] == f;
    }

    /** The loop of getSharedObject. */
    method MapAll(d: nat, page: nat, fr: seq<nat>, writable: bool)
      requires Sound(fm.Now()) && Vacant(fm.Now(), d, page, |fr|) && forall j, l :: 0 <= j < l < |fr| ==> fr[j] != fr[l]
      requires forall j :: 0 <= j < |fr| ==> Mappable1(fm.Now(), fr[j])
      modifies fm, fm.frames
      ensures Attached(old(fm.Now()), fm.Now(), d, page, fr, PermFor(writable), |fr|)
    {
      ghost var m := fm.Now();
      var k := 0;
      while k < |fr|
        invariant k <= |fr| && Attached(m, fm.Now(), d, page, fr, PermFor(writable), k)
        invariant forall j :: k <= j < |fr| ==> Mappable1(fm.Now(), fr[j])
      {
        MapNext(m, d, page, fr, writable, k);
        k := k + 1;
      }
    }

    method MapNext(ghost m: FrameState, d: nat, page: nat, fr: seq<nat>, writable: bool, k: nat)
      requires k < |fr| && Attached(m, fm.Now(), d, page, fr, PermFor(writable), k) && Vacant(m, d, page, |fr|)
      requires Mappable1(fm.Now(), fr[k])
      modifies fm, fm.frames
      ensures Attached(m, fm.Now(), d, page, fr, PermFor(writable), k + 1)
      ensures forall f :: f != fr[k] && Mappable1(old(fm.Now()), f) ==> Mappable1(fm.Now(), f)
    {
      PermIsPresent(writable);
      assert EntryAt(m.tables, d, page + k) == EMPTY && HasTable(m.tables, d, page + k);
      assert EntryAt(fm.tables, d, page + k) == EMPTY;
      MapOne(d, page + k, fr[k], PermFor(writable));
      assert fr[(page + k) - page] == fr[k];
    }

    /** The loop of freeSharedObject. */
    method UnmapAll(d: nat, page: nat, ghost sh: Share, ghost at: Places, n: nat)
      requires Sound(fm.Now()) && ShareOk(fm.tables, sh, at) && n == |sh.frames| && (n > 0 ==> (d, page) in at)
      modifies fm, fm.frames
      ensures Detached(old(fm.Now()), fm.Now(), d, page, n)
    {
      ghost var m := fm.Now();
      var k := 0;
      while k < n
        invariant k <= n && Detached(m, fm.Now(), d, page, k)
      {
        assert FrameShared(m.tables, sh, at, k) && EntryShared(m.tables, sh, at, k, (d, page));
        UnmapOne(d, page + k);
        k := k + 1;
      }
    }

    method UnmapOne(d: nat, page: nat)
      requires Sound(fm.Now()) && EntryAt(fm.tables, d, page).frame != 0
      requires exists w :: EntryAt(fm.tables, d, page).perm == PermFor(w)
      modifies fm, fm.frames
      ensures Sound(fm.Now()) && OneEntry(old(fm.tables), fm.tables, d, page, EMPTY) && fm.transit == old(fm.transit)
    {
      ghost var e := EntryAt(fm.tables, d, page);
      SharedPerm(e.perm);
      fm.SetPagePermissions(d, page, 0, PERM_AVAILABLE);
      UnmappedSound(fm.Now(), d, page);
      fm.UnmapFrame(d, page);
    }

    /** createSharedObject, called with the address kmalloc returned for the object. A request for no frame
        storage at all fails too. With too few frames left the object stays in the list, without its frames. */
    method CreateSharedObject(owner: int, name: string, size: nat, writable: bool, addr: nat, d: nat, page: nat)
        returns (r: Outcome)
      requires Valid() && size < WORD_LIMIT
      requires size / PAGE_SIZE <= |fm.freeList| ==> Vacant(fm.Now(), d, page, size / PAGE_SIZE)
      requires addr == 0 || KERNEL_HEAP_START <= addr < WORD_LIMIT
      requires forall i :: 0 <= i < |shares| ==> shares[i].addr != addr
      modifies this, fm, fm.frames
      ensures r == Exists <==> Listed(old(shares), owner, name)
      ensures r.Done? <==> r != Exists && addr != 0 && PagesFor(size) != 0 && size / PAGE_SIZE <= |old(fm.freeList)|
      ensures Valid() <==> r != NoShare || addr == 0 || PagesFor(size) == 0
      ensures !r.Done? ==> fm.Now() == old(fm.Now()) && places == old(places) && (Valid() ==> shares == old(shares))
      ensures !Valid() ==> shares == [NoFrames(addr, owner, name, size, writable)] + old(shares)
      ensures r.Done? ==> var fr := old(fm.freeList)[..size / PAGE_SIZE];
        && r.id == addr % 0x8000_0000
        && shares == [Share(addr, owner, name, size, writable, 1, fr)] + old(shares)
        && places == old(places)[addr := map[(d, page) := true]]
        && Attached(old(fm.Now()), fm.Now(), d, page, fr, PermFor(true), |fr|)
        && Reaches(fm.tables, d, page, fr, true)
    {
      var i := GetShare(owner, name);
      if i < |shares| {
        return Exists;
      }
      if addr == 0 || PagesFor(size) == 0 {
        return NoShare;
      }
      if |fm.freeList| < size / PAGE_SIZE {
        NoFramesIsBroken(fm.tables, addr, owner, name, size, writable, shares, places);
        shares := [NoFrames(addr, owner, name, size, writable)] + shares;
        return NoShare;
      }
      ghost var m, fr := fm.Now(), fm.freeList[..size / PAGE_SIZE];
      Create(owner, name, size, writable, addr, d, page);
      AttachedReaches(m, fm.Now(), d, page, fr, true);
      return Done(shares[0].Id());
    }

    method Create(owner: int, name: string, size: nat, writable: bool, addr: nat, d: nat, page: nat)
      requires Valid() && size / PAGE_SIZE <= |fm.freeList| && Vacant(fm.Now(), d, page, size / PAGE_SIZE)
      requires KERNEL_HEAP_START <= addr < WORD_LIMIT && !Listed(shares, owner, name)
      requires forall i :: 0 <= i < |shares| ==> shares[i].addr != addr
      modifies this, fm, fm.frames
      ensures Valid()
      ensures var fr := old(fm.freeList)[..size / PAGE_SIZE];
        && shares == [Share(addr, owner, name, size, writable, 1, fr)] + old(shares)
        && places == old(places)[addr := map[(d, page) := true]]
        && Attached(old(fm.Now()), fm.Now(), d, page, fr, PermFor(true), |fr|)
    {
      ghost var m := fm.Now();
      var fr := AllocateAndMap(d, page, size / PAGE_SIZE);
      var sh := Share(addr, owner, name, size, writable, 1, fr);
      NewShare(m, fm.Now(), d, page, sh);
      forall k | 0 <= k < |shares|
        ensures Apart(sh, shares[k])
      {
      }
      CreateKeeps(m, fm.Now(), d, page, sh, shares, places);
      shares := [sh] + shares;
      places := places[addr := map[(d, page) := true]];
    }

    /** getSharedObject at a vacant address. */
    method GetSharedObject(owner: int, name: string, d: nat, page: nat) returns (r: Outcome, ghost i: nat)
      requires Valid()
      requires forall k :: 0 <= k < |shares| && shares[k].owner == owner && shares[k].name == name ==>
        Vacant(fm.Now(), d, page, |shares[k].frames|) && shares[k].references < MAX_REFERENCES
      modifies this, fm, fm.frames
      ensures Valid()
      ensures r == NotExists ==>
        && shares == old(shares) && fm.Now() == old(fm.Now())
        && forall k :: 0 <= k < |shares| ==> shares[k].owner != owner || shares[k].name != name
      ensures r != NotExists ==> i < |old(shares)| && var sh := old(shares)[i];
        && sh.owner == owner && sh.name == name && r == Done(sh.Id())
        && shares == old(shares)[i := sh.(references := sh.references + 1)]
        && sh.addr in old(places) && places == old(places)[sh.addr := old(places)[sh.addr][(d, page) := false]]
        && Attached(old(fm.Now()), fm.Now(), d, page, sh.frames, PermFor(sh.writable), |sh.frames|)
        && Reaches(fm.tables, d, page, sh.frames, sh.writable)
    {
      var k := GetShare(owner, name);
      i := k;
      if k == |shares| {
        return NotExists, k;
      }
      ghost var m, sh := fm.Now(), shares[k];
      Attach(k, d, page);
      AttachedReaches(m, fm.Now(), d, page, sh.frames, sh.writable);
      r := Done(shares[k].Id());
    }

    method Attach(k: nat, d: nat, page: nat)
      requires Valid() && k < |shares| && Vacant(fm.Now(), d, page, |shares[k].frames|)
      requires shares[k].references < MAX_REFERENCES
      modifies this, fm, fm.frames
      ensures Valid()
      ensures var sh := old(shares)[k];
        && shares == old(shares)[k := sh.(references := sh.references + 1)]
        && sh.addr in old(places) && places == old(places)[sh.addr := old(places)[sh.addr][(d, page) := false]]
        && Attached(old(fm.Now()), fm.Now(), d, page, sh.frames, PermFor(sh.writable), |sh.frames|)
    {
      var sh := shares[k];
      ghost var m := fm.Now();
      MapFrames(sh, d, page, k);
      GetKeeps(m, fm.Now(), d, page, shares, places, k);
      shares := shares[k := sh.(references := sh.references + 1)];
      places := places[sh.addr := places[sh.addr][(d, page) := false]];
    }

    method MapFrames(sh: Share, d: nat, page: nat, ghost k: nat)
      requires Valid() && k < |shares| && sh == shares[k] && Vacant(fm.Now(), d, page, |sh.frames|)
      requires sh.references < MAX_REFERENCES
      modifies fm, fm.frames
      ensures Attached(old(fm.Now()), fm.Now(), d, page, sh.frames, PermFor(sh.writable), |sh.frames|)
    {
      MappableFrames(fm.Now(), shares, places, k);
      MapAll(d, page, sh.frames, sh.writable);
    }

    /** freeSharedObject, for a listed object and, when it has pages, a place where it is attached. */
    method FreeSharedObject(id: nat, d: nat, page: nat, ghost i: nat)
      requires Valid() && i < |shares| && shares[i].Id() == id
      requires shares[i].frames != [] ==> (d, page) in places[shares[i].addr]
      modifies this, fm, fm.frames
      ensures Valid() && Detached(old(fm.Now()), fm.Now(), d, page, |old(shares)[i].frames|)
      ensures old(shares)[i].references > 1 ==>
        && shares == old(shares)[i := old(shares)[i].(references := old(shares)[i].references - 1)]
        && places == old(places)[old(shares)[i].addr := old(places)[old(shares)[i].addr] - {(d, page)}]
      ensures old(shares)[i].references == 1 ==>
        && shares == old(shares)[..i] + old(shares)[i + 1..] && places == old(places) - {old(shares)[i].addr}
        && forall j :: 0 <= j < |old(shares)[i].frames| ==> old(shares)[i].frames[j] in fm.freeList
    {
      var k := FindById(id, i);
      Detach(k, d, page);
    }

    method Detach(k: nat, d: nat, page: nat)
      requires Valid() && k < |shares| && (shares[k].frames != [] ==> (d, page) in places[shares[k].addr])
      modifies this, fm, fm.frames
      ensures Valid() && Detached(old(fm.Now()), fm.Now(), d, page, |old(shares)[k].frames|)
      ensures old(shares)[k].references > 1 ==>
        && shares == old(shares)[k := old(shares)[k].(references := old(shares)[k].references - 1)]
        && places == old(places)[old(shares)[k].addr := old(places)[old(shares)[k].addr] - {(d, page)}]
      ensures old(shares)[k].references == 1 ==>
        && shares == old(shares)[..k] + old(shares)[k + 1..] && places == old(places) - {old(shares)[k].addr}
        && forall j :: 0 <= j < |old(shares)[k].frames| ==> old(shares)[k].frames[j] in fm.freeList
    {
      var sh := shares[k];
      ghost var m := fm.Now();
      UnmapAll(d, page, sh, places[sh.addr], sh.size / PAGE_SIZE);
      FreeKeeps(m, fm.Now(), d, page, shares, places, k);
      if sh.references - 1 == 0 {
        shares := shares[..k] + shares[k + 1..];
        places := places - {sh.addr};
      } else {
        shares := shares[k := sh.(references := sh.references - 1)];
        places := places[sh.addr := places[sh.addr] - {(d, page)}];
      }
    }

    /** The search by ID. */
    method FindById(id: nat, ghost i: nat) returns (k: nat)
      requires Valid() && i < |shares| && shares[i].Id() == id
      ensures k == i
    {
      k := 0;
      while shares[k].Id() != id
        invariant k <= i
        decreases i - k
      {
        k := k + 1;
      }
      if k < i {
        IdsDiffer(fm.tables, shares, places, k, i);
      }
    }
  }

  /** Frame f can be mapped once more. */
  ghost predicate Mappable1(m: FrameState, f: nat) {
    f in m.managed && f !in m.freeList && f !in m.transit && f < |m.frames| && m.frames[f].references < MAX_REFERENCES
  }

  lemma MappableFrames(m: FrameState, shares: seq<Share>, places: map<nat, Places>, k: nat)
    requires Sound(m) && AllOk(m.tables, shares, places) && k < |shares| && shares[k].references < MAX_REFERENCES
    ensures forall j :: 0 <= j < |shares[k].frames| ==> Mappable1(m, shares[k].frames[j])
    ensures forall j, l :: 0 <= j < l < |shares[k].frames| ==> shares[k].frames[j] != shares[k].frames[l]
  {
    var sh := shares[k];
    forall j | 0 <= j < |sh.frames|
      ensures Mappable1(m, sh.frames[j])
    {
      FramesInUse(m, sh, places[sh.addr], j);
    }
    forall j, l | 0 <= j < l < |sh.frames|
      ensures sh.frames[j] != sh.frames[l]
    {
      assert FramesApart(shares[k], j, shares[k], l);
    }
  }

  lemma PermIsPresent(writable: bool)
    ensures PermFor(writable) & PERM_PRESENT == PERM_PRESENT
  {
  }

  lemma SharedPerm(perm: bv12)
    requires exists w :: perm == PermFor(w)
    ensures ((perm | 0) & !PERM_AVAILABLE) & PERM_PRESENT == PERM_PRESENT
    ensures ((perm | 0) & !PERM_AVAILABLE) & PERM_AVAILABLE == 0
  {
  }

  lemma BlankPerm(perm: bv12)
    requires perm & PERM_PRESENT == PERM_PRESENT
    ensures !EMPTY.Present() && forall f :: NewEntry(EMPTY, f, perm) == Entry(f, perm)
  {
  }
}
