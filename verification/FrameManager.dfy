/** Physical frames, their reference counts, and the two-level page tables that name them. */
module FrameManager {
  import opened Machine
  import opened Wrappers

  const ENTRIES := 1024
  const MAX_REFERENCES := 65535
  const PERM_PRESENT: bv12 := 0x001
  const PERM_WRITEABLE: bv12 := 0x002
  const PERM_AVAILABLE: bv12 := 0xE00

  /** A page table entry: a frame number (0 for none) and the twelve low bits. */
  datatype Entry = Entry(frame: nat, perm: bv12) {
    predicate Present() { perm & PERM_PRESENT == PERM_PRESENT }
  }

  const EMPTY := Entry(0, 0)

  /** A sixteen-bit counter. */
  type uint16 = x: int | 0 <= x <= MAX_REFERENCES

  datatype FrameInfo = FrameInfo(references: uint16, baseVa: nat)

  const CLEARED := FrameInfo(0, 0)

  /** Page directory d's entry i leads to table (d, i). */
  type Tables = map<(nat, nat), seq<Entry>>

  function PDX(page: nat): nat { page / ENTRIES }

  function PTX(page: nat): (i: nat)
    ensures i < ENTRIES && page == PDX(page) * ENTRIES + i
  {
    page % ENTRIES
  }

  predicate HasTable(t: Tables, d: nat, page: nat) {
    (d, PDX(page)) in t && |t[(d, PDX(page))]| == ENTRIES
  }

  /** The two levels read as one map. */
  function EntryAt(t: Tables, d: nat, page: nat): Entry {
    if HasTable(t, d, page) then t[(d, PDX(page))][PTX(page)] else EMPTY
  }

  function SetEntry(t: Tables, d: nat, page: nat, e: Entry): Tables
    requires HasTable(t, d, page)
  {
    t[(d, PDX(page)) := t[(d, PDX(page))][PTX(page) := e]]
  }

  ghost predicate WellSized(t: Tables) {
    forall s :: s in t ==> |t[s]| == ENTRIES
  }

  /** t' is t with only the entry of page in directory d changed. */
  ghost predicate OneEntry(t: Tables, t': Tables, d: nat, page: nat, e: Entry) {
    && t'.Keys == t.Keys && WellSized(t')
    && forall c, q {:trigger EntryAt(t', c, q)} {:trigger EntryAt(t, c, q)} ::
      EntryAt(t', c, q) == if c == d && q == page then e else EntryAt(t, c, q)
  }

  /** Writing through the two levels changes one entry of the map and no other. */
  lemma SetEntryIsUpdate(t: Tables, d: nat, page: nat, e: Entry)
    requires WellSized(t) && HasTable(t, d, page)
    ensures OneEntry(t, SetEntry(t, d, page, e), d, page, e)
  {
    var t' := SetEntry(t, d, page, e);
    forall c: nat, q: nat
      ensures EntryAt(t', c, q) == if c == d && q == page then e else EntryAt(t, c, q)
    {
      if c == d && PDX(q) == PDX(page) {
        assert q == page <==> PTX(q) == PTX(page);
      }
    }
  }

  // ---------------------------------------------------------------- counting references

  /** The pages whose entries name frame f. */
  ghost function Names(t: Tables, f: nat): set<(nat, nat)> {
    set s: (nat, nat), i: nat | s in t && i < |t[s]| && t[s][i].frame == f :: (s.0, s.1 * ENTRIES + i)
  }

  lemma PageOf(x: nat, i: nat)
    requires i < ENTRIES
    ensures PDX(x * ENTRIES + i) == x && PTX(x * ENTRIES + i) == i
  {
    var p := x * ENTRIES + i;
    assert p == PDX(p) * ENTRIES + PTX(p);
  }

  lemma NamesIff(t: Tables, f: nat, d: nat, page: nat)
    requires WellSized(t) && f != 0
    ensures (d, page) in Names(t, f) <==> EntryAt(t, d, page).frame == f
  {
    if (d, page) in Names(t, f) {
      var s: (nat, nat), i: nat :| s in t && i < |t[s]| && t[s][i].frame == f && (d, page) == (s.0, s.1 * ENTRIES + i);
      PageOf(s.1, i);
      assert s == (d, PDX(page));
    }
    if EntryAt(t, d, page).frame == f {
      var s: (nat, nat), i: nat := (d, PDX(page)), PTX(page);
      assert s in t && t[s][i].frame == f && (d, page) == (s.0, s.1 * ENTRIES + i);
    }
  }

  /** Changing one entry moves one name. */
  lemma NamesMove(t: Tables, t': Tables, d: nat, page: nat, e: Entry, f: nat)
    requires WellSized(t) && OneEntry(t, t', d, page, e) && f != 0
    ensures Names(t', f) == if e.frame == f then Names(t, f) + {(d, page)} else Names(t, f) - {(d, page)}
  {
    var n := if e.frame == f then Names(t, f) + {(d, page)} else Names(t, f) - {(d, page)};
    forall x | x in Names(t', f) || x in n
      ensures x in Names(t', f) && x in n
    {
      assert x == (x.0, x.1);
      NamesIff(t, f, x.0, x.1);
      NamesIff(t', f, x.0, x.1);
    }
  }

  /** How one changed entry changes the number of names. */
  lemma NamesAfter(t: Tables, t': Tables, d: nat, page: nat, e: Entry, f: nat)
    requires WellSized(t) && OneEntry(t, t', d, page, e) && f != 0
    ensures |Names(t', f)| ==
      |Names(t, f)| - (if EntryAt(t, d, page).frame == f then 1 else 0) + (if e.frame == f then 1 else 0)
  {
    NamesMove(t, t', d, page, e, f);
    NamesIff(t, f, d, page);
    Size(Names(t, f), (d, page));
  }

  lemma Size(s: set<(nat, nat)>, x: (nat, nat))
    ensures |s + {x}| == |s| + (if x in s then 0 else 1) && |s - {x}| == |s| - (if x in s then 1 else 0)
  {
    if x in s {
      assert s + {x} == s;
    } else {
      assert s - {x} == s;
    }
  }

  // ---------------------------------------------------------------- the invariant

  /** The state of the frame manager, as a value: transit holds the frames that were allocated and not
      yet mapped, managed those that the manager ever hands out. */
  datatype FrameState = FrameState(frames: seq<FrameInfo>, freeList: seq<nat>, tables: Tables, transit: set<nat>,
                                   managed: set<nat>)

  ghost predicate EntryOk(m: FrameState, e: Entry) {
    e.frame != 0 ==> e.frame in m.managed && e.Present()
  }

  /** A managed frame's reference count is the number of entries that name it, and it is on the free
      list exactly when it is unreferenced and not in transit. */
  ghost predicate FrameOk(m: FrameState, f: nat)
    requires f < |m.frames|
  {
    && m.frames[f].references == |Names(m.tables, f)|
    && (f in m.freeList <==> m.frames[f].references == 0 && f !in m.transit)
    && (f in m.transit ==> m.frames[f].references == 0)
    && (f in m.freeList ==> m.frames[f] == CLEARED)
  }

  ghost predicate Sound(m: FrameState) {
    && WellSized(m.tables) && Distinct(m.freeList) && m.transit <= m.managed && 0 !in m.managed
    && (forall f :: f in m.freeList ==> f in m.managed)
    && (forall f :: f in m.managed ==> f < |m.frames| && FrameOk(m, f))
    && (forall d, page :: EntryOk(m, EntryAt(m.tables, d, page)))
  }

  /** No frame is lost or duplicated: each managed frame is free, in transit or mapped, and only one of these. */
  lemma FramesArePartitioned(m: FrameState, f: nat)
    requires Sound(m) && f in m.managed
    ensures (f in m.freeList) != (f in m.transit || |Names(m.tables, f)| > 0)
    ensures f in m.transit ==> |Names(m.tables, f)| == 0
    ensures |Names(m.tables, f)| > 0 <==> exists d, page :: EntryAt(m.tables, d, page).frame == f
  {
    assert FrameOk(m, f);
    if |Names(m.tables, f)| > 0 {
      var x :| x in Names(m.tables, f);
      assert x == (x.0, x.1);
      NamesIff(m.tables, f, x.0, x.1);
    }
    if d, page :| EntryAt(m.tables, d, page).frame == f {
      NamesIff(m.tables, f, d, page);
    }
  }

  // ---------------------------------------------------------------- what the operations do, as values

  /** allocate_frame: the first free frame, cleared, is now in transit. */
  function Allocated(m: FrameState): FrameState
    requires |m.freeList| > 0 && m.freeList[0] < |m.frames|
  {
    var f := m.freeList[0];
    m.(frames := m.frames[f := CLEARED], freeList := m.freeList[1..], transit := m.transit + {f})
  }

  /** C's uint16 x + 1. */
  function Inc16(x: uint16): uint16 { if x == MAX_REFERENCES then 0 else x + 1 }

  /** C's uint16 x - 1. */
  function Dec16(x: uint16): uint16 { if x == 0 then MAX_REFERENCES else x - 1 }

  /** decrement_references: a frame whose last reference goes is cleared and put at the head of the free list. */
  function Dropped(m: FrameState, f: nat): FrameState
    requires f < |m.frames|
  {
    var r := Dec16(m.frames[f].references);
    if r == 0 then m.(frames := m.frames[f := CLEARED], freeList := [f] + m.freeList)
    else m.(frames := m.frames[f := FrameInfo(r, 0)])
  }

  /** unmap_frame: the entry keeps its software bits. */
  function Unmapped(m: FrameState, d: nat, page: nat): FrameState
  {
    var e := EntryAt(m.tables, d, page);
    if !HasTable(m.tables, d, page) || e.frame == 0 || e.frame >= |m.frames| then m
    else Dropped(m, e.frame).(tables := SetEntry(m.tables, d, page, Entry(0, e.perm & PERM_AVAILABLE)))
  }

  /** map_frame, once the table exists. */
  function Mapped(m: FrameState, d: nat, f: nat, page: nat, perm: bv12): FrameState
    requires HasTable(m.tables, d, page) && f < |m.frames|
  {
    var e := EntryAt(m.tables, d, page);
    if e.Present() && e.frame == f then m
    else
      var u := if e.Present() then Unmapped(m, d, page) else m;
      u.(frames := u.frames[f := FrameInfo(Inc16(u.frames[f].references), page * PAGE_SIZE)],
         tables := SetEntry(m.tables, d, page, NewEntry(e, f, perm)),
         transit := m.transit - {f})
  }

  lemma AllocatedSound(m: FrameState)
    requires Sound(m) && |m.freeList| > 0
    ensures m.freeList[0] in m.managed && m.freeList[0] < |m.frames|
    ensures Sound(Allocated(m))
  {
    var f := m.freeList[0];
    assert f in m.managed;
    var n := Allocated(m);
    assert forall g :: g in m.freeList <==> g == f || g in n.freeList;
    assert f !in n.freeList;
    forall g | g in n.managed
      ensures g < |n.frames| && FrameOk(n, g)
    {
      assert FrameOk(m, g);
    }
    forall d, page
      ensures EntryOk(n, EntryAt(n.tables, d, page))
    {
      assert EntryOk(m, EntryAt(m.tables, d, page));
    }
  }

  lemma AvailableIsNotPresent(p: bv12)
    ensures (p & PERM_AVAILABLE) & PERM_PRESENT == 0
    ensures ((p & PERM_AVAILABLE) & PERM_AVAILABLE) == p & PERM_AVAILABLE
  {
  }

  lemma UnmappedSound(m: FrameState, d: nat, page: nat)
    requires Sound(m)
    ensures Sound(Unmapped(m, d, page)) && |Unmapped(m, d, page).frames| == |m.frames|
    ensures HasTable(m.tables, d, page) ==>
      OneEntry(m.tables, Unmapped(m, d, page).tables, d, page,
        if EntryAt(m.tables, d, page).frame == 0 then EntryAt(m.tables, d, page)
        else Entry(0, EntryAt(m.tables, d, page).perm & PERM_AVAILABLE))
  {
    var n, e := Unmapped(m, d, page), EntryAt(m.tables, d, page);
    assert EntryOk(m, e);
    if HasTable(m.tables, d, page) && e.frame != 0 {
      assert FrameOk(m, e.frame);
      SetEntryIsUpdate(m.tables, d, page, Entry(0, e.perm & PERM_AVAILABLE));
      NamesAfter(m.tables, n.tables, d, page, Entry(0, e.perm & PERM_AVAILABLE), e.frame);
      NamesIff(m.tables, e.frame, d, page);
      forall f | f in n.managed
        ensures f < |n.frames| && FrameOk(n, f)
      {
        assert FrameOk(m, f);
        NamesAfter(m.tables, n.tables, d, page, Entry(0, e.perm & PERM_AVAILABLE), f);
      }
      forall c: nat, q: nat
        ensures EntryOk(n, EntryAt(n.tables, c, q))
      {
        assert EntryOk(m, EntryAt(m.tables, c, q));
      }
    }
  }

  lemma PresentStays(p: bv12, q: bv12)
    ensures ((p & PERM_AVAILABLE) | q | PERM_PRESENT) & PERM_PRESENT == PERM_PRESENT
  {
  }

  /** The entry that map_frame writes over e. */
  function NewEntry(e: Entry, f: nat, perm: bv12): (r: Entry)
    ensures r.frame == f && r.Present()
  {
    PresentStays(e.perm, perm);
    Entry(f, (e.perm & PERM_AVAILABLE) | perm | PERM_PRESENT)
  }

  /** The low bits of an entry that replaces another: it is present, has the bits that were asked for, and keeps the
      three bits that software may use. */
  ghost predicate KeepsSoftwareBits(before: bv12, asked: bv12, after: bv12) {
    && after & 0x001 == 0x001 && after & 0x1FE == asked & 0x1FE
    && after & 0xE00 == (before | asked) & 0xE00
  }

  lemma NewEntryBits(e: Entry, f: nat, perm: bv12)
    ensures KeepsSoftwareBits(e.perm, perm, NewEntry(e, f, perm).perm)
  {
  }

  /** What map_frame asks of its caller: a table, and a frame that is not free. */
  ghost predicate Mappable(m: FrameState, d: nat, f: nat, page: nat) {
    HasTable(m.tables, d, page) && f in m.managed && f !in m.freeList
  }

  /** The only request that breaks the count is the one that wraps a sixteen-bit counter. */
  lemma MappedSound(m: FrameState, d: nat, f: nat, page: nat, perm: bv12)
    requires Sound(m) && Mappable(m, d, f, page)
    ensures f < |m.frames|
    ensures Sound(Mapped(m, d, f, page, perm)) <==>
      EntryAt(m.tables, d, page).frame == f || m.frames[f].references < MAX_REFERENCES
    ensures EntryAt(m.tables, d, page).frame != f ==>
      OneEntry(m.tables, Mapped(m, d, f, page, perm).tables, d, page, NewEntry(EntryAt(m.tables, d, page), f, perm))
  {
    assert EntryOk(m, EntryAt(m.tables, d, page)) && FrameOk(m, f);
    if EntryAt(m.tables, d, page).frame != f {
      SetEntryIsUpdate(m.tables, d, page, NewEntry(EntryAt(m.tables, d, page), f, perm));
      if m.frames[f].references < MAX_REFERENCES {
        MappedKeeps(m, d, f, page, perm);
      } else {
        MappedWraps(m, d, f, page, perm);
      }
    }
  }

  /** What unmapping does to the frame's record and to the free list: one reference less, no address, and at the
      last reference the frame is the first of the free list. */
  lemma UnmappedRecords(m: FrameState, d: nat, page: nat)
    requires Sound(m)
    ensures var u, g := Unmapped(m, d, page), EntryAt(m.tables, d, page).frame;
      if g == 0 then u == m
      else
        && g < |m.frames| && m.frames[g].references > 0 && u.transit == m.transit
        && u.frames == m.frames[g := FrameInfo(m.frames[g].references - 1, 0)]
        && u.freeList == (if m.frames[g].references == 1 then [g] else []) + m.freeList
        && EntryAt(u.tables, d, page) == Entry(0, EntryAt(m.tables, d, page).perm & 0xE00)
  {
    var g := EntryAt(m.tables, d, page).frame;
    assert EntryOk(m, EntryAt(m.tables, d, page));
    if g != 0 {
      assert FrameOk(m, g);
      NamesIff(m.tables, g, d, page);
      UnmappedSound(m, d, page);
    }
  }

  /** What mapping frame f over another frame g, or over none, does: f has one reference more, in sixteen bits, and
      knows the page; g has one reference less; every other record stays. */
  lemma MappedRecords(m: FrameState, d: nat, f: nat, page: nat, perm: bv12)
    requires Sound(m) && Mappable(m, d, f, page) && EntryAt(m.tables, d, page).frame != f
    ensures f < |m.frames|
    ensures var n, u := Mapped(m, d, f, page, perm), Unmapped(m, d, page);
      && n.frames == u.frames[f := FrameInfo((m.frames[f].references + 1) % 0x1_0000, page * PAGE_SIZE)]
      && n.freeList == u.freeList && n.transit == m.transit - {f} && n.managed == m.managed
      && EntryAt(n.tables, d, page).frame == f
  {
    var e := EntryAt(m.tables, d, page);
    assert EntryOk(m, e) && FrameOk(m, f);
    MappedSound(m, d, f, page, perm);
    UnmappedRecords(m, d, page);
  }

  lemma MappedWraps(m: FrameState, d: nat, f: nat, page: nat, perm: bv12)
    requires Sound(m) && Mappable(m, d, f, page) && f < |m.frames| && m.frames[f].references >= MAX_REFERENCES
    requires EntryAt(m.tables, d, page).frame != f
    ensures !Sound(Mapped(m, d, f, page, perm))
  {
    var n, e := Mapped(m, d, f, page, perm), EntryAt(m.tables, d, page);
    assert EntryOk(m, e) && FrameOk(m, f);
    SetEntryIsUpdate(m.tables, d, page, NewEntry(e, f, perm));
    NamesAfter(m.tables, n.tables, d, page, NewEntry(e, f, perm), f);
    assert n.frames[f].references == Inc16(m.frames[f].references);
    assert n.frames[f].references != |Names(n.tables, f)|;
    assert f in n.managed && !FrameOk(n, f);
  }

  lemma MappedKeeps(m: FrameState, d: nat, f: nat, page: nat, perm: bv12)
    requires Sound(m) && Mappable(m, d, f, page) && f < |m.frames| && m.frames[f].references < MAX_REFERENCES
    requires EntryAt(m.tables, d, page).frame != f
    ensures Sound(Mapped(m, d, f, page, perm))
  {
    var n, e := Mapped(m, d, f, page, perm), EntryAt(m.tables, d, page);
    SetEntryIsUpdate(m.tables, d, page, NewEntry(e, f, perm));
    assert EntryOk(m, e) && FrameOk(m, f);
    assert e.frame != 0 ==> FrameOk(m, e.frame);
    forall g | g in n.managed
      ensures g < |n.frames| && FrameOk(n, g)
    {
      assert FrameOk(m, g);
      MappedFrame(m, d, f, page, perm, g);
    }
    forall c: nat, q: nat
      ensures EntryOk(n, EntryAt(n.tables, c, q))
    {
      assert EntryOk(m, EntryAt(m.tables, c, q));
    }
  }

  lemma MappedFrame(m: FrameState, d: nat, f: nat, page: nat, perm: bv12, g: nat)
    requires Sound(m) && Mappable(m, d, f, page) && f < |m.frames| && m.frames[f].references < MAX_REFERENCES
    requires EntryAt(m.tables, d, page).frame != f && g in m.managed && g < |m.frames|
    requires EntryAt(m.tables, d, page).frame < |m.frames|
    ensures FrameOk(Mapped(m, d, f, page, perm), g)
  {
    var n, e := Mapped(m, d, f, page, perm), EntryAt(m.tables, d, page);
    SetEntryIsUpdate(m.tables, d, page, NewEntry(e, f, perm));
    assert EntryOk(m, e) && FrameOk(m, f) && FrameOk(m, g);
    NamesAfter(m.tables, n.tables, d, page, NewEntry(e, f, perm), g);
    if g != f && g == e.frame {
      NamesIff(m.tables, g, d, page);
    }
  }

  /** The first n pages of directory 0. */
  ghost function FirstPages(n: nat): set<(nat, nat)> {
    set p: nat | p < n :: (0, p)
  }

  lemma {:induction false} FirstPagesSize(n: nat)
    ensures |FirstPages(n)| == n
  {
    if n > 0 {
      FirstPagesSize(n - 1);
      assert FirstPages(n) == FirstPages(n - 1) + {(0, n - 1)};
    }
  }

  /** Enough tables to map frame 1 at the first n pages. */
  function FullTables(n: nat): Tables {
    map i: nat | i < ENTRIES :: (0, i) := seq(ENTRIES, j requires 0 <= j < ENTRIES =>
      if i * ENTRIES + j < n then Entry(1, PERM_PRESENT) else EMPTY)
  }

  lemma FullTablesRead(n: nat)
    requires n < ENTRIES * ENTRIES
    ensures WellSized(FullTables(n)) && HasTable(FullTables(n), 0, n) && Names(FullTables(n), 1) == FirstPages(n)
    ensures forall d: nat, p: nat ::
      EntryAt(FullTables(n), d, p) == if d == 0 && p < n then Entry(1, PERM_PRESENT) else EMPTY
  {
    var t := FullTables(n);
    assert n == PDX(n) * ENTRIES + PTX(n);
    forall d: nat, p: nat
      ensures EntryAt(t, d, p) == if d == 0 && p < n then Entry(1, PERM_PRESENT) else EMPTY
    {
      assert p == PDX(p) * ENTRIES + PTX(p);
    }
    forall x | x in Names(t, 1) || x in FirstPages(n)
      ensures x in Names(t, 1) && x in FirstPages(n)
    {
      assert x == (x.0, x.1);
      NamesIff(t, 1, x.0, x.1);
    }
  }

  /** The wrap happens: a frame can soundly be mapped 65535 times, and then once too often. */
  lemma CounterWraps() returns (m: FrameState)
    ensures Sound(m) && Mappable(m, 0, 1, MAX_REFERENCES) && |m.frames| == 2 && m.frames[1].references == MAX_REFERENCES
    ensures Mapped(m, 0, 1, MAX_REFERENCES, PERM_PRESENT).frames[1].references == 0
    ensures !Sound(Mapped(m, 0, 1, MAX_REFERENCES, PERM_PRESENT))
  {
    FullTablesRead(MAX_REFERENCES);
    FirstPagesSize(MAX_REFERENCES);
    m := FrameState([CLEARED, FrameInfo(MAX_REFERENCES, 0)], [], FullTables(MAX_REFERENCES), {}, {1});
    forall f | f in m.managed
      ensures f < |m.frames| && FrameOk(m, f)
    {
      assert f == 1;
    }
    MappedSound(m, 0, 1, MAX_REFERENCES, PERM_PRESENT);
  }

  /** map_frame trusts the present bit: over an entry that names a frame but is not present it loses a reference. */
  lemma AbsentEntryLeaks(m: FrameState, d: nat, f: nat, page: nat, perm: bv12, g: nat)
    requires WellSized(m.tables) && HasTable(m.tables, d, page) && f < |m.frames| && g < |m.frames|
    requires EntryAt(m.tables, d, page).frame == g && g != 0 && g != f
    requires m.frames[g].references == |Names(m.tables, g)|
    ensures Mapped(m, d, f, page, perm).frames[g].references == |Names(Mapped(m, d, f, page, perm).tables, g)|
      <==> EntryAt(m.tables, d, page).Present()
  {
    var n, e := Mapped(m, d, f, page, perm), EntryAt(m.tables, d, page);
    SetEntryIsUpdate(m.tables, d, page, NewEntry(e, f, perm));
    NamesAfter(m.tables, n.tables, d, page, NewEntry(e, f, perm), g);
    NamesIff(m.tables, g, d, page);
  }

  /** Changing low bits keeps the books, unless it makes a frame-bearing entry absent. */
  lemma PermissionsSound(m: FrameState, d: nat, page: nat, perm: bv12)
    requires Sound(m) && HasTable(m.tables, d, page)
    ensures var e := Entry(EntryAt(m.tables, d, page).frame, perm);
      && OneEntry(m.tables, SetEntry(m.tables, d, page, e), d, page, e)
      && (Sound(m.(tables := SetEntry(m.tables, d, page, e))) <==> e.frame == 0 || e.Present())
  {
    var e := Entry(EntryAt(m.tables, d, page).frame, perm);
    var n := m.(tables := SetEntry(m.tables, d, page, e));
    SetEntryIsUpdate(m.tables, d, page, e);
    assert EntryOk(m, EntryAt(m.tables, d, page));
    forall f | f in n.managed
      ensures f < |n.frames| && FrameOk(n, f)
    {
      assert FrameOk(m, f);
      NamesAfter(m.tables, n.tables, d, page, e, f);
    }
    assert EntryAt(n.tables, d, page) == e;
    if e.frame == 0 || e.Present() {
      forall c: nat, q: nat
        ensures EntryOk(n, EntryAt(n.tables, c, q))
      {
        assert EntryOk(m, EntryAt(m.tables, c, q));
      }
    }
  }

  /** An empty page table changes no entry of the map and no count. */
  lemma NewTableSound(m: FrameState, d: nat, page: nat)
    requires Sound(m) && !HasTable(m.tables, d, page)
    ensures var t := m.tables[(d, PDX(page)) := seq(ENTRIES, i => EMPTY)];
      && Sound(m.(tables := t)) && HasTable(t, d, page)
      && (forall c, q :: EntryAt(t, c, q) == EntryAt(m.tables, c, q))
      && (forall c, q :: HasTable(m.tables, c, q) ==> HasTable(t, c, q))
  {
    var n := m.(tables := m.tables[(d, PDX(page)) := seq(ENTRIES, i => EMPTY)]);
    assert (d, PDX(page)) !in m.tables;
    forall f | f in n.managed
      ensures f < |n.frames| && FrameOk(n, f)
    {
      assert FrameOk(m, f);
      assert Names(n.tables, f) == Names(m.tables, f) by {
        forall x | x in Names(n.tables, f) || x in Names(m.tables, f)
          ensures x in Names(n.tables, f) && x in Names(m.tables, f)
        {
          assert x == (x.0, x.1);
          NamesIff(m.tables, f, x.0, x.1);
          NamesIff(n.tables, f, x.0, x.1);
        }
      }
    }
    forall c: nat, q: nat
      ensures EntryOk(n, EntryAt(n.tables, c, q))
    {
      assert EntryOk(m, EntryAt(m.tables, c, q));
    }
  }

  /** The new entry, and the reference it counts for. */
  function Installed(u: FrameState, d: nat, f: nat, page: nat, perm: bv12): FrameState
    requires HasTable(u.tables, d, page) && f < |u.frames|
  {
    u.(frames := u.frames[f := FrameInfo(Inc16(u.frames[f].references), page * PAGE_SIZE)],
       tables := SetEntry(u.tables, d, page, NewEntry(EntryAt(u.tables, d, page), f, perm)),
       transit := u.transit - {f})
  }

  /** Mapping over another frame is unmapping it first. */
  lemma MappedFrom(m: FrameState, u: FrameState, d: nat, f: nat, page: nat, perm: bv12)
    requires HasTable(m.tables, d, page) && f < |m.frames| && EntryOk(m, EntryAt(m.tables, d, page))
    requires var e := EntryAt(m.tables, d, page);
      !(e.Present() && e.frame == f) && u == if e.Present() then Unmapped(m, d, page) else m
    ensures HasTable(u.tables, d, page) && f < |u.frames|
    ensures Mapped(m, d, f, page, perm) == Installed(u, d, f, page, perm)
  {
    var e := EntryAt(m.tables, d, page);
    SetTwice(m.tables, d, page, Entry(0, e.perm & PERM_AVAILABLE), NewEntry(e, f, perm));
  }

  lemma SetTwice(t: Tables, d: nat, page: nat, e: Entry, e': Entry)
    requires HasTable(t, d, page)
    ensures HasTable(SetEntry(t, d, page, e), d, page)
    ensures SetEntry(SetEntry(t, d, page, e), d, page, e') == SetEntry(t, d, page, e')
  {
    assert t[(d, PDX(page))][PTX(page) := e][PTX(page) := e'] == t[(d, PDX(page))][PTX(page) := e'];
  }

  // ---------------------------------------------------------------- the manager

  lemma Prepend(xs: seq<nat>, x: nat)
    requires Distinct(xs) && x !in xs
    ensures Distinct([x] + xs)
  {
    forall i, j | 0 <= i < j < |[x] + xs|
      ensures ([x] + xs)[i] != ([x] + xs)[j]
    {
      assert ([x] + xs)[j] == xs[j - 1] && xs[j - 1] in xs;
    }
  }

  /** Frames below the I/O hole, but for the first three, and those above the kernel image. */
  predicate Manageable(f: nat, io: nat, extended: nat) {
    3 <= f < io || extended <= f
  }

  class Manager {
    const frames: array<FrameInfo>
    var freeList: seq<nat>
    var tables: Tables
    ghost var transit: set<nat>
    ghost const managed: set<nat>

    ghost function Now(): FrameState
      reads this, frames
    {
      FrameState(frames[..], freeList, tables, transit, managed)
    }

    /** initialize_paging: of n frames, 0 to 2 and those in [io, extended) are never handed out. The kernel
        directory has empty tables for its entries from firstTable on. */
    constructor (n: nat, io: nat, extended: nat, firstTable: nat)
      requires 3 <= io <= extended <= n && firstTable <= ENTRIES
      ensures Sound(Now()) && transit == {} && frames.Length == n && fresh(frames)
      ensures managed == set f: nat | f < n && Manageable(f, io, extended)
      ensures forall f :: f in freeList <==> f in managed
      ensures forall f :: f in freeList <==> 3 <= f < io || extended <= f < n
      ensures forall page: nat :: firstTable * ENTRIES <= page < ENTRIES * ENTRIES ==> HasTable(tables, 0, page)
      ensures forall d: nat, page: nat :: EntryAt(tables, d, page) == EMPTY
    {
      frames := new FrameInfo[n](f requires 0 <= f < n =>
        if Manageable(f, io, extended) then CLEARED else FrameInfo(1, 0));
      freeList, transit := [], {};
      managed := set f: nat | f < n && Manageable(f, io, extended);
      tables := map i: nat | firstTable <= i < ENTRIES :: (0, i) := seq(ENTRIES, _ => EMPTY);
      new;
      FreeRange(3, io);
      FreeRange(extended, n);
      ghost var m := Now();
      forall f | f in m.managed
        ensures f < |m.frames| && FrameOk(m, f)
      {
        assert Names(m.tables, f) == {};
      }
      forall page: nat | firstTable * ENTRIES <= page < ENTRIES * ENTRIES
        ensures HasTable(tables, 0, page)
      {
        assert page == PDX(page) * ENTRIES + PTX(page);
        assert firstTable <= PDX(page) < ENTRIES;
      }
    }

    /** The insertion loops of initialize_paging. */
    method FreeRange(lo: nat, hi: nat)
      requires lo <= hi && Distinct(freeList) && forall f :: f in freeList ==> f < lo
      modifies this`freeList
      ensures Distinct(freeList) && forall f :: f in freeList <==> f in old(freeList) || lo <= f < hi
    {
      var i := lo;
      while i < hi
        invariant lo <= i <= hi && Distinct(freeList)
        invariant forall f :: f in freeList <==> f in old(freeList) || lo <= f < i
        invariant forall f :: f in freeList ==> f < i
      {
        Prepend(freeList, i);
        freeList := [i] + freeList;
        i := i + 1;
      }
    }

    /** allocate_frame. */
    method AllocateFrame() returns (f: nat)
      requires Sound(Now()) && |freeList| > 0
      modifies this, frames
      ensures f == old(freeList)[0] && f in managed && f < frames.Length
      ensures Now() == Allocated(old(Now())) && Sound(Now())
    {
      AllocatedSound(Now());
      f := freeList[0];
      freeList := freeList[1..];
      frames[f] := CLEARED;
      transit := transit + {f};
    }

    /** decrement_references, with free_frame when the last reference goes. */
    method DecrementReferences(f: nat)
      requires f < frames.Length
      modifies this`freeList, frames
      ensures freeList == if old(frames[f].references) == 1 then [f] + old(freeList) else old(freeList)
      ensures frames[..] == old(frames[..])[f :=
        if old(frames[f].references) == 1 then CLEARED
        else old(frames[f]).(references := Dec16(old(frames[f].references)))]
    {
      frames[f] := frames[f].(references := Dec16(frames[f].references));
      if frames[f].references == 0 {
        frames[f] := CLEARED;
        freeList := [f] + freeList;
      }
    }

    /** get_frame_info: the frame an entry names, present or not; 0 when there is none. */
    function GetFrameInfo(d: nat, page: nat): (f: nat)
      reads this
      ensures f == EntryAt(tables, d, page).frame
    {
      if HasTable(tables, d, page) then tables[(d, PDX(page))][PTX(page)].frame else 0
    }

    /** pt_get_page_permissions: -1 without a table. */
    function GetPagePermissions(d: nat, page: nat): (r: int)
      reads this
      ensures r == -1 <==> !HasTable(tables, d, page)
      ensures HasTable(tables, d, page) ==> r == EntryAt(tables, d, page).perm as int
    {
      if HasTable(tables, d, page) then tables[(d, PDX(page))][PTX(page)].perm as int else -1
    }

    /** pt_set_page_permissions; it panics without a table. */
    method SetPagePermissions(d: nat, page: nat, toSet: bv12, toClear: bv12)
      requires Sound(Now()) && HasTable(tables, d, page)
      modifies this`tables
      ensures HasTable(tables, d, page)
      ensures OneEntry(old(tables), tables, d, page,
        Entry(EntryAt(old(tables), d, page).frame, (EntryAt(old(tables), d, page).perm | toSet) & !toClear))
      ensures Sound(Now()) <==> EntryAt(tables, d, page).frame == 0 || EntryAt(tables, d, page).Present()
    {
      var e := EntryAt(tables, d, page);
      PermissionsSound(Now(), d, page, (e.perm | toSet) & !toClear);
      tables := SetEntry(tables, d, page, Entry(e.frame, (e.perm | toSet) & !toClear));
    }

    /** The directory entry that create_page_table writes, to a table of zeros. */
    method AddTable(d: nat, page: nat)
      requires Sound(Now()) && !HasTable(tables, d, page)
      modifies this`tables
      ensures Sound(Now()) && HasTable(tables, d, page)
      ensures forall c, q :: EntryAt(tables, c, q) == EntryAt(old(tables), c, q)
      ensures forall c, q :: HasTable(old(tables), c, q) ==> HasTable(tables, c, q)
    {
      NewTableSound(Now(), d, page);
      tables := tables[(d, PDX(page)) := seq(ENTRIES, i => EMPTY)];
    }

    /** unmap_frame. */
    method UnmapFrame(d: nat, page: nat)
      requires Sound(Now())
      modifies this`freeList, this`tables, frames
      ensures Now() == Unmapped(old(Now()), d, page) && Sound(Now())
    {
      UnmappedSound(Now(), d, page);
      assert EntryOk(Now(), EntryAt(tables, d, page));
      var f := GetFrameInfo(d, page);
      if f != 0 {
        DecrementReferences(f);
        var available := EntryAt(tables, d, page).perm & PERM_AVAILABLE;
        tables := SetEntry(tables, d, page, Entry(0, available));
        frames[f] := frames[f].(baseVa := 0);
      }
    }

    /** map_frame, for a page whose table exists. */
    method MapFrame(d: nat, f: nat, page: nat, perm: bv12)
      requires Sound(Now()) && Mappable(Now(), d, f, page)
      modifies this, frames
      ensures f < |old(frames[..])| && Now() == Mapped(old(Now()), d, f, page, perm)
      ensures Sound(Now()) <==> old(EntryAt(tables, d, page)).frame == f || old(frames[f].references) < MAX_REFERENCES
      ensures old(EntryAt(tables, d, page)).frame == f ==> Now() == old(Now())
      ensures old(EntryAt(tables, d, page)).frame != f ==>
        && EntryAt(tables, d, page).frame == f
        && KeepsSoftwareBits(old(EntryAt(tables, d, page)).perm, perm, EntryAt(tables, d, page).perm)
    {
      MappedSound(Now(), d, f, page, perm);
      NewEntryBits(EntryAt(tables, d, page), f, perm);
      assert EntryOk(Now(), EntryAt(tables, d, page));
      MapEntry(d, f, page, perm);
    }

    method MapEntry(d: nat, f: nat, page: nat, perm: bv12)
      requires Sound(Now()) && HasTable(tables, d, page) && f < frames.Length
      modifies this, frames
      ensures Now() == Mapped(old(Now()), d, f, page, perm)
    {
      ghost var m := Now();
      var e := EntryAt(tables, d, page);
      if e.Present() {
        if e.frame == f {
          return;
        }
        Clear(d, page);
      }
      ghost var u := Now();
      Install(d, f, page, perm);
      MappedFrom(m, u, d, f, page, perm);
    }

    /** The unmapping of another frame inside map_frame. */
    method Clear(d: nat, page: nat)
      requires Sound(Now()) && HasTable(tables, d, page)
      modifies this`freeList, this`tables, frames
      ensures Now() == Unmapped(old(Now()), d, page) && Sound(Now())
      ensures HasTable(tables, d, page)
      ensures EntryAt(tables, d, page).perm & PERM_AVAILABLE == EntryAt(old(tables), d, page).perm & PERM_AVAILABLE
    {
      UnmappedSound(Now(), d, page);
      AvailableIsNotPresent(EntryAt(tables, d, page).perm);
      UnmapFrame(d, page);
    }

    /** The writing of the new entry inside map_frame. */
    method Install(d: nat, f: nat, page: nat, perm: bv12)
      requires HasTable(tables, d, page) && f < frames.Length
      modifies this`tables, this`transit, frames
      ensures Now() == Installed(old(Now()), d, f, page, perm)
    {
      frames[f] := FrameInfo(Inc16(frames[f].references), page * PAGE_SIZE);
      var available := EntryAt(tables, d, page).perm & PERM_AVAILABLE;
      PresentStays(EntryAt(tables, d, page).perm, perm);
      tables := SetEntry(tables, d, page, Entry(f, available | perm | PERM_PRESENT));
      transit := transit - {f};
    }
  }
}
