/** The kernel heap's list of free extents: runs of unmapped pages. */
module Extents {

  datatype Extent = Extent(first: nat, pages: nat) {
    function End(): nat { first + pages }
    predicate Holds(p: nat) { first <= p < End() }
  }

  ghost predicate Gap(xs: seq<Extent>, i: nat, j: nat)
    requires i < |xs| && j < |xs|
  {
    xs[i].End() < xs[j].first
  }

  ghost predicate Nonempty(xs: seq<Extent>, i: nat)
    requires i < |xs|
  {
    xs[i].pages > 0
  }

  /** Sorted and disjoint, with a used page between any two: no two extents could be merged. */
  ghost predicate Sorted(xs: seq<Extent>) {
    && (forall i :: 0 <= i < |xs| ==> Nonempty(xs, i))
    && (forall i, j :: 0 <= i < j < |xs| ==> Gap(xs, i, j))
  }

  ghost predicate Covers(xs: seq<Extent>, p: nat) {
    exists i :: 0 <= i < |xs| && xs[i].Holds(p)
  }

  /** Two lists that cover the same pages. */
  ghost predicate SameCover(xs: seq<Extent>, ys: seq<Extent>) {
    forall p: nat :: Covers(xs, p) <==> Covers(ys, p)
  }

  lemma FirstIsLeast(xs: seq<Extent>, p: nat)
    requires Sorted(xs) && Covers(xs, p)
    ensures |xs| > 0 && xs[0].first <= p
  {
    var i :| 0 <= i < |xs| && xs[i].Holds(p);
    assert i > 0 ==> Gap(xs, 0, i);
  }

  lemma EndIsFree(xs: seq<Extent>)
    requires Sorted(xs) && |xs| > 0
    ensures Covers(xs, xs[0].first) && !Covers(xs, xs[0].End())
  {
    assert Nonempty(xs, 0) && xs[0].Holds(xs[0].first);
    forall i | 0 <= i < |xs|
      ensures !xs[i].Holds(xs[0].End())
    {
      assert i > 0 ==> Gap(xs, 0, i);
    }
  }

  lemma HeadsAgree(xs: seq<Extent>, ys: seq<Extent>)
    requires Sorted(xs) && Sorted(ys) && SameCover(xs, ys) && |xs| > 0
    ensures |ys| > 0 && xs[0].first == ys[0].first && xs[0].End() <= ys[0].End()
  {
    EndIsFree(xs);
    FirstIsLeast(ys, xs[0].first);
    EndIsFree(ys);
    FirstIsLeast(xs, ys[0].first);
    if ys[0].End() < xs[0].End() {
      assert xs[0].Holds(ys[0].End());
    }
  }

  lemma SortedTail(xs: seq<Extent>)
    requires Sorted(xs) && |xs| > 0
    ensures Sorted(xs[1..])
    ensures forall p: nat :: Covers(xs[1..], p) <==> Covers(xs, p) && !xs[0].Holds(p)
  {
    forall i | 0 <= i < |xs[1..]|
      ensures Nonempty(xs[1..], i)
    {
      assert Nonempty(xs, i + 1);
    }
    forall i, j | 0 <= i < j < |xs[1..]|
      ensures Gap(xs[1..], i, j)
    {
      assert Gap(xs, i + 1, j + 1);
    }
    forall p: nat
      ensures Covers(xs[1..], p) <==> Covers(xs, p) && !xs[0].Holds(p)
    {
      if Covers(xs[1..], p) {
        var i :| 0 <= i < |xs[1..]| && xs[1..][i].Holds(p);
        assert xs[i + 1].Holds(p) && Gap(xs, 0, i + 1);
      }
      if Covers(xs, p) && !xs[0].Holds(p) {
        var i :| 0 <= i < |xs| && xs[i].Holds(p);
        assert xs[1..][i - 1].Holds(p);
      }
    }
  }

  /** The free pages determine the list: there is only one sorted, maximally coalesced way to write them. */
  lemma {:induction false} CoverDeterminesList(xs: seq<Extent>, ys: seq<Extent>)
    requires Sorted(xs) && Sorted(ys) && SameCover(xs, ys)
    ensures xs == ys
  {
    if |xs| == 0 {
      if |ys| > 0 {
        EndIsFree(ys);
      }
    } else {
      HeadsAgree(xs, ys);
      HeadsAgree(ys, xs);
      SortedTail(xs);
      SortedTail(ys);
      CoverDeterminesList(xs[1..], ys[1..]);
    }
  }

  // ---------------------------------------------------------------- changing part of the list

  function Splice(xs: seq<Extent>, a: nat, b: nat, e: seq<Extent>): seq<Extent>
    requires a <= b <= |xs|
  {
    xs[..a] + e + xs[b..]
  }

  ghost predicate Among(xs: seq<Extent>, a: nat, b: nat, p: nat)
    requires a <= b <= |xs|
  {
    exists i :: a <= i < b && xs[i].Holds(p)
  }

  /** Extents a .. b - 1 may be replaced by one that keeps its distance from the rest. */
  lemma SpliceSorted(xs: seq<Extent>, a: nat, b: nat, e: Extent)
    requires Sorted(xs) && a <= b <= |xs| && e.pages > 0
    requires (a > 0 ==> xs[a - 1].End() < e.first) && (b < |xs| ==> e.End() < xs[b].first)
    ensures Sorted(Splice(xs, a, b, [e]))
  {
    var ys := Splice(xs, a, b, [e]);
    forall i | 0 <= i < |ys|
      ensures Nonempty(ys, i)
    {
      assert i < a ==> Nonempty(xs, i);
      assert i > a ==> Nonempty(xs, i - a - 1 + b);
    }
    forall i, j | 0 <= i < j < |ys|
      ensures Gap(ys, i, j)
    {
      var k, l := if i < a then i else i - a - 1 + b, if j < a then j else j - a - 1 + b;
      assert i != a && j != a ==> Gap(xs, k, l);
      assert j == a && i < a - 1 ==> Gap(xs, i, a - 1);
      assert i == a && l > b ==> Gap(xs, b, l);
      assert i == a ==> Nonempty(xs, b);
      assert j == a ==> Nonempty(xs, a - 1);
    }
  }

  lemma SpliceCovers(xs: seq<Extent>, a: nat, b: nat, e: seq<Extent>, p: nat)
    requires Sorted(xs) && a <= b <= |xs|
    ensures Covers(Splice(xs, a, b, e), p) <==> Covers(e, p) || (Covers(xs, p) && !Among(xs, a, b, p))
  {
    var ys := Splice(xs, a, b, e);
    if Covers(ys, p) {
      var i :| 0 <= i < |ys| && ys[i].Holds(p);
      if i < a || a + |e| <= i {
        var k := if i < a then i else i - a - |e| + b;
        assert xs[k].Holds(p);
        forall l | a <= l < b
          ensures !xs[l].Holds(p)
        {
          assert k < l ==> Gap(xs, k, l);
          assert l < k ==> Gap(xs, l, k);
        }
      } else {
        assert e[i - a].Holds(p);
      }
    }
    if Covers(e, p) {
      var i :| 0 <= i < |e| && e[i].Holds(p);
      assert ys[a + i].Holds(p);
    }
    if Covers(xs, p) && !Among(xs, a, b, p) {
      var k :| 0 <= k < |xs| && xs[k].Holds(p);
      assert ys[if k < a then k else k - b + a + |e|].Holds(p);
    }
  }

  /** xs' is xs with pages s .. s + n - 1 given out. */
  ghost predicate Without(xs: seq<Extent>, xs': seq<Extent>, s: nat, n: nat) {
    Sorted(xs') && forall p: nat :: Covers(xs', p) <==> Covers(xs, p) && !(s <= p < s + n)
  }

  /** xs' is xs with pages s .. s + n - 1 taken back. */
  ghost predicate With(xs: seq<Extent>, xs': seq<Extent>, s: nat, n: nat) {
    Sorted(xs') && forall p: nat :: Covers(xs', p) <==> Covers(xs, p) || s <= p < s + n
  }

  /** Giving pages out of a free extent and taking them back restores the list itself. */
  lemma TakeBack(xs: seq<Extent>, ys: seq<Extent>, zs: seq<Extent>, s: nat, n: nat)
    requires Sorted(xs) && Without(xs, ys, s, n) && With(ys, zs, s, n)
    requires forall p: nat :: s <= p < s + n ==> Covers(xs, p)
    ensures zs == xs
  {
    CoverDeterminesList(zs, xs);
  }

  /** An extent that just fits disappears. */
  lemma RemoveWhole(xs: seq<Extent>, i: nat)
    requires Sorted(xs) && i < |xs|
    ensures Without(xs, xs[..i] + xs[i + 1..], xs[i].first, xs[i].pages)
  {
    var ys := xs[..i] + xs[i + 1..];
    assert ys == Splice(xs, i, i + 1, []);
    forall j | 0 <= j < |ys|
      ensures Nonempty(ys, j)
    {
      assert Nonempty(xs, if j < i then j else j + 1);
    }
    forall j, k | 0 <= j < k < |ys|
      ensures Gap(ys, j, k)
    {
      assert Gap(xs, if j < i then j else j + 1, if k < i then k else k + 1);
    }
    forall p: nat
      ensures Covers(ys, p) <==> Covers(xs, p) && !(xs[i].first <= p < xs[i].first + xs[i].pages)
    {
      SpliceCovers(xs, i, i + 1, [], p);
      assert Among(xs, i, i + 1, p) <==> xs[i].Holds(p);
    }
  }

  lemma CoversOne(e: Extent, p: nat)
    ensures Covers([e], p) <==> e.Holds(p)
  {
    assert e.Holds(p) ==> [e][0].Holds(p);
  }

  /** A larger extent loses its first n pages. */
  lemma CutFront(xs: seq<Extent>, i: nat, n: nat)
    requires Sorted(xs) && i < |xs| && n < xs[i].pages
    ensures Without(xs, xs[i := Extent(xs[i].first + n, xs[i].pages - n)], xs[i].first, n)
  {
    var e := Extent(xs[i].first + n, xs[i].pages - n);
    var ys := Splice(xs, i, i + 1, [e]);
    assert i > 0 ==> Gap(xs, i - 1, i);
    assert i + 1 < |xs| ==> Gap(xs, i, i + 1);
    SpliceSorted(xs, i, i + 1, e);
    forall p: nat
      ensures Covers(ys, p) <==> Covers(xs, p) && !(xs[i].first <= p < xs[i].first + n)
    {
      SpliceCovers(xs, i, i + 1, [e], p);
      CoversOne(e, p);
      assert Among(xs, i, i + 1, p) <==> xs[i].Holds(p);
      assert xs[i].Holds(p) ==> Covers(xs, p);
    }
    assert Without(xs, ys, xs[i].first, n);
    assert xs[i := e] == ys;
  }

  /** Freed pages, joined with extents a .. b - 1, which touch them, become one extent. */
  lemma Join(xs: seq<Extent>, a: nat, b: nat, e: Extent, s: nat, n: nat)
    requires Sorted(xs) && a <= b <= |xs| && n > 0 && e.pages > 0
    requires (a > 0 ==> xs[a - 1].End() < e.first) && (b < |xs| ==> e.End() < xs[b].first)
    requires forall p: nat :: e.Holds(p) <==> s <= p < s + n || Among(xs, a, b, p)
    ensures With(xs, Splice(xs, a, b, [e]), s, n)
  {
    SpliceSorted(xs, a, b, e);
    forall p: nat
      ensures Covers(Splice(xs, a, b, [e]), p) <==> Covers(xs, p) || s <= p < s + n
    {
      SpliceCovers(xs, a, b, [e], p);
      CoversOne(e, p);
      assert Among(xs, a, b, p) ==> Covers(xs, p);
    }
  }

  lemma AmongTwo(xs: seq<Extent>, a: nat, b: nat, p: nat)
    requires a <= b <= |xs| && b <= a + 2
    ensures Among(xs, a, b, p) <==> (a < b && xs[a].Holds(p)) || (a + 1 < b && xs[a + 1].Holds(p))
  {
  }

  /** The extents around freed pages s .. s + n - 1: i is the first one above them. */
  ghost predicate Before(xs: seq<Extent>, i: nat, s: nat, n: nat) {
    && i <= |xs| && n > 0
    && (i < |xs| ==> s + n <= xs[i].first)
    && (i > 0 ==> xs[i - 1].End() <= s)
  }

  /** The merge that kfree does, for each of the four ways the freed pages can touch their neighbours. */
  function Rejoined(xs: seq<Extent>, i: nat, s: nat, n: nat): seq<Extent>
    requires i <= |xs|
  {
    var right := i < |xs| && xs[i].first == s + n;
    var left := i > 0 && xs[i - 1].End() == s;
    if right && left then Splice(xs, i - 1, i + 1, [Extent(xs[i - 1].first, xs[i - 1].pages + n + xs[i].pages)])
    else if right then Splice(xs, i, i + 1, [Extent(s, xs[i].pages + n)])
    else if left then Splice(xs, i - 1, i, [Extent(xs[i - 1].first, xs[i - 1].pages + n)])
    else Splice(xs, i, i, [Extent(s, n)])
  }

  lemma RejoinedWith(xs: seq<Extent>, i: nat, s: nat, n: nat)
    requires Sorted(xs) && Before(xs, i, s, n)
    ensures With(xs, Rejoined(xs, i, s, n), s, n)
  {
    var a, b := JoinFrom(xs, i, s), JoinTo(xs, i, s, n);
    var e := Joined(xs, i, s, n);
    forall p: nat
      ensures e.Holds(p) <==> s <= p < s + n || Among(xs, a, b, p)
    {
      JoinedHolds(xs, i, s, n, p);
    }
    JoinedFits(xs, i, s, n);
    RejoinedIs(xs, i, s, n);
    Join(xs, a, b, e, s, n);
  }

  /** The freed pages swallow extents JoinFrom .. JoinTo - 1. */
  function JoinFrom(xs: seq<Extent>, i: nat, s: nat): nat
    requires i <= |xs|
  {
    if i > 0 && xs[i - 1].End() == s then i - 1 else i
  }

  function JoinTo(xs: seq<Extent>, i: nat, s: nat, n: nat): nat
    requires i <= |xs|
  {
    if i < |xs| && xs[i].first == s + n then i + 1 else i
  }

  function Joined(xs: seq<Extent>, i: nat, s: nat, n: nat): Extent
    requires Before(xs, i, s, n)
  {
    var first := if JoinFrom(xs, i, s) < i then xs[i - 1].first else s;
    var end := if i < JoinTo(xs, i, s, n) then xs[i].End() else s + n;
    Extent(first, end - first)
  }

  lemma JoinedFits(xs: seq<Extent>, i: nat, s: nat, n: nat)
    requires Sorted(xs) && Before(xs, i, s, n)
    ensures var a, b, e := JoinFrom(xs, i, s), JoinTo(xs, i, s, n), Joined(xs, i, s, n);
      && e.pages > 0
      && (a > 0 ==> xs[a - 1].End() < e.first) && (b < |xs| ==> e.End() < xs[b].first)
  {
    assert i < |xs| ==> Nonempty(xs, i);
    assert i > 0 ==> Nonempty(xs, i - 1);
    assert i + 1 < |xs| ==> Gap(xs, i, i + 1);
    assert i > 1 ==> Gap(xs, i - 2, i - 1);
  }

  lemma RejoinedIs(xs: seq<Extent>, i: nat, s: nat, n: nat)
    requires Before(xs, i, s, n)
    ensures Rejoined(xs, i, s, n) == Splice(xs, JoinFrom(xs, i, s), JoinTo(xs, i, s, n), [Joined(xs, i, s, n)])
  {
  }

  lemma JoinedHolds(xs: seq<Extent>, i: nat, s: nat, n: nat, p: nat)
    requires Sorted(xs) && Before(xs, i, s, n)
    ensures Joined(xs, i, s, n).Holds(p) <==> s <= p < s + n || Among(xs, JoinFrom(xs, i, s), JoinTo(xs, i, s, n), p)
  {
    assert i < |xs| ==> Nonempty(xs, i);
    assert i > 0 ==> Nonempty(xs, i - 1);
    AmongTwo(xs, JoinFrom(xs, i, s), JoinTo(xs, i, s, n), p);
  }

  /** An extent that starts at or below the last freed page ends before the first one. */
  lemma EndsBelow(xs: seq<Extent>, i: nat, s: nat, n: nat)
    requires Sorted(xs) && i < |xs| && n > 0 && xs[i].first <= s + n - 1
    requires forall p: nat :: s <= p < s + n ==> !Covers(xs, p)
    ensures xs[i].End() <= s
  {
    assert Nonempty(xs, i);
    assert xs[i].Holds(xs[i].first);
    assert xs[i].Holds(s) ==> Covers(xs, s);
    assert Covers(xs, xs[i].first);
  }
}
