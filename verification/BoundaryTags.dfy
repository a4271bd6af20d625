/** How a block layout is written in memory: header and footer words, and the free list's cells. */
module BoundaryTags {
  import opened Memory
  import opened BlockLayout
  import opened FreeList

  /** The header and footer word of a block: its size, with bit 0 set when allocated. */
  function Tag(b: Block): nat {
    if b.free then b.size else b.size + 1
  }

  ghost predicate HeadAt(v: Words, bs: seq<Block>, i: nat)
    requires i < |bs|
  {
    bs[i].addr < |v| && v[bs[i].addr] == Tag(bs[i])
  }

  ghost predicate FootAt(v: Words, bs: seq<Block>, i: nat)
    requires i < |bs|
  {
    4 <= bs[i].End() && bs[i].End() - 4 < |v| && v[bs[i].End() - 4] == Tag(bs[i])
  }

  ghost predicate Headed(v: Words, bs: seq<Block>) {
    forall i :: 0 <= i < |bs| ==> HeadAt(v, bs, i)
  }

  /** The first n blocks have a correct footer. */
  ghost predicate Footed(v: Words, bs: seq<Block>, n: int) {
    forall i :: 0 <= i < |bs| && i < n ==> FootAt(v, bs, i)
  }

  /** Rewriting the tags of blocks f .. t - 1 into those of x, inside their own range, retags the whole heap. */
  lemma Retag(v: Words, v': Words, bs: seq<Block>, lo: nat, hi: nat, f: nat, t: nat, x: seq<Block>, n: int)
    requires Tiled(bs, lo, hi) && f < t <= |bs|
    requires Headed(v, bs) && Footed(v, bs, n) && (n >= |bs| || f <= n < t == |bs|)
    requires WordsOnlyIn(v, v', bs[f].addr, bs[t - 1].End())
    requires Headed(v', x)
    ensures Headed(v', bs[..f] + x + bs[t..])
    ensures Footed(v', x, |x|) ==> Footed(v', bs[..f] + x + bs[t..], |bs[..f] + x + bs[t..]|)
    ensures t == |bs| && Footed(v', x, |x| - 1) ==> Footed(v', bs[..f] + x + bs[t..], f + |x| - 1)
  {
    var c, d := bs[..f] + x + bs[t..], f + |x|;
    forall i | 0 <= i < |c|
      ensures HeadAt(v', c, i)
      ensures i < f || d <= i ==> FootAt(v', c, i)
      ensures f <= i < d ==> FootAt(v', c, i) == FootAt(v', x, i - f)
    {
      if i < f {
        assert c[i] == bs[i] && HeadAt(v, bs, i) && FootAt(v, bs, i) && Ordered(bs, i, f) && InRange(bs, lo, hi, i);
      } else if i < d {
        assert c[i] == x[i - f] && HeadAt(v', x, i - f);
      } else {
        var j := i - d + t;
        assert c[i] == bs[j] && HeadAt(v, bs, j) && FootAt(v, bs, j) && Ordered(bs, t - 1, j) && InRange(bs, lo, hi, j);
      }
    }
    if t == |bs| && Footed(v', x, |x| - 1) {
      forall i | 0 <= i < |c| && i < f + |x| - 1
        ensures FootAt(v', c, i)
      {
        assert f <= i ==> FootAt(v', x, i - f);
      }
    }
    if Footed(v', x, |x|) {
      forall i | 0 <= i < |c|
        ensures FootAt(v', c, i)
      {
        assert f <= i < d ==> FootAt(v', x, i - f);
      }
    }
  }

  /** The list cell c lies inside the payload of b. */
  predicate Holds(b: Block, c: nat) {
    b.Va() <= c && c + 8 <= b.End() - 4
  }

  /** c is NULL or a cell inside some payload. */
  ghost predicate IsCell(bs: seq<Block>, c: nat) {
    c == NULL || exists i :: 0 <= i < |bs| && Holds(bs[i], c)
  }

  /** c is NULL or a cell inside the payload of a free block. */
  ghost predicate IsFreeCell(bs: seq<Block>, c: nat) {
    c == NULL || exists i :: 0 <= i < |bs| && bs[i].free && Holds(bs[i], c)
  }

  lemma TagClear(bs: seq<Block>, lo: nat, hi: nat, c: nat, i: nat)
    requires Tiled(bs, lo, hi) && IsCell(bs, c) && i < |bs|
    ensures Clear(c, bs[i].addr) && Clear(c, bs[i].End() - 4)
    ensures lo >= 4 ==> Clear(c, lo - 4)
    ensures Clear(c, hi)
  {
    if c != NULL {
      var j :| 0 <= j < |bs| && Holds(bs[j], c);
      assert InRange(bs, lo, hi, j) && InRange(bs, lo, hi, i);
      assert i < j ==> Ordered(bs, i, j);
      assert j < i ==> Ordered(bs, j, i);
    }
  }

  /** List operations leave every tag alone. */
  lemma TagsKept(v: Words, v': Words, bs: seq<Block>, lo: nat, hi: nat, n: int, p: nat, x: nat, s: nat)
    requires Tiled(bs, lo, hi) && 4 <= lo < |v| && |bs| > 0 && hi < |v|
    requires CellsOnly(v, v', p, x, s) && IsCell(bs, p) && IsCell(bs, x) && IsCell(bs, s)
    ensures Headed(v, bs) ==> Headed(v', bs)
    ensures Footed(v, bs, n) ==> Footed(v', bs, n)
    ensures v'[lo - 4] == v[lo - 4] && v'[hi] == v[hi]
  {
    forall i | 0 <= i < |bs|
      ensures HeadAt(v, bs, i) ==> HeadAt(v', bs, i)
      ensures FootAt(v, bs, i) ==> FootAt(v', bs, i)
    {
      TagClear(bs, lo, hi, p, i);
      TagClear(bs, lo, hi, x, i);
      TagClear(bs, lo, hi, s, i);
    }
    if Headed(v, bs) {
      forall i | 0 <= i < |bs|
        ensures HeadAt(v', bs, i)
      {
        assert HeadAt(v, bs, i);
      }
    }
    if Footed(v, bs, n) {
      forall i | 0 <= i < |bs| && i < n
        ensures FootAt(v', bs, i)
      {
        assert FootAt(v, bs, i);
      }
    }
    TagClear(bs, lo, hi, p, 0);
    TagClear(bs, lo, hi, x, 0);
    TagClear(bs, lo, hi, s, 0);
  }

  /** Rewriting tags leaves the free list alone, as long as the links inside the rewritten range are kept. */
  lemma {:induction false} LinksKept(v: Words, v': Words, bs: seq<Block>, lo: nat, hi: nat, f: nat, t: nat)
    requires Tiled(bs, lo, hi) && f < t <= |bs| && Links(v, FreeVas(bs))
    requires WordsOnlyIn(v, v', bs[f].addr, bs[t - 1].End())
    requires forall j :: f <= j < t && bs[j].free ==> CellKept(v, v', bs[j].Va())
    ensures Links(v', FreeVas(bs))
  {
    var xs := FreeVas(bs);
    forall k | 0 <= k < |xs|
      ensures LinkAt(v', xs, k)
    {
      var j := NthFree(bs, k);
      assert LinkAt(v, xs, k) && InRange(bs, lo, hi, j);
      if j < f {
        assert Ordered(bs, j, f);
      } else if t <= j {
        assert Ordered(bs, t - 1, j);
      } else {
        assert CellKept(v, v', bs[j].Va());
      }
    }
  }

  ghost predicate CellKept(v: Words, v': Words, c: nat) {
    c + 4 < |v| && |v| == |v'| && v'[c] == v[c] && v'[c + 4] == v[c + 4]
  }

  // ---------------------------------------------------------------- live payloads

  /** Block i is free, or no byte of its payload changed. */
  ghost predicate LiveAt(m: seq<byte>, m': seq<byte>, bs: seq<Block>, i: nat)
    requires i < |bs| && |m| == |m'|
  {
    !bs[i].free ==> forall a :: 0 <= a < |m| && bs[i].Va() <= a < bs[i].End() - 4 ==> m'[a] == m[a]
  }

  ghost predicate LiveKept(m: seq<byte>, m': seq<byte>, bs: seq<Block>) {
    |m| == |m'| && forall i :: 0 <= i < |bs| ==> LiveAt(m, m', bs, i)
  }

  lemma LiveSame(m: seq<byte>, bs: seq<Block>)
    ensures LiveKept(m, m, bs)
  {
    forall i | 0 <= i < |bs|
      ensures LiveAt(m, m, bs, i)
    {
    }
  }

  lemma LiveTrans(m: seq<byte>, m1: seq<byte>, m2: seq<byte>, bs: seq<Block>)
    requires LiveKept(m, m1, bs) && LiveKept(m1, m2, bs)
    ensures LiveKept(m, m2, bs)
  {
    forall i | 0 <= i < |bs|
      ensures LiveAt(m, m2, bs, i)
    {
      assert LiveAt(m, m1, bs, i) && LiveAt(m1, m2, bs, i);
    }
  }

  /** Stores inside free blocks f .. t - 1 change no live payload. */
  lemma LiveByRange(m: seq<byte>, m': seq<byte>, bs: seq<Block>, lo: nat, hi: nat, f: nat, t: nat)
    requires Tiled(bs, lo, hi) && f < t <= |bs|
    requires forall j :: f <= j < t ==> bs[j].free
    requires OnlyIn(m, m', bs[f].addr, bs[t - 1].End())
    ensures LiveKept(m, m', bs)
  {
    forall i | 0 <= i < |bs|
      ensures LiveAt(m, m', bs, i)
    {
      assert InRange(bs, lo, hi, i);
      assert i < f ==> Ordered(bs, i, f);
      assert t <= i ==> Ordered(bs, t - 1, i);
    }
  }

  lemma CellMissesLive(bs: seq<Block>, lo: nat, hi: nat, c: nat, i: nat, a: nat)
    requires Tiled(bs, lo, hi) && IsFreeCell(bs, c) && i < |bs| && !bs[i].free
    requires bs[i].Va() <= a < bs[i].End() - 4
    ensures !InCell(c, a)
  {
    if c != NULL {
      var j :| 0 <= j < |bs| && bs[j].free && Holds(bs[j], c);
      assert i < j ==> Ordered(bs, i, j);
      assert j < i ==> Ordered(bs, j, i);
    }
  }

  /** List operations change no live payload. */
  lemma LiveByCells(m: seq<byte>, m': seq<byte>, bs: seq<Block>, lo: nat, hi: nat, p: nat, x: nat, s: nat)
    requires Tiled(bs, lo, hi)
    requires OnlyCells(m, m', p, x, s) && IsFreeCell(bs, p) && IsFreeCell(bs, x) && IsFreeCell(bs, s)
    ensures LiveKept(m, m', bs)
  {
    forall i | 0 <= i < |bs|
      ensures LiveAt(m, m', bs, i)
    {
      if !bs[i].free {
        forall a | 0 <= a < |m| && bs[i].Va() <= a < bs[i].End() - 4
          ensures m'[a] == m[a]
        {
          CellMissesLive(bs, lo, hi, p, i, a);
          CellMissesLive(bs, lo, hi, x, i, a);
          CellMissesLive(bs, lo, hi, s, i, a);
        }
      }
    }
  }

  lemma {:induction false} MemberIsFreeCell(bs: seq<Block>, lo: nat, hi: nat, k: int)
    requires Tiled(bs, lo, hi)
    ensures IsFreeCell(bs, At(FreeVas(bs), k)) && IsCell(bs, At(FreeVas(bs), k))
  {
    if 0 <= k < |FreeVas(bs)| {
      var i := NthFree(bs, k);
      assert InRange(bs, lo, hi, i) && Holds(bs[i], FreeVas(bs)[k]);
    }
  }

  /** Cells of blocks f .. t - 1 stay cells when these blocks are replaced by x, if x holds them. */
  lemma CellMoves(bs: seq<Block>, f: nat, t: nat, x: seq<Block>, c: nat)
    requires f < t <= |bs| && IsCell(bs, c)
    requires forall j :: f <= j < t && Holds(bs[j], c) ==> IsCell(x, c)
    ensures IsCell(bs[..f] + x + bs[t..], c)
  {
    if c != NULL {
      var y := bs[..f] + x + bs[t..];
      var j :| 0 <= j < |bs| && Holds(bs[j], c);
      if j < f {
        assert Holds(y[j], c);
      } else if j < t {
        var l :| 0 <= l < |x| && Holds(x[l], c);
        assert Holds(y[f + l], c);
      } else {
        assert y[j - t + f + |x|] == bs[j];
      }
    }
  }
}
