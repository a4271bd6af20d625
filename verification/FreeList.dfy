/** The doubly linked free list, threaded through memory by the macros of inc/queue.h. */
module FreeList {
  import opened Memory

  const NULL: word := 0

  /** x is a list cell whose links are p and n. */
  ghost predicate Link(v: Words, x: nat, p: nat, n: nat) {
    0 < x && x + 4 < |v| && v[x] == n && v[x + 4] == p
  }

  ghost predicate LinkAt(v: Words, xs: seq<nat>, k: nat)
    requires k < |xs|
  {
    Link(v, xs[k], At(xs, k - 1), At(xs, k + 1))
  }

  /** The members xs point at their neighbours. */
  ghost predicate Links(v: Words, xs: seq<nat>) {
    forall k :: 0 <= k < |xs| ==> LinkAt(v, xs, k)
  }

  ghost predicate Apart(xs: seq<nat>, k: nat, l: nat)
    requires k < |xs| && l < |xs|
  {
    xs[k] + 8 <= xs[l]
  }

  ghost predicate Spaced(xs: seq<nat>) {
    forall k, l :: 0 <= k < l < |xs| ==> Apart(xs, k, l)
  }

  ghost predicate InCell(x: nat, a: int) {
    x != NULL && x <= a < x + 8
  }

  /** Bytes changed in the link cells of x, y and z at most; NULL stands for no cell. */
  ghost predicate OnlyCells(m: seq<byte>, m': seq<byte>, x: nat, y: nat, z: nat) {
    |m| == |m'| && forall a {:trigger m'[a]} :: 0 <= a < |m| && !InCell(x, a) && !InCell(y, a) && !InCell(z, a) ==>
      m'[a] == m[a]
  }

  /** The k-th member, or NULL when there is none. */
  ghost function At(xs: seq<nat>, k: int): nat {
    if 0 <= k < |xs| then xs[k] else NULL
  }

  ghost function Inserted(xs: seq<nat>, k: nat, x: nat): seq<nat>
    requires k <= |xs|
  {
    xs[..k] + [x] + xs[k..]
  }

  ghost function Removed(xs: seq<nat>, k: nat): seq<nat>
    requires k < |xs|
  {
    xs[..k] + xs[k + 1..]
  }

  /** x fits between members k - 1 and k of the list. */
  ghost predicate Between(xs: seq<nat>, k: nat, x: nat) {
    && k <= |xs| && 0 < x
    && (k > 0 ==> xs[k - 1] + 8 <= x)
    && (k < |xs| ==> x + 8 <= xs[k])
  }

  /** Words outside the link cells of the list and of x are the same. */
  ghost predicate CellsOnly(v: Words, v': Words, x: nat, y: nat, z: nat) {
    |v| == |v'| && forall b {:trigger v'[b]} :: 0 <= b < |v| && Clear(x, b) && Clear(y, b) && Clear(z, b) ==>
      v'[b] == v[b]
  }

  /** The word at b does not meet the link cell x. */
  ghost predicate Clear(x: nat, b: int) {
    x == NULL || b + 4 <= x || x + 8 <= b
  }

  /** Cells p < x < n, any neighbour possibly missing, do not overlap and lie inside the memory. */
  ghost predicate Cells(v: Words, p: nat, x: nat, n: nat) {
    && 0 < x && x + 4 < |v|
    && (p != NULL ==> p + 8 <= x)
    && (n != NULL ==> x + 8 <= n && n + 4 < |v|)
  }

  /** The neighbours p and n of cell x now lead to p' and n'; their outer links are kept. */
  ghost predicate Relinked(v: Words, v': Words, p: nat, x: nat, n: nat, afterP: nat, beforeN: nat)
    requires Cells(v, p, x, n)
  {
    && CellsOnly(v, v', p, x, n)
    && (p != NULL ==> v'[p] == afterP && v'[p + 4] == v[p + 4])
    && (n != NULL ==> v'[n + 4] == beforeN && v'[n] == v[n])
  }

  lemma InsertSpaced(xs: seq<nat>, k: nat, x: nat)
    requires Spaced(xs) && Between(xs, k, x)
    ensures Spaced(Inserted(xs, k, x))
  {
    var ys := Inserted(xs, k, x);
    forall i, j | 0 <= i < j < |ys|
      ensures Apart(ys, i, j)
    {
      assert i < k - 1 ==> Apart(xs, i, k - 1);
      assert k < j - 1 ==> Apart(xs, k, j - 1);
      assert i != k && j != k ==> Apart(xs, if i < k then i else i - 1, if j < k then j else j - 1);
    }
  }

  lemma RemoveSpaced(xs: seq<nat>, k: nat)
    requires Spaced(xs) && k < |xs|
    ensures Spaced(Removed(xs, k))
  {
    var ys := Removed(xs, k);
    forall i, j | 0 <= i < j < |ys|
      ensures Apart(ys, i, j)
    {
      assert Apart(xs, if i < k then i else i + 1, if j < k then j else j + 1);
    }
  }

  /** What every insertion macro stores puts x at position k. */
  lemma LinkIn(v: Words, v': Words, xs: seq<nat>, k: nat, x: nat)
    requires Links(v, xs) && Spaced(xs) && Between(xs, k, x)
    requires CellsOnly(v, v', At(xs, k - 1), x, At(xs, k))
    requires Link(v', x, At(xs, k - 1), At(xs, k))
    requires k > 0 ==> Link(v', xs[k - 1], At(xs, k - 2), x)
    requires k < |xs| ==> Link(v', xs[k], x, At(xs, k + 1))
    ensures Links(v', Inserted(xs, k, x))
  {
    var ys := Inserted(xs, k, x);
    forall j | 0 <= j < |ys|
      ensures LinkAt(v', ys, j)
    {
      if j + 1 < k {
        assert LinkAt(v, xs, j) && Apart(xs, j, k - 1) && (k < |xs| ==> Apart(xs, j, k));
      } else if k + 1 < j {
        assert LinkAt(v, xs, j - 1) && Apart(xs, k, j - 1) && (k > 0 ==> Apart(xs, k - 1, j - 1));
      } else {
        assert ys[j] == if j < k then xs[k - 1] else if j == k then x else xs[k];
      }
    }
  }

  /** What LIST_REMOVE stores takes member k out. */
  lemma LinkOut(v: Words, v': Words, xs: seq<nat>, k: nat)
    requires Links(v, xs) && Spaced(xs) && k < |xs|
    requires CellsOnly(v, v', At(xs, k - 1), xs[k], At(xs, k + 1))
    requires k > 0 ==> Link(v', xs[k - 1], At(xs, k - 2), At(xs, k + 1))
    requires k + 1 < |xs| ==> Link(v', xs[k + 1], At(xs, k - 1), At(xs, k + 2))
    ensures Links(v', Removed(xs, k))
  {
    var ys := Removed(xs, k);
    forall j | 0 <= j < |ys|
      ensures LinkAt(v', ys, j)
    {
      if j + 1 < k {
        assert LinkAt(v, xs, j) && Apart(xs, j, k - 1) && Apart(xs, j, k) && (k + 1 < |xs| ==> Apart(xs, j, k + 1));
      } else if k < j {
        assert LinkAt(v, xs, j + 1) && Apart(xs, k + 1, j + 1) && Apart(xs, k, j + 1);
        assert (k > 0 ==> Apart(xs, k - 1, j + 1));
      } else {
        assert ys[j] == if j < k then xs[k - 1] else xs[k + 1];
      }
    }
  }

  /** struct MemBlock_LIST: the head of a list whose links live in the memory ram. */
  class BlockList {
    const ram: Ram
    var lhFirst: word
    var lhLast: word
    var lhSize: nat
    ghost var list: seq<nat>

    /** LIST_INIT. */
    constructor (ram: Ram)
      requires ram.Sound()
      ensures this.ram == ram && Valid() && list == []
    {
      this.ram := ram;
      lhFirst, lhLast, lhSize, list := NULL, NULL, 0, [];
    }

    ghost predicate Valid()
      reads this, ram, ram.bytes
    {
      && ram.Sound() && Links(ram.words, list) && Spaced(list)
      && lhFirst == At(list, 0) && lhLast == At(list, |list| - 1) && lhSize == |list|
    }

    /** The stores of LIST_INSERT_AFTER. */
    method StoreAfter(listelm: word, elm: word) returns (next: word)
      requires ram.Sound() && listelm != NULL && listelm < |ram.words|
      requires Cells(ram.words, listelm, elm, ram.words[listelm])
      modifies this`lhLast, ram, ram.bytes
      ensures ram.Sound() && next == old(ram.words)[listelm]
      ensures Relinked(old(ram.words), ram.words, listelm, elm, next, elm, elm)
      ensures ram.words[elm] == next && ram.words[elm + 4] == listelm
      ensures OnlyCells(old(ram.image), ram.image, listelm, elm, next)
      ensures lhLast == if next == NULL then elm else old(lhLast)
    {
      next := ram.Read(listelm);
      ram.Write(elm, next);
      if next != NULL {
        ram.Write(next + 4, elm);
      }
      ram.Write(listelm, elm);
      ram.Write(elm + 4, listelm);
      if next == NULL {
        lhLast := elm;
      }
    }

    method InsertAfter(listelm: word, elm: word, ghost k: nat)
      requires Valid() && 0 < k <= |list| && list[k - 1] == listelm
      requires Between(list, k, elm) && elm + 4 < |ram.words|
      modifies this, ram, ram.bytes
      ensures Valid() && list == Inserted(old(list), k, elm)
      ensures CellsOnly(old(ram.words), ram.words, At(old(list), k - 1), elm, At(old(list), k))
      ensures OnlyCells(old(ram.image), ram.image, At(old(list), k - 1), elm, At(old(list), k))
    {
      assert LinkAt(ram.words, list, k - 1) && (k < |list| ==> LinkAt(ram.words, list, k));
      var next := StoreAfter(listelm, elm);
      lhSize := lhSize + 1;
      LinkIn(old(ram.words), ram.words, list, k, elm);
      InsertSpaced(list, k, elm);
      list := Inserted(list, k, elm);
    }

    /** The stores of LIST_INSERT_BEFORE. */
    method StoreBefore(listelm: word, elm: word) returns (prev: word)
      requires ram.Sound() && listelm != NULL && listelm + 4 < |ram.words|
      requires Cells(ram.words, ram.words[listelm + 4], elm, listelm)
      modifies this`lhFirst, ram, ram.bytes
      ensures ram.Sound() && prev == old(ram.words)[listelm + 4]
      ensures Relinked(old(ram.words), ram.words, prev, elm, listelm, elm, elm)
      ensures ram.words[elm] == listelm && ram.words[elm + 4] == prev
      ensures OnlyCells(old(ram.image), ram.image, prev, elm, listelm)
      ensures lhFirst == if prev == NULL then elm else old(lhFirst)
    {
      prev := ram.Read(listelm + 4);
      ram.Write(elm + 4, prev);
      ram.Write(elm, listelm);
      if prev != NULL {
        ram.Write(prev, elm);
      } else {
        lhFirst := elm;
      }
      ram.Write(listelm + 4, elm);
    }

    method InsertBefore(listelm: word, elm: word, ghost k: nat)
      requires Valid() && k < |list| && list[k] == listelm && Between(list, k, elm)
      modifies this, ram, ram.bytes
      ensures Valid() && list == Inserted(old(list), k, elm)
      ensures CellsOnly(old(ram.words), ram.words, At(old(list), k - 1), elm, At(old(list), k))
      ensures OnlyCells(old(ram.image), ram.image, At(old(list), k - 1), elm, At(old(list), k))
    {
      assert LinkAt(ram.words, list, k) && (k > 0 ==> LinkAt(ram.words, list, k - 1));
      var prev := StoreBefore(listelm, elm);
      lhSize := lhSize + 1;
      LinkIn(old(ram.words), ram.words, list, k, elm);
      InsertSpaced(list, k, elm);
      list := Inserted(list, k, elm);
    }

    method InsertHead(elm: word)
      requires Valid() && Between(list, 0, elm) && elm + 4 < |ram.words|
      modifies this, ram, ram.bytes
      ensures Valid() && list == Inserted(old(list), 0, elm)
      ensures CellsOnly(old(ram.words), ram.words, NULL, elm, At(old(list), 0))
      ensures OnlyCells(old(ram.image), ram.image, NULL, elm, At(old(list), 0))
    {
      assert |list| > 0 ==> LinkAt(ram.words, list, 0);
      ram.Write(elm, lhFirst);
      if lhFirst != NULL {
        ram.Write(lhFirst + 4, elm);
      } else {
        lhLast := elm;
      }
      lhFirst := elm;
      ram.Write(elm + 4, NULL);
      lhSize := lhSize + 1;
      LinkIn(old(ram.words), ram.words, list, 0, elm);
      InsertSpaced(list, 0, elm);
      list := Inserted(list, 0, elm);
    }

    method InsertTail(elm: word)
      requires Valid() && Between(list, |list|, elm) && elm + 4 < |ram.words|
      modifies this, ram, ram.bytes
      ensures Valid() && list == Inserted(old(list), |old(list)|, elm)
      ensures CellsOnly(old(ram.words), ram.words, At(old(list), |old(list)| - 1), elm, NULL)
      ensures OnlyCells(old(ram.image), ram.image, At(old(list), |old(list)| - 1), elm, NULL)
    {
      assert |list| > 0 ==> LinkAt(ram.words, list, |list| - 1);
      ram.Write(elm + 4, lhLast);
      if lhLast != NULL {
        ram.Write(lhLast, elm);
      } else {
        lhFirst := elm;
      }
      lhLast := elm;
      ram.Write(elm, NULL);
      lhSize := lhSize + 1;
      LinkIn(old(ram.words), ram.words, list, |list|, elm);
      InsertSpaced(list, |list|, elm);
      list := Inserted(list, |list|, elm);
    }

    /** The stores of LIST_REMOVE. */
    method StoreRemove(elm: word) returns (next: word, prev: word)
      requires ram.Sound() && elm + 4 < |ram.words| && Cells(ram.words, ram.words[elm + 4], elm, ram.words[elm])
      modifies this`lhFirst, this`lhLast, ram, ram.bytes
      ensures ram.Sound() && next == old(ram.words)[elm] && prev == old(ram.words)[elm + 4]
      ensures Relinked(old(ram.words), ram.words, prev, elm, next, next, prev)
      ensures OnlyCells(old(ram.image), ram.image, prev, elm, next)
      ensures lhFirst == if prev == NULL then next else old(lhFirst)
      ensures lhLast == if next == NULL then prev else old(lhLast)
      ensures elm + 4 < |ram.words| && ram.words[elm] == NULL && ram.words[elm + 4] == NULL
    {
      next := ram.Read(elm);
      prev := ram.Read(elm + 4);
      if next != NULL {
        ram.Write(next + 4, prev);
      } else {
        lhLast := prev;
      }
      if prev != NULL {
        ram.Write(prev, next);
      } else {
        lhFirst := next;
      }
      ram.Write(elm, NULL);
      ram.Write(elm + 4, NULL);
    }

    method Remove(elm: word, ghost k: nat)
      requires Valid() && k < |list| && list[k] == elm
      modifies this, ram, ram.bytes
      ensures Valid() && list == Removed(old(list), k)
      ensures elm + 4 < |ram.words| && ram.words[elm] == NULL && ram.words[elm + 4] == NULL
      ensures CellsOnly(old(ram.words), ram.words, At(old(list), k - 1), elm, At(old(list), k + 1))
      ensures OnlyCells(old(ram.image), ram.image, At(old(list), k - 1), elm, At(old(list), k + 1))
    {
      assert LinkAt(ram.words, list, k);
      assert k > 0 ==> LinkAt(ram.words, list, k - 1) && Apart(list, k - 1, k);
      assert k + 1 < |list| ==> LinkAt(ram.words, list, k + 1) && Apart(list, k, k + 1);
      var next, prev := StoreRemove(elm);
      lhSize := lhSize - 1;
      LinkOut(old(ram.words), ram.words, list, k);
      RemoveSpaced(list, k);
      list := Removed(list, k);
    }
  }
}
