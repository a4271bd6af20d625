/** The byte-addressed memory of a 32-bit little-endian machine. */
module Memory {
  import opened Machine

  type byte = x: int | 0 <= x < 256
  type word = x: int | 0 <= x < 0x1_0000_0000

  /** The little-endian value of a byte string. */
  function FromBytes(s: seq<byte>): (n: nat)
  {
    if |s| == 0 then 0 else
      var low: nat := s[0];
      low + 0x100 * FromBytes(s[1..])
  }

  lemma FourBytes(s: seq<byte>)
    requires |s| == 4
    ensures FromBytes(s) ==
      (s[0] as nat) + 0x100 * (s[1] as nat) + 0x1_0000 * (s[2] as nat) + 0x100_0000 * (s[3] as nat)
    ensures FromBytes(s) < WORD_LIMIT
  {
    var a := s[1..];
    var b := a[1..];
    var c := b[1..];
    assert FromBytes(c) == c[0] as nat;
  }

  /** The 32-bit word stored at address a. */
  function Load(m: seq<byte>, a: nat): (w: word)
    requires a + 4 <= |m|
  {
    FourBytes(m[a..a + 4]);
    FromBytes(m[a..a + 4])
  }

  /** Memory as words: w[a] is the word at address a, aligned or not. */
  type Words = seq<word>

  /** Word view v' is v after the word w is written at address a. */
  ghost predicate Stored(v: Words, v': Words, a: nat, w: int) {
    && a < |v| == |v'|
    && v'[a] == w
    && forall b {:trigger v'[b]} :: 0 <= b < |v| && (b + 4 <= a || a + 4 <= b) ==> v'[b] == v[b]
  }

  /** Words that do not meet [lo, hi) are the same. */
  ghost predicate WordsOnlyIn(v: Words, v': Words, lo: int, hi: int) {
    |v| == |v'| && forall b {:trigger v'[b]} :: 0 <= b < |v| && (b + 4 <= lo || hi <= b) ==> v'[b] == v[b]
  }

  /** Words that lie in [lo, hi) are the same. */
  ghost predicate WordsSame(v: Words, v': Words, lo: int, hi: int) {
    |v| == |v'| && forall b {:trigger v'[b]} :: 0 <= b < |v| && lo <= b && b + 4 <= hi ==> v'[b] == v[b]
  }

  /** Bytes in [lo, hi) are the same. */
  ghost predicate BytesSame(m: seq<byte>, m': seq<byte>, lo: int, hi: int) {
    |m| == |m'| && forall k {:trigger m'[k]} :: 0 <= k < |m| && lo <= k < hi ==> m'[k] == m[k]
  }

  /** Bytes outside [lo, hi) are the same in both memories. */
  ghost predicate OnlyIn(m: seq<byte>, m': seq<byte>, lo: int, hi: int) {
    |m| == |m'| && forall k {:trigger m'[k]} :: 0 <= k < |m| && (k < lo || hi <= k) ==> m'[k] == m[k]
  }

  /** C's w | 1. */
  function Or1(w: word): (r: word) {
    if w % 2 == 0 then w + 1 else w
  }

  /** C's unsigned w - 1, which wraps at zero. */
  function Dec(w: word): (r: word) {
    if w == 0 then WORD_LIMIT - 1 else w - 1
  }

  /** C's ROUNDUP(n, PAGE_SIZE) when the sum does not wrap. */
  function RoundUpPages(n: nat): (r: nat)
    ensures r % PAGE_SIZE == 0 && n <= r < n + PAGE_SIZE
  {
    (n + PAGE_SIZE - 1) / PAGE_SIZE * PAGE_SIZE
  }

  /** Random access memory: an array of bytes, with its contents as values of two granularities. */
  class Ram {
    const bytes: array<byte>
    ghost var image: seq<byte>
    ghost var words: Words

    ghost predicate Sound()
      reads this, bytes
    {
      && bytes.Length == WORD_LIMIT == |image| && image == bytes[..]
      && |words| == WORD_LIMIT - 3
      && forall a {:trigger Load(image, a)} :: 0 <= a < WORD_LIMIT - 3 ==> words[a] == Load(image, a)
    }

    method Read(a: nat) returns (w: word)
      requires Sound() && a < |words|
      ensures w == words[a]
    {
      FourBytes(image[a..a + 4]);
      assert words[a] == Load(image, a);
      var b0: nat, b1: nat, b2: nat, b3: nat := bytes[a], bytes[a + 1], bytes[a + 2], bytes[a + 3];
      w := b0 + 0x100 * b1 + 0x1_0000 * b2 + 0x100_0000 * b3;
    }

    method Write(a: nat, w: word)
      requires Sound() && a < |words|
      modifies this, bytes
      ensures Sound() && Stored(old(words), words, a, w) && OnlyIn(old(image), image, a, a + 4)
    {
      var q1: nat := w / 0x100;
      var q2 := q1 / 0x100;
      var q3 := q2 / 0x100;
      bytes[a], bytes[a + 1], bytes[a + 2], bytes[a + 3] := w % 0x100, q1 % 0x100, q2 % 0x100, q3;
      image := bytes[..];
      ghost var now := bytes[..];
      words := seq(WORD_LIMIT - 3, b requires 0 <= b < WORD_LIMIT - 3 => Load(now, b));
      FourBytes(image[a..a + 4]);
      forall b | 0 <= b < |words| && (b + 4 <= a || a + 4 <= b)
        ensures words[b] == old(words)[b]
      {
        assert image[b..b + 4] == old(image)[b..b + 4];
        assert old(words)[b] == Load(old(image), b);
      }
    }

    /** The word view, recomputed from the bytes, differs only at words that meet changed bytes. */
    ghost method Refresh(lo: int, hi: int)
      requires bytes.Length == WORD_LIMIT == |image| && |words| == WORD_LIMIT - 3
      requires forall a {:trigger Load(image, a)} :: 0 <= a < WORD_LIMIT - 3 ==> words[a] == Load(image, a)
      requires OnlyIn(image, bytes[..], lo, hi)
      modifies this
      ensures Sound() && image == old(bytes[..]) && OnlyIn(old(image), image, lo, hi)
      ensures WordsOnlyIn(old(words), words, lo, hi)
    {
      ghost var now := bytes[..];
      image := now;
      words := seq(WORD_LIMIT - 3, b requires 0 <= b < WORD_LIMIT - 3 => Load(now, b));
      forall b | 0 <= b < |words| && (b + 4 <= lo || hi <= b)
        ensures words[b] == old(words)[b]
      {
        assert image[b..b + 4] == old(image)[b..b + 4];
        assert old(words)[b] == Load(old(image), b);
      }
    }

    /** memcpy, on areas that do not overlap. */
    method MemCpy(dst: nat, src: nat, n: nat)
      requires Sound() && dst + n <= WORD_LIMIT && src + n <= WORD_LIMIT && (dst + n <= src || src + n <= dst)
      modifies this, bytes
      ensures Sound() && OnlyIn(old(image), image, dst, dst + n) && WordsOnlyIn(old(words), words, dst, dst + n)
      ensures image[dst..dst + n] == old(image)[src..src + n]
    {
      var k := 0;
      while k < n
        invariant k <= n
        modifies bytes
        invariant forall a :: dst <= a < dst + k ==> bytes[a] == image[a - dst + src]
        invariant forall a :: 0 <= a < WORD_LIMIT && (a < dst || dst + k <= a) ==> bytes[a] == image[a]
      {
        bytes[dst + k] := bytes[src + k];
        k := k + 1;
      }
      Refresh(dst, dst + n);
    }
  }
}
