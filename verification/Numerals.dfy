/** Numbers to text and back: ltostr, printnum and strtol. */
module Numerals {

  const LONG_MAX := 0x7FFF_FFFF
  const LONG_MIN := -0x8000_0000
  const NUL := '\0'

  /** A 32-bit signed long, on which arithmetic wraps. */
  function Wrap(x: int): int {
    (x + 0x8000_0000) % 0x1_0000_0000 - 0x8000_0000
  }

  /** C strings: character i of s, with a NUL at the end. */
  function CharAt(s: string, i: nat): char {
    if i < |s| then s[i] else NUL
  }

  // ---------------------------------------------------------------- what the numerals are

  function DigitChar(d: nat): (c: char)
    requires d < 16
  {
    if d < 10 then '0' + d as char else 'a' + (d - 10) as char
  }

  /** It is the table that printnum indexes. */
  lemma DigitTable(d: nat)
    requires d < 16
    ensures "0123456789abcdef"[d] == DigitChar(d)
  {
  }

  /** n / base, by repeated subtraction. */
  function Quot(n: nat, base: nat): (q: nat)
    requires 2 <= base
    ensures (n > 0 ==> q < n) && (q == 0 <==> n < base)
    decreases n
  {
    if n < base then 0 else 1 + Quot(n - base, base)
  }

  /** n % base, by repeated subtraction. */
  function Rem(n: nat, base: nat): (r: nat)
    requires 2 <= base
    ensures r < base
    decreases n
  {
    if n < base then n else Rem(n - base, base)
  }

  lemma {:induction false} QuotRem(n: nat, base: nat)
    requires 2 <= base
    ensures n == base * Quot(n, base) + Rem(n, base)
    decreases n
  {
    if n >= base {
      QuotRem(n - base, base);
    }
  }

  lemma QuotIsDiv(n: nat, base: nat)
    requires 2 <= base
    ensures Quot(n, base) == n / base && Rem(n, base) == n % base
  {
    QuotRem(n, base);
    DivisionIsUnique(n, base, Quot(n, base), Rem(n, base));
  }

  lemma DivisionIsUnique(n: nat, base: nat, q: nat, r: nat)
    requires 2 <= base && n == base * q + r && r < base
    ensures n / base == q && n % base == r
  {
    var p, m := n / base, n % base;
    DivisionIdentity(n, base);
    if p < q {
      Multiples(base, p, q);
    } else if q < p {
      Multiples(base, q, p);
    }
  }

  lemma DivisionIdentity(n: nat, base: nat)
    requires 2 <= base
    ensures n == base * (n / base) + n % base && n % base < base
  {
  }

  lemma Multiples(base: nat, p: nat, q: nat)
    requires p < q
    ensures base * p + base <= base * q
  {
    assert base * q == base * p + base * (q - p);
    assert base * (q - p) == base + base * (q - p - 1);
  }

  /** The numeral of n: most significant digit first, no leading zeros. */
  function Numeral(n: nat, base: nat): (s: string)
    requires 2 <= base <= 16
    ensures |s| > 0
  {
    (if n < base then "" else Numeral(Quot(n, base), base)) + [DigitChar(Rem(n, base))]
  }

  function Pad(c: char, n: int): string {
    if n <= 0 then "" else [c] + Pad(c, n - 1)
  }

  /** printnum's output: the numeral, padded on the left to the width. */
  function Padded(n: nat, base: nat, width: int, padc: char): string
    requires 2 <= base <= 16
  {
    Pad(padc, width - |Numeral(n, base)|) + Numeral(n, base)
  }

  /** C's division by ten, which truncates toward zero. */
  function Tenth(v: int): (q: int)
    ensures (q == 0 <==> -10 < v < 10) && (v > 0 ==> 0 <= q < v) && (v < 0 ==> v < q <= 0)
  {
    if v >= 0 then v / 10 else -(-v / 10)
  }

  /** Its remainder, which has the sign of v, as a character: mod + '0'. */
  function LastDigit(v: int): (c: char)
    ensures v >= 0 ==> c == DigitChar(v % 10)
    ensures -10 < v < 0 ==> c < '0'
  {
    if v >= 0 then '0' + (v % 10) as char else '0' - (-v % 10) as char
  }

  /** The digits of v as the loop of ltostr finds them, least significant first. */
  function Backwards(v: int): (s: string)
    ensures |s| > 0
    decreases if v < 0 then -v else v
  {
    [LastDigit(v)] + (if Tenth(v) == 0 then "" else Backwards(Tenth(v)))
  }

  function Reverse(s: string): (r: string)
    ensures |r| == |s|
  {
    if |s| == 0 then "" else Reverse(s[1..]) + [s[0]]
  }

  /** ltostr's output. The least long has no opposite: its digits come out of a negative number. */
  function Decimal(v: int): string {
    if v < LONG_MIN + 1 then "-" + Reverse(Backwards(v))
    else if v < 0 then "-" + Numeral(-v, 10)
    else Numeral(v, 10)
  }

  // ---------------------------------------------------------------- strtol

  /** The value of a character as a digit of some base, or -1. */
  function DigitOf(c: char): int {
    if '0' <= c <= '9' then c as int - '0' as int
    else if 'a' <= c <= 'z' then c as int - 'a' as int + 10
    else if 'A' <= c <= 'Z' then c as int - 'A' as int + 10
    else -1
  }

  predicate IsDigit(c: char, base: nat) {
    0 <= DigitOf(c) < base
  }

  function SkipBlank(s: string, i: nat): (j: nat)
    decreases |s| - i
  {
    if i < |s| && (s[i] == ' ' || s[i] == '\t') then SkipBlank(s, i + 1) else i
  }

  /** Where the digits of base from i on end. */
  function DigitsEnd(s: string, i: nat, base: nat): (j: nat)
    ensures j >= i && (i <= |s| ==> j <= |s|)
    decreases |s| - i
  {
    if i < |s| && IsDigit(s[i], base) then DigitsEnd(s, i + 1, base) else i
  }

  /** The value that the digits s[i..j] add to val. */
  function Value(s: string, i: nat, j: nat, base: nat, val: int): int
    requires i <= j <= |s|
    decreases j - i
  {
    if i == j then val else Value(s, i + 1, j, base, Wrap(val * base + DigitOf(s[i])))
  }

  /** strtol: after blanks and one sign, a prefix may settle the base, and the digits follow. */
  method StrToL(s: string, base0: nat) returns (val: int, end: nat)
    requires base0 == 0 || 2 <= base0 <= 36
    ensures (val, end) == StrToLValue(s, base0)
  {
    var base, p, neg := ReadPrefix(s, base0);
    val, end := ReadDigits(s, p, base);
    if neg {
      val := Wrap(-val);
    }
  }

  /** The sign and the prefix of strtol. */
  method ReadPrefix(s: string, base0: nat) returns (base: nat, p: nat, neg: bool)
    ensures (base, p, neg) == Prefix(s, base0)
  {
    p := SkipSpaces(s);
    base, neg := base0, false;
    if CharAt(s, p) == '+' {
      p := p + 1;
    } else if CharAt(s, p) == '-' {
      p, neg := p + 1, true;
    }
    if (base == 0 || base == 16) && CharAt(s, p) == '0' && CharAt(s, p + 1) == 'x' {
      p, base := p + 2, 16;
    } else if base == 0 && CharAt(s, p) == '0' {
      p, base := p + 1, 8;
    } else if base == 0 {
      base := 10;
    }
  }

  /** The blank loop of strtol. */
  method SkipSpaces(s: string) returns (p: nat)
    ensures p <= |s| && p == SkipBlank(s, 0)
  {
    p := 0;
    while CharAt(s, p) == ' ' || CharAt(s, p) == '\t'
      invariant p <= |s| && SkipBlank(s, p) == SkipBlank(s, 0)
      decreases |s| - p
    {
      p := p + 1;
    }
  }

  /** The digit loop of strtol. */
  method ReadDigits(s: string, i: nat, base: nat) returns (val: int, end: nat)
    requires i <= |s|
    ensures end == DigitsEnd(s, i, base) && val == Value(s, i, end, base, 0)
  {
    val, end := 0, i;
    while true
      invariant i <= end <= DigitsEnd(s, i, base) && DigitsEnd(s, end, base) == DigitsEnd(s, i, base)
      invariant Value(s, end, DigitsEnd(s, i, base), base, val) == Value(s, i, DigitsEnd(s, i, base), base, 0)
      decreases |s| - end
    {
      var c := CharAt(s, end);
      var dig;
      if '0' <= c <= '9' {
        dig := c as int - '0' as int;
      } else if 'a' <= c <= 'z' {
        dig := c as int - 'a' as int + 10;
      } else if 'A' <= c <= 'Z' {
        dig := c as int - 'A' as int + 10;
      } else {
        break;
      }
      if dig >= base {
        break;
      }
      end, val := end + 1, Wrap(val * base + dig);
    }
  }

  /** The base, where the digits start, and whether there is a minus sign. */
  function Prefix(s: string, base: nat): (r: (nat, nat, bool))
    ensures r.1 <= |s|
  {
    var p := SkipBlank(s, 0);
    SkipStays(s, 0);
    var neg := CharAt(s, p) == '-';
    var q := if CharAt(s, p) == '+' || CharAt(s, p) == '-' then p + 1 else p;
    if (base == 0 || base == 16) && CharAt(s, q) == '0' && CharAt(s, q + 1) == 'x' then (16, q + 2, neg)
    else if base == 0 && CharAt(s, q) == '0' then (8, q + 1, neg)
    else if base == 0 then (10, q, neg)
    else (base, q, neg)
  }

  lemma {:induction false} SkipStays(s: string, i: nat)
    requires i <= |s|
    ensures i <= SkipBlank(s, i) <= |s|
    decreases |s| - i
  {
    if i < |s| && (s[i] == ' ' || s[i] == '\t') {
      SkipStays(s, i + 1);
    }
  }

  /** The value strtol returns for s. */
  function StrToLValue(s: string, base: nat): (r: (int, nat))
  {
    var (b, i, neg) := Prefix(s, base);
    var end := DigitsEnd(s, i, b);
    (if neg then Wrap(-Value(s, i, end, b, 0)) else Value(s, i, end, b, 0), end)
  }

  // ---------------------------------------------------------------- ltostr

  lemma {:induction false} ReverseAt(s: string, k: nat)
    requires k < |s|
    ensures Reverse(s)[k] == s[|s| - 1 - k]
  {
    if k < |s| - 1 {
      ReverseAt(s[1..], k);
    }
  }

  lemma {:induction false} BackwardsIsReversed(n: nat)
    ensures Reverse(Backwards(n)) == Numeral(n, 10)
  {
    var b := Backwards(n);
    QuotIsDiv(n, 10);
    if n < 10 {
      assert b[1..] == "";
    } else {
      assert b[1..] == Backwards(Quot(n, 10));
      BackwardsIsReversed(Quot(n, 10));
    }
  }

  /** The most significant digit of a negative number comes out below '0'. */
  lemma {:induction false} NegativeLead(v: int)
    requires v < 0
    ensures Backwards(v)[|Backwards(v)| - 1] < '0'
    decreases -v
  {
    if Tenth(v) != 0 {
      NegativeLead(Tenth(v));
    }
  }

  /** t is what stands in str from position first on. */
  ghost predicate StandsAt(str: array<char>, first: nat, t: string)
    reads str
  {
    first + |t| <= str.Length && forall k :: 0 <= k < |t| ==> str[first + k] == t[k]
  }

  /** ltostr writes its digits and a NUL, and nothing else. */
  method LToStr(value: int, str: array<char>) returns (n: nat)
    requires LONG_MIN <= value <= LONG_MAX && |Decimal(value)| < str.Length
    modifies str
    ensures n == |Decimal(value)| && str[..n] == Decimal(value) && str[n] == NUL
    ensures forall k :: n < k < str.Length ==> str[k] == old(str[k])
  {
    var v, first := value, 0;
    if value < 0 {
      v, first := Negated(value), 1;
    }
    ghost var b, t := Backwards(v), Reverse(Backwards(v));
    DecimalParts(value, v, t);
    n := WriteSigned(v, str, first, b, t, Decimal(value));
  }

  /** Sign, digits and NUL. */
  method WriteSigned(v: int, str: array<char>, first: nat, ghost b: string, ghost t: string, ghost all: string)
    returns (n: nat)
    requires b == Backwards(v) && t == Reverse(b) && first <= 1 && all == (if first == 1 then "-" else "") + t
    requires |all| < str.Length
    modifies str
    ensures n == |all| && str[..n] == all && str[n] == NUL
    ensures forall k :: n < k < str.Length ==> str[k] == old(str[k])
  {
    if first == 1 {
      str[0] := '-';
    }
    n := WriteReversed(v, str, first, b, t);
    Assembled(str, first, t, all);
    str[n] := NUL;
  }

  /** C's value * -1, which leaves the least long as it is. */
  function Negated(v: int): (r: int)
    requires LONG_MIN <= v <= LONG_MAX
    ensures r == if v == LONG_MIN then v else -v
  {
    Wrap(v * -1)
  }

  /** What follows the sign. */
  lemma {:induction false} DecimalParts(v: int, w: int, t: string)
    requires LONG_MIN <= v <= LONG_MAX && w == (if v < 0 then Negated(v) else v) && t == Reverse(Backwards(w))
    ensures Decimal(v) == (if v < 0 then "-" else "") + t
  {
    if w >= 0 {
      BackwardsIsReversed(w);
    }
  }

  lemma WrapSmall(x: int)
    requires LONG_MIN <= x <= LONG_MAX
    ensures Wrap(x) == x
  {
  }

  lemma Assembled(str: array<char>, first: nat, t: string, all: string)
    requires StandsAt(str, first, t) && first <= 1 && (first == 1 ==> str[0] == '-')
    requires all == (if first == 1 then "-" else "") + t
    ensures StandsAt(str, 0, all) && str[..first + |t|] == all
  {
  }

  /** The digits are written backwards and then reversed in place. */
  method WriteReversed(v: int, str: array<char>, first: nat, ghost b: string, ghost t: string) returns (s: nat)
    requires b == Backwards(v) && t == Reverse(b) && first + |b| <= str.Length
    modifies str
    ensures s == first + |t| && StandsAt(str, first, t)
    ensures forall k :: 0 <= k < str.Length && !(first <= k < s) ==> str[k] == old(str[k])
  {
    s := WriteDigits(v, str, first);
    ghost var before := str[..];
    ReverseInPlace(str, first, s);
    Flipped(before, str[..], first, b);
  }

  lemma {:induction false} Flipped(before: seq<char>, after: seq<char>, first: nat, b: string)
    requires first + |b| <= |before| == |after|
    requires forall k :: 0 <= k < |b| ==> before[first + k] == b[k]
    requires forall k :: first <= k < first + |b| ==> after[k] == before[first + first + |b| - 1 - k]
    ensures forall k :: 0 <= k < |b| ==> after[first + k] == Reverse(b)[k]
  {
    forall k | 0 <= k < |b|
      ensures after[first + k] == Reverse(b)[k]
    {
      ReverseAt(b, k);
      assert before[first + (|b| - 1 - k)] == b[|b| - 1 - k];
    }
  }

  /** The do loop of ltostr. */
  method WriteDigits(value: int, str: array<char>, first: nat) returns (s: nat)
    requires first + |Backwards(value)| <= str.Length
    modifies str
    ensures s == first + |Backwards(value)| && StandsAt(str, first, Backwards(value))
    ensures forall k :: 0 <= k < str.Length && !(first <= k < s) ==> str[k] == old(str[k])
  {
    s := first;
    var v := value;
    ghost var all, done, todo := Backwards(value), "", Backwards(value);
    while true
      invariant s == first + |done| && done + todo == all && todo == Backwards(v)
      invariant StandsAt(str, first, done)
      invariant forall k :: 0 <= k < str.Length && !(first <= k < s) ==> str[k] == old(str[k])
      decreases if v < 0 then -v else v
    {
      assert s == first + |done| < str.Length;
      PutDigit(str, first, s, LastDigit(v), done);
      done, todo := Advance(done, todo, v, all);
      s, v := s + 1, Tenth(v);
      if v == 0 {
        break;
      }
    }
  }

  method PutDigit(str: array<char>, ghost first: nat, s: nat, c: char, ghost done: string)
    requires StandsAt(str, first, done) && s == first + |done| < str.Length
    modifies str
    ensures StandsAt(str, first, done + [c])
    ensures forall k :: 0 <= k < str.Length && k != s ==> str[k] == old(str[k])
  {
    str[s] := c;
  }

  /** One digit moves from what is left to what is written. */
  lemma {:induction false} Advance(done: string, todo: string, v: int, all: string)
    returns (done': string, todo': string)
    requires todo == Backwards(v) && done + todo == all
    ensures done' == done + [LastDigit(v)] && done' + todo' == all
    ensures if Tenth(v) == 0 then done' == all else todo' == Backwards(Tenth(v))
  {
    done', todo' := done + [todo[0]], todo[1..];
    assert (done + [todo[0]]) + todo[1..] == done + todo;
    if Tenth(v) == 0 {
      assert done' + todo' == done';
    }
  }

  /** ltostr's reversal of str[lo..hi]. */
  method ReverseInPlace(str: array<char>, lo: nat, hi: nat)
    requires lo <= hi <= str.Length
    modifies str
    ensures forall k :: lo <= k < hi ==> str[k] == old(str[lo + hi - 1 - k])
    ensures forall k :: 0 <= k < str.Length && !(lo <= k < hi) ==> str[k] == old(str[k])
  {
    var start: int, end: int := lo, hi - 1;
    while start < end
      invariant lo <= start && end < hi && start + end == lo + hi - 1 && start <= end + 2
      invariant forall k :: lo <= k < start || end < k < hi ==> str[k] == old(str[lo + hi - 1 - k])
      invariant forall k :: start <= k <= end ==> str[k] == old(str[k])
      invariant forall k :: 0 <= k < str.Length && !(lo <= k < hi) ==> str[k] == old(str[k])
    {
      str[start], str[end] := str[end], str[start];
      start, end := start + 1, end - 1;
    }
  }

  // ---------------------------------------------------------------- printnum

  /** printnum: each call emits its least significant digit last; putch appends to the output. */
  method PrintNum(out: string, num: nat, base: nat, width: int, padc: char) returns (r: string)
    requires 2 <= base <= 16
    ensures r == out + Padded(num, base, width, padc)
    decreases num
  {
    QuotIsDiv(num, base);
    if num >= base {
      r := PrintNum(out, num / base, base, width - 1, padc);
    } else {
      r := EmitPad(out, width - 1, padc);
    }
    r := r + [DigitChar(num % base)];
  }

  /** The padding loop of printnum. */
  method EmitPad(out: string, n: int, padc: char) returns (r: string)
    ensures r == out + Pad(padc, n)
  {
    r := out;
    var w := n;
    while w > 0
      invariant r + Pad(padc, w) == out + Pad(padc, n)
    {
      assert r + Pad(padc, w) == (r + [padc]) + Pad(padc, w - 1);
      r := r + [padc];
      w := w - 1;
    }
  }

  lemma {:induction false} PadLength(c: char, n: int)
    ensures |Pad(c, n)| == if n <= 0 then 0 else n
    ensures forall i :: 0 <= i < |Pad(c, n)| ==> Pad(c, n)[i] == c
  {
    if n > 0 {
      PadLength(c, n - 1);
    }
  }

  /** printnum emits as many characters as the width or the digits need, whichever is more. */
  lemma {:induction false} PrintedLength(num: nat, base: nat, width: int, padc: char)
    requires 2 <= base <= 16
    ensures |Padded(num, base, width, padc)| == if width <= |Numeral(num, base)| then |Numeral(num, base)| else width
  {
    PadLength(padc, width - |Numeral(num, base)|);
  }

  function Power(base: nat, k: nat): nat {
    if k == 0 then 1 else base * Power(base, k - 1)
  }

  /** A numeral of k digits is the number's own length: base^(k-1) <= num < base^k. */
  lemma {:induction false} DigitCount(num: nat, base: nat)
    requires 2 <= base <= 16
    ensures num < Power(base, |Numeral(num, base)|)
    ensures num > 0 ==> Power(base, |Numeral(num, base)| - 1) <= num
  {
    QuotRem(num, base);
    var k := |Numeral(num, base)|;
    if num >= base {
      DigitCount(Quot(num, base), base);
      Scale(Quot(num, base), Rem(num, base), base, Power(base, k - 1), Power(base, k - 2));
    } else {
      assert Power(base, 1) == base * Power(base, 0) == base;
    }
  }

  lemma Scale(q: nat, r: nat, base: nat, above: nat, below: nat)
    requires r < base && below <= q < above
    ensures base * below <= base * q + r < base * above
  {
    Times(base, below, q);
    Times(base, q + 1, above);
  }

  lemma Times(m: nat, x: nat, y: nat)
    requires x <= y
    ensures m * x <= m * y
  {
    assert m * y == m * x + m * (y - x);
  }

  // ---------------------------------------------------------------- round trips

  lemma DigitRoundTrip(d: nat, base: nat)
    requires d < base <= 16
    ensures DigitOf(DigitChar(d)) == d && IsDigit(DigitChar(d), base)
    ensures DigitChar(d) != ' ' && DigitChar(d) != '\t' && DigitChar(d) != '+' && DigitChar(d) != '-'
    ensures DigitChar(d) != 'x'
  {
  }

  lemma {:induction false} NumeralDigits(n: nat, base: nat)
    requires 2 <= base <= 16
    ensures forall i :: 0 <= i < |Numeral(n, base)| ==> exists d: nat :: d < base && Numeral(n, base)[i] == DigitChar(d)
  {
    var t := Numeral(n, base);
    if n >= base {
      NumeralDigits(Quot(n, base), base);
    }
    forall i | 0 <= i < |t|
      ensures exists d: nat :: d < base && t[i] == DigitChar(d)
    {
      if i == |t| - 1 {
        assert t[i] == DigitChar(Rem(n, base));
      } else {
        assert t[i] == Numeral(Quot(n, base), base)[i];
      }
    }
  }

  /** A digit of the base that is no blank, no sign, and not the x of a prefix. */
  predicate PlainDigit(c: char, base: nat) {
    IsDigit(c, base) && c != ' ' && c != '\t' && c != '+' && c != '-' && c != 'x'
  }

  ghost predicate AllPlain(t: string, base: nat) {
    |t| > 0 && forall k :: 0 <= k < |t| ==> PlainDigit(t[k], base)
  }

  lemma {:induction false} NumeralIsPlain(n: nat, base: nat)
    requires 2 <= base <= 16
    ensures AllPlain(Numeral(n, base), base)
  {
    NumeralDigits(n, base);
    forall k | 0 <= k < |Numeral(n, base)|
      ensures PlainDigit(Numeral(n, base)[k], base)
    {
      var d: nat :| d < base && Numeral(n, base)[k] == DigitChar(d);
      DigitRoundTrip(d, base);
    }
  }

  /** Plain digits at the end of a string are read to the end. */
  lemma {:induction false} PlainToEnd(s: string, i: nat, t: string, base: nat)
    requires i + |t| == |s| && s[i..] == t && AllPlain(t, base)
    ensures DigitsEnd(s, i, base) == |s| && PlainDigit(s[i], base)
  {
    forall k | i <= k < |s|
      ensures IsDigit(s[k], base)
    {
      assert s[k] == t[k - i];
    }
    assert s[i] == t[0];
    DigitsToEnd(s, i, base);
  }

  /** The digits run to the end of the string when all the rest are digits. */
  lemma {:induction false} DigitsToEnd(s: string, i: nat, base: nat)
    requires i <= |s| && forall k :: i <= k < |s| ==> IsDigit(s[k], base)
    ensures DigitsEnd(s, i, base) == |s|
    decreases |s| - i
  {
    if i < |s| {
      DigitsToEnd(s, i + 1, base);
    }
  }

  /** Reading digits in two parts. */
  lemma {:induction false} ValueSplit(s: string, i: nat, m: nat, j: nat, base: nat, val: int)
    requires i <= m <= j <= |s|
    ensures Value(s, i, j, base, val) == Value(s, m, j, base, Value(s, i, m, base, val))
    decreases m - i
  {
    if i < m {
      ValueSplit(s, i + 1, m, j, base, Wrap(val * base + DigitOf(s[i])));
    }
  }

  /** Leading zeros add nothing. */
  lemma {:induction false} ZerosAreNothing(s: string, i: nat, m: nat, base: nat)
    requires i <= m <= |s| && forall k :: i <= k < m ==> s[k] == '0'
    ensures Value(s, i, m, base, 0) == 0
    decreases m - i
  {
    if i < m {
      ZerosAreNothing(s, i + 1, m, base);
    }
  }

  /** Reading a numeral anywhere in a string gives its number back; no intermediate value wraps. */
  lemma {:induction false} NumeralValue(s: string, i: nat, n: nat, base: nat)
    requires 2 <= base <= 16 && n <= LONG_MAX
    requires i + |Numeral(n, base)| <= |s| && s[i..i + |Numeral(n, base)|] == Numeral(n, base)
    ensures Value(s, i, i + |Numeral(n, base)|, base, 0) == n
  {
    var k, q, d := |Numeral(n, base)|, Quot(n, base), Rem(n, base);
    QuotRem(n, base);
    LastChar(s[i..i + k], n, base);
    assert s[i + k - 1] == DigitChar(d);
    if n >= base {
      assert s[i..i + k - 1] == s[i..i + k][..k - 1] == Numeral(q, base);
      NumeralValue(s, i, q, base);
    }
    AppendDigit(s, i, i + k, base, q, d, n);
  }

  lemma {:induction false} LastChar(t: string, n: nat, base: nat)
    requires 2 <= base <= 16 && t == Numeral(n, base)
    ensures t[|t| - 1] == DigitChar(Rem(n, base)) && (n >= base ==> t[..|t| - 1] == Numeral(Quot(n, base), base))
    ensures (n < base ==> |t| == 1)
  {
  }

  /** One more digit, when nothing wraps. */
  lemma {:induction false} AppendDigit(s: string, i: nat, j: nat, base: nat, q: nat, d: nat, n: nat)
    requires i < j <= |s| && 2 <= base <= 16 && d < base && s[j - 1] == DigitChar(d) && n == base * q + d <= LONG_MAX
    requires Value(s, i, j - 1, base, 0) == q
    ensures Value(s, i, j, base, 0) == n
  {
    DigitRoundTrip(d, base);
    ValueSplit(s, i, j - 1, j, base, 0);
    assert Value(s, j - 1, j, base, q) == Wrap(q * base + d) == Wrap(n);
  }

  lemma {:induction false} SkipAll(s: string, i: nat, m: nat)
    requires i <= m <= |s| && (forall k :: i <= k < m ==> s[k] == ' ') && (m < |s| ==> s[m] != ' ' && s[m] != '\t')
    ensures SkipBlank(s, i) == m
    decreases m - i
  {
    if i < m {
      SkipAll(s, i + 1, m);
    }
  }

  /** strtol reads a signed decimal numeral, all of it. */
  lemma {:induction false} ReadsBack(s: string, first: nat, t: string, u: nat, v: int)
    requires t == Numeral(u, 10) && s == (if first == 1 then "-" else "") + t && u <= LONG_MAX
    requires first == (if v < 0 then 1 else 0) && u == (if v < 0 then -v else v)
    ensures StrToLValue(s, 10) == (v, |s|)
  {
    NumeralIsPlain(u, 10);
    NumeralValue(s, first, u, 10);
    PlainAfterSign(s, first, t, u, v);
  }

  lemma {:induction false} PlainAfterSign(s: string, first: nat, t: string, u: nat, v: int)
    requires AllPlain(t, 10) && s == (if first == 1 then "-" else "") + t && u <= LONG_MAX
    requires first == (if v < 0 then 1 else 0) && u == (if v < 0 then -v else v)
    requires Value(s, first, |s|, 10, 0) == u
    ensures StrToLValue(s, 10) == (v, |s|)
  {
    assert s[first..] == t;
    PlainToEnd(s, first, t, 10);
    SkipAll(s, 0, 0);
    WrapSmall(v);
  }

  /** strtol undoes ltostr for every long above the least, and reads all of it. */
  lemma {:induction false} StrToLUndoesLToStr(v: int)
    requires LONG_MIN < v <= LONG_MAX
    ensures StrToLValue(Decimal(v), 10) == (v, |Decimal(v)|)
  {
    var u := if v < 0 then -v else v;
    ReadsBack(Decimal(v), if v < 0 then 1 else 0, Numeral(u, 10), u, v);
  }

  /** After a sign, a character below '0' ends the number at once. */
  lemma {:induction false} NoDigits(s: string)
    requires |s| > 1 && s[0] == '-' && s[1] < '0'
    ensures StrToLValue(s, 10) == (0, 1)
  {
    SkipAll(s, 0, 0);
    assert !IsDigit(s[1], 10);
  }

  lemma {:induction false} LowLead(v: int, t: string)
    requires v < 0 && t == Reverse(Backwards(v))
    ensures |t| > 0 && t[0] < '0'
  {
    NegativeLead(v);
    ReverseAt(Backwards(v), 0);
  }

  /** The least long comes back as 0: its first digit is none. */
  lemma {:induction false} LeastLongIsLost(v: int)
    requires v == LONG_MIN
    ensures StrToLValue(Decimal(v), 10) == (0, 1)
  {
    var t := Reverse(Backwards(v));
    LowLead(v, t);
    NoDigits("-" + t);
  }

  /** Each digit of a negative number comes out as far below '0' as it should be above. */
  lemma {:induction false} NegativeDigits(v: int)
    requires v < 0
    ensures Mirrored(Backwards(v), Backwards(-v))
    decreases -v
  {
    assert Tenth(-v) == -Tenth(v);
    if Tenth(v) != 0 {
      NegativeDigits(Tenth(v));
    }
  }

  ghost predicate Mirrored(b: string, c: string) {
    |b| == |c| && forall k :: 0 <= k < |b| ==> b[k] as int + c[k] as int == 2 * '0' as int
  }

  lemma {:induction false} MirroredReverse(b: string, c: string)
    requires Mirrored(b, c)
    ensures Mirrored(Reverse(b), Reverse(c))
  {
    forall k | 0 <= k < |b|
      ensures Reverse(b)[k] as int + Reverse(c)[k] as int == 2 * '0' as int
    {
      ReverseAt(b, k);
      ReverseAt(c, k);
    }
  }

  /** The text of the least long, and of anything below: a minus sign, and the digits mirrored at '0'. */
  lemma {:induction false} LeastLongText(v: int, b: string)
    requires v <= LONG_MIN && b == Backwards(v)
    ensures Decimal(v) == "-" + Reverse(b) && Mirrored(Reverse(b), Numeral(-v, 10))
  {
    NegativeDigits(v);
    BackwardsIsReversed(-v);
    MirroredReverse(b, Backwards(-v));
  }

  /** strtol undoes ltostr, and reads all of it, for every long but the least. */
  lemma {:induction false} LToStrRoundTrip(v: int)
    requires LONG_MIN <= v <= LONG_MAX
    ensures StrToLValue(Decimal(v), 10) == (v, |Decimal(v)|) <==> v != LONG_MIN
  {
    if v == LONG_MIN {
      LeastLongIsLost(v);
    } else {
      StrToLUndoesLToStr(v);
    }
  }

  /** strtol undoes printnum in every base it prints, padded with zeros or spaces, for every value a long can hold. */
  lemma {:induction false} StrToLUndoesPrintNum(num: nat, base: nat, width: int, padc: char)
    requires 2 <= base <= 16 && num <= LONG_MAX && (padc == '0' || padc == ' ')
    ensures StrToLValue(Padded(num, base, width, padc), base) == (num, |Padded(num, base, width, padc)|)
  {
    var pad, t := Pad(padc, width - |Numeral(num, base)|), Numeral(num, base);
    PadLength(padc, width - |t|);
    NumeralIsPlain(num, base);
    assert (pad + t)[|pad|..|pad| + |t|] == t;
    NumeralValue(pad + t, |pad|, num, base);
    if padc == ' ' {
      AfterBlanks(pad, t, base, num);
    } else {
      AfterZeros(pad, t, base, num);
    }
  }

  lemma {:induction false} AfterBlanks(pad: string, t: string, base: nat, num: nat)
    requires 2 <= base <= 16 && (forall k :: 0 <= k < |pad| ==> pad[k] == ' ') && AllPlain(t, base)
    requires Value(pad + t, |pad|, |pad + t|, base, 0) == num
    ensures StrToLValue(pad + t, base) == (num, |pad + t|)
  {
    var s := pad + t;
    assert s[|pad|..] == t;
    PlainToEnd(s, |pad|, t, base);
    SkipAll(s, 0, |pad|);
    assert |t| > 1 ==> PlainDigit(t[1], base) && s[|pad| + 1] == t[1];
  }

  lemma {:induction false} AfterZeros(pad: string, t: string, base: nat, num: nat)
    requires 2 <= base <= 16 && (forall k :: 0 <= k < |pad| ==> pad[k] == '0') && AllPlain(t, base)
    requires Value(pad + t, |pad|, |pad + t|, base, 0) == num
    ensures StrToLValue(pad + t, base) == (num, |pad + t|)
  {
    var s := pad + t;
    forall k | 0 <= k < |s|
      ensures PlainDigit(s[k], base)
    {
      assert s[k] == if k < |pad| then '0' else t[k - |pad|];
    }
    assert s[0..] == s;
    PlainToEnd(s, 0, s, base);
    SkipAll(s, 0, 0);
    ZerosAreNothing(s, 0, |pad|, base);
    ValueSplit(s, 0, |pad|, |s|, base, 0);
  }

  // ---------------------------------------------------------------- what strtol reads

  const LOWER := "0123456789abcdefghijklmnopqrstuvwxyz"
  const UPPER := "0123456789ABCDEFGHIJKLMNOPQRSTUVWXYZ"

  /** Character c stands for the digit d, in lower or upper case. */
  predicate IsDigitFor(c: char, d: nat) {
    d < 36 && (LOWER[d] == c || UPPER[d] == c)
  }

  /** Digits and letters have the values of the table, in either case, and nothing else has one. */
  lemma DigitValues(c: char, d: nat)
    ensures IsDigitFor(c, d) <==> DigitOf(c) == d
    ensures DigitOf(c) < 36
  {
    if d < 36 {
      LowerAt(d);
      UpperAt(d);
    }
  }

  lemma LowerAt(d: nat)
    requires d < 36
    ensures LOWER[d] == if d < 10 then '0' + d as char else 'a' + (d - 10) as char
  {
  }

  lemma UpperAt(d: nat)
    requires d < 36
    ensures UPPER[d] == if d < 10 then '0' + d as char else 'A' + (d - 10) as char
  {
  }

  /** Digit k of ds, a digit of base b, stands k places after position i. */
  ghost predicate WritesAt(s: string, i: nat, ds: seq<nat>, b: nat, k: nat)
    requires k < |ds| && i + |ds| <= |s|
  {
    ds[k] < b && IsDigitFor(s[i + k], ds[k])
  }

  /** The digits ds of base b stand in s from i on. */
  ghost predicate Writes(s: string, i: nat, ds: seq<nat>, b: nat) {
    i + |ds| <= |s| && forall k :: 0 <= k < |ds| ==> WritesAt(s, i, ds, b, k)
  }

  /** The number with the digits ds, most significant first. */
  function NumberOf(ds: seq<nat>, b: nat): nat {
    if |ds| == 0 then 0 else NumberOf(ds[..|ds| - 1], b) * b + ds[|ds| - 1]
  }

  predicate IsBlank(c: char) {
    c == ' ' || c == '\t'
  }

  predicate IsSign(c: char) {
    c == '+' || c == '-'
  }

  /** Character c is no digit of base b. */
  ghost predicate NoDigit(c: char, b: nat) {
    forall d: nat :: d < b ==> !IsDigitFor(c, d)
  }

  /** What stands in s between q and i is the prefix that settles base b for argument arg. */
  predicate IsPrefix(arg: nat, s: string, q: nat, i: nat, b: nat) {
    var hex := (arg == 0 || arg == 16) && CharAt(s, q) == '0' && CharAt(s, q + 1) == 'x';
    if hex then b == 16 && i == q + 2
    else if arg == 0 && CharAt(s, q) == '0' then b == 8 && i == q + 1
    else i == q && b == if arg == 0 then 10 else arg
  }

  /** How a string is read: blanks up to p, at most one sign up to q, a prefix up to i and digits up to j. */
  datatype Parts = Parts(p: nat, q: nat, i: nat, j: nat)

  ghost predicate Reads(s: string, x: Parts, arg: nat, b: nat, ds: seq<nat>) {
    && x.p <= x.q <= x.i <= x.j == x.i + |ds| <= |s| && b <= 36
    && (forall k :: 0 <= k < x.p ==> IsBlank(s[k])) && !IsBlank(CharAt(s, x.p))
    && x.q == (if IsSign(CharAt(s, x.p)) then x.p + 1 else x.p)
    && IsPrefix(arg, s, x.q, x.i, b)
    && Writes(s, x.i, ds, b) && NoDigit(CharAt(s, x.j), b)
  }

  /** The number n after that character, cut to 32 bits. */
  function Signed(c: char, n: int): int {
    if c == '-' then Wrap(-n) else Wrap(n)
  }

  /** strtol returns the number of the digits it reads, negated after a minus sign and cut to 32 bits, and
      where they end. */
  lemma {:induction false} ReadsParts(s: string, x: Parts, arg: nat, b: nat, ds: seq<nat>)
    requires Reads(s, x, arg, b, ds)
    ensures StrToLValue(s, arg) == (Signed(CharAt(s, x.p), NumberOf(ds, b)), x.j)
  {
    SkipsBlanks(s, 0, x.p);
    DigitsOfParts(s, x.i, x.j, b, ds);
    WrapNegated(NumberOf(ds, b));
  }

  lemma {:induction false} SkipsBlanks(s: string, i: nat, p: nat)
    requires i <= p <= |s| && (forall k :: i <= k < p ==> IsBlank(s[k])) && !IsBlank(CharAt(s, p))
    ensures SkipBlank(s, i) == p
    decreases p - i
  {
    if i < p {
      SkipsBlanks(s, i + 1, p);
    }
  }

  lemma {:induction false} DigitsOfParts(s: string, i: nat, j: nat, b: nat, ds: seq<nat>)
    requires j == i + |ds| <= |s| && b <= 36 && Writes(s, i, ds, b) && NoDigit(CharAt(s, j), b)
    ensures DigitsEnd(s, i, b) == j && Value(s, i, j, b, 0) == Wrap(NumberOf(ds, b))
  {
    forall k | i <= k < j
      ensures IsDigit(s[k], b)
    {
      assert WritesAt(s, i, ds, b, k - i);
      DigitValues(s[k], ds[k - i]);
    }
    forall k | 0 <= k < |ds|
      ensures DigitOf(s[i + k]) == ds[k]
    {
      assert WritesAt(s, i, ds, b, k);
      DigitValues(s[i + k], ds[k]);
    }
    if j < |s| && IsDigit(s[j], b) {
      DigitValues(s[j], DigitOf(s[j]));
    }
    DigitsStop(s, i, j, b);
    ValueIsNumber(s, i, ds, b);
  }

  lemma {:induction false} DigitsStop(s: string, i: nat, j: nat, b: nat)
    requires i <= j <= |s| && (forall k :: i <= k < j ==> IsDigit(s[k], b)) && (j < |s| ==> !IsDigit(s[j], b))
    ensures DigitsEnd(s, i, b) == j
    decreases j - i
  {
    if i < j {
      DigitsStop(s, i + 1, j, b);
    }
  }

  /** The digits' number, although every step of reading them wraps. */
  lemma {:induction false} ValueIsNumber(s: string, i: nat, ds: seq<nat>, b: nat)
    requires i + |ds| <= |s| && forall k :: 0 <= k < |ds| ==> DigitOf(s[i + k]) == ds[k]
    ensures Value(s, i, i + |ds|, b, 0) == Wrap(NumberOf(ds, b))
    decreases |ds|
  {
    if |ds| > 0 {
      var j, q := i + |ds|, NumberOf(ds[..|ds| - 1], b);
      ValueIsNumber(s, i, ds[..|ds| - 1], b);
      ValueSplit(s, i, j - 1, j, b, 0);
      assert Value(s, j - 1, j, b, Wrap(q)) == Wrap(Wrap(q) * b + ds[|ds| - 1]);
      WrapStep(q, b, ds[|ds| - 1]);
    }
  }

  lemma WrapStep(q: int, b: nat, d: nat)
    ensures Wrap(Wrap(q) * b + d) == Wrap(q * b + d)
  {
    var k := WrapQuotient(q);
    assert q * b + d == Wrap(q) * b + d + (k * b) * 0x1_0000_0000;
    WrapShift(Wrap(q) * b + d, k * b);
  }

  /** Wrapping takes off a multiple of 2^32. */
  lemma WrapQuotient(q: int) returns (k: int)
    ensures q == Wrap(q) + k * 0x1_0000_0000
  {
    k := (q + 0x8000_0000) / 0x1_0000_0000;
  }

  lemma WrapShift(y: int, k: int)
    ensures Wrap(y + k * 0x1_0000_0000) == Wrap(y)
  {
  }

  lemma WrapNegated(n: int)
    ensures Wrap(-Wrap(n)) == Wrap(-n)
  {
    var k := WrapQuotient(n);
    assert -n == -Wrap(n) + (-k) * 0x1_0000_0000;
    WrapShift(-Wrap(n), -k);
  }

  /** Every string can be taken apart so, for every argument strtol allows: nothing is left open. */
  lemma {:induction false} EveryStringReads(s: string, arg: nat) returns (x: Parts, b: nat, ds: seq<nat>)
    requires arg == 0 || 2 <= arg <= 36
    ensures Reads(s, x, arg, b, ds)
  {
    var p := SkipBlank(s, 0);
    BlanksEnd(s, 0);
    var q := if IsSign(CharAt(s, p)) then p + 1 else p;
    var i;
    i, b := SettlesBase(arg, s, q);
    ds := DigitsOf(s, i, b);
    x := Parts(p, q, i, i + |ds|);
  }

  /** The prefix at q, and the base it settles. */
  lemma SettlesBase(arg: nat, s: string, q: nat) returns (i: nat, b: nat)
    requires (arg == 0 || 2 <= arg <= 36) && q <= |s|
    ensures q <= i <= |s| && IsPrefix(arg, s, q, i, b) && b <= 36
  {
    if (arg == 0 || arg == 16) && CharAt(s, q) == '0' && CharAt(s, q + 1) == 'x' {
      i, b := q + 2, 16;
    } else if arg == 0 && CharAt(s, q) == '0' {
      i, b := q + 1, 8;
    } else {
      i, b := q, if arg == 0 then 10 else arg;
    }
  }

  lemma {:induction false} BlanksEnd(s: string, i: nat)
    requires i <= |s|
    ensures i <= SkipBlank(s, i) <= |s| && forall k :: i <= k < SkipBlank(s, i) ==> IsBlank(s[k])
    ensures !IsBlank(CharAt(s, SkipBlank(s, i)))
    decreases |s| - i
  {
    if i < |s| && IsBlank(s[i]) {
      BlanksEnd(s, i + 1);
    }
  }

  /** The digits that are read from i on. */
  lemma {:induction false} DigitsOf(s: string, i: nat, b: nat) returns (ds: seq<nat>)
    requires i <= |s| && b <= 36
    ensures Writes(s, i, ds, b) && NoDigit(CharAt(s, i + |ds|), b)
    decreases |s| - i
  {
    ds := [];
    if i < |s| && IsDigit(s[i], b) {
      var rest := DigitsOf(s, i + 1, b);
      ds := [DigitOf(s[i]) as nat] + rest;
      DigitValues(s[i], ds[0]);
      forall k | 0 <= k < |ds|
        ensures WritesAt(s, i, ds, b, k)
      {
        assert k > 0 ==> WritesAt(s, i + 1, rest, b, k - 1);
      }
    } else {
      EndsDigits(CharAt(s, i), b);
    }
  }

  lemma EndsDigits(c: char, b: nat)
    requires !IsDigit(c, b)
    ensures NoDigit(c, b)
  {
    forall d: nat | d < b
      ensures !IsDigitFor(c, d)
    {
      DigitValues(c, d);
    }
  }

  // ---------------------------------------------------------------- numbers with a prefix

  /** The digits of a numeral. */
  lemma {:induction false} NumeralWrites(n: nat, base: nat) returns (ds: seq<nat>)
    requires 2 <= base <= 16
    ensures |ds| == |Numeral(n, base)| && Writes(Numeral(n, base), 0, ds, base) && NumberOf(ds, base) == n
    ensures |ds| > 0 && (n > 0 ==> ds[0] > 0) && (n < base ==> ds == [n])
  {
    var t, q, r := Numeral(n, base), Quot(n, base), Rem(n, base);
    var front: seq<nat> := [];
    if n >= base {
      front := NumeralWrites(q, base);
    }
    ds := front + [r];
    assert ds[..|ds| - 1] == front;
    QuotRem(n, base);
    LowerAt(r);
    LongerWrites(Numeral(q, base), t, front, r, base, n);
  }

  lemma {:induction false} LongerWrites(u: string, t: string, front: seq<nat>, r: nat, base: nat, n: nat)
    requires 2 <= base <= 16 && r < base && LOWER[r] == DigitChar(r)
    requires t == (if n < base then "" else u) + [DigitChar(r)]
    requires if n < base then front == [] else |front| == |u| && Writes(u, 0, front, base)
    ensures Writes(t, 0, front + [r], base) && |t| == |front| + 1
  {
    var ds := front + [r];
    forall k | 0 <= k < |ds|
      ensures WritesAt(t, 0, ds, base, k)
    {
      if k < |front| {
        assert WritesAt(u, 0, front, base, k);
      }
    }
  }

  /** The prefix that settles a base when the argument leaves it open, or repeats it. */
  predicate Announces(arg: nat, prefix: string, base: nat) {
    || (base == 16 && prefix == "0x" && (arg == 0 || arg == 16))
    || (base == 8 && prefix == "0" && arg == 0)
    || (base == 10 && prefix == "" && arg == 0)
    || (2 <= base <= 16 && prefix == "" && arg == base)
  }

  /** Every number a long can hold is read back, to the end, from its numeral in hexadecimal after 0x, in octal
      after 0 and in decimal when the argument is 0, in the base of the argument otherwise; after any blanks
      and either sign. */
  lemma {:induction false} ReadsNumerals(n: int, blanks: string, sign: string, prefix: string, arg: nat, base: nat)
    requires 0 <= n <= LONG_MAX && Announces(arg, prefix, base) && (sign == "" || sign == "+" || sign == "-")
    requires forall k :: 0 <= k < |blanks| ==> IsBlank(blanks[k])
    ensures var s := blanks + sign + prefix + Numeral(n, base);
      StrToLValue(s, arg) == (if sign == "-" then -n else n, |s|)
  {
    var t := Numeral(n, base);
    var s := blanks + sign + prefix + t;
    var ds := NumeralWrites(n, base);
    var p, q := |blanks|, |blanks| + |sign|;
    Pieces(s, blanks, sign, prefix, t);
    SignStands(s, p, q, blanks, sign);
    Shifted(s, q + |prefix|, t, ds, base);
    ReadsSpelled(n, s, p, q, prefix, ds, arg, base);
  }

  lemma SignStands(s: string, p: nat, q: nat, blanks: string, sign: string)
    requires Stands(s, 0, blanks) && Stands(s, |blanks|, sign) && p == |blanks| && q == p + |sign|
    requires (sign == "" || sign == "+" || sign == "-") && forall k :: 0 <= k < |blanks| ==> IsBlank(blanks[k])
    ensures forall k :: 0 <= k < p ==> IsBlank(s[k])
    ensures q == p || (q == p + 1 <= |s| && IsSign(s[p]))
    ensures sign == "-" <==> q == p + 1 <= |s| && s[p] == '-'
  {
    forall k | 0 <= k < p
      ensures IsBlank(s[k])
    {
      assert s[0 + k] == blanks[k];
    }
    assert |sign| > 0 ==> s[p + 0] == sign[0];
  }

  lemma {:induction false} ReadsSpelled(n: int, s: string, p: nat, q: nat, prefix: string, ds: seq<nat>, arg: nat,
                                        base: nat)
    requires 0 <= n <= LONG_MAX && p <= q <= |s| && Stands(s, q, prefix) && Announces(arg, prefix, base)
    requires forall k :: 0 <= k < p ==> IsBlank(s[k])
    requires q == p || (q == p + 1 <= |s| && IsSign(s[p]))
    requires Writes(s, q + |prefix|, ds, base) && |s| == q + |prefix| + |ds| && NumberOf(ds, base) == n
    requires |ds| > 0 && (n > 0 ==> ds[0] > 0) && (n == 0 ==> ds == [0])
    ensures StrToLValue(s, arg) == (if q == p + 1 && s[p] == '-' then -n else n, |s|)
  {
    var i := q + |prefix|;
    WrapSmall(n);
    WrapSmall(-n);
    NulEnds(base);
    StartsPlain(s, i, ds, base);
    assert |prefix| > 0 ==> s[q + 0] == prefix[0];
    assert |prefix| > 1 ==> s[q + 1] == prefix[1];
    if n == 0 && arg == 0 && prefix == "" {
      ReadsZero(s, p, q);
    } else {
      ReadsParts(s, Parts(p, q, i, |s|), arg, base, ds);
    }
  }

  /** Where the pieces of s stand. */
  ghost predicate Stands(s: string, i: nat, t: string) {
    i + |t| <= |s| && forall k :: 0 <= k < |t| ==> s[i + k] == t[k]
  }

  lemma Pieces(s: string, blanks: string, sign: string, prefix: string, t: string)
    requires s == blanks + sign + prefix + t
    ensures |s| == |blanks| + |sign| + |prefix| + |t|
    ensures Stands(s, 0, blanks) && Stands(s, |blanks|, sign) && Stands(s, |blanks| + |sign|, prefix)
    ensures Stands(s, |blanks| + |sign| + |prefix|, t)
  {
  }

  lemma Shifted(s: string, i: nat, t: string, ds: seq<nat>, base: nat)
    requires Stands(s, i, t) && |ds| == |t| && Writes(t, 0, ds, base)
    ensures Writes(s, i, ds, base)
  {
    forall k | 0 <= k < |ds|
      ensures WritesAt(s, i, ds, base, k)
    {
      assert WritesAt(t, 0, ds, base, k);
    }
  }

  /** The first two digits look like no blank, sign or prefix of their own. */
  lemma StartsPlain(s: string, i: nat, ds: seq<nat>, base: nat)
    requires Writes(s, i, ds, base) && base <= 16 && |ds| > 0
    ensures var c, d := s[i], CharAt(s, i + 1);
      && !IsBlank(c) && !IsSign(c) && c != 'x' && (c == '0' <==> ds[0] == 0) && (i + |ds| == |s| ==> d != 'x')
  {
    assert WritesAt(s, i, ds, base, 0);
    DigitIsPlain(s[i], ds[0], base);
    if |ds| > 1 {
      assert WritesAt(s, i, ds, base, 1);
      DigitIsPlain(s[i + 1], ds[1], base);
    }
  }

  lemma DigitIsPlain(c: char, d: nat, base: nat)
    requires d < base <= 16 && IsDigitFor(c, d)
    ensures !IsBlank(c) && !IsSign(c) && c != 'x' && (c == '0' <==> d == 0)
  {
    DigitValues(c, d);
  }

  lemma NulEnds(b: nat)
    ensures NoDigit(NUL, b)
  {
    forall d: nat | d < b
      ensures !IsDigitFor(NUL, d)
    {
      DigitValues(NUL, d);
    }
  }

  /** A zero alone is an octal prefix without digits. */
  lemma {:induction false} ReadsZero(s: string, p: nat, q: nat)
    requires p <= q && |s| == q + 1 && s[q] == '0' && forall k :: 0 <= k < p ==> IsBlank(s[k])
    requires !IsBlank(s[p]) && q == if IsSign(s[p]) then p + 1 else p
    ensures StrToLValue(s, 0) == (0, |s|)
  {
    NulEnds(8);
    ReadsParts(s, Parts(p, q, q + 1, q + 1), 0, 8, []);
  }
}
