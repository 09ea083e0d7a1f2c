/** Small value-level helpers shared by the modules of this model: an Option type,
    Python's integer clamps, rounding and truncation, ASCII case mapping, decimal
    text, substring search and sorted sequences of integers. */
module Common {

  datatype Option<T> = None | Some(value: T)

  function Max(a: int, b: int): int { if a >= b then a else b }

  function Min(a: int, b: int): int { if a <= b then a else b }

  /** Python's `max(lo, min(hi, x))`. */
  function Clamp(x: int, lo: int, hi: int): (r: int)
    requires lo <= hi
    ensures lo <= r <= hi
    ensures lo <= x <= hi ==> r == x
    ensures x < lo ==> r == lo
    ensures x > hi ==> r == hi
  {
    Max(lo, Min(hi, x))
  }

  /** Python's `round(n / d)` computed over exact rationals: the nearest integer,
      ties going to the even neighbour. */
  function RoundDiv(n: int, d: int): (r: int)
    requires d > 0
    ensures -d <= 2 * (n - d * r) <= d
    ensures (2 * (n - d * r) == d || 2 * (n - d * r) == -d) ==> r % 2 == 0
  {
    var q := n / d;
    var m := n % d;
    assert n == d * q + m;
    assert d * (q + 1) == d * q + d;
    if 2 * m < d then q
    else if 2 * m > d then q + 1
    else if q % 2 == 0 then q
    else q + 1
  }

  /** a * b >= 0 for non-negative factors, by induction on b. */
  lemma {:induction false} MulNonneg(a: int, b: nat)
    requires a >= 0
    ensures a * b >= 0
    decreases b
  {
    if b > 0 {
      MulNonneg(a, b - 1);
      assert a * b == a * (b - 1) + a;
    }
  }

  /** The rounding above is the only integer that satisfies its contract: nothing
      else is as near to n / d with ties to even. */
  lemma {:induction false} RoundDivUnique(n: int, d: int, r: int)
    requires d > 0
    requires -d <= 2 * (n - d * r) <= d
    requires (2 * (n - d * r) == d || 2 * (n - d * r) == -d) ==> r % 2 == 0
    ensures r == RoundDiv(n, d)
  {
    var q := n / d;
    var m := n % d;
    assert n == d * q + m;
    assert n - d * r == m + d * (q - r);
    if r <= q - 1 {
      assert d * (q - r) == d * (q - r - 1) + d;
      MulNonneg(d, q - r - 1);
      assert false;
    } else if r >= q + 2 {
      assert d * (r - q) == d * (r - q - 2) + 2 * d;
      MulNonneg(d, r - q - 2);
      assert false;
    }
  }

  /** Python's `int(n / d)` for a positive divisor: the quotient truncated toward zero. */
  function TruncDiv(n: int, d: int): (r: int)
    requires d > 0
    ensures n >= 0 ==> 0 <= d * r <= n < d * r + d
    ensures n < 0 ==> d * r - d < n <= d * r <= 0
  {
    if n >= 0 then
      DivBounds(n, d);
      n / d
    else
      DivBounds(-n, d);
      var q := (-n) / d;
      assert d * -q == -(d * q);
      -q
  }

  lemma DivBounds(n: nat, d: int)
    requires d > 0
    ensures 0 <= d * (n / d) <= n < d * (n / d) + d
  {
    var q := n / d;
    assert n == d * q + n % d;
    MulNonneg(d, q);
  }

  /** Python's `int(x)` on a float, taken as an exact real: truncation toward zero. */
  function Trunc(x: real): (r: int)
    ensures x >= 0.0 ==> r as real <= x < r as real + 1.0
    ensures x < 0.0 ==> r as real - 1.0 < x <= r as real
  {
    if x >= 0.0 then x.Floor else -((-x).Floor)
  }

  // ---------- characters and strings ----------

  predicate IsAsciiUpper(c: char) { 'A' <= c <= 'Z' }

  predicate IsAsciiLower(c: char) { 'a' <= c <= 'z' }

  predicate IsAsciiLetter(c: char) { IsAsciiUpper(c) || IsAsciiLower(c) }

  predicate IsDigit(c: char) { '0' <= c <= '9' }

  /** Python's `\s` and `str.isspace()` restricted to ASCII: space, tab, the line and
      page breaks, and the four separators 0x1C-0x1F. */
  predicate IsSpace(c: char) { c == ' ' || '\t' <= c <= '\r' || '\U{1C}' <= c <= '\U{1F}' }

  function LowerChar(c: char): (r: char)
    ensures IsAsciiUpper(c) ==> IsAsciiLower(r)
    ensures !IsAsciiUpper(c) ==> r == c
  {
    if IsAsciiUpper(c) then (c as int + 32) as char else c
  }

  function UpperChar(c: char): (r: char)
    ensures IsAsciiLower(c) ==> IsAsciiUpper(r)
    ensures !IsAsciiLower(c) ==> r == c
  {
    if IsAsciiLower(c) then (c as int - 32) as char else c
  }

  /** `str.lower()` on ASCII letters. */
  function Lower(s: string): (r: string)
    ensures |r| == |s|
    ensures forall i :: 0 <= i < |s| ==> r[i] == LowerChar(s[i])
  {
    seq(|s|, i requires 0 <= i < |s| => LowerChar(s[i]))
  }

  lemma LowerIdempotent(s: string)
    ensures Lower(Lower(s)) == Lower(s)
  {
  }

  function DigitChar(d: nat): (c: char)
    requires d < 10
    ensures IsDigit(c)
  {
    ('0' as int + d) as char
  }

  function DigitValue(c: char): (d: nat)
    requires IsDigit(c)
    ensures d < 10
    ensures DigitChar(d) == c
  {
    c as int - '0' as int
  }

  predicate AllDigits(s: string) { forall i :: 0 <= i < |s| ==> IsDigit(s[i]) }

  /** `str(n)` for a natural number. */
  function NatToString(n: nat): (r: string)
    ensures |r| > 0 && AllDigits(r)
    decreases n
  {
    if n < 10 then [DigitChar(n)] else NatToString(n / 10) + [DigitChar(n % 10)]
  }

  /** `str(i)` for any integer. */
  function IntToString(i: int): (r: string)
    ensures |r| > 0
  {
    if i < 0 then "-" + NatToString(-i) else NatToString(i)
  }

  /** `int(s)` for a string of ASCII digits. */
  function ParseNat(s: string): nat
    requires AllDigits(s)
  {
    if |s| == 0 then 0 else ParseNat(s[..|s| - 1]) * 10 + DigitValue(s[|s| - 1])
  }

  lemma {:induction false} ParseNatToString(n: nat)
    ensures ParseNat(NatToString(n)) == n
    decreases n
  {
    var s := NatToString(n);
    if n >= 10 {
      ParseNatToString(n / 10);
      assert s[..|s| - 1] == NatToString(n / 10);
    }
  }

  predicate StartsWith(s: string, p: string) { |p| <= |s| && s[..|p|] == p }

  /** `p in s` for strings. */
  predicate Contains(s: string, p: string)
    decreases |s|
  {
    StartsWith(s, p) || (|s| > 0 && Contains(s[1..], p))
  }

  lemma {:induction false} ContainsAppend(a: string, s: string, p: string)
    requires Contains(s, p)
    ensures Contains(a + s, p)
    decreases |a|
  {
    if |a| > 0 {
      ContainsAppend(a[1..], s, p);
      assert (a + s)[1..] == a[1..] + s;
    } else {
      assert a + s == s;
    }
  }

  lemma ContainsPrefix(s: string, p: string, t: string)
    requires |p| <= |s| && p == s[..|p|]
    ensures Contains(s + t, p)
  {
    assert (s + t)[..|p|] == p;
  }

  /** `sep.join(parts)`. */
  function Join(sep: string, parts: seq<string>): string
  {
    if |parts| == 0 then ""
    else if |parts| == 1 then parts[0]
    else parts[0] + sep + Join(sep, parts[1..])
  }

  // ---------- sorted sequences of integers ----------

  predicate StrictlySorted(s: seq<int>)
  {
    forall i, j :: 0 <= i < j < |s| ==> s[i] < s[j]
  }

  predicate NoDup<T(==)>(s: seq<T>)
  {
    forall i, j :: 0 <= i < j < |s| ==> s[i] != s[j]
  }

  lemma SortedNoDup(s: seq<int>)
    requires StrictlySorted(s)
    ensures NoDup(s)
  {
  }

  lemma SortedFirstIsLeast(s: seq<int>, y: int)
    requires StrictlySorted(s) && y in s
    ensures s[0] <= y
  {
    var i :| 0 <= i < |s| && s[i] == y;
  }

  lemma SortedCons(h: int, t: seq<int>)
    requires StrictlySorted(t)
    requires forall y :: y in t ==> h < y
    ensures StrictlySorted([h] + t)
  {
    var r := [h] + t;
    forall i, j | 0 <= i < j < |r| ensures r[i] < r[j] {
      assert r[j] == t[j - 1];
      if i > 0 { assert r[i] == t[i - 1]; } else { assert t[j - 1] in t; }
    }
  }

  lemma SortedTailAbove(s: seq<int>, y: int)
    requires StrictlySorted(s) && |s| > 0 && y in s[1..]
    ensures s[0] < y
  {
    var i :| 0 <= i < |s[1..]| && s[1..][i] == y;
    assert s[i + 1] == y;
  }

  /** Inserts x into a strictly sorted sequence, keeping it strictly sorted. */
  function InsertSorted(x: int, s: seq<int>): (r: seq<int>)
    requires StrictlySorted(s)
    ensures StrictlySorted(r)
    ensures forall y :: y in r <==> y == x || y in s
    ensures x in s ==> r == s
  {
    if |s| == 0 then [x]
    else if x < s[0] then [x] + s
    else if x == s[0] then s
    else
      var t := InsertSorted(x, s[1..]);
      assert forall y :: y in t ==> s[0] < y by {
        forall y | y in t ensures s[0] < y {
          if y in s[1..] { SortedTailAbove(s, y); }
        }
      }
      SortedCons(s[0], t);
      assert s == [s[0]] + s[1..];
      [s[0]] + t
  }

  /** `sorted(set(a) | set(b))` for a strictly sorted `a`. */
  function SortedUnion(a: seq<int>, b: seq<int>): (r: seq<int>)
    requires StrictlySorted(a)
    ensures StrictlySorted(r)
    ensures forall y :: y in r <==> y in a || y in b
    decreases |b|
  {
    if |b| == 0 then a else SortedUnion(InsertSorted(b[0], a), b[1..])
  }

  lemma SameElementsBothEmpty<T>(a: seq<T>, b: seq<T>)
    requires forall y :: y in a <==> y in b
    ensures |a| == 0 <==> |b| == 0
  {
    if |a| > 0 { assert a[0] in b; }
    if |b| > 0 { assert b[0] in a; }
  }

  /** Two strictly sorted sequences with the same elements are the same sequence. */
  lemma {:induction false} SortedUnique(a: seq<int>, b: seq<int>)
    requires StrictlySorted(a) && StrictlySorted(b)
    requires forall y :: y in a <==> y in b
    ensures a == b
    decreases |a|
  {
    SameElementsBothEmpty(a, b);
    if |a| > 0 {
      assert a[0] == b[0] by {
        assert a[0] in a && b[0] in b;
        SortedFirstIsLeast(a, b[0]);
        SortedFirstIsLeast(b, a[0]);
      }
      forall y ensures y in a[1..] <==> y in b[1..] {
        if y in a[1..] { assert y in b && y != b[0]; }
        if y in b[1..] { assert y in a && y != a[0]; }
      }
      SortedUnique(a[1..], b[1..]);
      assert a == [a[0]] + a[1..] && b == [b[0]] + b[1..];
    }
  }

  /** The union changes a sorted sequence exactly when `b` brings an element that
      `a` does not hold yet. */
  lemma SortedUnionUnchanged(a: seq<int>, b: seq<int>)
    requires StrictlySorted(a)
    ensures SortedUnion(a, b) == a <==> forall y :: y in b ==> y in a
  {
    var r := SortedUnion(a, b);
    if forall y :: y in b ==> y in a {
      SortedUnique(r, a);
    }
  }
}
