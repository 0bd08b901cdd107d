/**
 * Decimal text of natural numbers, as JavaScript writes an integral number
 * when it is concatenated with a string (`n + ''`), and the suffix taken by
 * `String.prototype.slice` with a negative start.
 */
module Decimal {

  predicate IsDigit(c: char) {
    '0' <= c <= '9'
  }

  predicate AllDigits(s: string) {
    forall i :: 0 <= i < |s| ==> IsDigit(s[i])
  }

  function DigitChar(d: nat): (c: char)
    requires d < 10
    ensures IsDigit(c)
  {
    (('0' as int) + d) as char
  }

  function DigitValue(c: char): (d: nat)
    requires IsDigit(c)
    ensures d < 10 && DigitChar(d) == c
  {
    (c as int) - ('0' as int)
  }

  function Pow10(k: nat): (p: nat)
    ensures p >= 1
  {
    if k == 0 then 1 else 10 * Pow10(k - 1)
  }

  /** The decimal text of `n`, most significant digit first, without leading zeros. */
  function ToDecimal(n: nat): (s: string)
    ensures 1 <= |s| && AllDigits(s)
    ensures n < 10 ==> s == [DigitChar(n)]
    ensures |s| > 1 ==> s[0] != '0'
  {
    if n < 10 then [DigitChar(n)] else ToDecimal(n / 10) + [DigitChar(n % 10)]
  }

  /** The number a digit string denotes (leading zeros allowed). */
  function ValueOf(s: string): nat
    requires AllDigits(s)
  {
    if s == [] then 0 else 10 * ValueOf(s[..|s| - 1]) + DigitValue(s[|s| - 1])
  }

  /**
   * `s.slice(-k)` for `k > 0`: the last `k` characters of `s`, or all of `s`
   * when it is shorter. (`slice(-0)` is `slice(0)`, the whole string, so
   * `k == 0` is excluded.)
   */
  function SliceLast(s: string, k: nat): (r: string)
    requires k > 0
    ensures |r| == if |s| <= k then |s| else k
    ensures forall i :: 0 <= i < |r| ==> r[i] == s[|s| - |r| + i]
  {
    if |s| <= k then s else s[|s| - k..]
  }

  /** Reading back the decimal text gives the number. */
  lemma {:induction false} ValueOfToDecimal(n: nat)
    ensures ValueOf(ToDecimal(n)) == n
  {
    if n >= 10 {
      var s := ToDecimal(n);
      assert s[..|s| - 1] == ToDecimal(n / 10);
      ValueOfToDecimal(n / 10);
    }
  }

  /** A number of at least `10^k` has more than `k` decimal digits. */
  lemma {:induction false} ToDecimalLength(n: nat, k: nat)
    requires n >= Pow10(k)
    ensures |ToDecimal(n)| > k
  {
    if k > 0 {
      assert n >= 10;
      assert n / 10 >= Pow10(k - 1);
      ToDecimalLength(n / 10, k - 1);
    }
  }

  lemma MulAtLeast(k: int, m: int)
    requires k >= 1 && m > 0
    ensures k * m >= m
  {
  }

  lemma Distribute(a: int, b: int, m: int)
    ensures (a - b) * m == a * m - b * m
  {
  }

  /** A number is smaller than ten to the power of its digit count. */
  lemma {:induction false} ToDecimalBound(n: nat)
    ensures n < Pow10(|ToDecimal(n)|)
  {
    if n >= 10 {
      ToDecimalBound(n / 10);
    }
  }

  lemma ModUnique(x: int, q: int, m: int, r: int)
    requires m > 0 && x == q * m + r && 0 <= r < m
    ensures x % m == r
  {
    var q', r' := x / m, x % m;
    assert x == q' * m + r';
    Distribute(q, q', m);
    Distribute(q', q, m);
    if q > q' {
      MulAtLeast(q - q', m);
      assert false;
    } else if q < q' {
      MulAtLeast(q' - q, m);
      assert false;
    }
  }

  lemma ModStep(a: nat, m: nat, d: nat)
    requires m >= 1 && d < 10
    ensures (10 * a + d) % (10 * m) == 10 * (a % m) + d
  {
    var q, r := a / m, a % m;
    assert a == q * m + r;
    assert 10 * a == q * (10 * m) + 10 * r;
    ModUnique(10 * a + d, q, 10 * m, 10 * r + d);
  }

  /** The last `k` digits of a digit string denote its value modulo `10^k`. */
  lemma {:induction false} SuffixValue(s: string, k: nat)
    requires AllDigits(s) && k <= |s|
    ensures AllDigits(s[|s| - k..]) && ValueOf(s[|s| - k..]) == ValueOf(s) % Pow10(k)
  {
    var t := s[|s| - k..];
    if k > 0 {
      var p := s[..|s| - 1];
      var c := s[|s| - 1];
      assert t[..|t| - 1] == p[|p| - (k - 1)..];
      assert t[|t| - 1] == c;
      SuffixValue(p, k - 1);
      ModStep(ValueOf(p), Pow10(k - 1), DigitValue(c));
    }
  }

  /** Two digit strings of equal length and equal value are the same string. */
  lemma {:induction false} ValueOfInjective(s: string, t: string)
    requires AllDigits(s) && AllDigits(t) && |s| == |t|
    requires ValueOf(s) == ValueOf(t)
    ensures s == t
  {
    if s != [] {
      var ps, pt := s[..|s| - 1], t[..|t| - 1];
      var ds, dt := DigitValue(s[|s| - 1]), DigitValue(t[|t| - 1]);
      assert (10 * ValueOf(ps) + ds) % 10 == ds;
      assert (10 * ValueOf(pt) + dt) % 10 == dt;
      assert ds == dt;
      ValueOfInjective(ps, pt);
      assert s == ps + [s[|s| - 1]];
      assert t == pt + [t[|t| - 1]];
    }
  }
}
