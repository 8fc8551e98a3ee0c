/** Fixed-width decimal digits: their value, and their order as text. */
module Digits {
  import opened Wrappers
  import Text

  predicate IsDigit(c: char) {
    '0' <= c <= '9'
  }

  predicate AllDigits(s: string) {
    forall i :: 0 <= i < |s| ==> IsDigit(s[i])
  }

  function DigitChar(d: int): (c: char)
    requires 0 <= d < 10
    ensures IsDigit(c) && c as int == '0' as int + d
  {
    ('0' as int + d) as char
  }

  function DigitValue(c: char): (d: int)
    requires IsDigit(c)
    ensures 0 <= d < 10
  {
    c as int - '0' as int
  }

  function Pow10(w: nat): (p: int)
    ensures p >= 1
  {
    if w == 0 then 1 else 10 * Pow10(w - 1)
  }

  /** The last w decimal digits of n, zeros included. */
  function Spelled(n: int, w: nat): (s: string)
    requires 0 <= n
    ensures |s| == w && AllDigits(s)
    decreases w
  {
    if w == 0 then "" else Spelled(n / 10, w - 1) + [DigitChar(n % 10)]
  }

  function Value(s: string): (n: int)
    requires AllDigits(s)
    ensures 0 <= n
  {
    if s == "" then 0 else 10 * Value(s[..|s| - 1]) + DigitValue(s[|s| - 1])
  }

  lemma {:induction false} ValueOfSpelled(n: int, w: nat)
    requires 0 <= n < Pow10(w)
    ensures Value(Spelled(n, w)) == n
    decreases w
  {
    if w > 0 {
      ValueOfSpelled(n / 10, w - 1);
      assert Spelled(n, w)[..w - 1] == Spelled(n / 10, w - 1);
    }
  }

  lemma {:induction false} SpelledValue(s: string)
    requires AllDigits(s)
    ensures 0 <= Value(s) < Pow10(|s|)
    ensures Spelled(Value(s), |s|) == s
  {
    if s != "" {
      var init, last := s[..|s| - 1], s[|s| - 1];
      SpelledValue(init);
      var n := Value(s);
      assert n / 10 == Value(init) && n % 10 == DigitValue(last);
      assert init + [last] == s;
    }
  }

  /** Numbers of one width compare as their spellings do. */
  lemma {:induction false} SpelledOrders(n: int, m: int, w: nat)
    requires 0 <= n < Pow10(w) && 0 <= m < Pow10(w)
    ensures Text.Less(Spelled(n, w), Spelled(m, w)) <==> n < m
    ensures Spelled(n, w) == Spelled(m, w) <==> n == m
    decreases w
  {
    ValueOfSpelled(n, w);
    ValueOfSpelled(m, w);
    if w > 0 {
      var x, y := Spelled(n / 10, w - 1), Spelled(m / 10, w - 1);
      SpelledOrders(n / 10, m / 10, w - 1);
      Text.LessOfConcat(x, [DigitChar(n % 10)], y, [DigitChar(m % 10)]);
      OneChar(DigitChar(n % 10), DigitChar(m % 10));
    }
  }

  lemma {:induction false} OneChar(c: char, d: char)
    ensures Text.Less([c], [d]) <==> c < d
  {
    assert [c][1..] == "" && [d][1..] == "";
  }

  /** A field, a separator and the rest: the field decides, then the rest. */
  lemma {:induction false} FieldOrders(n: int, m: int, w: nat, separator: string, x: string, y: string)
    requires 0 <= n < Pow10(w) && 0 <= m < Pow10(w)
    ensures Text.Less(Spelled(n, w) + (separator + x), Spelled(m, w) + (separator + y)) <==>
            n < m || (n == m && Text.Less(x, y))
  {
    SpelledOrders(n, m, w);
    Text.LessOfConcat(Spelled(n, w), separator + x, Spelled(m, w), separator + y);
    Text.LessOfConcat(separator, x, separator, y);
    Text.LessIrreflexive(separator);
  }

  /** Each digit of a spelling, from the front, by division. */
  lemma {:induction false} SpelledInFigures(n: int, w: nat, i: nat)
    requires 0 <= n && i < w
    ensures Spelled(n, w)[i] as int == '0' as int + n / Pow10(w - 1 - i) % 10
    decreases w
  {
    if i < w - 1 {
      SpelledInFigures(n / 10, w - 1, i);
      TenTimes(n, Pow10(w - 2 - i));
    }
  }

  lemma {:induction false} TenTimes(n: int, p: int)
    requires 0 <= n && 1 <= p
    ensures n / 10 / p == n / (10 * p)
  {
    var q, r := n / 10 / p, n / 10 % p;
    assert n == 10 * (q * p + r) + n % 10;
    assert 10 * (q * p + r) + n % 10 == q * (10 * p) + (10 * r + n % 10);
    Quotient(q, 10 * r + n % 10, 10 * p);
  }

  lemma {:induction false} Quotient(q: int, r: int, d: int)
    requires 0 <= r < d
    ensures (q * d + r) / d == q
  {
    var n := q * d + r;
    assert n == (n / d) * d + n % d;
    OneQuotient(q, r, n / d, n % d, d);
  }

  lemma {:induction false} OneQuotient(q: int, r: int, e: int, m: int, d: int)
    requires 0 <= r < d && 0 <= m < d && q * d + r == e * d + m
    ensures q == e
  {
    assert (q - e) * d == q * d - e * d;
    Apart(q - e, d);
  }

  lemma {:induction false} Apart(k: int, d: int)
    requires 0 < d
    ensures k >= 1 ==> k * d >= d
    ensures k <= -1 ==> k * d <= -d
  {
  }

  // ----- Reading -----

  /** A number of exactly w digits, and what follows it. */
  function ReadNumber(s: string, w: nat): (r: Option<(int, string)>)
    ensures r.Some? ==> 0 <= r.value.0
  {
    if |s| >= w && AllDigits(s[..w]) then Some((Value(s[..w]), s[w..])) else None
  }

  lemma {:induction false} ReadsSpelled(n: int, w: nat, rest: string)
    requires 0 <= n < Pow10(w)
    ensures ReadNumber(Spelled(n, w) + rest, w) == Some((n, rest))
  {
    ValueOfSpelled(n, w);
    assert (Spelled(n, w) + rest)[..w] == Spelled(n, w);
  }

  lemma {:induction false} ReadIsSpelled(s: string, w: nat)
    requires ReadNumber(s, w).Some?
    ensures var r := ReadNumber(s, w).value; 0 <= r.0 < Pow10(w) && s == Spelled(r.0, w) + r.1
  {
    SpelledValue(s[..w]);
  }

  /** The longest run of digits at the front. */
  function DigitRun(s: string): (n: nat)
    ensures n <= |s| && AllDigits(s[..n])
    ensures n < |s| ==> !IsDigit(s[n])
  {
    if s == "" || !IsDigit(s[0]) then 0
    else
      var n := DigitRun(s[1..]) + 1;
      assert forall i :: 1 <= i < n ==> s[i] == s[1..][..n - 1][i - 1];
      n
  }

  lemma {:induction false} RunOf(digits: string, rest: string)
    requires AllDigits(digits) && (rest != "" ==> !IsDigit(rest[0]))
    ensures DigitRun(digits + rest) == |digits|
  {
    var s := digits + rest;
    var n := DigitRun(s);
    assert forall i :: 0 <= i < |digits| ==> s[i] == digits[i];
    assert rest != "" ==> s[|digits|] == rest[0];
    assert forall i :: 0 <= i < n ==> IsDigit(s[i]) by {
      assert forall i :: 0 <= i < n ==> s[i] == s[..n][i];
    }
  }
}
