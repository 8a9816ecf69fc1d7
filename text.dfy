/**
 * Decimal digit strings: the numerals that `float(...)`, `int(...)`,
 * `strptime` and `strftime` read and write in the services.
 */
module Text {
  import opened Common

  predicate IsDigit(c: char) {
    '0' <= c <= '9'
  }

  predicate AllDigits(s: string) {
    forall i :: 0 <= i < |s| ==> IsDigit(s[i])
  }

  function DigitValue(c: char): nat
    requires IsDigit(c)
  {
    (c as int) - ('0' as int)
  }

  function DigitChar(d: nat): (c: char)
    requires d < 10
    ensures IsDigit(c) && DigitValue(c) == d
  {
    (('0' as int) + d) as char
  }

  function Pow10(n: nat): (p: nat)
    ensures p >= 1
  {
    if n == 0 then 1 else 10 * Pow10(n - 1)
  }

  /** The number a digit string denotes, most significant digit first. */
  function Value(s: string): nat
    requires AllDigits(s)
  {
    if s == [] then 0 else 10 * Value(s[..|s| - 1]) + DigitValue(s[|s| - 1])
  }

  /** `n` written with exactly `width` digits, zero-padded on the left (`%04d`). */
  function Pad(n: nat, width: nat): (r: string)
    ensures |r| == width && AllDigits(r)
  {
    if width == 0 then "" else Pad(n / 10, width - 1) + [DigitChar(n % 10)]
  }

  lemma {:induction false} ValueBound(s: string)
    requires AllDigits(s)
    ensures Value(s) < Pow10(|s|)
  {
    if s != [] {
      ValueBound(s[..|s| - 1]);
    }
  }

  /** Reading back a padded numeral gives the number, when it fits the width. */
  lemma {:induction false} ValuePad(n: nat, width: nat)
    requires n < Pow10(width)
    ensures Value(Pad(n, width)) == n
  {
    if width > 0 {
      var p, q, d := Pad(n, width), n / 10, n % 10;
      assert n == 10 * q + d && d < 10;
      assert q < Pow10(width - 1);
      assert p == Pad(q, width - 1) + [DigitChar(d)];
      assert p[..width - 1] == Pad(q, width - 1);
      ValuePad(q, width - 1);
      assert Value(p) == 10 * Value(p[..width - 1]) + DigitValue(p[width - 1]);
    }
  }

  /** Writing the number of a digit string at its own width gives the string back. */
  lemma {:induction false} PadValue(s: string)
    requires AllDigits(s)
    ensures Pad(Value(s), |s|) == s
  {
    if s != [] {
      var init := s[..|s| - 1];
      PadValue(init);
      var v := Value(s);
      assert v / 10 == Value(init) && v % 10 == DigitValue(s[|s| - 1]);
      assert s == init + [s[|s| - 1]];
    }
  }

  /** The shortest decimal numeral of `n` (no leading zeros, "0" for zero). */
  function Numeral(n: nat): (r: string)
    ensures r != [] && AllDigits(r)
  {
    if n < 10 then [DigitChar(n)] else Numeral(n / 10) + [DigitChar(n % 10)]
  }

  lemma {:induction false} ValueNumeral(n: nat)
    ensures Value(Numeral(n)) == n
  {
    if n >= 10 {
      var r := Numeral(n);
      assert r[..|r| - 1] == Numeral(n / 10);
      ValueNumeral(n / 10);
    }
  }

  /**
   * Python's `int(s)` on the numerals the model admits: an optional sign
   * followed by at least one digit. Anything else raises `ValueError`.
   */
  function ParseInt(s: string): (r: Option<int>)
    ensures r.Some? ==> s != []
  {
    if s != [] && (s[0] == '-' || s[0] == '+') then
      var body := s[1..];
      if body != [] && AllDigits(body) then
        var v: int := Value(body);
        Some(if s[0] == '-' then -v else v)
      else None
    else if s != [] && AllDigits(s) then Some(Value(s))
    else None
  }

  /** `str(n)`: the canonical numeral of an integer. */
  function IntText(n: int): string {
    if n < 0 then "-" + Numeral(-n) else Numeral(n)
  }

  lemma ParseIntText(n: int)
    ensures ParseInt(IntText(n)) == Some(n)
  {
    if n < 0 {
      ValueNumeral(-n);
      assert IntText(n)[1..] == Numeral(-n);
    } else {
      ValueNumeral(n);
    }
  }

  /** The position of the first `c` in `s`, or `|s|` when there is none. */
  function Find(s: string, c: char): (k: nat)
    ensures k <= |s|
    ensures k < |s| ==> s[k] == c
    ensures forall i :: 0 <= i < k ==> s[i] != c
  {
    if s == [] then 0 else if s[0] == c then 0 else 1 + Find(s[1..], c)
  }

  /**
   * An unsigned decimal amount in cents: digits, then optionally a point
   * and at most two fractional digits; at least one digit overall.
   */
  function UnsignedCents(s: string): Option<nat> {
    var k := Find(s, '.');
    var whole, frac := s[..k], if k < |s| then s[k + 1..] else [];
    if AllDigits(whole) && AllDigits(frac) && |frac| <= 2 && |whole| + |frac| > 0 then
      Some(100 * Value(whole) + (if |frac| == 0 then 0 else if |frac| == 1 then 10 * Value(frac) else Value(frac)))
    else None
  }

  /**
   * `float(amount)` as stored in a DECIMAL(12,2) column, in cents: an
   * optional sign before an unsigned amount. `None` is the `ValueError`.
   */
  function ParseAmount(s: string): (r: Option<int>)
    ensures r.Some? ==> s != []
  {
    if s != [] && (s[0] == '-' || s[0] == '+') then
      match UnsignedCents(s[1..])
      case Some(c) => var v: int := c; Some(if s[0] == '-' then -v else v)
      case None => None
    else
      match UnsignedCents(s)
      case Some(c) => Some(c)
      case None => None
  }

  /** An unsigned amount in cents written with two decimal places ("12.05"). */
  function UnsignedText(m: nat): string {
    Numeral(m / 100) + "." + Pad(m % 100, 2)
  }

  /** An amount in cents written as a decimal with two places ("12.05", "-0.50"). */
  function AmountText(cents: int): string {
    if cents < 0 then "-" + UnsignedText(-cents) else UnsignedText(cents)
  }

  lemma UnsignedCentsText(m: nat)
    ensures var u := UnsignedText(m);
      u != [] && IsDigit(u[0]) && UnsignedCents(u) == Some(m)
  {
    var whole, frac := Numeral(m / 100), Pad(m % 100, 2);
    var s := whole + "." + frac;
    assert Find(s, '.') == |whole| by {
      assert forall i :: 0 <= i < |whole| ==> s[i] == whole[i] && s[i] != '.';
      assert s[|whole|] == '.';
    }
    assert s[..|whole|] == whole;
    assert s[|whole| + 1..] == frac;
    ValueNumeral(m / 100);
    ValuePad(m % 100, 2);
    assert s[0] == whole[0];
  }

  /** A sign in front of an unsigned amount negates it or leaves it. */
  lemma SignedCents(u: string, m: nat)
    requires u != [] && IsDigit(u[0]) && UnsignedCents(u) == Some(m)
    ensures ParseAmount(u) == Some(m)
    ensures ParseAmount("-" + u) == Some(-(m as int))
  {
    assert ("-" + u)[1..] == u;
  }

  /** Every amount the store can hold reads back from its decimal text. */
  lemma ParseAmountText(cents: int)
    ensures ParseAmount(AmountText(cents)) == Some(cents)
  {
    var m: nat := if cents < 0 then -cents else cents;
    var u := UnsignedText(m);
    assert AmountText(cents) == if cents < 0 then "-" + u else u;
    UnsignedCentsText(m);
    SignedCents(u, m);
  }

  /** `a` sorts no later than `b`, character by character (a prefix sorts first). */
  predicate LexLeq(a: string, b: string)
    decreases |a|
  {
    a == [] || (b != [] && (a[0] < b[0] || (a[0] == b[0] && LexLeq(a[1..], b[1..]))))
  }

  lemma {:induction false} LexLeqTotal(a: string, b: string)
    ensures LexLeq(a, b) || LexLeq(b, a)
    decreases |a|
  {
    if a != [] && b != [] && a[0] == b[0] {
      LexLeqTotal(a[1..], b[1..]);
    }
  }

  lemma {:induction false} LexLeqTransitive(a: string, b: string, c: string)
    requires LexLeq(a, b) && LexLeq(b, c)
    ensures LexLeq(a, c)
    decreases |a|
  {
    if a != [] && b != [] && c != [] && a[0] == b[0] && b[0] == c[0] {
      LexLeqTransitive(a[1..], b[1..], c[1..]);
    }
  }

  lemma {:induction false} LexLeqAntisymmetric(a: string, b: string)
    requires LexLeq(a, b) && LexLeq(b, a)
    ensures a == b
    decreases |a|
  {
    if a != [] {
      LexLeqAntisymmetric(a[1..], b[1..]);
      assert a == [a[0]] + a[1..] && b == [b[0]] + b[1..];
    }
  }
}
