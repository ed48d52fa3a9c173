/** Python's `float(...)` applied to a regex capture (webscraping.py:96 and :110).

    A capture of `[\d.]+` holds only digits and dots. On such strings `float` succeeds
    exactly when there is at most one dot and at least one digit ("12", "1.5", "5.",
    ".5"), and raises `ValueError` otherwise ("." or "1.2.3"). The number is kept
    exactly, as an integer mantissa and a decimal scale, instead of as a binary float. */
module Decimals {
  import opened Wrappers
  import opened Text

  /** The number `mantissa / 10^scale`. */
  datatype Decimal = Decimal(mantissa: nat, scale: nat)

  function Pow10(n: nat): (p: nat)
    ensures p >= 1
  {
    if n == 0 then 1 else 10 * Pow10(n - 1)
  }

  /** The exact value a `Decimal` stands for. */
  function ToReal(d: Decimal): (x: real) {
    d.mantissa as real / Pow10(d.scale) as real
  }

  predicate AllDigits(s: string) {
    forall k :: 0 <= k < |s| ==> IsDigit(s[k])
  }

  predicate HasDigit(s: string) {
    exists k :: 0 <= k < |s| && IsDigit(s[k])
  }

  function DigitValue(c: char): (v: nat)
    requires IsDigit(c)
    ensures v < 10
  {
    c as int - '0' as int
  }

  function DigitChar(v: nat): (c: char)
    requires v < 10
    ensures IsDigit(c) && DigitValue(c) == v
  {
    ('0' as int + v) as char
  }

  /** The value of a string of decimal digits, most significant first. */
  function DigitsToNat(s: string): (v: nat)
    requires AllDigits(s)
  {
    if s == [] then 0 else DigitsToNat(s[..|s| - 1]) * 10 + DigitValue(s[|s| - 1])
  }

  /** Number of dots in `s`. */
  function DotCount(s: string): (k: nat) {
    if s == [] then 0 else DotCount(s[..|s| - 1]) + (if s[|s| - 1] == '.' then 1 else 0)
  }

  /** `s` with its dots removed. */
  function Undotted(s: string): (r: string)
    ensures AllNum(s) ==> AllDigits(r)
  {
    if s == [] then []
    else
      var p := s[..|s| - 1];
      var c := s[|s| - 1];
      assert AllNum(s) ==> AllNum(p) by {
        assert forall k :: 0 <= k < |p| ==> p[k] == s[k];
      }
      Undotted(p) + (if c == '.' then [] else [c])
  }

  /** Number of characters after the first dot of `s` (zero when there is none). */
  function FractionLength(s: string): (k: nat) {
    if s == [] then 0
    else if DotCount(s[..|s| - 1]) >= 1 then FractionLength(s[..|s| - 1]) + 1
    else 0
  }

  /** The strings of digits and dots that `float` accepts. */
  predicate IsDecimalLiteral(s: string) {
    AllNum(s) && DotCount(s) <= 1 && HasDigit(s)
  }

  /** What a left-to-right reader of a decimal literal has seen so far. */
  datatype ScanState = ScanState(mantissa: nat, scale: nat, seenDot: bool, seenDigit: bool)

  /** The character-class facts about `s` in terms of `s` without its last character. */
  lemma SnocClasses(s: string)
    requires s != []
    ensures AllNum(s) <==> AllNum(s[..|s| - 1]) && IsNumChar(s[|s| - 1])
    ensures HasDigit(s) <==> HasDigit(s[..|s| - 1]) || IsDigit(s[|s| - 1])
  {
    var p := s[..|s| - 1];
    assert forall k :: 0 <= k < |p| ==> p[k] == s[k];
  }

  /** Reading one more digit. */
  lemma DigitStep(s: string)
    requires s != [] && AllNum(s[..|s| - 1]) && IsDigit(s[|s| - 1])
    ensures AllDigits(Undotted(s))
    ensures DigitsToNat(Undotted(s)) == DigitsToNat(Undotted(s[..|s| - 1])) * 10 + DigitValue(s[|s| - 1])
  {
    var p, c := s[..|s| - 1], s[|s| - 1];
    assert Undotted(s) == Undotted(p) + [c];
    DigitsSnoc(Undotted(p), c);
  }

  /** One more digit on the right. */
  lemma DigitsSnoc(s: string, c: char)
    requires AllDigits(s) && IsDigit(c)
    ensures AllDigits(s + [c])
    ensures DigitsToNat(s + [c]) == DigitsToNat(s) * 10 + DigitValue(c)
  {
    assert (s + [c])[..|s|] == s;
  }

  /** Read `s` one character at a time, rejecting any character other than a digit
      and any second dot. */
  function Scan(s: string): (r: Option<ScanState>)
    ensures r.Some? <==> AllNum(s) && DotCount(s) <= 1
    ensures r.Some? ==> r.value.seenDot == (DotCount(s) == 1)
    ensures r.Some? ==> r.value.seenDigit == HasDigit(s)
    ensures r.Some? ==> r.value.mantissa == DigitsToNat(Undotted(s))
    ensures r.Some? ==> r.value.scale == FractionLength(s)
  {
    if s == [] then Some(ScanState(0, 0, false, false))
    else
      var p := s[..|s| - 1];
      var c := s[|s| - 1];
      SnocClasses(s);
      match Scan(p)
      case None => None
      case Some(st) =>
        if IsDigit(c) then
          DigitStep(s);
          Some(ScanState(st.mantissa * 10 + DigitValue(c),
                         if st.seenDot then st.scale + 1 else st.scale,
                         st.seenDot, true))
        else if c == '.' && !st.seenDot then
          assert Undotted(s) == Undotted(p);
          Some(st.(seenDot := true))
        else
          None
  }

  /** `float(s)` for a string of digits and dots: `None` where Python raises. The
      value is the digits read as one integer, scaled by the digits after the dot. */
  function ParseDecimal(s: string): (r: Option<Decimal>)
    ensures r.Some? <==> IsDecimalLiteral(s)
    ensures r.Some? ==> r.value == Decimal(DigitsToNat(Undotted(s)), FractionLength(s))
  {
    match Scan(s)
    case Some(st) =>
      if st.seenDigit then Some(Decimal(st.mantissa, st.scale)) else None
    case None => None
  }

  /** Two fractions with positive denominators are equal exactly when their
      cross products are. */
  lemma RatioIff(m: nat, n: nat, p: nat, q: nat)
    requires p >= 1 && q >= 1
    ensures m as real / p as real == n as real / q as real <==> m * q == n * p
  {
    var a, b := m as real / p as real, n as real / q as real;
    assert a * p as real == m as real;
    assert b * q as real == n as real;
    assert (m * q) as real == m as real * q as real;
    assert (n * p) as real == n as real * p as real;
    if a == b {
      assert m as real * q as real == a * (p as real * q as real);
      assert n as real * p as real == b * (p as real * q as real);
    }
    if m * q == n * p {
      assert a * (p as real * q as real) == b * (p as real * q as real);
    }
  }

  /** The shortest decimal digit string of `n`. */
  function NatToDigits(n: nat): (r: string)
    ensures |r| >= 1 && AllDigits(r)
    ensures DigitsToNat(r) == n
  {
    if n < 10 then [DigitChar(n)]
    else
      var r := NatToDigits(n / 10) + [DigitChar(n % 10)];
      assert r[..|r| - 1] == NatToDigits(n / 10);
      r
  }

  function Zeros(k: nat): (r: string)
    ensures |r| == k && AllDigits(r)
  {
    seq(k, _ => '0')
  }

  /** The digits of `d.mantissa`, with leading zeros so that there is at least one
      digit before the last `d.scale` ones. */
  function Padded(d: Decimal): (r: string)
    ensures AllDigits(r) && |r| > d.scale
    ensures DigitsToNat(r) == d.mantissa
  {
    var digits := NatToDigits(d.mantissa);
    if |digits| <= d.scale then
      LeadingZeros(d.scale + 1 - |digits|, digits);
      Zeros(d.scale + 1 - |digits|) + digits
    else
      digits
  }

  /** A rendering of `d` as a decimal literal with exactly `d.scale` fraction
      digits: a right inverse of `ParseDecimal` (parsing a rendering gives `d`
      back; "7", "07" and "7." all parse to the same decimal, so there is no
      two-sided inverse). */
  function Render(d: Decimal): (lit: string) {
    var padded := Padded(d);
    if d.scale == 0 then padded
    else padded[..|padded| - d.scale] + "." + padded[|padded| - d.scale..]
  }

  lemma {:induction false} LeadingZeros(k: nat, s: string)
    requires AllDigits(s)
    ensures AllDigits(Zeros(k) + s)
    ensures DigitsToNat(Zeros(k) + s) == DigitsToNat(s)
  {
    var z := Zeros(k) + s;
    assert AllDigits(z) by {
      assert forall i :: 0 <= i < |z| ==> z[i] == if i < k then '0' else s[i - k];
    }
    if s == [] {
      assert z == Zeros(k);
      if k > 0 {
        assert z[..|z| - 1] == Zeros(k - 1) + [];
        LeadingZeros(k - 1, []);
      }
    } else {
      var p := s[..|s| - 1];
      assert z[..|z| - 1] == Zeros(k) + p;
      LeadingZeros(k, p);
    }
  }

  lemma {:induction false} DigitsNoDots(s: string)
    requires AllDigits(s)
    ensures DotCount(s) == 0
    ensures Undotted(s) == s
  {
    if s != [] {
      DigitsNoDots(s[..|s| - 1]);
    }
  }

  lemma {:induction false} DotCountAppend(a: string, b: string)
    ensures DotCount(a + b) == DotCount(a) + DotCount(b)
    ensures Undotted(a + b) == Undotted(a) + Undotted(b)
  {
    if b != [] {
      assert (a + b)[..|a + b| - 1] == a + b[..|b| - 1];
      DotCountAppend(a, b[..|b| - 1]);
    } else {
      assert a + b == a;
    }
  }

  /** Both parts of a digit string are digit strings. */
  lemma DigitsSplit(s: string, i: nat)
    requires AllDigits(s) && i <= |s|
    ensures AllDigits(s[..i]) && AllDigits(s[i..])
    ensures s[..i] + s[i..] == s
  {
    assert forall k :: 0 <= k < i ==> s[..i][k] == s[k];
    assert forall k :: 0 <= k < |s| - i ==> s[i..][k] == s[i + k];
  }

  lemma {:induction false} FractionAfterDot(a: string, b: string)
    requires DotCount(a) == 0 && AllDigits(b)
    ensures FractionLength(a + "." + b) == |b|
  {
    var s := a + "." + b;
    if b == [] {
      assert s[..|s| - 1] == a;
    } else {
      var p := b[..|b| - 1];
      DigitsSplit(b, |b| - 1);
      assert s[..|s| - 1] == a + "." + p;
      DotCountAppend(a + ".", p);
      DotCountAppend(a, ".");
      assert DotCount(a + "." + p) >= 1;
      FractionAfterDot(a, p);
    }
  }

  /** Digits, a dot, then digits: a literal `float` accepts, read as the digits
      together with the second part as fraction. */
  lemma DottedLiteral(a: string, b: string)
    requires AllDigits(a) && AllDigits(b) && |a| >= 1
    ensures IsDecimalLiteral(a + "." + b)
    ensures Undotted(a + "." + b) == a + b
    ensures FractionLength(a + "." + b) == |b|
  {
    var ad := a + ".";
    var s := ad + b;
    DigitsNoDots(a);
    DigitsNoDots(b);
    DotCountAppend(a, ".");
    DotCountAppend(ad, b);
    assert DotCount(s) == 1;
    assert Undotted(".") == [] by {
      assert "."[..0] == [];
    }
    assert Undotted(ad) == a;
    FractionAfterDot(a, b);
    assert HasDigit(s) by {
      assert IsDigit(s[0]);
    }
    AllNumAppend(a, ".");
    AllNumAppend(ad, b);
  }

  lemma AllNumAppend(x: string, y: string)
    requires AllNum(x) && AllNum(y)
    ensures AllNum(x + y)
  {
  }

  /** `float` of "digits.digits" is the digits read together, scaled by the second part. */
  lemma ParseDotted(a: string, b: string, d: Decimal)
    requires AllDigits(a) && AllDigits(b) && |a| >= 1
    requires d == Decimal(DigitsToNat(a + b), |b|)
    ensures ParseDecimal(a + "." + b) == Some(d)
  {
    DottedLiteral(a, b);
  }

  /** Reading back a rendered decimal gives the same mantissa and scale. */
  lemma RenderRoundTrip(d: Decimal)
    ensures ParseDecimal(Render(d)) == Some(d)
  {
    var padded := Padded(d);
    if d.scale == 0 {
      assert Render(d) == padded;
      WholeRoundTrip(padded);
    } else {
      var i := |padded| - d.scale;
      DigitsSplit(padded, i);
      var a, b := padded[..i], padded[i..];
      assert Render(d) == a + "." + b;
      ParseDotted(a, b, d);
    }
  }

  lemma WholeRoundTrip(s: string)
    requires AllDigits(s) && |s| >= 1
    ensures ParseDecimal(s) == Some(Decimal(DigitsToNat(s), 0))
  {
    DigitsNoDots(s);
    assert IsDigit(s[0]);
    assert FractionLength(s) == 0;
  }
}
