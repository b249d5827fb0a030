// Which texts are numbers, and of what value: sign, integer part, fraction and exponent, by where they stand.
module JsonNumbers {
  import opened Wrappers
  import opened JsonText
  import opened JsonGrammar
  import opened JsonPrint
  import opened JsonRoundTrip

  // ---------- powers of ten and decimal digits ----------

  lemma Pow10Next(e: int)
    ensures Pow10(e + 1) == 10.0 * Pow10(e)
  {
  }

  lemma {:induction false} Pow10Adds(i: int, j: int)
    ensures Pow10(i + j) == Pow10(i) * Pow10(j)
    decreases if j < 0 then -j else j
  {
    Pow10OfZero();
    hide Pow10;
    if j > 0 {
      Pow10Adds(i, j - 1);
      Pow10Next(i + j - 1);
      Pow10Next(j - 1);
      TenTimes(Pow10(i), Pow10(j - 1));
    } else if j < 0 {
      Pow10Adds(i, j + 1);
      Pow10Next(i + j);
      Pow10Next(j);
      TenTimes(Pow10(i), Pow10(j));
    }
  }

  lemma Pow10OfZero()
    ensures Pow10(0) == 1.0
  {
  }

  lemma TenTimes(x: real, y: real)
    ensures x * (10.0 * y) == 10.0 * (x * y)
  {
  }

  lemma {:induction false} Pow10OfNat(k: nat)
    ensures Pow10(k) == TenTo(k) as real && TenTo(k) > 0
  {
    if k > 0 {
      Pow10OfNat(k - 1);
    }
  }

  // A digit is what is printed for a number below ten.
  lemma DigitExact(c: Byte)
    ensures IsDigit(c) <==> exists n :: 0 <= n < 10 && Digits(n) == [c]
  {
    if IsDigit(c) {
      assert Digits(c - 48) == [c];
    }
  }

  // Reading on from an accumulated value.
  lemma {:induction false} DecimalJoins(text: seq<Char>, from: nat, end: nat, acc: nat)
    requires from <= end <= |text| && forall k :: from <= k < end ==> IsDigit(text[k])
    ensures Decimal(text, from, end, acc) == acc * TenTo(end - from) + Decimal(text, from, end, 0)
    decreases end - from
  {
    if from < end {
      DecimalJoins(text, from, end - 1, acc);
      assert acc * TenTo(end - from) == acc * TenTo(end - 1 - from) * 10;
    }
  }

  lemma {:induction false} DecimalSplits(text: seq<Char>, from: nat, mid: nat, end: nat)
    requires from <= mid <= end <= |text| && forall k :: from <= k < end ==> IsDigit(text[k])
    ensures Decimal(text, from, end, 0) == Decimal(text, mid, end, Decimal(text, from, mid, 0))
    decreases end - mid
  {
    if mid < end {
      DecimalSplits(text, from, mid, end - 1);
    }
  }

  // ---------- the parts of a number ----------

  // All the digits from a on.
  ghost predicate Run(text: seq<Char>, a: nat, b: nat) {
    a <= b <= |text| && (forall k :: a <= k < b ==> IsDigit(text[k])) && !IsDigit(At(text, b))
  }

  // All of them, unless they begin with a zero and no other digit than zero follows it; then that zero alone.
  ghost predicate IntegerPart(text: seq<Char>, a: nat, b: nat)
    requires a <= |text|
  {
    if At(text, a) == ZERO && (At(text, a + 1) == ZERO || !IsDigit(At(text, a + 1))) then b == a + 1 else Run(text, a, b)
  }

  // A point, if a digit follows it, and the digits after it.
  ghost predicate FractionPart(text: seq<Char>, b: nat, f: nat)
    requires b <= |text|
  {
    if At(text, b) == POINT && IsDigit(At(text, b + 1)) then b + 1 < f && Run(text, b + 1, f) else f == b
  }

  // An e, a sign or none, and the digits after it, if any; their value is x.
  ghost predicate ExponentPart(text: seq<Char>, f: nat, next: nat, x: int)
    requires f <= |text|
  {
    if At(text, f) in {LETTER_E, CAPITAL_E} then
      var q := if At(text, f + 1) in {PLUS, MINUS} then f + 2 else f + 1;
      && Run(text, q, next)
      && x == (if At(text, f + 1) == MINUS then -1 else 1) * Decimal(text, q, next, 0)
    else next == f && x == 0
  }

  // The integer part is text[a..b], the fraction text[b..f], the exponent text[f..next].
  ghost predicate NumberParts(text: seq<Char>, p: nat, a: nat, b: nat, f: nat, next: nat, x: int) {
    && p <= |text| && a == (if At(text, p) == MINUS then p + 1 else p)
    && IntegerPart(text, a, b) && b <= |text|
    && FractionPart(text, b, f) && f <= |text|
    && ExponentPart(text, f, next, x)
  }

  function FractionDigits(b: nat, f: nat): nat {
    if b < f then f - b - 1 else 0
  }

  ghost predicate AllRun(text: seq<Char>, a: nat, b: nat, f: nat) {
    && a <= b <= f <= |text| && (forall k :: a <= k < b ==> IsDigit(text[k]))
    && forall k :: b < k < f ==> IsDigit(text[k])
  }

  lemma PartsAreDigits(text: seq<Char>, p: nat, a: nat, b: nat, f: nat, next: nat, x: int)
    requires NumberParts(text, p, a, b, f, next, x)
    ensures AllRun(text, a, b, f)
  {
  }

  // The number without its point: the digits of the integer part, then those of the fraction.
  ghost function Unpointed(text: seq<Char>, a: nat, b: nat, f: nat): nat
    requires AllRun(text, a, b, f)
  {
    Decimal(text, a, b, 0) * TenTo(FractionDigits(b, f)) + (if b < f then Decimal(text, b + 1, f, 0) else 0)
  }

  ghost function Signed(text: seq<Char>, p: nat, a: nat, b: nat, f: nat): real
    requires p <= |text| && AllRun(text, a, b, f)
  {
    (if At(text, p) == MINUS then -1.0 else 1.0) * Unpointed(text, a, b, f) as real
  }

  // d is (digits of the integer part . digits of the fraction) times ten to the x, with the sign.
  ghost predicate NumberText(text: seq<Char>, p: nat, next: nat, d: real) {
    exists a, b, f, x ::
      && NumberParts(text, p, a, b, f, next, x) && AllRun(text, a, b, f)
      && d * Pow10(FractionDigits(b, f)) == Signed(text, p, a, b, f) * Pow10(x)
  }

  // ---------- the parser reads exactly those ----------

  lemma RunExact(text: seq<Char>, a: nat, b: nat)
    requires a <= |text|
    ensures Run(text, a, b) <==> b == DigitsEnd(text, a)
  {
    if Run(text, a, b) {
      DigitsEndIs(text, a, b);
    }
  }

  lemma IntegerExact(text: seq<Char>, a: nat, b: nat)
    requires a <= |text|
    ensures var p1 := if At(text, a) == ZERO then a + 1 else a;
            IntegerPart(text, a, b) <==>
            b == if IsDigit(At(text, p1)) && At(text, p1) != ZERO then DigitsEnd(text, p1) else p1
  {
    RunExact(text, a, b);
    if At(text, a) == ZERO {
      RunExact(text, a + 1, b);
    }
  }

  lemma FractionExact(text: seq<Char>, b: nat, f: nat)
    requires b <= |text|
    ensures FractionPart(text, b, f) <==>
            f == if At(text, b) == POINT && IsDigit(At(text, b + 1)) then DigitsEnd(text, b + 1) else b
  {
    if At(text, b) == POINT && IsDigit(At(text, b + 1)) {
      RunExact(text, b + 1, f);
    }
  }

  lemma ExponentExact(text: seq<Char>, f: nat, next: nat, x: int)
    requires f <= |text|
    ensures ExponentPart(text, f, next, x) <==> Exponent(text, f) == (next, x)
  {
    if At(text, f) in {LETTER_E, CAPITAL_E} {
      var q := if At(text, f + 1) in {PLUS, MINUS} then f + 2 else f + 1;
      RunExact(text, q, next);
    }
  }

  // What the mantissa is, in terms of the parts.
  lemma MantissaIs(text: seq<Char>, a: nat, b: nat, f: nat)
    requires a <= |text| && IntegerPart(text, a, b) && b <= |text| && FractionPart(text, b, f) && AllRun(text, a, b, f)
    ensures Mantissa(text, a) == (f, Unpointed(text, a, b, f), FractionDigits(b, f))
  {
    hide TenTo, Decimal, DigitsEnd, IntegerPart, FractionPart;
    IntegerExact(text, a, b);
    FractionExact(text, b, f);
    LeadingZero(text, a, b);
    if b < f {
      DecimalJoins(text, b + 1, f, Decimal(text, a, b, 0));
    } else {
      TenToZero();
    }
  }

  lemma TenToZero()
    ensures TenTo(0) == 1
  {
  }

  lemma LeadingZero(text: seq<Char>, a: nat, b: nat)
    requires a <= b <= |text| && forall k :: a <= k < b ==> IsDigit(text[k])
    ensures a < b && text[a] == ZERO ==> Decimal(text, a + 1, b, 0) == Decimal(text, a, b, 0)
  {
    if a < b && text[a] == ZERO {
      assert Decimal(text, a, a, 0) == 0;
      DecimalSplits(text, a, a + 1, b);
    }
  }

  lemma PartsExist(text: seq<Char>, p: nat) returns (a: nat, b: nat, f: nat, next: nat, x: int)
    requires p <= |text|
    ensures NumberParts(text, p, a, b, f, next, x) && AllRun(text, a, b, f)
  {
    a := if At(text, p) == MINUS then p + 1 else p;
    var p1 := if At(text, a) == ZERO then a + 1 else a;
    b := if IsDigit(At(text, p1)) && At(text, p1) != ZERO then DigitsEnd(text, p1) else p1;
    IntegerExact(text, a, b);
    f := if At(text, b) == POINT && IsDigit(At(text, b + 1)) then DigitsEnd(text, b + 1) else b;
    FractionExact(text, b, f);
    next, x := Exponent(text, f).0, Exponent(text, f).1;
    ExponentExact(text, f, next, x);
    PartsAreDigits(text, p, a, b, f, next, x);
  }

  lemma NumberOf(text: seq<Char>, p: nat, a: nat, b: nat, f: nat, next: nat, x: int)
    requires NumberParts(text, p, a, b, f, next, x) && AllRun(text, a, b, f)
    ensures NumberAt(text, p).0 == next && NumberAt(text, p).1 == Signed(text, p, a, b, f) * Pow10(x - FractionDigits(b, f))
  {
    hide Mantissa, Exponent, Pow10, Unpointed, IntegerPart, FractionPart, ExponentPart;
    MantissaIs(text, a, b, f);
    ExponentExact(text, f, next, x);
    assert Mantissa(text, a) == (f, Unpointed(text, a, b, f), FractionDigits(b, f));
    assert NumberAt(text, p).0 == next;
    assert NumberAt(text, p).1 == Scaled(if At(text, p) == MINUS then -1.0 else 1.0, Unpointed(text, a, b, f), x - FractionDigits(b, f));
  }

  lemma Rescaled(d: real, v: real, k: nat, x: int)
    ensures d == v * Pow10(x - k) <==> d * Pow10(k) == v * Pow10(x)
  {
    hide Pow10;
    Pow10Adds(x - k, k);
    Pow10OfNat(k);
    TimesBack(d, v, Pow10(x - k), Pow10(k));
  }

  lemma TimesBack(d: real, v: real, y: real, t: real)
    requires t > 0.0
    ensures d == v * y <==> d * t == v * (y * t)
  {
    assert d == d * t / t;
    assert v * y == v * (y * t) / t;
  }

  lemma PairIs(r: (nat, real), next: nat, d: real)
    ensures r == (next, d) <==> r.0 == next && r.1 == d
  {
  }

  // parseNumber reads exactly the numbers, and stops at their end.
  lemma NumberExact(text: seq<Char>, p: nat, next: nat, d: real)
    requires p <= |text|
    ensures NumberAt(text, p) == (next, d) <==> NumberText(text, p, next, d)
  {
    hide NumberAt, NumberParts, AllRun, Pow10, Signed;
    PairIs(NumberAt(text, p), next, d);
    if NumberAt(text, p) == (next, d) {
      var a, b, f, n, x := PartsExist(text, p);
      NumberOf(text, p, a, b, f, n, x);
      Rescaled(d, Signed(text, p, a, b, f), FractionDigits(b, f), x);
    }
    forall a, b, f, x | NumberParts(text, p, a, b, f, next, x) && AllRun(text, a, b, f)
      && d * Pow10(FractionDigits(b, f)) == Signed(text, p, a, b, f) * Pow10(x)
      ensures NumberAt(text, p) == (next, d)
    {
      NumberOf(text, p, a, b, f, next, x);
      Rescaled(d, Signed(text, p, a, b, f), FractionDigits(b, f), x);
    }
  }
}
