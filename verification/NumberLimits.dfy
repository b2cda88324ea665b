// Whatever text is entered in a number box: the value it keeps, and when the limits
// are kept with it.

module NumberLimits {
  import opened Common
  import opened Text
  import opened NumberText
  import opened NumberBox
  import opened NumberRoundTrip

  // A number rounded to p decimals; one that is 0 has no sign.
  function RoundedAt(d: Dec, p: nat): Dec {
    Dec(d.neg && d.mant > 0, Fixed(d, p), p)
  }

  function TextOf(d: Dec): string {
    FixedText(d.neg, d.mant, d.scale)
  }

  // The number read from a text, if it has one.
  function Entered(o: Options, s: string): Option<Dec> {
    ParseFloat(if Numeric(s) then s else Cleaned(o, s))
  }

  lemma {:induction false} PowersAdd(m: nat, n: nat)
    ensures Pow10(m + n) == Pow10(m) * Pow10(n)
  {
    if m > 0 {
      PowersAdd(m - 1, n);
      assert Pow10(m + n) == 10 * (Pow10(m - 1) * Pow10(n));
    }
  }

  lemma Scaled(a: int, b: int, c: int, k: nat)
    requires k > 0
    ensures a <= b < c ==> a * k <= b * k < c * k
  {
  }

  // The rounded number is the nearest one of p decimals, the larger one of two.
  lemma RoundedAtNearest(d: Dec, p: nat)
    ensures var r, unit, scale := RoundedAt(d, p).mant, Pow10(p), Pow10(d.scale);
      2 * scale * r - scale <= 2 * d.mant * unit < 2 * scale * r + scale
  {
    hide Pow10, Rounded;
    var r, unit, scale := RoundedAt(d, p).mant, Pow10(p), Pow10(d.scale);
    if d.scale <= p {
      var k := Pow10(p - d.scale);
      PowersAdd(p - d.scale, d.scale);
      Exact(d.mant, k, r, unit, scale);
    } else {
      var k := Pow10(d.scale - p);
      PowersAdd(d.scale - p, p);
      RoundedNearest(d.mant, d.scale - p);
      Coarser(d.mant, k, r, unit, scale);
    }
  }

  lemma Coarser(mant: nat, k: nat, r: nat, unit: nat, scale: nat)
    requires scale == k * unit && unit > 0 && 2 * k * r - k <= 2 * mant < 2 * k * r + k
    ensures 2 * scale * r - scale <= 2 * mant * unit < 2 * scale * r + scale
  {
    Scaled(2 * k * r - k, 2 * mant, 2 * k * r + k, unit);
    Spread(k, r, unit, mant, scale);
  }

  lemma Exact(mant: nat, k: nat, r: nat, unit: nat, scale: nat)
    requires unit == k * scale && r == mant * k && scale > 0
    ensures 2 * scale * r - scale <= 2 * mant * unit < 2 * scale * r + scale
  {
    assert mant * (k * scale) == scale * (mant * k);
  }

  lemma Spread(k: nat, r: nat, unit: nat, mant: nat, scale: nat)
    requires scale == k * unit
    ensures (2 * k * r - k) * unit == 2 * scale * r - scale
    ensures (2 * k * r + k) * unit == 2 * scale * r + scale
    ensures (2 * mant) * unit == 2 * mant * unit
  {
    assert 2 * k * r * unit == 2 * (k * unit) * r;
  }

  // A text without a number gives the empty value. A number is rounded; one that is
  // then below min gives min, one above max gives max, each as it is printed, and any
  // other its own text.
  lemma ValueKept(o: Options, s: string)
    requires o.precision <= o.maxDigits
    ensures Parse(o, s).Some?
    ensures Entered(o, s) == None ==> Parse(o, s) == Some("")
    ensures Entered(o, s).Some? ==>
      var v := RoundedAt(Entered(o, s).value, o.precision);
      && (o.min.Some? && Less(v, o.min.value) ==> Parse(o, s) == Some(TextOf(RoundedAt(o.min.value, o.precision))))
      && (o.max.Some? && Less(o.max.value, v) && !(o.min.Some? && Less(v, o.min.value)) ==>
            Parse(o, s) == Some(TextOf(RoundedAt(o.max.value, o.precision))))
      && (Within(o, v) ==> Parse(o, s) == Some(TextOf(v)))
  {
    hide ParseFloat, Numeric, Cleaned, FixedText, Fixed, Less;
  }

  // The value is empty or lies within the limits.
  ghost predicate Inside(o: Options, v: string) {
    v == "" || (ParseFloat(v).Some? && Within(o, ParseFloat(v).value))
  }

  ghost predicate Keeps(o: Options, s: string) {
    Parse(o, s).Some? && Inside(o, Parse(o, s).value)
  }

  // The limits, as they are printed, lie within the limits.
  ghost predicate LimitsFit(o: Options) {
    && (o.min.Some? ==> Within(o, RoundedAt(o.min.value, o.precision)))
    && (o.max.Some? ==> Within(o, RoundedAt(o.max.value, o.precision)))
  }

  lemma TextWithin(o: Options, d: Dec)
    ensures Inside(o, TextOf(d)) <==> Within(o, d)
  {
    hide FixedText, ParseFloat, Within;
    ReadFixed(d.neg, d.mant, d.scale);
    NotEmpty(d);
  }

  lemma NotEmpty(d: Dec)
    ensures TextOf(d) != ""
  {
    hide Padded;
    assert |Padded(d.mant, d.scale)| > d.scale;
  }

  // A printed number is read at face value.
  lemma NumericFixed(neg: bool, n: nat, p: nat)
    ensures Numeric(FixedText(neg, n, p))
  {
    hide ReadUnsigned, Trim, Padded;
    var s, b, m := FixedText(neg, n, p), Body(n, p), Padded(n, p);
    ReadBody(n, p);
    assert s == (if neg then "-" else "") + b;
    assert b[0] == m[0];
    assert NoSpaces(s);
    TrimNone(s);
    assert Unsign(s) == b;
    assert m[..|m| - p] != [];
  }

  lemma EnteredFixed(o: Options, neg: bool, n: nat)
    requires n > 0
    ensures var s := FixedText(neg, n, o.precision);
      Entered(o, s).Some? && RoundedAt(Entered(o, s).value, o.precision) == Dec(neg, n, o.precision)
  {
    hide FixedText, Numeric, ParseFloat, Pow10;
    NumericFixed(neg, n, o.precision);
    ReadFixed(neg, n, o.precision);
    FixedIs(Dec(neg, n, o.precision), o.precision);
  }

  lemma Product(a: nat, b: nat)
    requires a > 0 && b > 0
    ensures a * b >= a && a * b > 0
  {
  }

  // A number of p decimals beyond any limit, on either side.
  lemma Beyond(d: Dec, k: nat, p: nat)
    requires k > d.mant
    ensures k * Pow10(p) > 0
    ensures Less(Dec(true, k * Pow10(p), p), d) && Less(d, Dec(false, k * Pow10(p), p))
    ensures !Less(Dec(false, k * Pow10(p), p), d)
  {
    hide Pow10;
    Product(k, Pow10(p));
    Farther(Signed(d), d.mant, k, Pow10(p), Pow10(d.scale));
  }

  lemma Farther(a: int, mant: nat, k: nat, unit: nat, scale: nat)
    requires 0 - mant <= a <= mant < k && unit > 0 && scale > 0
    ensures (-(k * unit)) * scale < a * unit < k * unit * scale
  {
    Product(k, unit);
    Product(k * unit, scale);
    Scaled(0 - mant, a, k, unit);
    Scaled(a, mant, k, unit);
    assert (-(k * unit)) * scale == -(k * unit * scale);
    assert (0 - mant) * unit == 0 - mant * unit;
  }

  // Whatever is entered, the value kept lies within the limits, exactly when the
  // limits lie within the limits as they are printed.
  lemma LimitsKept(o: Options)
    requires o.precision <= o.maxDigits
    ensures (forall s :: Keeps(o, s)) <==> LimitsFit(o)
  {
    if LimitsFit(o) {
      forall s
        ensures Keeps(o, s)
      {
        KeptIfFit(o, s);
      }
    } else if o.min.Some? && !Within(o, RoundedAt(o.min.value, o.precision)) {
      var s := MinFails(o);
    } else {
      var s := MaxFails(o);
    }
  }

  lemma KeptIfFit(o: Options, s: string)
    requires o.precision <= o.maxDigits && LimitsFit(o)
    ensures Keeps(o, s)
  {
    hide Parse, Entered, Inside, FixedText, Fixed, Less, TextOf, RoundedAt;
    ValueKept(o, s);
    if Entered(o, s).Some? {
      TextWithin(o, RoundedAt(Entered(o, s).value, o.precision));
      if o.min.Some? {
        TextWithin(o, RoundedAt(o.min.value, o.precision));
      }
      if o.max.Some? {
        TextWithin(o, RoundedAt(o.max.value, o.precision));
      }
    } else {
      NothingInside(o);
    }
  }

  lemma NothingInside(o: Options)
    ensures Inside(o, "")
  {
  }

  lemma MinFails(o: Options) returns (s: string)
    requires o.precision <= o.maxDigits && o.min.Some? && !Within(o, RoundedAt(o.min.value, o.precision))
    ensures !Keeps(o, s)
  {
    hide Parse, Entered, Inside, FixedText, Less, TextOf, RoundedAt, Within;
    var p, k := o.precision, o.min.value.mant + 1;
    Beyond(o.min.value, k, p);
    s := FixedText(true, k * Pow10(p), p);
    EnteredFixed(o, true, k * Pow10(p));
    ValueKept(o, s);
    TextWithin(o, RoundedAt(o.min.value, p));
  }

  lemma MaxFails(o: Options) returns (s: string)
    requires o.precision <= o.maxDigits && o.max.Some? && !Within(o, RoundedAt(o.max.value, o.precision))
    ensures !Keeps(o, s)
  {
    hide Parse, Entered, Inside, FixedText, Less, TextOf, RoundedAt, Within;
    var p, k := o.precision, o.max.value.mant + (if o.min.Some? then o.min.value.mant else 0) + 1;
    Beyond(o.max.value, k, p);
    if o.min.Some? {
      Beyond(o.min.value, k, p);
    }
    s := FixedText(false, k * Pow10(p), p);
    EnteredFixed(o, false, k * Pow10(p));
    ValueKept(o, s);
    TextWithin(o, RoundedAt(o.max.value, p));
  }

  // ---------------------------------------------------------------- which limits fit

  // d written with p decimals is the same number.
  lemma Rescaled(d: Dec, p: nat, q: nat)
    requires d.scale <= p && q == Pow10(p - d.scale)
    ensures Signed(RoundedAt(d, p)) == Signed(d) * q && Pow10(p) == q * Pow10(d.scale)
  {
    PowersAdd(p - d.scale, d.scale);
    assert Fixed(d, p) == d.mant * q;
  }

  lemma Reordered(a: int, q: int, s: int)
    ensures (a * q) * s == a * (q * s) && a * (q * s) == (a * s) * q
  {
  }

  lemma SameOrder(d: Dec, e: Dec, p: nat)
    requires d.scale <= p
    ensures Less(RoundedAt(d, p), e) <==> Less(d, e)
    ensures Less(e, RoundedAt(d, p)) <==> Less(e, d)
  {
    hide RoundedAt, Signed, Pow10;
    var q := Pow10(p - d.scale);
    Rescaled(d, p, q);
    Reordered(Signed(d), q, Pow10(e.scale));
    Reordered(Signed(e), q, Pow10(d.scale));
    var x, y := Signed(d) * Pow10(e.scale), Signed(e) * Pow10(d.scale);
    assert Signed(RoundedAt(d, p)) * Pow10(e.scale) == x * q;
    assert RoundedAt(d, p).scale == p by {
      ScaleIs(d, p);
    }
    assert Signed(e) * Pow10(p) == y * q;
    Scaling(x, y, q);
  }

  lemma ScaleIs(d: Dec, p: nat)
    ensures RoundedAt(d, p).scale == p
  {
  }

  lemma Scaling(x: int, y: int, q: int)
    requires q > 0
    ensures x * q < y * q <==> x < y
    ensures y * q < x * q <==> y < x
  {
  }

  // Limits in order that have no more decimals than the box do.
  lemma ExactLimitsFit(o: Options)
    requires o.min.Some? ==> o.min.value.scale <= o.precision
    requires o.max.Some? ==> o.max.value.scale <= o.precision
    requires o.min.Some? && o.max.Some? ==> !Less(o.max.value, o.min.value)
    ensures LimitsFit(o)
  {
    hide RoundedAt;
    if o.min.Some? {
      SameOrder(o.min.value, o.min.value, o.precision);
      if o.max.Some? {
        SameOrder(o.min.value, o.max.value, o.precision);
        SameOrder(o.max.value, o.min.value, o.precision);
      }
    }
    if o.max.Some? {
      SameOrder(o.max.value, o.max.value, o.precision);
    }
  }

  // A limit of 0.5 does not fit a box without decimals: it is printed as 1.
  lemma HalfLimit(o: Options)
    requires o.precision == 0 && o.max == Some(Dec(false, 5, 1))
    ensures !LimitsFit(o) && TextOf(RoundedAt(o.max.value, 0)) == TextOf(Dec(false, 1, 0))
  {
    assert Pow10(1) == 10;
    assert Rounded(5, 1) == 1 by {
      assert Quotient(20, 20) == 1 + Quotient(0, 20);
    }
  }
}
