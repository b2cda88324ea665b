// Decimal numbers as text: parseFloat, toFixed and the comparison of numbers, in
// exact arithmetic.

module NumberText {
  import opened Common
  import opened Text

  // mant / 10^scale, negated if neg.
  datatype Dec = Dec(neg: bool, mant: nat, scale: nat)

  function Pow10(n: nat): (r: nat)
    ensures r > 0
  {
    if n == 0 then 1 else 10 * Pow10(n - 1)
  }

  function Signed(d: Dec): int {
    var m: int := d.mant;
    if d.neg then -m else m
  }

  predicate Less(d: Dec, e: Dec) {
    Signed(d) * Pow10(e.scale) < Signed(e) * Pow10(d.scale)
  }

  // ---------------------------------------------------------------- reading

  // An unsigned decimal at the start of a text: its digits before and after the
  // point, and how many characters it takes.
  datatype Reading = Reading(whole: string, fraction: string, length: nat)

  function ReadUnsigned(s: string): (r: Reading)
    ensures AllDigits(r.whole) && AllDigits(r.fraction) && r.length <= |s|
  {
    var a := LeadingDigits(s);
    LeadingLength(s);
    if |a| < |s| && s[|a|] == '.' then
      var b := LeadingDigits(s[|a| + 1..]);
      LeadingLength(s[|a| + 1..]);
      Reading(a, b, |a| + 1 + |b|)
    else Reading(a, [], |a|)
  }

  lemma {:induction false} LeadingLength(s: string)
    ensures |LeadingDigits(s)| <= |s|
  {
    if s != [] && IsDigit(s[0]) {
      LeadingLength(s[1..]);
    }
  }

  function Unsign(s: string): string {
    if s != [] && (s[0] == '-' || s[0] == '+') then s[1..] else s
  }

  function ToDec(neg: bool, r: Reading): Dec
    requires AllDigits(r.whole) && AllDigits(r.fraction)
  {
    Dec(neg, Number(r.whole + r.fraction), |r.fraction|)
  }

  // parseFloat, section 15.1.2.3, of a text without exponent; None is NaN.
  function ParseFloat(s: string): Option<Dec> {
    var t := SkipSpaces(s);
    var r := ReadUnsigned(Unsign(t));
    if r.whole == [] && r.fraction == [] then None else Some(ToDec(t != [] && t[0] == '-', r))
  }

  function Reversed(s: string): string {
    if s == [] then [] else Reversed(s[1..]) + [s[0]]
  }

  function Trim(s: string): string {
    Reversed(SkipSpaces(Reversed(SkipSpaces(s))))
  }

  // Whether parseFloat(s) == s: the whole text is one number.
  predicate Numeric(s: string) {
    var u := Unsign(Trim(s));
    var r := ReadUnsigned(u);
    r.length == |u| && !(r.whole == [] && r.fraction == [])
  }

  // ---------------------------------------------------------------- printing

  function Zeros(n: nat): (s: string)
    ensures |s| == n && AllDigits(s)
  {
    seq(n, i => '0')
  }

  // The digits of n, at least p + 1 of them.
  function Padded(n: nat, p: nat): (s: string)
    ensures |s| > p && AllDigits(s)
  {
    var m := Digits(n);
    if |m| <= p then Zeros(p + 1 - |m|) + m else m
  }

  // n / 10^p with p digits after the point, section 15.7.4.5.
  function FixedText(neg: bool, n: nat, p: nat): string {
    var m := Padded(n, p);
    (if neg then "-" else "") + m[..|m| - p] + if p == 0 then "" else "." + m[|m| - p..]
  }

  // mant / 10^k rounded to the nearest integer, the larger one of two.
  function Rounded(mant: nat, k: nat): nat {
    Quotient(2 * mant + Pow10(k), 2 * Pow10(k))
  }

  function Quotient(a: nat, b: nat): nat
    requires b > 0
  {
    if a < b then 0 else 1 + Quotient(a - b, b)
  }

  lemma {:induction false} QuotientIs(a: nat, b: nat)
    requires b > 0
    ensures b * Quotient(a, b) <= a < b * (Quotient(a, b) + 1)
  {
    if a >= b {
      QuotientIs(a - b, b);
    }
  }

  // The rounded number is at most a half above mant / 10^k and less than a half below it.
  lemma RoundedNearest(mant: nat, k: nat)
    ensures 2 * Pow10(k) * Rounded(mant, k) - Pow10(k) <= 2 * mant < 2 * Pow10(k) * Rounded(mant, k) + Pow10(k)
  {
    QuotientIs(2 * mant + Pow10(k), 2 * Pow10(k));
  }

  function Fixed(d: Dec, p: nat): nat {
    if d.scale <= p then d.mant * Pow10(p - d.scale) else Rounded(d.mant, d.scale - p)
  }

  // toFixed(p), or None for the RangeError of more than most digits, section 15.7.4.5;
  // a negative number keeps its sign even if it rounds to 0.
  function ToFixed(d: Dec, p: nat, most: nat): Option<string> {
    if p > most then None else Some(FixedText(d.neg && d.mant > 0, Fixed(d, p), p))
  }

  lemma {:induction false} NumberZeros(k: nat, m: string)
    requires AllDigits(m)
    ensures Number(Zeros(k) + m) == Number(m)
    decreases |m|, k
  {
    if m != [] {
      assert (Zeros(k) + m)[..k + |m| - 1] == Zeros(k) + m[..|m| - 1];
      NumberZeros(k, m[..|m| - 1]);
    } else if k > 0 {
      assert Zeros(k) + m == Zeros(k);
      assert Zeros(k)[..k - 1] == Zeros(k - 1) == Zeros(k - 1) + m;
      NumberZeros(k - 1, m);
    } else {
      assert Zeros(k) + m == m;
    }
  }

  lemma NumberPadded(n: nat, p: nat)
    ensures Number(Padded(n, p)) == n
  {
    NumberDigits(n);
    if |Digits(n)| <= p {
      NumberZeros(p + 1 - |Digits(n)|, Digits(n));
    }
  }

  // The part of a printed number after its sign, and what reading it gives.
  function Body(n: nat, p: nat): string {
    var m := Padded(n, p);
    m[..|m| - p] + if p == 0 then "" else "." + m[|m| - p..]
  }

  lemma ReadWhole(a: string)
    requires AllDigits(a)
    ensures ReadUnsigned(a) == Reading(a, [], |a|)
  {
    DigitsLead(a);
  }

  lemma ReadPoint(a: string, b: string)
    requires AllDigits(a) && AllDigits(b)
    ensures ReadUnsigned(a + "." + b) == Reading(a, b, |a| + 1 + |b|)
  {
    var s := a + "." + b;
    DigitsThen(a, "." + b);
    DigitsLead(b);
    assert s == a + ("." + b) && s[|a| + 1..] == b;
  }

  lemma ReadBody(n: nat, p: nat)
    ensures var m, r := Padded(n, p), ReadUnsigned(Body(n, p));
      r.whole == m[..|m| - p] && r.fraction == m[|m| - p..] && r.length == |Body(n, p)|
  {
    hide ReadUnsigned, Padded;
    var m := Padded(n, p);
    if p == 0 {
      assert Body(n, p) == m[..|m|] && m[|m|..] == [];
      ReadWhole(m[..|m|]);
    } else {
      ReadPoint(m[..|m| - p], m[|m| - p..]);
      assert Body(n, p) == m[..|m| - p] + "." + m[|m| - p..];
    }
  }

  lemma ReadFixed(neg: bool, n: nat, p: nat)
    ensures ParseFloat(FixedText(neg, n, p)) == Some(Dec(neg, n, p))
  {
    hide ReadUnsigned, Number;
    var s, b, m := FixedText(neg, n, p), Body(n, p), Padded(n, p);
    ReadBody(n, p);
    NumberPadded(n, p);
    assert m[..|m| - p] + m[|m| - p..] == m;
    assert s == (if neg then "-" else "") + b;
    assert b[0] == m[0];
    assert SkipSpaces(s) == s && Unsign(s) == b;
  }

  // Fixed-point text is printed as it was read exactly when it is no negative zero
  // and has no more digits than can be printed.
  lemma FixedAgain(neg: bool, n: nat, p: nat, most: nat)
    ensures ToFixed(Dec(neg, n, p), p, most) == Some(FixedText(neg, n, p)) <==> p <= most && (neg ==> n > 0)
  {
    assert Fixed(Dec(neg, n, p), p) == n;
    if neg && n == 0 {
      assert FixedText(true, n, p)[0] == '-';
      assert FixedText(false, n, p)[0] == Padded(n, p)[0];
    }
  }

  // ---------------------------------------------------------------- reading any text

  lemma ReadThen(a: string, tail: string)
    requires AllDigits(a) && (tail == [] || (!IsDigit(tail[0]) && tail[0] != '.'))
    ensures ReadUnsigned(a + tail) == Reading(a, [], |a|)
  {
    DigitsThen(a, tail);
  }

  lemma ReadPointThen(a: string, b: string, tail: string)
    requires AllDigits(a) && AllDigits(b) && (tail == [] || !IsDigit(tail[0]))
    ensures ReadUnsigned(a + "." + b + tail) == Reading(a, b, |a| + 1 + |b|)
  {
    var s := a + "." + b + tail;
    DigitsThen(a, "." + b + tail);
    DigitsThen(b, tail);
    assert s == a + ("." + b + tail) && s[|a| + 1..] == b + tail;
  }

  // Space, a sign, digits, a point and digits, and whatever follows: the number is
  // what the digits say, and there is none without digits.
  lemma FloatRead(spaces: string, sign: string, a: string, point: bool, b: string, tail: string)
    requires AllSpaces(spaces) && Sign(sign) && AllDigits(a) && AllDigits(b) && (!point ==> b == [])
    requires tail == [] || (!IsDigit(tail[0]) && (!point ==> tail[0] != '.'))
    requires !point && a == [] && sign == [] ==> Opens(tail)
    ensures ParseFloat(spaces + (sign + (a + (if point then "." else []) + b + tail)))
      == if a + b == [] then None else Some(Dec(sign == "-", Number(a + b), |b|))
  {
    hide ReadUnsigned, Number, SkipSpaces;
    var u := a + (if point then "." else []) + b + tail;
    if point {
      ReadPointThen(a, b, tail);
      assert u == a + "." + b + tail;
    } else {
      ReadThen(a, tail);
      assert u == a + tail && a + b == a;
    }
    NotSpace(sign, u);
    SpacesSkipped(spaces, sign + u);
    SignTaken(sign, u);
  }

  lemma SignTaken(sign: string, u: string)
    requires Sign(sign) && (sign == [] ==> u == [] || (u[0] != '-' && u[0] != '+'))
    ensures Unsign(sign + u) == u && (sign + u != [] && (sign + u)[0] == '-' <==> sign == "-")
  {
    if sign == [] {
      assert sign + u == u;
    } else {
      assert (sign + u)[1..] == u;
    }
  }
}
