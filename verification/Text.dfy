// Strings as the widgets use them: printing integers, parseInt with radix 10, and
// splitting at a one-character separator.

module Text {
  import opened Common

  predicate IsDigit(c: char) {
    '0' <= c <= '9'
  }

  // White space and line terminators of ECMA-262 5.1, sections 7.2 and 7.3.
  predicate IsSpace(c: char) {
    || c == ' ' || '\U{0009}' <= c <= '\U{000D}' || c == '\U{00A0}' || c == '\U{1680}' || c == '\U{180E}'
    || '\U{2000}' <= c <= '\U{200A}' || c == '\U{2028}' || c == '\U{2029}' || c == '\U{202F}' || c == '\U{205F}'
    || c == '\U{3000}' || c == '\U{FEFF}'
  }

  function Digit(d: nat): (c: char)
    requires d < 10
    ensures IsDigit(c)
  {
    "0123456789"[d]
  }

  function DigitValue(c: char): (d: nat)
    requires IsDigit(c)
    ensures d < 10
  {
    (c as int - '0' as int) as nat
  }

  predicate AllDigits(s: string) {
    forall i :: 0 <= i < |s| ==> IsDigit(s[i])
  }

  function Digits(n: nat): (s: string)
    ensures s != [] && AllDigits(s)
  {
    if n < 10 then [Digit(n)] else Digits(n / 10) + [Digit(n % 10)]
  }

  function Number(s: string): nat
    requires AllDigits(s)
  {
    if s == [] then 0 else 10 * Number(s[..|s| - 1]) + DigitValue(s[|s| - 1])
  }

  lemma {:induction false} NumberDigits(n: nat)
    ensures Number(Digits(n)) == n
  {
    if n >= 10 {
      NumberDigits(n / 10);
      assert Digits(n)[..|Digits(n)| - 1] == Digits(n / 10);
    }
  }

  function Show(i: int): string {
    if i < 0 then "-" + Digits(-i) else Digits(i)
  }

  // At least two digits.
  function Two(n: nat): string {
    if n < 10 then "0" + Digits(n) else Digits(n)
  }

  function SkipSpaces(s: string): string {
    if s != [] && IsSpace(s[0]) then SkipSpaces(s[1..]) else s
  }

  function LeadingDigits(s: string): (r: string)
    ensures AllDigits(r)
  {
    if s != [] && IsDigit(s[0]) then [s[0]] + LeadingDigits(s[1..]) else []
  }

  function Unsigned(s: string): Option<int> {
    var digits := LeadingDigits(s);
    if digits == [] then None else Some(Number(digits) as int)
  }

  // parseInt(s, 10), section 15.1.2.2; None is NaN.
  function ParseInt(s: string): Option<int> {
    var t := SkipSpaces(s);
    if t == [] then None
    else if t[0] == '-' then
      var n := Unsigned(t[1..]);
      if n == None then None else Some(-n.value)
    else if t[0] == '+' then Unsigned(t[1..])
    else Unsigned(t)
  }

  lemma {:induction false} DigitsLead(s: string)
    requires AllDigits(s)
    ensures LeadingDigits(s) == s
  {
    if s != [] {
      DigitsLead(s[1..]);
    }
  }

  lemma {:induction false} DigitsThen(d: string, rest: string)
    requires AllDigits(d) && (rest == [] || !IsDigit(rest[0]))
    ensures LeadingDigits(d + rest) == d
  {
    if d == [] {
      assert d + rest == rest;
    } else {
      assert (d + rest)[1..] == d[1..] + rest;
      DigitsThen(d[1..], rest);
    }
  }

  lemma UnsignedDigits(s: string)
    requires s != [] && AllDigits(s)
    ensures Unsigned(s) == Some(Number(s) as int)
  {
    DigitsLead(s);
  }

  lemma ParseDigits(s: string)
    requires s != [] && AllDigits(s)
    ensures ParseInt(s) == Some(Number(s) as int)
  {
    UnsignedDigits(s);
    assert SkipSpaces(s) == s;
  }

  lemma ParseNegative(s: string)
    requires s != [] && AllDigits(s)
    ensures ParseInt("-" + s) == Some(-(Number(s) as int))
  {
    hide Number, Unsigned;
    UnsignedDigits(s);
    var t := "-" + s;
    assert SkipSpaces(t) == t && t[1..] == s;
  }

  // Printing and parsing an integer gives it back.
  lemma ParseShow(i: int)
    ensures ParseInt(Show(i)) == Some(i)
  {
    hide ParseInt, Number, Digits;
    if i < 0 {
      ParseNegative(Digits(-i));
      NumberDigits(-i);
    } else {
      ParseDigits(Digits(i));
      NumberDigits(i);
    }
  }

  // ---------------------------------------------------------------- reading any text

  predicate AllSpaces(s: string) {
    forall i :: 0 <= i < |s| ==> IsSpace(s[i])
  }

  predicate Sign(s: string) {
    s == "" || s == "-" || s == "+"
  }

  // The text does not start with a space or a sign.
  predicate Opens(s: string) {
    s == [] || (!IsSpace(s[0]) && s[0] != '-' && s[0] != '+')
  }

  lemma {:induction false} SpacesSkipped(spaces: string, s: string)
    requires AllSpaces(spaces) && (s == [] || !IsSpace(s[0]))
    ensures SkipSpaces(spaces + s) == s
  {
    if spaces == [] {
      assert spaces + s == s;
    } else {
      assert (spaces + s)[1..] == spaces[1..] + s;
      SpacesSkipped(spaces[1..], s);
    }
  }

  lemma NotSpace(sign: string, s: string)
    requires Sign(sign) && (sign == [] ==> Opens(s))
    ensures sign + s == [] || !IsSpace((sign + s)[0])
  {
  }

  lemma UnsignedThen(digits: string, tail: string)
    requires AllDigits(digits) && (tail == [] || !IsDigit(tail[0]))
    ensures Unsigned(digits + tail) == if digits == [] then None else Some(Number(digits))
  {
    hide Number;
    DigitsThen(digits, tail);
  }

  // Space, a sign, digits and whatever follows: the integer is what the digits say,
  // and there is none without digits.
  lemma IntRead(spaces: string, sign: string, digits: string, tail: string)
    requires AllSpaces(spaces) && Sign(sign) && AllDigits(digits) && (tail == [] || !IsDigit(tail[0]))
    requires sign == [] && digits == [] ==> Opens(tail)
    ensures ParseInt(spaces + (sign + (digits + tail))) ==
      if digits == [] then None else Some(if sign == "-" then -(Number(digits) as int) else Number(digits))
  {
    hide Number, SkipSpaces, Unsigned;
    var u := digits + tail;
    UnsignedThen(digits, tail);
    NotSpace(sign, u);
    SpacesSkipped(spaces, sign + u);
    if sign == [] {
      assert sign + u == u;
    } else {
      assert (sign + u)[1..] == u;
    }
  }

  lemma TwoDigits(n: nat)
    ensures AllDigits(Two(n)) && Two(n) != [] && (n < 100 ==> |Two(n)| == 2)
  {
    if 10 <= n < 100 {
      assert Digits(n) == Digits(n / 10) + [Digit(n % 10)];
    }
  }

  lemma ParseTwo(n: nat)
    ensures ParseInt(Two(n)) == Some(n)
  {
    TwoDigits(n);
    ParseDigits(Two(n));
    NumberDigits(n);
    if n < 10 {
      assert Two(n)[..1] == "0";
      assert "0"[..0] == [];
    }
  }

  // ---------------------------------------------------------------- splitting

  function Split(s: string, c: char): (parts: seq<string>)
    ensures parts != []
  {
    if s == [] then [[]]
    else
      var rest := Split(s[1..], c);
      if s[0] == c then [[]] + rest else [[s[0]] + rest[0]] + rest[1..]
  }

  predicate Without(s: string, c: char) {
    forall i :: 0 <= i < |s| ==> s[i] != c
  }

  lemma {:induction false} SplitLast(p: string, c: char)
    requires Without(p, c)
    ensures Split(p, c) == [p]
  {
    if p != [] {
      SplitLast(p[1..], c);
      assert p == [p[0]] + p[1..];
    }
  }

  lemma {:induction false} SplitFirst(p: string, c: char, rest: string)
    requires Without(p, c)
    ensures Split(p + [c] + rest, c) == [p] + Split(rest, c)
  {
    if p == [] {
      assert ([c] + rest)[1..] == rest;
      assert p + [c] + rest == [c] + rest;
    } else {
      SplitFirst(p[1..], c, rest);
      assert (p + [c] + rest)[1..] == p[1..] + [c] + rest;
      assert p == [p[0]] + p[1..];
    }
  }

  lemma SplitThree(p: string, q: string, r: string, c: char)
    requires Without(p, c) && Without(q, c) && Without(r, c)
    ensures Split(p + [c] + q + [c] + r, c) == [p, q, r]
  {
    SplitLast(r, c);
    SplitFirst(q, c, r);
    SplitFirst(p, c, q + [c] + r);
    assert p + [c] + q + [c] + r == p + [c] + (q + [c] + r);
  }

  lemma SplitTwo(p: string, q: string, c: char)
    requires Without(p, c) && Without(q, c)
    ensures Split(p + [c] + q, c) == [p, q]
  {
    SplitLast(q, c);
    SplitFirst(p, c, q);
  }
}
