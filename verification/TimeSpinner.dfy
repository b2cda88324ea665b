// A time spinner: the time stands in the box as text, and the arrows rewrite the
// highlighted field of that text and parse it again.

module TimeSpinner {
  import opened Common
  import opened CivilDate
  import opened Text

  // min and max are texts; an empty one is not set.
  datatype Options = Options(separator: char, showSeconds: bool, min: string, max: string, increment: int)

  // A time is the number of seconds since the start of the day that all texts are
  // parsed on, day 0 of January 1900; it may lie on another day. Section 15.9.1.10.
  function HourOf(t: int): int {
    (t / 3600) % 24
  }

  function MinuteOf(t: int): int {
    (t / 60) % 60
  }

  function SecondOf(t: int): int {
    t % 60
  }

  // A Date: invalid ones have no time.
  datatype Moment = Invalid | Moment(time: int)

  // 1970-01-01 less day 0 of January 1900, in seconds.
  const BASE := 2209075200

  // Section 15.9.1.14: a Date reaches 100000000 days from 1970-01-01 either way.
  predicate InSpan(t: int) {
    -8640000000000 <= t - BASE <= 8640000000000
  }

  lemma BaseIs()
    ensures DayNamed(1900, 0, 0) * 86400 == -BASE && LAST_DAY * 86400 == 8640000000000
  {
    var y := 1900;
    YearStartIs(y);
    assert (y - 1969) / 4 == -18 && (y - 1901) / 100 == -1 && (y - 1601) / 400 == 0;
    assert DayNamed(y, 0, 0) == YearStart(y) - 1;
  }

  // Midnight of a day, counted from 1970-01-01, is a valid time just if its day is.
  lemma Midnight(day: int)
    ensures InSpan(86400 * day + BASE) <==> InTime(day)
  {
  }

  function NewTime(t: int): Moment {
    if InSpan(t) then Moment(t) else Invalid
  }

  function Format(o: Options, m: Moment): string {
    if m == Invalid then "NaN" + [o.separator] + "NaN" + if o.showSeconds then [o.separator] + "NaN" else []
    else FormatTime(o, m.time)
  }

  function FormatTime(o: Options, t: int): string {
    Two(HourOf(t)) + [o.separator] + Two(MinuteOf(t))
    + if o.showSeconds then [o.separator] + Two(SecondOf(t)) else []
  }

  // parseInt(...)||0 of a part that may be missing.
  function Field(parts: seq<string>, i: nat): int {
    if i < |parts| then OrZero(ParseInt(parts[i])) else 0
  }

  function OrZero(n: Option<int>): int {
    if n.Some? then n.value else 0
  }

  function Raw(o: Options, s: string): Option<Moment> {
    if s == [] then None
    else
      var tt := Split(s, o.separator);
      Some(NewTime(3600 * Field(tt, 0) + 60 * Field(tt, 1) + Field(tt, 2)))
  }

  // m > n, which is false of an invalid date.
  predicate Later(m: Moment, n: Moment) {
    m.Moment? && n.Moment? && m.time > n.time
  }

  function Clamp(m: Moment, min: Option<Moment>, max: Option<Moment>): Moment {
    var n := if min.Some? && Later(min.value, m) then min.value else m;
    if max.Some? && Later(n, max.value) then max.value else n
  }

  function Parse(o: Options, s: string): Option<Moment> {
    var m := Raw(o, s);
    if m.Some? then Some(Clamp(m.value, Raw(o, o.min), Raw(o, o.max))) else None
  }

  // The text the box shows for a text entered.
  function Shown(o: Options, s: string): string {
    var m := Parse(o, s);
    if m.Some? then Format(o, m.value) else ""
  }

  // s.substring(from, to).
  function Substring(s: string, from: nat, to: nat): string
    requires from <= to
  {
    if |s| <= from then "" else if |s| <= to then s[from..] else s[from..to]
  }

  // The text with n added to its field h, which takes two characters from 3h on.
  function Rewritten(s: string, h: nat, n: int): string {
    Substring(s, 0, 3 * h)
    + Show(OrZero(ParseInt(Substring(s, 3 * h, 3 * h + 2))) + n)
    + Substring(s, 3 * h + 2, if |s| < 3 * h + 2 then 3 * h + 2 else |s|)
  }

  const SELECTIONS: seq<(nat, nat)> := [(0, 2), (3, 5), (6, 8)]

  class TimeSpinner {
    var value: string
    var highlight: nat
    const options: Options

    constructor (options: Options, value: string, highlight: nat)
      requires highlight < 3
      ensures Valid() && this.options == options && this.highlight == highlight
      ensures this.value == Shown(options, value)
    {
      this.options, this.highlight := options, highlight;
      this.value := Shown(options, value);
    }

    ghost predicate Valid()
      reads this
    {
      highlight < 3
    }

    method SetValue(s: string)
      modifies this`value
      ensures value == Shown(options, s)
    {
      var t := Parse(options, s);
      if t.Some? {
        value := Format(options, t.value);
      } else {
        value := "";
      }
    }

    // One press on an arrow.
    method Spin(down: bool)
      requires Valid()
      modifies this`value
      ensures value ==
        Shown(options, Rewritten(old(value), highlight, if down then -options.increment else options.increment))
    {
      hide Shown, ParseInt, Show;
      var (from, to) := SELECTIONS[highlight];
      var s := value;
      var s1 := Substring(s, 0, from);
      var s2 := Substring(s, from, to);
      var s3 := Substring(s, to, if |s| < to then to else |s|);
      var v := s1 + Show(OrZero(ParseInt(s2)) + options.increment * (if down then -1 else 1)) + s3;
      SetValue(v);
    }

    // A click at a place in the text highlights the first field that reaches there.
    method Click(at: nat)
      requires Valid()
      modifies this`highlight
      ensures Valid()
      ensures highlight == if at <= 2 then 0 else if 3 <= at <= 5 then 1 else if 6 <= at <= 8 then 2 else old(highlight)
    {
      for i := 0 to |SELECTIONS|
        invariant highlight == old(highlight) && forall j :: 0 <= j < i ==> !(SELECTIONS[j].0 <= at <= SELECTIONS[j].1)
      {
        if SELECTIONS[i].0 <= at <= SELECTIONS[i].1 {
          highlight := i;
          return;
        }
      }
      assert SELECTIONS[0] == (0, 2) && SELECTIONS[1] == (3, 5) && SELECTIONS[2] == (6, 8);
    }
  }

  // ---------------------------------------------------------------- times and their parts

  lemma PartsOf(t: int) returns (k: int)
    ensures 0 <= HourOf(t) < 24 && 0 <= MinuteOf(t) < 60 && 0 <= SecondOf(t) < 60
    ensures t == 86400 * k + 3600 * HourOf(t) + 60 * MinuteOf(t) + SecondOf(t)
  {
    var m, h := t / 60, t / 3600;
    assert t == 60 * m + SecondOf(t);
    assert h == m / 60;
    assert m == 60 * h + MinuteOf(t);
    k := h / 24;
    assert h == 24 * k + HourOf(t);
  }

  lemma PartsAre(k: int, h: int, m: int, s: int, t: int)
    requires 0 <= h < 24 && 0 <= m < 60 && 0 <= s < 60 && t == 86400 * k + 3600 * h + 60 * m + s
    ensures HourOf(t) == h && MinuteOf(t) == m && SecondOf(t) == s
  {
    assert t / 60 == 1440 * k + 60 * h + m;
    assert t / 3600 == 24 * k + h;
  }

  // Times that are whole days apart, or differ in hidden seconds only, look the same.
  lemma SameShown(o: Options, u: int, t: int, k: int, r: int)
    requires t == u + 86400 * k + r && 0 <= r < 60
    requires (o.showSeconds ==> r == 0) && (!o.showSeconds ==> SecondOf(u) == 0)
    ensures FormatTime(o, t) == FormatTime(o, u)
  {
    hide HourOf, MinuteOf, SecondOf, Two;
    var l := PartsOf(u);
    PartsAre(k + l, HourOf(u), MinuteOf(u), SecondOf(u) + r, t);
  }

  // An invalid date shows as no time does.
  lemma InvalidShown(o: Options, t: int)
    ensures Format(o, Invalid) != FormatTime(o, t)
  {
    hide HourOf, MinuteOf, SecondOf, Two;
    var l := PartsOf(t);
    TwoDigits(HourOf(t));
    assert FormatTime(o, t)[0] == Two(HourOf(t))[0];
  }

  // ---------------------------------------------------------------- rewriting a printed time

  // A separator that does not cut the number v.
  predicate Splits(c: char, v: int) {
    !IsDigit(c) && (c == '-' ==> v >= 0)
  }

  lemma ShowWithout(n: int, c: char)
    requires Splits(c, n)
    ensures Without(Show(n), c)
  {
    var s := Digits(if n < 0 then -n else n);
    assert AllDigits(s);
  }

  lemma TwoWithout(n: nat, c: char)
    requires !IsDigit(c) && n < 60
    ensures Without(Two(n), c) && |Two(n)| == 2 && ParseInt(Two(n)) == Some(n)
  {
    hide ParseInt;
    TwoDigits(n);
    ParseTwo(n);
  }

  lemma RawTwo(o: Options, p: string, q: string, h: int, m: int)
    requires Without(p, o.separator) && Without(q, o.separator) && ParseInt(p) == Some(h) && ParseInt(q) == Some(m)
    ensures Raw(o, p + [o.separator] + q) == Some(NewTime(3600 * h + 60 * m))
  {
    hide ParseInt, Split, NewTime;
    SplitTwo(p, q, o.separator);
  }

  lemma RawThree(o: Options, p: string, q: string, r: string, h: int, m: int, s: int)
    requires Without(p, o.separator) && Without(q, o.separator) && Without(r, o.separator)
    requires ParseInt(p) == Some(h) && ParseInt(q) == Some(m) && ParseInt(r) == Some(s)
    ensures Raw(o, p + [o.separator] + q + [o.separator] + r) == Some(NewTime(3600 * h + 60 * m + s))
  {
    hide ParseInt, Split, NewTime;
    SplitThree(p, q, r, o.separator);
  }

  // The number a field stands for: none, or text without a number, stands for 0.
  function Meant(field: string): int {
    OrZero(ParseInt(field))
  }

  // A text entered is hours, minutes and seconds, of which the last may be missing;
  // an empty one is no time.
  lemma TypedRead(o: Options, p: string, q: string, r: string)
    requires Without(p, o.separator) && Without(q, o.separator) && Without(r, o.separator)
    ensures p != [] ==> Raw(o, p) == Some(NewTime(3600 * Meant(p)))
    ensures Raw(o, p + [o.separator] + q) == Some(NewTime(3600 * Meant(p) + 60 * Meant(q)))
    ensures Raw(o, p + [o.separator] + q + [o.separator] + r)
         == Some(NewTime(3600 * Meant(p) + 60 * Meant(q) + Meant(r)))
    ensures Raw(o, []) == None && Shown(o, []) == []
  {
    hide ParseInt, Split, NewTime;
    SplitLast(p, o.separator);
    SplitTwo(p, q, o.separator);
    SplitThree(p, q, r, o.separator);
  }

  // Cutting out a field of two characters.
  lemma Cut(s: string, x: string, field: string, z: string, h: nat, n: int)
    requires s == x + field + z && |x| == 3 * h && |field| == 2
    ensures Rewritten(s, h, n) == x + Show(OrZero(ParseInt(field)) + n) + z
  {
    hide ParseInt, Show;
    assert Substring(s, 0, 3 * h) == x by {
      assert s[..3 * h] == x;
    }
    assert Substring(s, 3 * h, 3 * h + 2) == field by {
      assert s[3 * h..3 * h + 2] == field;
      assert z == [] ==> s[3 * h..] == field;
    }
    assert Substring(s, 3 * h + 2, |s|) == z by {
      assert s[3 * h + 2..] == z;
    }
  }

  function Unit(h: nat): int {
    if h == 0 then 3600 else if h == 1 then 60 else 1
  }

  // A printed time with its field h rewritten to a new value.
  lemma RewriteHours(o: Options, t: int, n: int)
    requires Splits(o.separator, HourOf(t) + n)
    ensures Raw(o, Rewritten(FormatTime(o, t), 0, n))
      == Some(NewTime(3600 * (HourOf(t) + n) + 60 * MinuteOf(t) + if o.showSeconds then SecondOf(t) else 0))
  {
    hide HourOf, MinuteOf, SecondOf, Two, Show, ParseInt, Rewritten, NewTime;
    var l := PartsOf(t);
    var c, h, m, s := o.separator, HourOf(t), MinuteOf(t), SecondOf(t);
    TwoWithout(h, c);
    TwoWithout(m, c);
    TwoWithout(s, c);
    ShowWithout(h + n, c);
    ParseShow(h + n);
    var x := Show(h + n);
    if o.showSeconds {
      var z := [c] + Two(m) + [c] + Two(s);
      assert FormatTime(o, t) == [] + Two(h) + z;
      Cut(FormatTime(o, t), [], Two(h), z, 0, n);
      assert [] + x + z == x + [c] + Two(m) + [c] + Two(s);
      RawThree(o, x, Two(m), Two(s), h + n, m, s);
    } else {
      var z := [c] + Two(m);
      assert FormatTime(o, t) == [] + Two(h) + z;
      Cut(FormatTime(o, t), [], Two(h), z, 0, n);
      assert [] + x + z == x + [c] + Two(m);
      RawTwo(o, x, Two(m), h + n, m);
    }
  }

  lemma RewriteMinutes(o: Options, t: int, n: int)
    requires Splits(o.separator, MinuteOf(t) + n)
    ensures Raw(o, Rewritten(FormatTime(o, t), 1, n))
      == Some(NewTime(3600 * HourOf(t) + 60 * (MinuteOf(t) + n) + if o.showSeconds then SecondOf(t) else 0))
  {
    hide HourOf, MinuteOf, SecondOf, Two, Show, ParseInt, Rewritten, NewTime;
    var l := PartsOf(t);
    var c, h, m, s := o.separator, HourOf(t), MinuteOf(t), SecondOf(t);
    TwoWithout(h, c);
    TwoWithout(m, c);
    TwoWithout(s, c);
    ShowWithout(m + n, c);
    ParseShow(m + n);
    var x, y := Two(h) + [c], Show(m + n);
    if o.showSeconds {
      var z := [c] + Two(s);
      assert FormatTime(o, t) == x + Two(m) + z;
      Cut(FormatTime(o, t), x, Two(m), z, 1, n);
      assert x + y + z == Two(h) + [c] + y + [c] + Two(s);
      RawThree(o, Two(h), y, Two(s), h, m + n, s);
    } else {
      assert FormatTime(o, t) == x + Two(m) + [];
      Cut(FormatTime(o, t), x, Two(m), [], 1, n);
      assert x + y + [] == Two(h) + [c] + y;
      RawTwo(o, Two(h), y, h, m + n);
    }
  }

  lemma RewriteSeconds(o: Options, t: int, n: int)
    requires Splits(o.separator, SecondOf(t) + n) && o.showSeconds
    ensures Raw(o, Rewritten(FormatTime(o, t), 2, n))
      == Some(NewTime(3600 * HourOf(t) + 60 * MinuteOf(t) + (SecondOf(t) + n)))
  {
    hide HourOf, MinuteOf, SecondOf, Two, Show, ParseInt, Rewritten, NewTime;
    var l := PartsOf(t);
    var c, h, m, s := o.separator, HourOf(t), MinuteOf(t), SecondOf(t);
    TwoWithout(h, c);
    TwoWithout(m, c);
    TwoWithout(s, c);
    ShowWithout(s + n, c);
    ParseShow(s + n);
    var x, y := Two(h) + [c] + Two(m) + [c], Show(s + n);
    assert FormatTime(o, t) == x + Two(s) + [];
    Cut(FormatTime(o, t), x, Two(s), [], 2, n);
    assert x + y + [] == Two(h) + [c] + Two(m) + [c] + y;
    RawThree(o, Two(h), Two(m), y, h, m, s + n);
  }

  lemma WholeMinutes(u: int, x: int)
    requires u == 60 * x
    ensures SecondOf(u) == 0
  {
  }

  // The number in field h.
  function FieldOf(t: int, h: nat): int {
    if h == 0 then HourOf(t) else if h == 1 then MinuteOf(t) else SecondOf(t)
  }

  // The time that the rewritten text names, unless the separator cuts it.
  function Turned(o: Options, t: int, h: nat, n: int): int {
    3600 * HourOf(t) + 60 * MinuteOf(t) + (if o.showSeconds then SecondOf(t) else 0) + n * Unit(h)
  }

  // It is n units on, up to whole days and the seconds that are not shown.
  lemma TurnedIs(o: Options, t: int, h: nat, n: int) returns (k: int, r: int)
    requires h < 2 || (h == 2 && o.showSeconds)
    ensures t + n * Unit(h) == Turned(o, t, h, n) + 86400 * k + r && 0 <= r < 60
    ensures (o.showSeconds ==> r == 0) && (!o.showSeconds ==> SecondOf(Turned(o, t, h, n)) == 0)
  {
    hide HourOf, MinuteOf, SecondOf;
    k := PartsOf(t);
    r := if o.showSeconds then 0 else SecondOf(t);
    if !o.showSeconds {
      WholeMinutes(Turned(o, t, h, n), 60 * HourOf(t) + MinuteOf(t) + if h == 0 then 60 * n else n);
    }
  }

  lemma RewriteTurned(o: Options, t: int, h: nat, n: int)
    requires Splits(o.separator, FieldOf(t, h) + n) && (h < 2 || (h == 2 && o.showSeconds))
    ensures Raw(o, Rewritten(FormatTime(o, t), h, n)) == Some(NewTime(Turned(o, t, h, n)))
  {
    hide HourOf, MinuteOf, SecondOf, FormatTime, Rewritten, Raw, NewTime;
    if h == 0 {
      RewriteHours(o, t, n);
      assert 3600 * (HourOf(t) + n) == 3600 * HourOf(t) + n * 3600;
    } else if h == 1 {
      RewriteMinutes(o, t, n);
      assert 60 * (MinuteOf(t) + n) == 60 * MinuteOf(t) + n * 60;
    } else {
      RewriteSeconds(o, t, n);
    }
  }

  // What is shown is the time modulo one day.
  lemma ModuloDay(o: Options, t: int, k: int)
    ensures FormatTime(o, t + 86400 * k) == FormatTime(o, t)
  {
    hide HourOf, MinuteOf, SecondOf, Two;
    var l := PartsOf(t);
    PartsAre(l + k, HourOf(t), MinuteOf(t), SecondOf(t), t + 86400 * k);
  }

  // ---------------------------------------------------------------- a minus sign as separator

  // A text that starts with the separator has an empty first field.
  lemma RawMinus(o: Options, x: string, m: string, tail: string, k: int, v: int)
    requires o.separator == '-' && Without(x, '-') && Without(m, '-')
    requires ParseInt(x) == Some(k) && ParseInt(m) == Some(v) && (tail == [] || tail[0] == '-')
    ensures Raw(o, "-" + x + "-" + m + tail) == Some(NewTime(60 * k + v))
  {
    hide ParseInt, NewTime, Split;
    var rest := m + tail;
    SplitFirst([], '-', x + ['-'] + rest);
    SplitFirst(x, '-', rest);
    FirstPart(m, tail);
    EmptyField();
    assert "-" + x + "-" + m + tail == [] + ['-'] + (x + ['-'] + rest);
  }

  lemma FirstPart(m: string, tail: string)
    requires Without(m, '-') && (tail == [] || tail[0] == '-')
    ensures Split(m + tail, '-')[0] == m
  {
    if tail == [] {
      SplitLast(m, '-');
      assert m + tail == m;
    } else {
      SplitFirst(m, '-', tail[1..]);
      assert m + tail == m + ['-'] + tail[1..];
    }
  }

  lemma EmptyField()
    ensures ParseInt("") == None
  {
  }

  lemma ShowMinus(k: int)
    requires k > 0
    ensures Show(-k) == "-" + Show(k)
  {
  }

  // Replacing the hours by a number.
  lemma HoursReplaced(s: string, h: nat, n: int, z: string)
    requires s == Two(h) + z && |Two(h)| == 2 && ParseInt(Two(h)) == Some(h)
    ensures Rewritten(s, 0, n) == Show(h + n) + z
  {
    hide Two, Show, ParseInt, Rewritten;
    Cut(s, [], Two(h), z, 0, n);
  }

  // With "-" between the fields, hours spun below zero are cut in two: their number
  // is read as minutes and the minutes as seconds.
  lemma MinusHours(o: Options, t: int, n: int)
    requires o.separator == '-' && HourOf(t) + n < 0
    ensures Raw(o, Rewritten(FormatTime(o, t), 0, n)) == Some(NewTime(60 * -(HourOf(t) + n) + MinuteOf(t)))
  {
    hide HourOf, MinuteOf, SecondOf, Two, Show, ParseInt, NewTime, Rewritten, Raw;
    var l := PartsOf(t);
    var k, h, m := -(HourOf(t) + n), HourOf(t), MinuteOf(t);
    TwoWithout(h, '-');
    TwoWithout(m, '-');
    ParseShow(k);
    ShowWithout(k, '-');
    ShowMinus(k);
    var tail := if o.showSeconds then ['-'] + Two(SecondOf(t)) else [];
    assert FormatTime(o, t) == Two(h) + ("-" + Two(m) + tail);
    HoursReplaced(FormatTime(o, t), h, n, "-" + Two(m) + tail);
    assert Show(-k) + ("-" + Two(m) + tail) == "-" + Show(k) + "-" + Two(m) + tail;
    RawMinus(o, Show(k), Two(m), tail, k, m);
  }

  // Minutes below zero are read as seconds, after no minutes ...
  lemma MinusMinutes(o: Options, t: int, n: int)
    requires o.separator == '-' && MinuteOf(t) + n < 0
    ensures Raw(o, Rewritten(FormatTime(o, t), 1, n)) == Some(NewTime(3600 * HourOf(t) - (MinuteOf(t) + n)))
  {
    hide HourOf, MinuteOf, SecondOf, Two, Show, ParseInt, NewTime, Rewritten, Raw;
    var l := PartsOf(t);
    var k, h, m := -(MinuteOf(t) + n), HourOf(t), MinuteOf(t);
    TwoWithout(h, '-');
    TwoWithout(m, '-');
    ParseShow(k);
    ShowWithout(k, '-');
    ShowMinus(k);
    var tail := if o.showSeconds then ['-'] + Two(SecondOf(t)) else [];
    assert FormatTime(o, t) == (Two(h) + "-") + Two(m) + tail;
    Cut(FormatTime(o, t), Two(h) + "-", Two(m), tail, 1, n);
    assert (Two(h) + "-") + Show(-k) + tail == Two(h) + "-" + ("-" + Show(k) + tail);
    RawSecond(o, Two(h), Show(k), tail, h, k);
  }

  lemma RawSecond(o: Options, p: string, x: string, tail: string, h: int, k: int)
    requires o.separator == '-' && Without(p, '-') && Without(x, '-')
    requires ParseInt(p) == Some(h) && ParseInt(x) == Some(k) && (tail == [] || tail[0] == '-')
    ensures Raw(o, p + "-" + ("-" + x + tail)) == Some(NewTime(3600 * h + k))
  {
    hide ParseInt, NewTime, Split;
    var rest := x + tail;
    SplitFirst(p, '-', "-" + rest);
    SplitFirst([], '-', rest);
    FirstPart(x, tail);
    EmptyField();
    assert "-" + rest == [] + ['-'] + rest;
    assert p + "-" + ("-" + x + tail) == p + ['-'] + ("-" + rest);
  }

  // ... and seconds below zero as a fourth field, after no seconds.
  lemma MinusSeconds(o: Options, t: int, n: int)
    requires o.separator == '-' && o.showSeconds && SecondOf(t) + n < 0
    ensures Raw(o, Rewritten(FormatTime(o, t), 2, n)) == Some(NewTime(3600 * HourOf(t) + 60 * MinuteOf(t)))
  {
    hide HourOf, MinuteOf, SecondOf, Two, Show, ParseInt, NewTime, Rewritten, Raw;
    var l := PartsOf(t);
    var k, h, m, r := -(SecondOf(t) + n), HourOf(t), MinuteOf(t), SecondOf(t);
    TwoWithout(h, '-');
    TwoWithout(m, '-');
    TwoWithout(r, '-');
    ShowMinus(k);
    var x := Two(h) + "-" + Two(m) + "-";
    assert FormatTime(o, t) == x + Two(r) + [];
    Cut(FormatTime(o, t), x, Two(r), [], 2, n);
    assert x + Show(-k) + [] == Two(h) + "-" + (Two(m) + "-" + ("-" + Show(k)));
    RawThird(o, Two(h), Two(m), Show(k), h, m);
  }

  lemma RawThird(o: Options, p: string, q: string, x: string, h: int, m: int)
    requires o.separator == '-' && Without(p, '-') && Without(q, '-')
    requires ParseInt(p) == Some(h) && ParseInt(q) == Some(m)
    ensures Raw(o, p + "-" + (q + "-" + ("-" + x))) == Some(NewTime(3600 * h + 60 * m))
  {
    hide ParseInt, NewTime, Split;
    SplitFirst(p, '-', q + ['-'] + ("-" + x));
    SplitFirst(q, '-', "-" + x);
    SplitFirst([], '-', x);
    EmptyField();
    assert "-" + x == [] + ['-'] + x;
    assert p + "-" + (q + "-" + ("-" + x)) == p + ['-'] + (q + ['-'] + ("-" + x));
  }

  // ---------------------------------------------------------------- what an arrow does

  // The field is one of those shown. A digit is no separator.
  predicate Spins(o: Options, h: nat) {
    !IsDigit(o.separator) && (h < 2 || (h == 2 && o.showSeconds))
  }

  // The sign of the new number is taken for a separator.
  predicate IsCut(o: Options, t: int, h: nat, n: int) {
    o.separator == '-' && FieldOf(t, h) + n < 0
  }

  // The time that the rewritten text names.
  function Named(o: Options, t: int, h: nat, n: int): int {
    if !IsCut(o, t, h, n) then Turned(o, t, h, n)
    else if h == 0 then 60 * -(HourOf(t) + n) + MinuteOf(t)
    else if h == 1 then 3600 * HourOf(t) - (MinuteOf(t) + n)
    else 3600 * HourOf(t) + 60 * MinuteOf(t)
  }

  lemma RewriteNames(o: Options, t: int, h: nat, n: int)
    requires Spins(o, h)
    ensures Raw(o, Rewritten(FormatTime(o, t), h, n)) == Some(NewTime(Named(o, t, h, n)))
  {
    hide HourOf, MinuteOf, SecondOf, FormatTime, Rewritten, Raw, NewTime, Turned;
    if !IsCut(o, t, h, n) {
      RewriteTurned(o, t, h, n);
    } else if h == 0 {
      MinusHours(o, t, n);
    } else if h == 1 {
      MinusMinutes(o, t, n);
    } else {
      MinusSeconds(o, t, n);
    }
  }

  // Whether a text cut at the number -k in field h still names the time meant.
  predicate Lucky(o: Options, t: int, h: nat, k: int) {
    if h == 0 then
      && k % 60 == MinuteOf(t) && (k / 60) % 24 == (-k) % 24
      && (o.showSeconds ==> MinuteOf(t) == SecondOf(t))
    else if h == 1 then
      && (k / 60) % 60 == (-k) % 60 && (k / 3600) % 24 == ((-k) / 60) % 24
      && (o.showSeconds ==> k % 60 == SecondOf(t))
    else
      k % 86400 == 0
  }

  // The number at a place of a printed time.
  lemma FieldsShown(o: Options, t: int)
    ensures |FormatTime(o, t)| == if o.showSeconds then 8 else 5
    ensures FormatTime(o, t)[..2] == Two(HourOf(t)) && FormatTime(o, t)[3..5] == Two(MinuteOf(t))
    ensures o.showSeconds ==> FormatTime(o, t)[6..8] == Two(SecondOf(t))
  {
    hide HourOf, MinuteOf, SecondOf, Two;
    var l := PartsOf(t);
    TwoDigits(HourOf(t));
    TwoDigits(MinuteOf(t));
    TwoDigits(SecondOf(t));
  }

  // Times look the same exactly when their shown parts are the same.
  lemma SameText(o: Options, u: int, v: int)
    ensures FormatTime(o, u) == FormatTime(o, v) <==>
      HourOf(u) == HourOf(v) && MinuteOf(u) == MinuteOf(v) && (o.showSeconds ==> SecondOf(u) == SecondOf(v))
  {
    hide HourOf, MinuteOf, SecondOf, Two;
    if FormatTime(o, u) == FormatTime(o, v) {
      hide FormatTime;
      FieldsShown(o, u);
      FieldsShown(o, v);
      var k := PartsOf(u);
      var l := PartsOf(v);
      SameTwo(HourOf(u), HourOf(v));
      SameTwo(MinuteOf(u), MinuteOf(v));
      SameTwo(SecondOf(u), SecondOf(v));
    }
  }

  lemma SameTwo(a: nat, b: nat)
    ensures Two(a) == Two(b) <==> a == b
  {
    hide Two, ParseInt;
    ParseTwo(a);
    ParseTwo(b);
  }

  lemma SameRest(x: int, y: int, z: int)
    ensures (z + x) % 24 == (z + y) % 24 <==> x % 24 == y % 24
  {
    var a, b, c, d := (z + x) / 24, (z + y) / 24, x / 24, y / 24;
    assert z + x == 24 * a + (z + x) % 24 && z + y == 24 * b + (z + y) % 24;
    assert x == 24 * c + x % 24 && y == 24 * d + y % 24;
  }

  lemma CutHours(o: Options, t: int, n: int, k: int)
    requires k > 0 && HourOf(t) + n == -k
    ensures FormatTime(o, 60 * k + MinuteOf(t)) == FormatTime(o, t + 3600 * n) <==> Lucky(o, t, 0, k)
  {
    hide HourOf, MinuteOf, SecondOf, FormatTime;
    var l := PartsOf(t);
    var h, m, a := HourOf(t), MinuteOf(t), k / 60;
    assert k == 60 * a + k % 60 && a == 24 * (a / 24) + a % 24;
    PartsAre(a / 24, a % 24, k % 60, m, 60 * k + m);
    assert -k == 24 * ((-k) / 24) + (-k) % 24;
    PartsAre(l + (-k) / 24, (-k) % 24, m, SecondOf(t), t + 3600 * n);
    SameText(o, 60 * k + m, t + 3600 * n);
  }

  lemma CutMinutes(o: Options, t: int, n: int, k: int)
    requires k > 0 && MinuteOf(t) + n == -k
    ensures FormatTime(o, 3600 * HourOf(t) + k) == FormatTime(o, t + 60 * n) <==> Lucky(o, t, 1, k)
  {
    hide HourOf, MinuteOf, SecondOf, FormatTime;
    var l := PartsOf(t);
    var h, a, b := HourOf(t), HourOf(t) + k / 3600, HourOf(t) + (-k) / 60;
    Sixtieths(k);
    assert a == 24 * (a / 24) + a % 24 && b == 24 * (b / 24) + b % 24;
    PartsAre(a / 24, a % 24, (k / 60) % 60, k % 60, 3600 * h + k);
    assert -k == 60 * ((-k) / 60) + (-k) % 60;
    PartsAre(l + b / 24, b % 24, (-k) % 60, SecondOf(t), t + 60 * n);
    SameRest(k / 3600, (-k) / 60, h);
    SameText(o, 3600 * h + k, t + 60 * n);
  }

  lemma Sixtieths(k: int)
    ensures k == 3600 * (k / 3600) + 60 * ((k / 60) % 60) + k % 60
  {
    assert k / 3600 == (k / 60) / 60;
  }

  lemma CutSeconds(o: Options, t: int, n: int, k: int)
    requires k > 0 && SecondOf(t) + n == -k && o.showSeconds
    ensures FormatTime(o, 3600 * HourOf(t) + 60 * MinuteOf(t)) == FormatTime(o, t + n) <==> Lucky(o, t, 2, k)
  {
    hide HourOf, MinuteOf, SecondOf, FormatTime;
    var l := PartsOf(t);
    var h, m := HourOf(t), MinuteOf(t);
    var u := 3600 * h + 60 * m;
    PartsAre(0, h, m, 0, u);
    SameText(o, u, t + n);
    if k % 86400 == 0 {
      PartsAre(l - k / 86400, h, m, 0, t + n);
    }
    var c := PartsOf(t + n);
    if FormatTime(o, u) == FormatTime(o, t + n) {
      assert k == 86400 * (l - c);
    }
  }

  // The text names a valid date, and is not cut unless by luck.
  predicate Adds(o: Options, t: int, h: nat, n: int) {
    InSpan(Named(o, t, h, n)) && (IsCut(o, t, h, n) ==> Lucky(o, t, h, -(FieldOf(t, h) + n)))
  }

  lemma NamedShows(o: Options, t: int, h: nat, n: int)
    requires Spins(o, h)
    ensures FormatTime(o, Named(o, t, h, n)) == FormatTime(o, t + n * Unit(h))
      <==> (IsCut(o, t, h, n) ==> Lucky(o, t, h, -(FieldOf(t, h) + n)))
  {
    hide HourOf, MinuteOf, SecondOf, FormatTime, Lucky, Turned;
    var k := -(FieldOf(t, h) + n);
    if !IsCut(o, t, h, n) {
      var l, r := TurnedIs(o, t, h, n);
      SameShown(o, Turned(o, t, h, n), t + n * Unit(h), l, r);
    } else if h == 0 {
      CutHours(o, t, n, k);
    } else if h == 1 {
      CutMinutes(o, t, n, k);
    } else {
      CutSeconds(o, t, n, k);
    }
  }

  // Without limits, an arrow adds n units to the field, modulo one day: hours,
  // minutes and seconds carry and borrow. It does so exactly when the text then
  // names a date that is valid, and no sign is taken for a separator, luck aside.
  lemma SpinAdds(o: Options, t: int, h: nat, n: int)
    requires Spins(o, h) && o.min == "" && o.max == ""
    ensures Shown(o, Rewritten(FormatTime(o, t), h, n)) == FormatTime(o, t + n * Unit(h)) <==> Adds(o, t, h, n)
  {
    hide FormatTime, Rewritten, Unit, Named, InSpan, Spins, IsCut, Lucky, FieldOf;
    RewriteNames(o, t, h, n);
    NamedShows(o, t, h, n);
    if !InSpan(Named(o, t, h, n)) {
      InvalidShown(o, t + n * Unit(h));
    }
  }

  // The opposite arrow takes such a press back exactly when it adds in turn.
  lemma SpinBack(o: Options, t: int, h: nat, n: int)
    requires Spins(o, h) && o.min == "" && o.max == "" && Adds(o, t, h, n)
    ensures Shown(o, Rewritten(Shown(o, Rewritten(FormatTime(o, t), h, n)), h, -n)) == FormatTime(o, t)
      <==> Adds(o, t + n * Unit(h), h, -n)
  {
    hide FormatTime, Rewritten, Shown, Spins, Adds;
    SpinAdds(o, t, h, n);
    SpinAdds(o, t + n * Unit(h), h, -n);
    assert t + n * Unit(h) + -n * Unit(h) == t;
  }

  // With limits, what is shown is the time that the text names, moved to the limits.
  lemma SpinLimited(o: Options, t: int, h: nat, n: int)
    requires Spins(o, h)
    ensures Shown(o, Rewritten(FormatTime(o, t), h, n))
      == Format(o, Clamp(NewTime(Named(o, t, h, n)), Raw(o, o.min), Raw(o, o.max)))
  {
    hide FormatTime, Rewritten, Named, Raw, Clamp, Format, NewTime;
    RewriteNames(o, t, h, n);
  }

  // One hour before half past midnight is shown as one minute past it.
  lemma MinusWrong(o: Options)
    requires o.separator == '-' && o.min == "" && o.max == ""
    ensures Shown(o, Rewritten(FormatTime(o, 1800), 0, -1)) == FormatTime(o, 90) != FormatTime(o, 1800 - 3600)
  {
    hide Rewritten, FormatTime;
    MinusHours(o, 1800, -1);
    SameText(o, 90, -1800);
  }

  // ---------------------------------------------------------------- limits

  // A valid time within the limits that are set.
  ghost predicate Between(m: Moment, low: Option<Moment>, high: Option<Moment>) {
    && m.Moment?
    && (low.Some? ==> low.value.Moment? && low.value.time <= m.time)
    && (high.Some? ==> high.value.Moment? && m.time <= high.value.time)
  }

  // The limits that are set are valid and in order.
  predicate InOrder(low: Option<Moment>, high: Option<Moment>) {
    && (low.Some? ==> low.value.Moment?) && (high.Some? ==> high.value.Moment?)
    && (low.Some? && high.Some? ==> low.value.time <= high.value.time)
  }

  // A text parses to a time within the limits exactly when it names a valid time and
  // the limits are in order, one, both or none of them set; it is then the nearest
  // such time. Only the empty text parses to nothing.
  lemma Limited(o: Options, s: string)
    ensures Parse(o, s) == None <==> s == ""
    ensures s != "" ==> Raw(o, s).Some?
    ensures var low, high := Raw(o, o.min), Raw(o, o.max);
      s != "" ==>
        var m, raw := Parse(o, s).value, Raw(o, s).value;
        && (Between(m, low, high) <==> raw.Moment? && InOrder(low, high))
        && (Between(raw, low, high) ==> m == raw)
        && (Between(m, low, high) ==>
              forall u :: Between(Moment(u), low, high) ==> Away(m.time, raw.time) <= Away(u, raw.time))
  {
    hide Split, Field;
  }

  // Of limits out of order the upper one holds; one that is an invalid date is as good
  // as not set, and an invalid time stays one.
  lemma OutOfOrder(o: Options, s: string)
    requires s != ""
    ensures var low, high, raw := Raw(o, o.min), Raw(o, o.max), Raw(o, s).value;
      && (raw == Invalid ==> Parse(o, s) == Some(Invalid))
      && (raw.Moment? && low.Some? && high.Some? && Later(low.value, high.value) ==> Parse(o, s) == high)
      && (low == Some(Invalid) ==> Parse(o, s) == Parse(o.(min := ""), s))
      && (high == Some(Invalid) ==> Parse(o, s) == Parse(o.(max := ""), s))
  {
    hide Split, Field;
  }

  function Away(t: int, u: int): int {
    if t < u then u - t else t - u
  }

  // Too many hours for a Date: limits or not, the time is invalid.
  lemma TooLong(o: Options)
    requires !IsDigit(o.separator)
    ensures Parse(o, Show(9999999999) + [o.separator] + Two(0)) == Some(Invalid)
  {
    hide Split, ParseInt, Show, Two;
    ParseShow(9999999999);
    ShowWithout(9999999999, o.separator);
    TwoWithout(0, o.separator);
    RawTwo(o, Show(9999999999), Two(0), 9999999999, 0);
  }
}
