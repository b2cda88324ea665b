// A number box: a value is printed with a prefix, grouped digits and a suffix, and
// the text is parsed back to a fixed-point value.

module NumberBox {
  import opened Common
  import opened Text
  import opened NumberText

  // The affixes and separators are single characters here. maxDigits belongs to the
  // engine: the most digits its toFixed prints, 20 where section 15.7.4.5 is not extended.
  datatype Options = Options(prefix: Option<char>, suffix: Option<char>, group: Option<char>, decimal: char,
                             precision: nat, min: Option<Dec>, max: Option<Dec>, maxDigits: nat)

  // ---------------------------------------------------------------- grouping digits

  // What the replacement text "$1" + g + "$2" puts in place of the last three digits
  // of a run: with "$" for g it reads $1, a literal "$" (written "$$") and a literal "2".
  function Joined(g: char, three: string): string {
    [g] + if g == '$' then "2" else three
  }

  // The digits with a separator before every third one from the right.
  function GroupDigits(d: string, g: char): string {
    if |d| <= 3 then d else GroupDigits(d[..|d| - 3], g) + Joined(g, d[|d| - 3..])
  }

  // A text with each run of digits grouped.
  function GroupAll(s: string, g: char): string {
    if s == [] then []
    else if !IsDigit(s[0]) then [s[0]] + GroupAll(s[1..], g)
    else
      LeadingLength(s);
      GroupDigits(LeadingDigits(s), g) + GroupAll(s[|LeadingDigits(s)|..], g)
  }

  // Where (\d+)(\d{3}) splits the text: three digits before the end of the first
  // run of four or more.
  function SplitPlace(s: string): (r: Option<nat>)
    ensures r.Some? ==> r.value + 3 <= |s|
  {
    if s == [] then None
    else if !IsDigit(s[0]) then Later(1, SplitPlace(s[1..]))
    else
      var d := LeadingDigits(s);
      LeadingLength(s);
      if |d| >= 4 then Some(|d| - 3) else Later(|d|, SplitPlace(s[|d|..]))
  }

  function Later(n: nat, r: Option<nat>): Option<nat> {
    if r.Some? then Some(n + r.value) else None
  }

  lemma {:induction false} LeadingPrefix(s: string)
    ensures var d := LeadingDigits(s); |d| <= |s| && s[..|d|] == d && (|d| < |s| ==> !IsDigit(s[|d|]))
  {
    if s != [] && IsDigit(s[0]) {
      LeadingPrefix(s[1..]);
      assert s == [s[0]] + s[1..];
    }
  }

  lemma GroupRun(d: string, rest: string, g: char)
    requires d != [] && AllDigits(d) && (rest == [] || !IsDigit(rest[0]))
    ensures GroupAll(d + rest, g) == GroupDigits(d, g) + GroupAll(rest, g)
  {
    DigitsThen(d, rest);
    assert (d + rest)[|d|..] == rest;
  }

  lemma GroupOther(c: char, rest: string, g: char)
    requires !IsDigit(c)
    ensures GroupAll([c] + rest, g) == [c] + GroupAll(rest, g)
  {
    assert ([c] + rest)[1..] == rest;
  }

  // The text after one round of the loop at place p.
  function Replaced(s: string, p: nat, g: char): string
    requires p + 3 <= |s|
  {
    s[..p] + Joined(g, s[p..p + 3]) + s[p + 3..]
  }

  // The digits put after the separator.
  function After(g: char, three: string): string {
    if g == '$' then "2" else three
  }

  lemma FewDigits(d: string, g: char)
    requires |d| <= 3
    ensures GroupDigits(d, g) == d
  {
  }

  lemma JoinedThen(g: char, three: string, rest: string)
    requires !IsDigit(g) && |three| == 3 && AllDigits(three) && (rest == [] || !IsDigit(rest[0]))
    ensures GroupAll(Joined(g, three) + rest, g) == Joined(g, three) + GroupAll(rest, g)
  {
    hide GroupAll, GroupDigits;
    var y := After(g, three);
    FewDigits(y, g);
    GroupRun(y, rest, g);
    GroupOther(g, y + rest, g);
    Reassociated([g], y, rest);
    Reassociated([g], y, GroupAll(rest, g));
  }

  lemma CutThree(x: string, three: string, rest: string, g: char)
    requires |three| == 3
    ensures Replaced((x + three) + rest, |x|, g) == x + (Joined(g, three) + rest)
  {
    hide Joined;
    var s := (x + three) + rest;
    assert s[..|x|] == x && s[|x|..|x| + 3] == three && s[|x| + 3..] == rest;
    Reassociated(x, Joined(g, three), rest);
  }

  lemma LastThree(d: string, g: char)
    requires |d| >= 4
    ensures d == d[..|d| - 3] + d[|d| - 3..]
    ensures GroupDigits(d, g) == GroupDigits(d[..|d| - 3], g) + Joined(g, d[|d| - 3..])
  {
  }

  lemma InsertRun(d: string, rest: string, g: char)
    requires |d| >= 4 && AllDigits(d) && (rest == [] || !IsDigit(rest[0])) && !IsDigit(g)
    ensures GroupAll(Replaced(d + rest, |d| - 3, g), g) == GroupAll(d + rest, g)
  {
    hide GroupAll, Joined, GroupDigits, Replaced;
    var x, y := d[..|d| - 3], d[|d| - 3..];
    LastThree(d, g);
    CutThree(x, y, rest, g);
    JoinedThen(g, y, rest);
    JoinedFirst(g, y);
    GroupRun(x, Joined(g, y) + rest, g);
    GroupRun(d, rest, g);
    Reassociated(GroupDigits(x, g), Joined(g, y), GroupAll(rest, g));
  }

  lemma JoinedFirst(g: char, three: string)
    ensures Joined(g, three) != [] && Joined(g, three)[0] == g
  {
  }

  lemma InsertAfterRun(d: string, rest: string, q: nat, g: char)
    requires d != [] && AllDigits(d) && rest != [] && !IsDigit(rest[0]) && 1 <= q && q + 3 <= |rest|
    requires GroupAll(Replaced(rest, q, g), g) == GroupAll(rest, g)
    ensures GroupAll(Replaced(d + rest, |d| + q, g), g) == GroupAll(d + rest, g)
  {
    hide GroupAll, Joined;
    ReplacedLater(d, rest, q, g);
    assert Replaced(rest, q, g)[0] == rest[0];
    GroupRun(d, Replaced(rest, q, g), g);
    GroupRun(d, rest, g);
  }

  lemma ReplacedLater(x: string, rest: string, q: nat, g: char)
    requires q + 3 <= |rest|
    ensures Replaced(x + rest, |x| + q, g) == x + Replaced(rest, q, g)
  {
    hide Joined;
    var s := x + rest;
    assert s[|x| + q..|x| + q + 3] == rest[q..q + 3];
    assert s[|x| + q + 3..] == rest[q + 3..];
    assert s[..|x| + q] == x + rest[..q];
  }

  lemma InsertAfterOther(c: char, rest: string, q: nat, g: char)
    requires !IsDigit(c) && q + 3 <= |rest| && GroupAll(Replaced(rest, q, g), g) == GroupAll(rest, g)
    ensures GroupAll(Replaced([c] + rest, 1 + q, g), g) == GroupAll([c] + rest, g)
  {
    hide GroupAll, Replaced;
    ReplacedLater([c], rest, q, g);
    GroupOther(c, Replaced(rest, q, g), g);
    GroupOther(c, rest, g);
  }

  lemma LaterPlace(s: string)
    requires s != [] && !IsDigit(s[0]) && SplitPlace(s).Some?
    ensures SplitPlace(s).value >= 1
  {
  }

  // One round of the loop does not change what the digits group to.
  lemma {:induction false} InsertGrouped(s: string, g: char)
    requires !IsDigit(g) && SplitPlace(s).Some?
    ensures GroupAll(Replaced(s, SplitPlace(s).value, g), g) == GroupAll(s, g)
    decreases |s|
  {
    hide GroupAll, Replaced;
    if !IsDigit(s[0]) {
      InsertGrouped(s[1..], g);
      InsertAfterOther(s[0], s[1..], SplitPlace(s[1..]).value, g);
      assert s == [s[0]] + s[1..];
    } else {
      LeadingPrefix(s);
      var d := LeadingDigits(s);
      var rest := s[|d|..];
      assert s == d + rest;
      if |d| >= 4 {
        InsertRun(d, rest, g);
      } else {
        InsertGrouped(rest, g);
        LaterPlace(rest);
        InsertAfterRun(d, rest, SplitPlace(rest).value, g);
      }
    }
  }

  lemma {:induction false} NothingToInsert(s: string, g: char)
    requires SplitPlace(s) == None
    ensures GroupAll(s, g) == s
    decreases |s|
  {
    if s != [] {
      if !IsDigit(s[0]) {
        NothingToInsert(s[1..], g);
      } else {
        LeadingPrefix(s);
        NothingToInsert(s[|LeadingDigits(s)|..], g);
      }
    }
  }

  // How many digits stand in front of the last three of their runs.
  ghost function Excess(s: string): nat {
    if s == [] then 0
    else if !IsDigit(s[0]) then Excess(s[1..])
    else
      LeadingLength(s);
      var n := |LeadingDigits(s)|;
      (if n > 3 then n - 3 else 0) + Excess(s[n..])
  }

  lemma ExcessRun(d: string, rest: string)
    requires d != [] && AllDigits(d) && (rest == [] || !IsDigit(rest[0]))
    ensures Excess(d + rest) == (if |d| > 3 then |d| - 3 else 0) + Excess(rest)
  {
    DigitsThen(d, rest);
    assert (d + rest)[|d|..] == rest;
  }

  lemma ExcessOther(c: char, rest: string)
    requires !IsDigit(c)
    ensures Excess([c] + rest) == Excess(rest)
  {
    assert ([c] + rest)[1..] == rest;
  }

  lemma ExcessRunLess(d: string, rest: string, g: char)
    requires |d| >= 4 && AllDigits(d) && (rest == [] || !IsDigit(rest[0])) && !IsDigit(g)
    ensures Excess(Replaced(d + rest, |d| - 3, g)) < Excess(d + rest)
  {
    hide Excess, Replaced;
    var x, y := d[..|d| - 3], d[|d| - 3..];
    var w := After(g, y);
    LastThree(d, g);
    CutThree(x, y, rest, g);
    Reassociated([g], w, rest);
    ExcessRun(w, rest);
    ExcessOther(g, w + rest);
    ExcessRun(x, [g] + (w + rest));
    ExcessRun(d, rest);
  }

  // Each round leaves fewer digits to separate.
  lemma {:induction false} ExcessLess(s: string, g: char)
    requires !IsDigit(g) && SplitPlace(s).Some?
    ensures Excess(Replaced(s, SplitPlace(s).value, g)) < Excess(s)
    decreases |s|
  {
    hide Excess, Replaced;
    if !IsDigit(s[0]) {
      var q := SplitPlace(s[1..]).value;
      ExcessLess(s[1..], g);
      ReplacedLater([s[0]], s[1..], q, g);
      ExcessOther(s[0], s[1..]);
      ExcessOther(s[0], Replaced(s[1..], q, g));
      assert s == [s[0]] + s[1..];
    } else {
      LeadingPrefix(s);
      var d := LeadingDigits(s);
      var rest := s[|d|..];
      assert s == d + rest;
      if |d| >= 4 {
        ExcessRunLess(d, rest, g);
      } else {
        var q := SplitPlace(rest).value;
        ExcessLess(rest, g);
        LaterPlace(rest);
        ReplacedFirst(rest, q, g);
        ReplacedLater(d, rest, q, g);
        ExcessRun(d, rest);
        ExcessRun(d, Replaced(rest, q, g));
      }
    }
  }

  lemma ReplacedFirst(s: string, q: nat, g: char)
    requires 1 <= q && q + 3 <= |s|
    ensures Replaced(s, q, g) != [] && Replaced(s, q, g)[0] == s[0]
  {
    hide Joined;
  }

  // The formatter's loop: it ends, with every run of digits grouped.
  method Group(s: string, g: char) returns (r: string)
    requires !IsDigit(g)
    ensures r == GroupAll(s, g)
  {
    r := s;
    var p := SplitPlace(r);
    while p.Some?
      invariant p == SplitPlace(r) && GroupAll(r, g) == GroupAll(s, g)
      decreases Excess(r)
    {
      InsertGrouped(r, g);
      ExcessLess(r, g);
      r := r[..p.value] + Joined(g, r[p.value..p.value + 3]) + r[p.value + 3..];
      p := SplitPlace(r);
    }
    NothingToInsert(r, g);
  }

  lemma {:induction false} DigitsLonger(d: string, g: char)
    requires g != '$'
    ensures |GroupDigits(d, g)| >= |d|
  {
    if |d| > 3 {
      DigitsLonger(d[..|d| - 3], g);
    }
  }

  // The separators stand at every fourth place from the right, the digits keep
  // their order, and no separator comes first.
  lemma {:induction false} GroupPlaces(d: string, g: char, k: nat)
    requires k < |GroupDigits(d, g)| && g != '$'
    ensures var r := GroupDigits(d, g);
      if k % 4 == 3 then r[|r| - 1 - k] == g && k + 1 < |r|
      else k - k / 4 < |d| && r[|r| - 1 - k] == d[|d| - 1 - (k - k / 4)]
    decreases |d|
  {
    hide GroupDigits;
    if |d| <= 3 {
      FewDigits(d, g);
      assert k / 4 == 0 && k % 4 == k;
    } else {
      var x, y := d[..|d| - 3], d[|d| - 3..];
      var r, rest := GroupDigits(d, g), GroupDigits(x, g);
      LastThree(d, g);
      DigitsLonger(x, g);
      assert r == rest + [g] + y;
      if k >= 4 {
        GroupPlaces(x, g, k - 4);
        assert r[|r| - 1 - k] == rest[|rest| - 1 - (k - 4)];
        FourLess(k);
      } else {
        assert k / 4 == 0 && k % 4 == k;
        assert k < 3 ==> r[|r| - 1 - k] == y[2 - k];
      }
    }
  }

  lemma FourLess(k: nat)
    requires k >= 4
    ensures k % 4 == (k - 4) % 4 && k / 4 == (k - 4) / 4 + 1
  {
  }

  // ---------------------------------------------------------------- printing and parsing

  function Opt(c: Option<char>): string {
    if c.Some? then [c.value] else []
  }

  function IndexOf(s: string, c: char): (i: nat)
    ensures i <= |s|
  {
    if s == [] || s[0] == c then 0 else 1 + IndexOf(s[1..], c)
  }

  // The text of a value cut at its point.
  function Assembled(o: Options, s1: string, s2: string): string {
    var s := if o.group.Some? then GroupAll(s1, o.group.value) else s1;
    Opt(o.prefix) + s + (if s2 != [] then [o.decimal] + s2 else []) + Opt(o.suffix)
  }

  function Format(o: Options, v: string): string {
    if v == [] then []
    else
      var at := IndexOf(v, '.');
      Assembled(o, v[..at], if at < |v| then v[at + 1..] else [])
  }

  method FormatValue(o: Options, v: string) returns (r: string)
    requires o.group.Some? ==> !IsDigit(o.group.value)
    ensures r == Format(o, v)
  {
    if v == [] {
      return v;
    }
    var s1, s2 := v, [];
    var at := IndexOf(v, '.');
    assert v[..|v|] == v;
    if at < |v| {
      s1, s2 := v[..at], v[at + 1..];
    }
    if o.group.Some? {
      s1 := Group(s1, o.group.value);
    }
    if s2 != [] {
      return Opt(o.prefix) + s1 + [o.decimal] + s2 + Opt(o.suffix);
    } else {
      assert Opt(o.prefix) + s1 + [] == Opt(o.prefix) + s1;
      return Opt(o.prefix) + s1 + Opt(o.suffix);
    }
  }

  function Remove(s: string, c: char): string {
    if s == [] then [] else (if s[0] == c then [] else [s[0]]) + Remove(s[1..], c)
  }

  function Replace(s: string, c: char, d: char): string {
    if s == [] then [] else [if s[0] == c then d else s[0]] + Replace(s[1..], c, d)
  }

  function Unspaced(s: string): string {
    if s == [] then [] else (if IsSpace(s[0]) then [] else [s[0]]) + Unspaced(s[1..])
  }

  function Stripped(s: string, c: Option<char>): string {
    if c.Some? then Trim(Remove(s, c.value)) else s
  }

  // The text without affixes and separators, with a point for the decimal separator.
  function Cleaned(o: Options, s: string): string {
    Unspaced(Trim(Replace(Stripped(Stripped(Stripped(s, o.prefix), o.suffix), o.group), o.decimal, '.')))
  }

  // The value of a number, kept within the limits; None is the RangeError.
  function Limited(o: Options, d: Dec): Option<string> {
    var v := Dec(d.neg && d.mant > 0, Fixed(d, o.precision), o.precision);
    if o.min.Some? && Less(v, o.min.value) then ToFixed(o.min.value, o.precision, o.maxDigits)
    else if o.max.Some? && Less(o.max.value, v) then ToFixed(o.max.value, o.precision, o.maxDigits)
    else ToFixed(d, o.precision, o.maxDigits)
  }

  // Text that reads as a number is taken at face value. The RangeError comes whether
  // or not the text has a number.
  function Parse(o: Options, s: string): Option<string> {
    var d := ParseFloat(if Numeric(s) then s else Cleaned(o, s));
    if d.Some? then Limited(o, d.value) else if o.precision > o.maxDigits then None else Some([])
  }

  class NumberBox {
    var value: string
    var text: string
    const options: Options

    constructor (options: Options)
      requires options.group.Some? ==> !IsDigit(options.group.value)
      ensures Valid() && this.options == options && value == [] && text == []
    {
      this.options, value, text := options, [], [];
    }

    ghost predicate Valid()
      reads this
    {
      && (options.group.Some? ==> !IsDigit(options.group.value))
      && text == Format(options, value)
    }

    // Enter a value, or a text typed by the user; false is the RangeError.
    method SetValue(s: string) returns (ok: bool)
      requires Valid()
      modifies this
      ensures Valid() && (ok <==> options.precision <= options.maxDigits)
      ensures if ok then Some(value) == Parse(options, s) else value == old(value)
    {
      var v := Parse(options, s);
      ok := v.Some?;
      if ok {
        value := v.value;
        text := FormatValue(options, value);
      }
    }

    // Leaving the box enters its own text.
    method Fix() returns (ok: bool)
      requires Valid()
      modifies this
      ensures Valid() && (ok <==> options.precision <= options.maxDigits)
      ensures if ok then Some(value) == Parse(options, Format(options, old(value))) else value == old(value)
    {
      ok := SetValue(text);
    }
  }
}
