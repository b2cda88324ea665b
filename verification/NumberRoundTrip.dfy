// When parsing the text of a value gives the value back.

module NumberRoundTrip {
  import opened Common
  import opened Text
  import opened NumberText
  import opened NumberBox

  // Punctuation: the characters a backslash makes literal in a regular expression.
  predicate Mark(c: char) {
    '!' <= c <= '/' || ':' <= c <= '@' || '[' <= c <= '`' || '{' <= c <= '~'
  }

  predicate Differs(c: Option<char>, d: Option<char>) {
    c.Some? && d.Some? ==> c.value != d.value
  }

  // Affixes and separators are punctuation other than "-" and differ from each other.
  predicate Clear(o: Options) {
    && MarkOrNone(o.prefix) && MarkOrNone(o.suffix) && MarkOrNone(o.group) && MarkOrNone(Some(o.decimal))
    && Differs(o.prefix, o.suffix) && Differs(o.prefix, o.group) && Differs(o.prefix, Some(o.decimal))
    && Differs(o.suffix, o.group) && Differs(o.suffix, Some(o.decimal)) && Differs(o.group, Some(o.decimal))
  }

  predicate MarkOrNone(c: Option<char>) {
    c.Some? ==> Mark(c.value) && c.value != '-'
  }

  // Some formatted integer reads as another number at face value.
  predicate Misread(o: Options) {
    && o.precision == 0 && o.suffix == None
    && (o.prefix == Some('.') || (o.group == Some('.') && (o.prefix == None || o.prefix == Some('+'))))
  }

  // Some value's text is misread, or has lost digits where "$" is to separate them, or
  // has more digits than can be printed again.
  predicate Spoils(o: Options) {
    o.precision > o.maxDigits || o.group == Some('$') || Misread(o)
  }

  predicate Lacks(s: string, c: Option<char>) {
    c.Some? ==> Without(s, c.value)
  }

  predicate NoSpaces(s: string) {
    forall i :: 0 <= i < |s| ==> !IsSpace(s[i])
  }

  // ---------------------------------------------------------------- removing and replacing

  lemma {:induction false} RemoveConcat(p: string, q: string, c: char)
    ensures Remove(p + q, c) == Remove(p, c) + Remove(q, c)
  {
    if p == [] {
      assert p + q == q;
    } else {
      assert (p + q)[1..] == p[1..] + q;
      RemoveConcat(p[1..], q, c);
    }
  }

  lemma {:induction false} RemoveNone(s: string, c: char)
    requires Without(s, c)
    ensures Remove(s, c) == s
  {
    if s != [] {
      RemoveNone(s[1..], c);
    }
  }

  lemma RemoveOne(c: char)
    ensures Remove([c], c) == []
  {
    assert [c][1..] == [];
  }

  lemma {:induction false} ReplaceConcat(p: string, q: string, c: char, d: char)
    ensures Replace(p + q, c, d) == Replace(p, c, d) + Replace(q, c, d)
  {
    if p == [] {
      assert p + q == q;
    } else {
      assert (p + q)[1..] == p[1..] + q;
      ReplaceConcat(p[1..], q, c, d);
    }
  }

  lemma {:induction false} ReplaceNone(s: string, c: char, d: char)
    requires Without(s, c)
    ensures Replace(s, c, d) == s
  {
    if s != [] {
      ReplaceNone(s[1..], c, d);
    }
  }

  lemma {:induction false} ReversedConcat(p: string, q: string)
    ensures Reversed(p + q) == Reversed(q) + Reversed(p)
  {
    if p == [] {
      assert p + q == q;
    } else {
      assert (p + q)[1..] == p[1..] + q;
      ReversedConcat(p[1..], q);
    }
  }

  lemma {:induction false} ReversedTwice(s: string)
    ensures Reversed(Reversed(s)) == s
  {
    if s != [] {
      ReversedTwice(s[1..]);
      ReversedConcat(Reversed(s[1..]), [s[0]]);
      assert [s[0]][1..] == [] && Reversed([s[0]]) == [s[0]];
    }
  }

  lemma {:induction false} ReversedFirst(s: string)
    requires s != []
    ensures Reversed(s) != [] && Reversed(s)[0] == s[|s| - 1]
  {
    if |s| > 1 {
      ReversedFirst(s[1..]);
    }
  }

  lemma TrimNone(s: string)
    requires NoSpaces(s)
    ensures Trim(s) == s
  {
    if s != [] {
      ReversedFirst(s);
      ReversedTwice(s);
    }
  }

  lemma {:induction false} UnspacedNone(s: string)
    requires NoSpaces(s)
    ensures Unspaced(s) == s
  {
    if s != [] {
      UnspacedNone(s[1..]);
    }
  }

  // Stripping an affix at the front, at the back, or one that is not there.
  lemma StripFront(s: string, c: Option<char>)
    requires Lacks(s, c) && NoSpaces(s)
    ensures Stripped(Opt(c) + s, c) == s
  {
    if c.Some? {
      RemoveConcat([c.value], s, c.value);
      RemoveOne(c.value);
      RemoveNone(s, c.value);
    }
    TrimNone(s);
    assert [] + s == s;
  }

  lemma StripBack(s: string, c: Option<char>)
    requires Lacks(s, c) && NoSpaces(s)
    ensures Stripped(s + Opt(c), c) == s
  {
    if c.Some? {
      RemoveConcat(s, [c.value], c.value);
      RemoveOne(c.value);
      RemoveNone(s, c.value);
    }
    TrimNone(s);
    assert s + [] == s;
  }

  // ---------------------------------------------------------------- grouped digits

  lemma RemoveBetween(x: string, g: char, y: string)
    requires Without(y, g)
    ensures Remove(x + ([g] + y), g) == Remove(x, g) + y
  {
    hide Remove;
    RemoveConcat(x, [g] + y, g);
    RemoveConcat([g], y, g);
    RemoveOne(g);
    RemoveNone(y, g);
  }

  lemma {:induction false} Ungroup(d: string, g: char)
    requires AllDigits(d) && !IsDigit(g) && g != '$'
    ensures Remove(GroupDigits(d, g), g) == d
  {
    hide Remove, GroupDigits;
    if |d| <= 3 {
      FewDigits(d, g);
      RemoveNone(d, g);
    } else {
      LastThree(d, g);
      Ungroup(d[..|d| - 3], g);
      RemoveBetween(GroupDigits(d[..|d| - 3], g), g, d[|d| - 3..]);
    }
  }

  // Only digits and the separator.
  lemma {:induction false} GroupChars(d: string, g: char)
    requires AllDigits(d)
    ensures forall i :: 0 <= i < |GroupDigits(d, g)| ==> IsDigit(GroupDigits(d, g)[i]) || GroupDigits(d, g)[i] == g
  {
    if |d| > 3 {
      GroupChars(d[..|d| - 3], g);
    }
  }

  lemma GroupPlain(a: string, g: char)
    requires a != [] && AllDigits(a)
    ensures GroupAll(a, g) == GroupDigits(a, g)
  {
    GroupRun(a, [], g);
    assert a + [] == a && GroupAll([], g) == [];
  }

  lemma GroupSigned(neg: bool, a: string, g: char)
    requires a != [] && AllDigits(a)
    ensures GroupAll((if neg then "-" else "") + a, g) == (if neg then "-" else "") + GroupDigits(a, g)
  {
    hide GroupAll, GroupDigits;
    GroupPlain(a, g);
    if neg {
      GroupOther('-', a, g);
    } else {
      assert [] + a == a;
    }
  }

  // ---------------------------------------------------------------- the printed value

  // Sign, whole digits and fraction digits of a fixed-point value.
  ghost predicate Parts(neg: bool, n: nat, p: nat, sign: string, a: string, b: string) {
    && sign == (if neg then "-" else "") && a != [] && AllDigits(a) && AllDigits(b) && |b| == p
    && a + b == Padded(n, p) && FixedText(neg, n, p) == sign + a + if b == [] then [] else "." + b
  }

  lemma PartsOf(neg: bool, n: nat, p: nat) returns (sign: string, a: string, b: string)
    ensures Parts(neg, n, p, sign, a, b)
  {
    hide Padded;
    var m := Padded(n, p);
    sign, a, b := if neg then "-" else "", m[..|m| - p], m[|m| - p..];
    assert a + b == m;
  }

  // The whole digits as printed.
  function Whole(o: Options, a: string): string {
    if o.group.Some? then GroupDigits(a, o.group.value) else a
  }

  function Tail(o: Options, b: string): string {
    if b == [] then [] else [o.decimal] + b
  }

  lemma {:induction false} PointAt(x: string, rest: string)
    requires Without(x, '.') && (rest == [] || rest[0] == '.')
    ensures IndexOf(x + rest, '.') == |x|
  {
    if x == [] {
      assert x + rest == rest;
    } else {
      assert (x + rest)[1..] == x[1..] + rest;
      PointAt(x[1..], rest);
    }
  }

  // What the formatter cuts the value into.
  lemma CutAtPoint(v: string, x: string, b: string)
    requires v == x + (if b == [] then [] else "." + b) && Without(x, '.')
    ensures IndexOf(v, '.') == |x| <= |v| && v[..|x|] == x
    ensures (if |x| < |v| then v[|x| + 1..] else []) == b
  {
    PointAt(x, if b == [] then [] else "." + b);
  }

  // The text between the affixes.
  function Middle(o: Options, sign: string, a: string, b: string): string {
    sign + Whole(o, a) + Tail(o, b)
  }

  lemma GroupedWhole(o: Options, neg: bool, a: string)
    requires a != [] && AllDigits(a)
    ensures var sign := if neg then "-" else "";
      (if o.group.Some? then GroupAll(sign + a, o.group.value) else sign + a) == sign + Whole(o, a)
  {
    hide GroupAll, GroupDigits;
    if o.group.Some? {
      GroupSigned(neg, a, o.group.value);
    }
  }

  lemma TailIs(o: Options, b: string)
    ensures Tail(o, b) == if b != [] then [o.decimal] + b else []
  {
  }

  lemma AssembledIs(o: Options, neg: bool, sign: string, a: string, b: string)
    requires a != [] && AllDigits(a) && sign == if neg then "-" else ""
    ensures Assembled(o, sign + a, b) == Opt(o.prefix) + Middle(o, sign, a, b) + Opt(o.suffix)
  {
    hide GroupAll, Opt, Whole, Tail;
    GroupedWhole(o, neg, a);
    TailIs(o, b);
    var s, t := sign + Whole(o, a), Tail(o, b);
    assert (Opt(o.prefix) + s) + t + Opt(o.suffix) == Opt(o.prefix) + (s + t) + Opt(o.suffix);
  }

  lemma FormatParts(o: Options, neg: bool, n: nat, sign: string, a: string, b: string)
    requires Parts(neg, n, o.precision, sign, a, b)
    ensures Format(o, FixedText(neg, n, o.precision)) == Opt(o.prefix) + Middle(o, sign, a, b) + Opt(o.suffix)
  {
    hide FixedText, Assembled, IndexOf, Opt, Padded, Middle;
    var v := FixedText(neg, n, o.precision);
    assert v == sign + a + if b == [] then [] else "." + b;
    CutAtPoint(v, sign + a, b);
    AssembledIs(o, neg, sign, a, b);
  }

  // ---------------------------------------------------------------- cleaning the text

  // Made of digits, "-" and the separators.
  predicate Made(o: Options, s: string) {
    forall i :: 0 <= i < |s| ==> IsDigit(s[i]) || s[i] == '-' || Some(s[i]) == o.group || s[i] == o.decimal
  }

  lemma MiddleMade(o: Options, sign: string, a: string, b: string)
    requires AllDigits(a) && AllDigits(b) && (sign == "" || sign == "-")
    ensures Made(o, Middle(o, sign, a, b))
  {
    hide GroupDigits;
    if o.group.Some? {
      GroupChars(a, o.group.value);
    }
    assert Made(o, Whole(o, a));
    assert Made(o, Tail(o, b));
  }

  lemma MadeLacks(o: Options, s: string)
    requires Made(o, s) && Clear(o)
    ensures Lacks(s, o.prefix) && Lacks(s, o.suffix) && NoSpaces(s)
  {
  }

  lemma StripAffixes(o: Options, s: string)
    requires Made(o, s) && Clear(o)
    ensures Stripped(Stripped(Opt(o.prefix) + s + Opt(o.suffix), o.prefix), o.suffix) == s
  {
    hide Stripped;
    MadeLacks(o, s);
    SuffixLacks(o, s);
    assert Opt(o.prefix) + s + Opt(o.suffix) == Opt(o.prefix) + (s + Opt(o.suffix));
    StripFront(s + Opt(o.suffix), o.prefix);
    StripBack(s, o.suffix);
  }

  lemma SuffixLacks(o: Options, s: string)
    requires Clear(o) && Lacks(s, o.prefix) && NoSpaces(s)
    ensures Lacks(s + Opt(o.suffix), o.prefix) && NoSpaces(s + Opt(o.suffix))
  {
  }

  // What is left of the whole digits once the separators are gone.
  function Ungrouped(o: Options, a: string): string {
    if o.group.Some? then Remove(GroupDigits(a, o.group.value), o.group.value) else a
  }

  lemma UngroupedDigits(o: Options, a: string)
    requires AllDigits(a) && Clear(o)
    ensures AllDigits(Ungrouped(o, a)) && (o.group != Some('$') ==> Ungrouped(o, a) == a)
  {
    if o.group.Some? {
      hide GroupDigits;
      var g := o.group.value;
      GroupChars(a, g);
      RemoveKeeps(GroupDigits(a, g), g);
      if g != '$' {
        Ungroup(a, g);
      }
    }
  }

  lemma {:induction false} RemoveKeeps(s: string, g: char)
    requires forall i :: 0 <= i < |s| ==> IsDigit(s[i]) || s[i] == g
    ensures AllDigits(Remove(s, g))
  {
    if s != [] {
      RemoveKeeps(s[1..], g);
    }
  }

  lemma UngroupedIs(o: Options, a: string)
    requires o.group.Some?
    ensures Ungrouped(o, a) == Remove(Whole(o, a), o.group.value)
  {
  }

  lemma StripGroup(o: Options, sign: string, a: string, b: string)
    requires AllDigits(a) && AllDigits(b) && (sign == "" || sign == "-") && Clear(o)
    ensures Stripped(Middle(o, sign, a, b), o.group) == sign + Ungrouped(o, a) + Tail(o, b)
  {
    hide GroupDigits;
    var v, t := sign + Ungrouped(o, a) + Tail(o, b), Tail(o, b);
    UngroupedDigits(o, a);
    if o.group.Some? {
      hide Ungrouped;
      var g := o.group.value;
      assert Ungrouped(o, a) == Remove(Whole(o, a), g) by {
        UngroupedIs(o, a);
      }
      assert NoSpaces(v);
      RemoveConcat(sign + Whole(o, a), t, g);
      RemoveConcat(sign, Whole(o, a), g);
      RemoveNone(sign, g);
      RemoveNone(t, g);
      TrimNone(v);
    }
  }

  lemma ReplaceDecimal(o: Options, sign: string, a: string, b: string)
    requires AllDigits(a) && AllDigits(b) && (sign == "" || sign == "-") && Clear(o)
    ensures Unspaced(Trim(Replace(sign + a + Tail(o, b), o.decimal, '.'))) == sign + a + if b == [] then [] else "." + b
  {
    hide Trim, Unspaced;
    var x, t, v := sign + a, Tail(o, b), sign + a + if b == [] then [] else "." + b;
    ReplaceConcat(x, t, o.decimal, '.');
    ReplaceNone(x, o.decimal, '.');
    if b != [] {
      ReplaceConcat([o.decimal], b, o.decimal, '.');
      ReplaceNone(b, o.decimal, '.');
      assert [o.decimal][1..] == [];
    }
    assert NoSpaces(v);
    TrimNone(v);
    UnspacedNone(v);
  }

  // Stripping affixes and separators off a printed value leaves its sign, its
  // ungrouped digits and its fraction.
  lemma CleanedParts(o: Options, neg: bool, n: nat, sign: string, a: string, b: string)
    requires Clear(o) && Parts(neg, n, o.precision, sign, a, b)
    ensures Cleaned(o, Format(o, FixedText(neg, n, o.precision)))
      == sign + Ungrouped(o, a) + if b == [] then [] else "." + b
  {
    hide Format, FixedText, Stripped, Middle, Tail, Unspaced, Trim, Replace, Padded, Ungrouped;
    FormatParts(o, neg, n, sign, a, b);
    MiddleMade(o, sign, a, b);
    StripAffixes(o, Middle(o, sign, a, b));
    StripGroup(o, sign, a, b);
    UngroupedDigits(o, a);
    ReplaceDecimal(o, sign, Ungrouped(o, a), b);
  }

  lemma CleanedIs(o: Options, neg: bool, n: nat)
    requires Clear(o) && o.group != Some('$')
    ensures Cleaned(o, Format(o, FixedText(neg, n, o.precision))) == FixedText(neg, n, o.precision)
  {
    hide Format, FixedText, Padded, Cleaned, Ungrouped;
    var sign, a, b := PartsOf(neg, n, o.precision);
    CleanedParts(o, neg, n, sign, a, b);
    UngroupedDigits(o, a);
  }

  // ---------------------------------------------------------------- text taken at face value

  predicate DigitOrPoint(c: char) {
    IsDigit(c) || c == '.'
  }

  lemma UnsignedShape(u: string)
    requires ReadUnsigned(u).length == |u|
    ensures forall i :: 0 <= i < |u| ==> DigitOrPoint(u[i])
  {
    var a := LeadingDigits(u);
    LeadingPrefix(u);
    if |a| < |u| {
      var rest := u[|a| + 1..];
      LeadingPrefix(rest);
      assert rest == LeadingDigits(rest);
      assert forall i :: |a| + 1 <= i < |u| ==> u[i] == rest[i - |a| - 1];
    }
    assert forall i :: 0 <= i < |a| ==> u[i] == u[..|a|][i];
  }

  // A text that reads as a number: a sign at most in front, then digits and points.
  lemma NumericShape(s: string)
    requires NoSpaces(s) && Numeric(s)
    ensures s != [] && (DigitOrPoint(s[0]) || s[0] == '+' || s[0] == '-')
    ensures forall i :: 1 <= i < |s| ==> DigitOrPoint(s[i])
  {
    hide ReadUnsigned, Trim;
    TrimNone(s);
    var u := Unsign(s);
    UnsignedShape(u);
    if u != s {
      assert forall i :: 1 <= i < |s| ==> s[i] == u[i - 1];
    }
    if s == [] {
      EmptyReads();
    }
  }

  lemma EmptyReads()
    ensures ReadUnsigned([]).whole == [] && ReadUnsigned([]).fraction == []
  {
    assert LeadingDigits([]) == [];
  }

  lemma Inside(s: string, x: string, y: string, z: string)
    requires NoSpaces(s) && Numeric(s) && s == x + y + z && x != []
    ensures forall i :: 0 <= i < |y| ==> DigitOrPoint(y[i])
  {
    hide Numeric;
    NumericShape(s);
    assert forall i :: 0 <= i < |y| ==> y[i] == s[|x| + i];
  }

  // The text of a value: affixes, sign, whole digits and fraction.
  ghost predicate Printed(o: Options, neg: bool, a: string, b: string, s: string) {
    && a != [] && AllDigits(a) && AllDigits(b) && |b| == o.precision
    && s == Opt(o.prefix) + Middle(o, if neg then "-" else "", a, b) + Opt(o.suffix)
  }

  lemma PrintedSpaces(o: Options, neg: bool, a: string, b: string, s: string)
    requires Clear(o) && Printed(o, neg, a, b, s)
    ensures NoSpaces(s)
  {
    hide Middle;
    var x := Middle(o, if neg then "-" else "", a, b);
    MiddleMade(o, if neg then "-" else "", a, b);
    MadeLacks(o, x);
    SuffixLacks(o, x);
    PrefixSpaces(o, x + Opt(o.suffix));
    assert s == Opt(o.prefix) + (x + Opt(o.suffix));
  }

  lemma PrefixSpaces(o: Options, s: string)
    requires Clear(o) && NoSpaces(s)
    ensures NoSpaces(Opt(o.prefix) + s)
  {
  }

  lemma DigitsSome(d: string, g: char)
    requires d != []
    ensures GroupDigits(d, g) != []
  {
  }

  lemma WholeDigits(o: Options, a: string)
    requires a != [] && AllDigits(a)
    ensures Whole(o, a) != []
    ensures Whole(o, a) != a ==> o.group.Some? && exists i :: 0 < i < |Whole(o, a)| && Whole(o, a)[i] == o.group.value
  {
    if o.group.Some? && |a| > 3 {
      var x := GroupDigits(a[..|a| - 3], o.group.value);
      LastThree(a, o.group.value);
      DigitsSome(a[..|a| - 3], o.group.value);
      assert Whole(o, a)[|x|] == o.group.value;
    }
  }

  // What a text that reads as a number has after its first character.
  lemma PointInside(s: string, x: string, c: char, z: string)
    requires NoSpaces(s) && Numeric(s) && s == x + [c] + z && x != []
    ensures DigitOrPoint(c)
  {
    hide Numeric;
    Inside(s, x, [c], z);
    assert [c][0] == c;
  }

  lemma MarkPoint(c: Option<char>)
    requires MarkOrNone(c) && c.Some? && DigitOrPoint(c.value)
    ensures c.value == '.'
  {
  }

  lemma NumericSuffix(o: Options, m: string, s: string)
    requires Clear(o) && NoSpaces(s) && Numeric(s) && m != [] && s == Opt(o.prefix) + m + Opt(o.suffix)
    ensures o.suffix.Some? ==> o.suffix.value == '.'
  {
    hide Numeric, Mark, IsDigit, IsSpace;
    if o.suffix.Some? {
      assert s == (Opt(o.prefix) + m) + [o.suffix.value] + [];
      PointInside(s, Opt(o.prefix) + m, o.suffix.value, []);
      MarkPoint(o.suffix);
    }
  }

  lemma NumericDecimal(o: Options, x: string, b: string, z: string, s: string)
    requires Clear(o) && NoSpaces(s) && Numeric(s) && x != [] && s == x + Tail(o, b) + z
    ensures b != [] ==> o.decimal == '.'
  {
    hide Numeric, Mark, IsDigit, IsSpace;
    if b != [] {
      assert s == x + [o.decimal] + (b + z);
      PointInside(s, x, o.decimal, b + z);
      MarkPoint(Some(o.decimal));
    }
  }

  lemma NumericGroup(o: Options, x: string, a: string, z: string, s: string)
    requires Clear(o) && NoSpaces(s) && Numeric(s) && a != [] && AllDigits(a) && s == x + Whole(o, a) + z
    ensures Whole(o, a) != a ==> o.group == Some('.')
  {
    hide Numeric, Mark, IsDigit, IsSpace, Whole;
    WholeDigits(o, a);
    var w := Whole(o, a);
    if w != a {
      var i :| 0 < i < |w| && w[i] == o.group.value;
      assert s == (x + w[..i]) + [w[i]] + (w[i + 1..] + z);
      PointInside(s, x + w[..i], w[i], w[i + 1..] + z);
      MarkPoint(o.group);
    }
  }

  lemma NumericPrefix(o: Options, neg: bool, m: string, s: string)
    requires Clear(o) && NoSpaces(s) && Numeric(s) && s == Opt(o.prefix) + ((if neg then "-" else "") + m)
    ensures o.prefix.Some? ==> !neg && (o.prefix.value == '.' || o.prefix.value == '+')
  {
    hide Numeric;
    if o.prefix.Some? {
      NumericShape(s);
      assert s[0] == o.prefix.value;
      if neg {
        assert s == [o.prefix.value] + ['-'] + m;
        PointInside(s, [o.prefix.value], '-', m);
      }
    }
  }

  lemma NumericParts(o: Options, neg: bool, a: string, b: string, s: string)
    requires Clear(o) && Printed(o, neg, a, b, s) && Numeric(s)
    ensures o.suffix.Some? ==> o.suffix.value == '.'
    ensures b != [] ==> o.decimal == '.'
    ensures Whole(o, a) != a ==> o.group == Some('.')
    ensures o.prefix.Some? ==> !neg && (o.prefix.value == '.' || o.prefix.value == '+')
  {
    hide Numeric, Whole, Tail, Opt, Clear, NoSpaces;
    PrintedSpaces(o, neg, a, b, s);
    WholeDigits(o, a);
    var sign, w, t, x, z := if neg then "-" else "", Whole(o, a), Tail(o, b), Opt(o.prefix), Opt(o.suffix);
    NumericSuffix(o, sign + w + t, s);
    assert s == (x + sign + w) + t + z;
    NumericDecimal(o, x + sign + w, b, z, s);
    assert s == (x + sign) + w + (t + z);
    NumericGroup(o, x + sign, a, t + z, s);
    assert s == x + (sign + (w + t + z));
    NumericPrefix(o, neg, w + t + z, s);
  }

  // Such a text, unless misread, is the value with a "+" before or a point after it.
  lemma NumericForm(o: Options, neg: bool, a: string, b: string, s: string)
    requires Clear(o) && Printed(o, neg, a, b, s) && Numeric(s) && !Misread(o)
    ensures Whole(o, a) == a && (b != [] ==> o.decimal == '.')
    ensures o.suffix == None || (o.suffix == Some('.') && b == [])
    ensures o.prefix == None || (o.prefix == Some('+') && !neg)
  {
    hide Numeric, Whole, Printed;
    assert |b| == o.precision by {
      PrintedPrecision(o, neg, a, b, s);
    }
    NumericParts(o, neg, a, b, s);
  }

  lemma PrintedPrecision(o: Options, neg: bool, a: string, b: string, s: string)
    requires Printed(o, neg, a, b, s)
    ensures |b| == o.precision
  {
  }

  lemma FloatSigned(lead: string, neg: bool, u: string)
    requires u != [] && IsDigit(u[0]) && ReadUnsigned(u).whole != []
    requires lead == (if neg then "-" else "") || (lead == "+" && !neg)
    ensures ParseFloat(lead + u) == Some(ToDec(neg, ReadUnsigned(u)))
  {
    hide ReadUnsigned, Number;
    var s := lead + u;
    assert SkipSpaces(s) == s;
    if lead != "" {
      assert s[0] == lead[0] && s[1..] == u;
    } else {
      assert s == u;
    }
  }

  lemma FaceReads(a: string, b: string, point: bool)
    requires a != [] && AllDigits(a) && AllDigits(b) && (point ==> b == [])
    ensures var u := a + (if b == [] then [] else "." + b) + if point then "." else "";
      u != [] && IsDigit(u[0]) && ReadUnsigned(u).whole == a && ReadUnsigned(u).fraction == b
  {
    hide ReadUnsigned;
    if b != [] {
      ReadPoint(a, b);
      assert a + ("." + b) + "" == a + "." + b;
    } else if point {
      ReadPoint(a, []);
      assert a + [] + "." == a + "." + [];
    } else {
      ReadWhole(a);
      assert a + [] + "" == a;
    }
  }

  lemma FaceText(o: Options, neg: bool, a: string, b: string, s: string)
    requires Printed(o, neg, a, b, s) && Whole(o, a) == a && (b != [] ==> o.decimal == '.')
    requires o.suffix == None || (o.suffix == Some('.') && b == [])
    requires o.prefix == None || (o.prefix == Some('+') && !neg)
    ensures var lead := if o.prefix.Some? then "+" else if neg then "-" else "";
      s == lead + (a + (if b == [] then [] else "." + b) + if o.suffix.Some? then "." else "")
  {
    hide Whole;
    var sign, t := if neg then "-" else "", if b == [] then [] else "." + b;
    assert Tail(o, b) == t;
    assert Opt(o.suffix) == if o.suffix.Some? then "." else "";
    assert Opt(o.prefix) + sign == if o.prefix.Some? then "+" else sign;
    assert s == Opt(o.prefix) + (sign + a + t) + Opt(o.suffix);
    FaceParts(Opt(o.prefix), sign, a, t, Opt(o.suffix));
  }

  lemma FaceParts(p: string, sign: string, a: string, t: string, u: string)
    ensures p + (sign + a + t) + u == (p + sign) + (a + t + u)
  {
  }

  // At face value the text reads as the value it was printed from.
  lemma FaceValue(o: Options, neg: bool, a: string, b: string, s: string)
    requires Clear(o) && Printed(o, neg, a, b, s) && Numeric(s) && !Misread(o)
    ensures ParseFloat(s) == Some(Dec(neg, Number(a + b), |b|))
  {
    hide Numeric, ReadUnsigned, Number, ParseFloat, Middle, Whole, Mark;
    NumericForm(o, neg, a, b, s);
    FaceText(o, neg, a, b, s);
    FaceReads(a, b, o.suffix.Some?);
    FloatSigned(if o.prefix.Some? then "+" else if neg then "-" else "", neg,
                a + (if b == [] then [] else "." + b) + if o.suffix.Some? then "." else "");
  }

  lemma ParsesTo(o: Options, neg: bool, n: nat)
    requires Clear(o) && !Spoils(o)
    ensures Parse(o, Format(o, FixedText(neg, n, o.precision))) == Limited(o, Dec(neg, n, o.precision))
  {
    hide Numeric, ParseFloat, Number, Limited, FixedText, Format, Cleaned, Middle, Padded;
    var s := Format(o, FixedText(neg, n, o.precision));
    if Numeric(s) {
      var sign, a, b := PartsOf(neg, n, o.precision);
      FormatParts(o, neg, n, sign, a, b);
      FaceValue(o, neg, a, b, s);
      NumberPadded(n, o.precision);
    } else {
      CleanedIs(o, neg, n);
      ReadFixed(neg, n, o.precision);
    }
  }

  ghost predicate Within(o: Options, d: Dec) {
    (o.min.Some? ==> !Less(d, o.min.value)) && (o.max.Some? ==> !Less(o.max.value, d))
  }

  ghost predicate Returns(o: Options, neg: bool, n: nat) {
    Parse(o, Format(o, FixedText(neg, n, o.precision))) == Some(FixedText(neg, n, o.precision))
  }

  lemma LimitedWithin(o: Options, neg: bool, n: nat)
    requires Within(o, Dec(neg, n, o.precision))
    ensures Limited(o, Dec(neg, n, o.precision)) == ToFixed(Dec(neg, n, o.precision), o.precision, o.maxDigits)
  {
    hide FixedText, Pow10;
    var d := Dec(neg, n, o.precision);
    FixedIs(d, o.precision);
    assert Signed(Dec(neg && n > 0, n, o.precision)) == Signed(d);
  }

  lemma FixedIs(d: Dec, p: nat)
    requires d.scale == p
    ensures Fixed(d, p) == d.mant
  {
  }

  // A fixed-point value within the limits comes back from its own text, unless it
  // is a negative zero.
  lemma RoundTrip(o: Options, neg: bool, n: nat)
    requires Clear(o) && !Spoils(o) && Within(o, Dec(neg, n, o.precision))
    ensures Returns(o, neg, n) <==> (neg ==> n > 0)
  {
    hide Parse, Format, FixedText, Limited, ToFixed;
    ParsesTo(o, neg, n);
    LimitedWithin(o, neg, n);
    FixedAgain(neg, n, o.precision, o.maxDigits);
  }

  // ---------------------------------------------------------------- when a text is misread

  // The whole number with digits s, s holding no more digits than it needs.
  lemma WholeText(n: nat, s: string)
    requires Digits(n) == s
    ensures FixedText(false, n, 0) == s
  {
    assert s[..|s|] == s;
    assert [] + s + [] == s;
  }

  lemma SmallDigits()
    ensures Digits(0) == "0" && Digits(1) == "1" && Digits(1234) == "1234"
  {
    assert Digits(12) == Digits(1) + [Digit(2)];
    assert Digits(123) == Digits(12) + [Digit(3)];
    assert Digits(1234) == Digits(123) + [Digit(4)];
  }

  lemma SmallNumbers()
    ensures Number("1") == 1 && Number("1234") == 1234
  {
    NumberDigits(1);
    NumberDigits(1234);
    SmallDigits();
  }

  // What a whole value without suffix is printed as.
  lemma FormatWhole(o: Options, n: nat, a: string)
    requires o.precision == 0 && o.suffix == None && Digits(n) == a && AllDigits(a)
    ensures Format(o, FixedText(false, n, 0)) == Opt(o.prefix) + Whole(o, a)
  {
    hide Whole, Format;
    WholeText(n, a);
    assert a + [] == a && [] + a == a;
    FormatParts(o, false, n, [], a, []);
    assert [] + Whole(o, a) + [] == Whole(o, a);
    assert Opt(o.prefix) + Whole(o, a) + [] == Opt(o.prefix) + Whole(o, a);
  }

  lemma ReadsAs(lead: string, a: string, b: string, s: string)
    requires s == lead + (a + "." + b) && (lead == "" || lead == "+") && AllDigits(a) && AllDigits(b) && b != []
    ensures Numeric(s) && ParseFloat(s) == Some(Dec(false, Number(a + b), |b|))
  {
    hide Number, ReadUnsigned, Trim;
    var u := a + "." + b;
    ReadPoint(a, b);
    assert NoSpaces(s);
    TrimNone(s);
    assert SkipSpaces(s) == s;
    assert u[0] != '-' && u[0] != '+';
    if lead == "+" {
      assert s[1..] == u;
    } else {
      assert s == u;
    }
  }

  lemma RoundsDown(o: Options, d: Dec, r: nat)
    requires o.precision == 0 && o.min == None && o.max == None
    requires !d.neg && d.scale > 0 && Rounded(d.mant, d.scale) == r
    ensures Limited(o, d) == Some(FixedText(false, r, 0))
  {
  }

  // With "." as prefix, 1 is printed as .1 and read as 0.
  lemma PointPrefix(o: Options)
    requires Misread(o) && o.prefix == Some('.') && o.min == None && o.max == None
    ensures !Returns(o, false, 1)
  {
    hide Format, FixedText, Limited, ParseFloat, Numeric, Digits, Number;
    SmallDigits();
    SmallNumbers();
    FormatWhole(o, 1, "1");
    assert Whole(o, "1") == "1";
    assert "." + "1" == [] + ([] + "." + "1");
    ReadsAs([], [], "1", "." + "1");
    assert [] + "1" == "1";
    assert Rounded(1, 1) == 0;
    RoundsDown(o, Dec(false, 1, 1), 0);
    WholeText(0, "0");
    WholeText(1, "1");
  }

  // With "." between groups, 1234 is printed as 1.234 and read as 1.
  lemma PointGroup(o: Options)
    requires Misread(o) && o.prefix != Some('.') && o.min == None && o.max == None
    ensures !Returns(o, false, 1234)
  {
    hide Format, FixedText, Limited, ParseFloat, Numeric, Digits, Number;
    SmallDigits();
    SmallNumbers();
    FormatWhole(o, 1234, "1234");
    assert Whole(o, "1234") == "1" + "." + "234" by {
      assert "1234"[..1] == "1" && "1234"[1..] == "234";
    }
    ReadsAs(Opt(o.prefix), "1", "234", Opt(o.prefix) + ("1" + "." + "234"));
    assert "1" + "234" == "1234";
    assert Rounded(1234, 3) == 1 by {
      assert Pow10(3) == 1000;
      assert Quotient(3468, 2000) == 1 + Quotient(1468, 2000);
    }
    RoundsDown(o, Dec(false, 1234, 3), 1);
    WholeText(1, "1");
    WholeText(1234, "1234");
  }

  // With "$" between groups, 1234 is printed as 1$2.
  lemma DollarText(o: Options)
    requires o.group == Some('$')
    ensures Whole(o, "1234") == "1$2"
  {
    LastThree("1234", '$');
    assert "1234"[..1] == "1";
    assert Whole(o, "1234") == "1" + "$2" == "1$2";
  }

  lemma DollarWhole(o: Options)
    requires o.group == Some('$')
    ensures Whole(o, "1234") == "1$2" && Ungrouped(o, "1234") == "12"
  {
    DollarText(o);
    assert "1$2"[1..] == "$2" && "$2"[1..] == "2" && "2"[1..] == "";
    assert Remove("2", '$') == "2" && Remove("$2", '$') == "2" && Remove("1$2", '$') == "12";
  }

  // A whole number ending in p zeros, printed with p decimals.
  lemma {:induction false} ZerosAdded(n: nat, p: nat)
    requires n > 0
    ensures Digits(n * Pow10(p)) == Digits(n) + Zeros(p)
    decreases p
  {
    if p == 0 {
      assert Digits(n) + Zeros(0) == Digits(n);
    } else {
      hide Digits;
      var x := Pow10(p - 1);
      assert Pow10(p) == 10 * x;
      ZerosAdded(n, p - 1);
      Tenfold(n, x);
      TenTimes(n * x);
      assert Digits(n) + Zeros(p) == (Digits(n) + Zeros(p - 1)) + ['0'];
    }
  }

  lemma Tenfold(n: nat, x: nat)
    requires n > 0 && x > 0
    ensures n * (10 * x) == 10 * (n * x) && n * x > 0
  {
  }

  lemma TenTimes(n: nat)
    requires n > 0
    ensures Digits(10 * n) == Digits(n) + ['0']
  {
    assert 10 * n / 10 == n && (10 * n) % 10 == 0;
  }

  lemma RoundParts(n: nat, p: nat, a: string)
    requires n > 0 && Digits(n) == a
    ensures Parts(false, n * Pow10(p), p, "", a, Zeros(p))
  {
    hide Digits;
    ZerosAdded(n, p);
    var m := a + Zeros(p);
    assert Padded(n * Pow10(p), p) == m;
    assert m[..|m| - p] == a && m[|m| - p..] == Zeros(p);
    assert "" + a == a;
  }

  // With "$" between groups, 1234 comes back as 12, whatever the other options.
  lemma DollarGroup(o: Options)
    requires Clear(o) && o.group == Some('$') && o.min == None && o.max == None
    ensures !Returns(o, false, 1234 * Pow10(o.precision))
  {
    hide Format, FixedText, Cleaned, Numeric, ParseFloat, Digits, Whole, Ungrouped, Padded, Limited, Zeros;
    var p := o.precision;
    SmallDigits();
    assert Digits(12) == "12" by {
      TwelveDigits();
    }
    RoundParts(1234, p, "1234");
    RoundParts(12, p, "12");
    DollarWhole(o);
    var s := Format(o, FixedText(false, 1234 * Pow10(p), p));
    FormatParts(o, false, 1234 * Pow10(p), "", "1234", Zeros(p));
    if Numeric(s) {
      NumericParts(o, false, "1234", Zeros(p), s);
      assert false;
    }
    CleanedParts(o, false, 1234 * Pow10(p), "", "1234", Zeros(p));
    assert "" + "12" == "12";
    ReadFixed(false, 12 * Pow10(p), p);
    LimitedWithin(o, false, 12 * Pow10(p));
    FixedAgain(false, 12 * Pow10(p), p, o.maxDigits);
    ReadFixed(false, 1234 * Pow10(p), p);
  }

  lemma TwelveDigits()
    ensures Digits(12) == "12"
  {
    assert Digits(12) == Digits(1) + [Digit(2)];
  }

  // With more decimals than can be printed, reading any text is a RangeError: of
  // 101 decimals, say, where 100 can be printed.
  lemma TooFine(o: Options, neg: bool, n: nat)
    requires o.precision > o.maxDigits
    ensures !Returns(o, neg, n)
  {
  }

  // Without limits: every fixed-point value other than a negative zero comes back
  // from its text exactly when it can be printed again, no text is misread and "$"
  // does not separate groups.
  lemma AllReturn(o: Options)
    requires Clear(o) && o.min == None && o.max == None
    ensures (forall neg, n :: (neg ==> n > 0) ==> Returns(o, neg, n)) <==> !Spoils(o)
  {
    hide Returns, Misread, Clear, Pow10;
    if o.precision > o.maxDigits {
      TooFine(o, false, 1);
    } else if o.group == Some('$') {
      DollarGroup(o);
    } else if Misread(o) {
      if o.prefix == Some('.') {
        PointPrefix(o);
      } else {
        PointGroup(o);
      }
    } else {
      forall neg, n: nat | neg ==> n > 0
        ensures Returns(o, neg, n)
      {
        RoundTrip(o, neg, n);
      }
    }
  }
}
