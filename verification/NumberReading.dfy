// How a number box reads whatever text it is given: when the text is taken at face
// value, and what is left of it otherwise.

module NumberReading {
  import opened Common
  import opened Text
  import opened NumberText
  import opened NumberBox
  import opened NumberRoundTrip

  // ---------------------------------------------------------------- cleaning any text

  predicate Dropped(o: Options, c: char) {
    Some(c) == o.prefix || Some(c) == o.suffix || Some(c) == o.group || IsSpace(c)
  }

  // The characters that are neither affix nor separator nor space, with a point for
  // the decimal separator.
  function Bare(o: Options, s: string): string {
    if s == [] then []
    else (if Dropped(o, s[0]) then [] else [if s[0] == o.decimal then '.' else s[0]]) + Bare(o, s[1..])
  }

  lemma {:induction false} UnspacedConcat(p: string, q: string)
    ensures Unspaced(p + q) == Unspaced(p) + Unspaced(q)
  {
    if p == [] {
      assert p + q == q;
    } else {
      assert (p + q)[1..] == p[1..] + q;
      UnspacedConcat(p[1..], q);
    }
  }

  lemma UnspacedOne(c: char)
    ensures Unspaced([c]) == if IsSpace(c) then [] else [c]
    ensures Reversed([c]) == [c]
  {
    assert [c][1..] == [];
  }

  lemma {:induction false} UnspacedReversed(s: string)
    ensures Unspaced(Reversed(s)) == Reversed(Unspaced(s))
  {
    hide IsSpace;
    if s != [] {
      UnspacedReversed(s[1..]);
      UnspacedConcat(Reversed(s[1..]), [s[0]]);
      UnspacedOne(s[0]);
      ReversedConcat(if IsSpace(s[0]) then [] else [s[0]], Unspaced(s[1..]));
    }
  }

  lemma {:induction false} UnspacedSkip(s: string)
    ensures Unspaced(SkipSpaces(s)) == Unspaced(s)
  {
    if s != [] && IsSpace(s[0]) {
      UnspacedSkip(s[1..]);
    }
  }

  lemma UnspacedTrim(s: string)
    ensures Unspaced(Trim(s)) == Unspaced(s)
  {
    hide Unspaced, SkipSpaces, Reversed;
    var t := SkipSpaces(s);
    UnspacedSkip(s);
    UnspacedReversed(t);
    UnspacedSkip(Reversed(t));
    UnspacedReversed(SkipSpaces(Reversed(t)));
    ReversedTwice(Unspaced(t));
  }

  lemma {:induction false} UnspacedRemove(s: string, c: char)
    ensures Unspaced(Remove(s, c)) == Remove(Unspaced(s), c)
  {
    hide IsSpace;
    if s != [] {
      UnspacedRemove(s[1..], c);
      UnspacedConcat(if s[0] == c then [] else [s[0]], Remove(s[1..], c));
      RemoveConcat(if IsSpace(s[0]) then [] else [s[0]], Unspaced(s[1..]), c);
      UnspacedOne(s[0]);
      RemovedOne(s[0], c);
    }
  }

  lemma RemovedOne(x: char, c: char)
    ensures Remove([x], c) == if x == c then [] else [x]
  {
    assert [x][1..] == [];
  }

  lemma {:induction false} UnspacedReplace(s: string, c: char, d: char)
    requires !IsSpace(c) && !IsSpace(d)
    ensures Unspaced(Replace(s, c, d)) == Replace(Unspaced(s), c, d)
  {
    hide IsSpace;
    if s != [] {
      UnspacedReplace(s[1..], c, d);
      var x, rest := if s[0] == c then d else s[0], Unspaced(s[1..]);
      UnspacedConcat([x], Replace(s[1..], c, d));
      UnspacedOne(x);
      if IsSpace(s[0]) {
        assert [] + rest == rest && [] + Replace(rest, c, d) == Replace(rest, c, d);
      } else {
        assert ([s[0]] + rest)[1..] == rest;
      }
    }
  }

  // A character taken out, if there is one.
  function Drop(s: string, c: Option<char>): string {
    if c.Some? then Remove(s, c.value) else s
  }

  lemma UnspacedStripped(s: string, c: Option<char>)
    ensures Unspaced(Stripped(s, c)) == Drop(Unspaced(s), c)
  {
    hide Unspaced, Trim, Remove;
    if c.Some? {
      UnspacedTrim(Remove(s, c.value));
      UnspacedRemove(s, c.value);
    }
  }

  function Dropping(o: Options, s: string): string {
    Drop(Drop(Drop(s, o.prefix), o.suffix), o.group)
  }

  lemma DropConcat(p: string, q: string, c: Option<char>)
    ensures Drop(p + q, c) == Drop(p, c) + Drop(q, c)
  {
    if c.Some? {
      RemoveConcat(p, q, c.value);
    }
  }

  lemma DropOne(x: char, c: Option<char>)
    ensures Drop([x], c) == if c == Some(x) then [] else [x]
    ensures Drop([], c) == []
  {
    if c.Some? {
      RemovedOne(x, c.value);
    }
  }

  lemma DroppingParts(o: Options, x: char, rest: string)
    ensures Dropping(o, [x] + rest) ==
      (if o.prefix == Some(x) || o.suffix == Some(x) || o.group == Some(x) then [] else [x]) + Dropping(o, rest)
    ensures Dropping(o, []) == []
  {
    hide Drop;
    DropOne(x, o.prefix);
    DropOne(x, o.suffix);
    DropOne(x, o.group);
    var p := Drop([x], o.prefix);
    DropConcat([x], rest, o.prefix);
    DropConcat(p, Drop(rest, o.prefix), o.suffix);
    DropConcat(Drop(p, o.suffix), Drop(Drop(rest, o.prefix), o.suffix), o.group);
  }

  lemma {:induction false} BareIs(o: Options, s: string)
    ensures Bare(o, s) == Replace(Dropping(o, Unspaced(s)), o.decimal, '.')
  {
    hide IsSpace, Dropping, Replace;
    if s == [] {
      DroppingParts(o, ' ', []);
      ReplaceParts('x', [], o.decimal);
    } else {
      BareIs(o, s[1..]);
      var rest := Unspaced(s[1..]);
      DroppingParts(o, s[0], rest);
      ReplaceParts(s[0], Dropping(o, rest), o.decimal);
      assert [] + rest == rest && [] + Dropping(o, rest) == Dropping(o, rest);
    }
  }

  lemma ReplaceParts(x: char, rest: string, c: char)
    ensures Replace([x] + rest, c, '.') == [if x == c then '.' else x] + Replace(rest, c, '.')
    ensures Replace([], c, '.') == []
  {
    assert ([x] + rest)[1..] == rest;
  }

  // Cleaning a text drops affixes, group separators and spaces wherever they are.
  lemma CleanedBare(o: Options, s: string)
    requires !IsSpace(o.decimal)
    ensures Cleaned(o, s) == Bare(o, s)
  {
    hide Unspaced, Trim, Replace, Stripped, IsSpace;
    var p := Stripped(s, o.prefix);
    var q := Stripped(p, o.suffix);
    var r := Stripped(q, o.group);
    UnspacedStripped(s, o.prefix);
    UnspacedStripped(p, o.suffix);
    UnspacedStripped(q, o.group);
    UnspacedTrim(Replace(r, o.decimal, '.'));
    PointIsNoSpace();
    UnspacedReplace(r, o.decimal, '.');
    BareIs(o, s);
  }

  lemma PointIsNoSpace()
    ensures !IsSpace('.')
  {
  }

  // ---------------------------------------------------------------- numbers at face value

  // Digits with a point at most, at least one of them.
  predicate Decimal(a: string, point: bool, b: string) {
    AllDigits(a) && AllDigits(b) && (!point ==> b == []) && a + b != []
  }

  function DecimalText(sign: string, a: string, point: bool, b: string): string {
    sign + (a + (if point then "." else "") + b)
  }

  lemma DecimalEnds(sign: string, a: string, point: bool, b: string)
    requires Sign(sign) && Decimal(a, point, b)
    ensures var t := DecimalText(sign, a, point, b);
      t != [] && !IsSpace(t[0]) && !IsSpace(t[|t| - 1])
  {
    var t := DecimalText(sign, a, point, b);
    if b != [] {
      assert t[|t| - 1] == b[|b| - 1];
    } else if point {
      assert t[|t| - 1] == '.';
    } else {
      assert t[|t| - 1] == a[|a| - 1];
    }
  }

  lemma {:induction false} ReversedSpaces(s: string)
    requires AllSpaces(s)
    ensures AllSpaces(Reversed(s))
  {
    hide IsSpace;
    if s != [] {
      ReversedSpaces(s[1..]);
    }
  }

  lemma TrimOf(left: string, t: string, right: string)
    requires AllSpaces(left) && AllSpaces(right) && t != [] && !IsSpace(t[0]) && !IsSpace(t[|t| - 1])
    ensures Trim(left + (t + right)) == t
  {
    hide Reversed, IsSpace, SkipSpaces;
    SpacesSkipped(left, t + right);
    ReversedConcat(t, right);
    ReversedSpaces(right);
    ReversedFirst(t);
    SpacesSkipped(Reversed(right), Reversed(t));
    ReversedTwice(t);
  }

  lemma {:induction false} Skipped(s: string) returns (spaces: string)
    ensures AllSpaces(spaces) && s == spaces + SkipSpaces(s)
  {
    if s != [] && IsSpace(s[0]) {
      var more := Skipped(s[1..]);
      spaces := [s[0]] + more;
      assert s == [s[0]] + (more + SkipSpaces(s));
    } else {
      spaces := [];
    }
  }

  lemma Trimmed(s: string) returns (left: string, right: string)
    ensures AllSpaces(left) && AllSpaces(right) && s == left + (Trim(s) + right)
  {
    hide Reversed, IsSpace, SkipSpaces;
    var t := SkipSpaces(s);
    left := Skipped(s);
    var tail := Skipped(Reversed(t));
    right := Reversed(tail);
    ReversedSpaces(tail);
    ReversedConcat(tail, SkipSpaces(Reversed(t)));
    ReversedTwice(t);
  }

  lemma SignOf(s: string) returns (sign: string)
    ensures Sign(sign) && s == sign + Unsign(s)
  {
    sign := if Unsign(s) == s then "" else [s[0]];
  }

  lemma WholeRead(u: string) returns (a: string, point: bool, b: string)
    requires ReadUnsigned(u).length == |u| && !(ReadUnsigned(u).whole == [] && ReadUnsigned(u).fraction == [])
    ensures Decimal(a, point, b) && u == a + (if point then "." else "") + b
  {
    var r := ReadUnsigned(u);
    a, b := r.whole, r.fraction;
    LeadingPrefix(u);
    if |a| < |u| && u[|a|] == '.' {
      point := true;
      LeadingPrefix(u[|a| + 1..]);
      assert u == a + "." + u[|a| + 1..];
    } else {
      point := false;
    }
  }

  // Text is taken at face value exactly when it is, apart from space around it, a sign
  // at most and digits with a point at most.
  lemma NumericIs(s: string) returns (left: string, sign: string, a: string, point: bool, b: string, right: string)
    requires Numeric(s)
    ensures AllSpaces(left) && AllSpaces(right) && Sign(sign) && Decimal(a, point, b)
    ensures s == left + (DecimalText(sign, a, point, b) + right)
  {
    hide Trim, Unsign, ReadUnsigned;
    left, right := Trimmed(s);
    sign := SignOf(Trim(s));
    a, point, b := WholeRead(Unsign(Trim(s)));
  }

  lemma NumericText(left: string, sign: string, a: string, point: bool, b: string, right: string)
    requires AllSpaces(left) && AllSpaces(right) && Sign(sign) && Decimal(a, point, b)
    ensures Numeric(left + (DecimalText(sign, a, point, b) + right))
  {
    hide Trim, ReadUnsigned, IsSpace;
    var t := DecimalText(sign, a, point, b);
    DecimalEnds(sign, a, point, b);
    TrimOf(left, t, right);
    var u := a + (if point then "." else "") + b;
    if point {
      ReadPoint(a, b);
    } else {
      assert u == a;
      ReadWhole(a);
    }
    Unsigned(sign, a, point, b);
  }

  lemma Unsigned(sign: string, a: string, point: bool, b: string)
    requires Sign(sign) && Decimal(a, point, b)
    ensures Unsign(DecimalText(sign, a, point, b)) == a + (if point then "." else "") + b
  {
    SignTaken(sign, a + (if point then "." else "") + b);
  }

  // ---------------------------------------------------------------- the value entered

  // Entering a text is a RangeError exactly when toFixed cannot print that many
  // decimals, whether or not the text has a number; without one the box is emptied.
  lemma EnteredOrNot(o: Options, s: string)
    ensures Parse(o, s) == None <==> o.precision > o.maxDigits
    ensures o.precision <= o.maxDigits ==>
      (Parse(o, s) == Some([]) <==> ParseFloat(if Numeric(s) then s else Cleaned(o, s)) == None)
  {
    hide ParseFloat, Numeric, Cleaned, Fixed, Padded, Less;
  }
}
