// The default text of a date box: mm/dd/yyyy, printed from a date and parsed back.

module DateBox {
  import opened Common
  import opened CivilDate
  import opened Text

  // A date is the number of its day; None is an invalid date, whose parts print as
  // NaN. now is the day the clock shows.
  function Format(date: Option<int>): string {
    if date == None then "NaN/NaN/NaN" else FormatDay(date.value)
  }

  function FormatDay(day: int): string {
    var c := DateOf(day);
    Pad(c.month) + "/" + Pad(c.day) + "/" + Show(c.year)
  }

  function Pad(n: int): string {
    if n < 10 then "0" + Show(n) else Show(n)
  }

  function Part(parts: seq<string>, i: nat): Option<int> {
    if i < |parts| then ParseInt(parts[i]) else None
  }

  function Parse(s: string, now: int): Option<int> {
    if s == "" then Some(now)
    else
      var ss := Split(s, '/');
      var m, d, y := Part(ss, 0), Part(ss, 1), Part(ss, 2);
      if y.Some? && m.Some? && d.Some? then NewDate(y.value, m.value - 1, d.value) else Some(now)
  }

  // Dates typed as month/day/year, in range or not.
  function Typed(m: string, d: string, y: string): string {
    m + "/" + d + "/" + y
  }

  lemma ParseTyped(m: string, d: string, y: string, now: int)
    requires Without(m, '/') && Without(d, '/') && Without(y, '/')
    requires ParseInt(m).Some? && ParseInt(d).Some? && ParseInt(y).Some?
    ensures Parse(Typed(m, d, y), now) == NewDate(ParseInt(y).value, ParseInt(m).value - 1, ParseInt(d).value)
  {
    hide NewDate, ParseInt, Split;
    SplitThree(m, d, y, '/');
    assert Typed(m, d, y) == m + ['/'] + d + ['/'] + y;
  }

  lemma NoSlash(s: string)
    requires AllDigits(s)
    ensures Without(s, '/') && Without("-" + s, '/')
  {
  }

  lemma ShowNoSlash(n: int)
    ensures Without(Show(n), '/')
  {
    NoSlash(Digits(if n < 0 then -n else n));
  }

  lemma PadTwo(n: int)
    requires n >= 0
    ensures Pad(n) == Two(n) && Without(Pad(n), '/') && ParseInt(Pad(n)) == Some(n)
  {
    hide ParseInt;
    ParseTwo(n);
    TwoDigits(n);
    NoSlash(Two(n));
  }

  lemma MonthInRange(c: Civil)
    requires Valid(c)
    ensures c.month >= 1 && c.day >= 1
  {
  }

  lemma FormatParts(day: int)
    ensures DateOf(day).month >= 1 && DateOf(day).day >= 1
    ensures FormatDay(day) == Typed(Pad(DateOf(day).month), Pad(DateOf(day).day), Show(DateOf(day).year))
  {
    hide Pad, Show;
    DayOfDate(day);
    MonthInRange(DateOf(day));
  }

  // Whatever the date, its text is parsed as its year, month and day.
  lemma ParseFormat(day: int, now: int)
    ensures var c := DateOf(day); Parse(FormatDay(day), now) == NewDate(c.year, c.month - 1, c.day)
  {
    hide DateOf, NewDate, ParseInt, Pad, Show, FormatDay, Typed, Parse;
    var c := DateOf(day);
    FormatParts(day);
    PadTwo(c.month);
    PadTwo(c.day);
    ShowNoSlash(c.year);
    ParseShow(c.year);
    ParseTyped(Pad(c.month), Pad(c.day), Show(c.year), now);
  }

  lemma SameNamed(day: int)
    ensures var c := DateOf(day); DayNamed(c.year, c.month - 1, c.day) == day <==> !Early(day)
  {
    hide DateOf, DayNamed, Valid, DayOf;
    DayOfDate(day);
    Rebuilt(DateOf(day), 0);
    assert Early(day) <==> 0 <= DateOf(day).year <= 99;
  }

  // Parsing the text of a date gives it back exactly when its year is not 0 to 99.
  lemma RoundTrip(day: int, now: int)
    requires InTime(day)
    ensures Parse(Format(Some(day)), now) == Some(day) <==> !Early(day)
  {
    hide DateOf, DayNamed, FormatDay, Parse, Early;
    ParseFormat(day, now);
    SameNamed(day);
  }

  // The text of a date: two digits of the month, two of the day, and the year.
  lemma FormatShape(day: int)
    ensures var text, c := Format(Some(day)), DateOf(day);
      && |text| >= 6 && text[2] == text[5] == '/'
      && AllDigits(text[..2]) && ParseInt(text[..2]) == Some(c.month)
      && AllDigits(text[3..5]) && ParseInt(text[3..5]) == Some(c.day)
      && ParseInt(text[6..]) == Some(c.year)
  {
    hide DateOf, ParseInt, Pad, Show, MonthDays, Two;
    var c := DateOf(day);
    DayOfDate(day);
    DaysInMonth(c);
    PadTwo(c.month);
    PadTwo(c.day);
    TwoDigits(c.month);
    TwoDigits(c.day);
    ParseShow(c.year);
    var m, d, text := Two(c.month), Two(c.day), Format(Some(day));
    assert text == m + "/" + d + "/" + Show(c.year);
    assert text[..2] == m && text[3..5] == d && text[6..] == Show(c.year);
  }

  lemma DaysInMonth(c: Civil)
    requires Valid(c)
    ensures 1 <= c.month <= 12 && 1 <= c.day <= 31
  {
  }

  lemma TextYear(day: int)
    ensures Part(Split(FormatDay(day), '/'), 2) == Some(DateOf(day).year)
  {
    hide DateOf, ParseInt, Pad, Show, FormatDay, Split;
    var c := DateOf(day);
    FormatParts(day);
    PadTwo(c.month);
    PadTwo(c.day);
    ShowNoSlash(c.year);
    ParseShow(c.year);
    SplitThree(Pad(c.month), Pad(c.day), Show(c.year), '/');
    assert FormatDay(day) == Pad(c.month) + ['/'] + Pad(c.day) + ['/'] + Show(c.year);
  }

  lemma MovedOn(c: Civil, high: int)
    requires Valid(c) && 0 <= c.year <= 99 && high == 100
    ensures DateOf(DayNamed(c.year, c.month - 1, c.day)).year >= 100
  {
    hide DateOf;
    var y := 1900 + c.year;
    MonthStartNat(y, c.month - 1);
    YearsInOrder(high, y);
    YearBelow(DayNamed(c.year, c.month - 1, c.day), high);
  }

  // A text without three numbers is parsed as today.
  lemma ParseToday(s: string, now: int)
    requires var parts := Split(s, '/'); !(Part(parts, 0).Some? && Part(parts, 1).Some? && Part(parts, 2).Some?)
    ensures Parse(s, now) == Some(now)
  {
  }

  // A date of the years 0 to 99 is moved by 1900 years, or is lost.
  lemma EarlyMoves(day: int, now: int)
    requires Early(day)
    ensures Format(Parse(Format(Some(day)), now)) != Format(Some(day))
  {
    hide FormatDay, Parse, DateOf, DayNamed, Split, Valid, DayOf;
    var again := Parse(FormatDay(day), now);
    assert 0 <= DateOf(day).year <= 99;
    ParseFormat(day, now);
    DayOfDate(day);
    MovedOn(DateOf(day), 100);
    TextYear(day);
    if again.Some? {
      TextYear(again.value);
    } else {
      InvalidText();
    }
  }

  // An invalid date prints as a text that is not parsed as a date.
  lemma InvalidText()
    ensures Part(Split("NaN/NaN/NaN", '/'), 2) == None
  {
    assert "NaN/NaN/NaN" == "NaN" + ['/'] + "NaN" + ['/'] + "NaN";
    SplitThree("NaN", "NaN", "NaN", '/');
    NotANumber();
  }

  lemma NotANumber()
    ensures ParseInt("NaN") == None
  {
    assert SkipSpaces("NaN") == "NaN";
    assert LeadingDigits("NaN") == [];
  }

  lemma InvalidParsed(now: int)
    ensures Parse("NaN/NaN/NaN", now) == Some(now)
  {
    InvalidText();
  }

  // Printing what was parsed settles after one round exactly when it is a valid date
  // outside the years 0 to 99. An invalid one is printed as NaN and parsed as now.
  lemma Settles(s: string, now: int)
    requires InTime(now)
    ensures var date := Parse(s, now);
      Format(Parse(Format(date), now)) == Format(date) <==> date.Some? && !Early(date.value)
  {
    hide FormatDay, Parse, DateOf, Early, InTime, Split;
    var date := Parse(s, now);
    if date == None {
      InvalidParsed(now);
      InvalidText();
      TextYear(now);
    } else if Early(date.value) {
      EarlyMoves(date.value, now);
    } else {
      ParsedInTime(s, now);
      RoundTrip(date.value, now);
    }
  }

  lemma ParsedInTime(s: string, now: int)
    requires InTime(now) && Parse(s, now).Some?
    ensures InTime(Parse(s, now).value)
  {
    hide Split, ParseInt;
  }

  // A text that is too late for a Date: the first of January 300000.
  lemma TooLate(y: int, now: int)
    requires y == 300000
    ensures Parse(Typed(Show(1), Show(1), Show(y)), now) == None
  {
    hide Show, Parse, ParseInt;
    ShowNoSlash(1);
    ShowNoSlash(y);
    ParseShow(1);
    ParseShow(y);
    ParseTyped(Show(1), Show(1), Show(y), now);
    YearStartIs(y);
    assert (y - 1969) / 4 == 74507 && (y - 1901) / 100 == 2980 && (y - 1601) / 400 == 745;
  }
}
