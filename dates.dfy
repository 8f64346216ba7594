/** `process_text_date` of the installed package: a cell text in one of six
    digit patterns (`m/d/yy`, `m/d/yyyy`, `m/yyyy`, `m-yyyy`, `m-d-yy`,
    `m-d-yyyy`, each day and month one or two digits) is rewritten as a
    zero-padded `YYYY-MM-DD` (or `YYYY-MM`), unless the reading is
    ambiguous and dates are not forced. */
module Dates {
  import opened Common
  import opened Text

  /** The Python value handed to `process_text_date`: a text, or something
      that is not a string (a number, `None`). */
  datatype Value = Str(text: string) | Number(n: int) | NoneValue

  datatype Date = Date(year: nat, month: nat, day: nat)

  // ---------------------------------------------------------------------
  // The calendar `datetime` checks
  // ---------------------------------------------------------------------

  /** Leap years of the proleptic Gregorian calendar. */
  predicate IsLeap(y: nat) {
    y % 4 == 0 && (y % 100 != 0 || y % 400 == 0)
  }

  function DaysInMonth(y: nat, m: nat): (n: nat)
    requires 1 <= m <= 12
    ensures 28 <= n <= 31
    ensures n == 29 <==> m == 2 && IsLeap(y)
  {
    if m == 2 then (if IsLeap(y) then 29 else 28)
    else if m == 4 || m == 6 || m == 9 || m == 11 then 30
    else 31
  }

  /** What `datetime` accepts: years 1 to 9999, months 1 to 12, and a day
      that exists in that month. */
  predicate ValidDate(d: Date) {
    1 <= d.year <= 9999 && 1 <= d.month <= 12 && 1 <= d.day <= DaysInMonth(d.year, d.month)
  }

  // ---------------------------------------------------------------------
  // The patterns
  // ---------------------------------------------------------------------

  /** `\d{lo,hi}` on ASCII digits. */
  predicate DigitField(f: string, lo: nat, hi: nat) {
    lo <= |f| <= hi && AllDigits(f)
  }

  /** `^\d?\d<sep>\d?\d<sep>\d\d$` for a year width of 2, and
      `^\d?\d<sep>\d?\d<sep>\d\d\d\d$` for 4. */
  predicate MatchesDayMonthYear(s: string, sep: char, yearWidth: nat) {
    var p := Split(s, [sep]);
    |p| == 3 && DigitField(p[0], 1, 2) && DigitField(p[1], 1, 2) && DigitField(p[2], yearWidth, yearWidth)
  }

  /** `^\d?\d<sep>\d\d\d\d$` */
  predicate MatchesMonthYear(s: string, sep: char) {
    var p := Split(s, [sep]);
    |p| == 2 && DigitField(p[0], 1, 2) && DigitField(p[1], 4, 4)
  }

  /** None of the six patterns. */
  predicate NoPattern(s: string) {
    !MatchesDayMonthYear(s, '/', 2) && !MatchesDayMonthYear(s, '/', 4) && !MatchesMonthYear(s, '/')
    && !MatchesMonthYear(s, '-') && !MatchesDayMonthYear(s, '-', 2) && !MatchesDayMonthYear(s, '-', 4)
  }

  // ---------------------------------------------------------------------
  // Reading and writing a date
  // ---------------------------------------------------------------------

  /** `%y`: 00 to 68 are 2000 to 2068, 69 to 99 are 1969 to 1999. */
  function CenturyYear(v: nat): (y: nat)
    requires v < 100
    ensures 1969 <= y <= 2068 && y % 100 == v
  {
    if v <= 68 then 2000 + v else 1900 + v
  }

  /** `datetime.strptime(s, '%m<sep>%d<sep>%y')` (month first) or
      `'%d<sep>%m<sep>%y'` (day first), `%Y` for a four-digit year: the
      date, or None where strptime raises ValueError. */
  function Reading(p: seq<string>, monthFirst: bool, twoDigit: bool): (r: Option<Date>)
    requires |p| == 3 && DigitField(p[0], 1, 2) && DigitField(p[1], 1, 2)
    requires DigitField(p[2], if twoDigit then 2 else 4, if twoDigit then 2 else 4)
    ensures r.Some? ==> ValidDate(r.value)
    ensures r.Some? ==> r.value.month == DigitsValue(if monthFirst then p[0] else p[1])
    ensures r.Some? ==> r.value.day == DigitsValue(if monthFirst then p[1] else p[0])
  {
    DigitsValueBound(p[2]);
    var a := DigitsValue(p[0]);
    var b := DigitsValue(p[1]);
    var v := DigitsValue(p[2]);
    var d := Date(if twoDigit then CenturyYear(v) else v, if monthFirst then a else b, if monthFirst then b else a);
    if ValidDate(d) then Some(d) else None
  }

  /** `'%04d-%02d-%02d' % (year, month, day)` */
  function Format(d: Date): string {
    Pad(d.year, 4) + "-" + Pad(d.month, 2) + "-" + Pad(d.day, 2)
  }

  /** `'%04d-%02d' % (int(year), int(month))` */
  function FormatMonth(year: nat, month: nat): string {
    Pad(year, 4) + "-" + Pad(month, 2)
  }

  /** The ambiguity policy: a day of 12 or less that differs from the month,
      or a two-digit year, keeps the text unless dates are forced. */
  function Decide(s: string, d: Date, twoDigit: bool, force: bool): string {
    if d.day <= 12 && d.day != d.month then (if force then Format(d) else s)
    else if twoDigit then (if force then Format(d) else s)
    else Format(d)
  }

  /** The reading the source settles on: month first when that is a date,
      else day first. */
  function Chosen(s: string, sep: char, twoDigit: bool): Option<Date>
    requires MatchesDayMonthYear(s, sep, if twoDigit then 2 else 4)
  {
    var p := Split(s, [sep]);
    var first := Reading(p, true, twoDigit);
    if first.Some? then first else Reading(p, false, twoDigit)
  }

  function ReadDayMonthYear(s: string, sep: char, twoDigit: bool, force: bool): string
    requires MatchesDayMonthYear(s, sep, if twoDigit then 2 else 4)
  {
    match Chosen(s, sep, twoDigit)
    case Some(d) => Decide(s, d, twoDigit, force)
    case None => s
  }

  /** The month-year patterns: no check on the month, and no ambiguity. */
  function ReadMonthYear(s: string, sep: char): string
    requires MatchesMonthYear(s, sep)
  {
    var p := Split(s, [sep]);
    FormatMonth(DigitsValue(p[1]), DigitsValue(p[0]))
  }

  /** Which pattern, in the source's order of tests, a text falls under. */
  datatype Branch = DayMonthYear(sep: char, twoDigit: bool) | MonthYear(sep: char) | Keep

  function BranchOf(s: string): (b: Branch)
    ensures b.DayMonthYear? ==> MatchesDayMonthYear(s, b.sep, if b.twoDigit then 2 else 4)
    ensures b.MonthYear? ==> MatchesMonthYear(s, b.sep)
    ensures b.Keep? <==> |s| == 0 || NoPattern(s)
  {
    if |s| == 0 then Keep
    else if MatchesDayMonthYear(s, '/', 2) then DayMonthYear('/', true)
    else if MatchesDayMonthYear(s, '/', 4) then DayMonthYear('/', false)
    else if MatchesMonthYear(s, '/') then MonthYear('/')
    else if MatchesMonthYear(s, '-') then MonthYear('-')
    else if MatchesDayMonthYear(s, '-', 2) then DayMonthYear('-', true)
    else if MatchesDayMonthYear(s, '-', 4) then DayMonthYear('-', false)
    else Keep
  }

  /** `process_text_date` on a text. */
  function ProcessText(s: string, force: bool): string {
    match BranchOf(s)
    case DayMonthYear(sep, twoDigit) => ReadDayMonthYear(s, sep, twoDigit, force)
    case MonthYear(sep) => ReadMonthYear(s, sep)
    case Keep => s
  }

  /** `process_text_date(str_date, force_dates)`: a value that is not a string
      is returned as it is. */
  function ProcessTextDate(v: Value, force: bool): Value {
    if v.Str? then Str(ProcessText(v.text, force)) else v
  }

  // ---------------------------------------------------------------------
  // Properties
  // ---------------------------------------------------------------------

  /** The three parts of a text joined by a separator they do not contain. */
  lemma SplitThree(p0: string, p1: string, p2: string, c: char)
    requires c !in p0 && c !in p1 && c !in p2
    ensures Split(p0 + [c] + p1 + [c] + p2, [c]) == [p0, p1, p2]
  {
    var parts := [p0, p1, p2];
    assert parts[1..] == [p1, p2] && [p1, p2][1..] == [p2];
    assert Join([p1, p2], [c]) == p1 + [c] + p2;
    assert Join(parts, [c]) == p0 + [c] + (p1 + [c] + p2);
    assert p0 + [c] + p1 + [c] + p2 == p0 + [c] + (p1 + [c] + p2);
    SplitJoin(parts, c);
  }

  lemma SplitTwo(p0: string, p1: string, c: char)
    requires c !in p0 && c !in p1
    ensures Split(p0 + [c] + p1, [c]) == [p0, p1]
  {
    var parts := [p0, p1];
    assert parts[1..] == [p1];
    assert Join(parts, [c]) == p0 + [c] + p1;
    SplitJoin(parts, c);
  }

  lemma DigitsWithout(f: string, c: char)
    requires AllDigits(f) && !IsDigit(c)
    ensures c !in f
  {
  }

  /** A written date reads back as its fields, and matches none of the
      patterns. */
  lemma FormatFields(d: Date)
    requires ValidDate(d)
    ensures Split(Format(d), "-") == [Pad(d.year, 4), Pad(d.month, 2), Pad(d.day, 2)]
    ensures DigitsValue(Pad(d.year, 4)) == d.year && DigitsValue(Pad(d.month, 2)) == d.month
    ensures DigitsValue(Pad(d.day, 2)) == d.day
    ensures NoPattern(Format(d))
  {
    PadFacts(d.year, 4);
    PadFacts(d.month, 2);
    PadFacts(d.day, 2);
    var y, m, dd := Pad(d.year, 4), Pad(d.month, 2), Pad(d.day, 2);
    DigitsWithout(y, '-');
    DigitsWithout(m, '-');
    DigitsWithout(dd, '-');
    SplitThree(y, m, dd, '-');
    DigitsWithout(y, '/');
    DigitsWithout(m, '/');
    DigitsWithout(dd, '/');
    assert '/' !in Format(d);
    SplitNoChar(Format(d), '/');
  }

  lemma FormatMonthFields(year: nat, month: nat)
    requires year < 10000 && month < 100
    ensures Split(FormatMonth(year, month), "-") == [Pad(year, 4), Pad(month, 2)]
    ensures NoPattern(FormatMonth(year, month))
  {
    PadFacts(year, 4);
    PadFacts(month, 2);
    var y, m := Pad(year, 4), Pad(month, 2);
    DigitsWithout(y, '-');
    DigitsWithout(m, '-');
    SplitTwo(y, m, '-');
    DigitsWithout(y, '/');
    DigitsWithout(m, '/');
    assert '/' !in FormatMonth(year, month);
    SplitNoChar(FormatMonth(year, month), '/');
  }

  /** A text in none of the patterns is left as it is. */
  lemma NoPatternUnchanged(s: string, force: bool)
    requires NoPattern(s)
    ensures ProcessText(s, force) == s
  {
  }

  /** What the function returns is its input or a text in none of the
      patterns. */
  lemma ResultShape(s: string, force: bool)
    ensures ProcessText(s, force) == s || NoPattern(ProcessText(s, force))
  {
    match BranchOf(s)
    case DayMonthYear(sep, twoDigit) =>
      var d := Chosen(s, sep, twoDigit);
      if d.Some? {
        FormatFields(d.value);
      }
    case MonthYear(sep) =>
      var p := Split(s, [sep]);
      DigitsValueBound(p[1]);
      DigitsValueBound(p[0]);
      FormatMonthFields(DigitsValue(p[1]), DigitsValue(p[0]));
    case Keep =>
  }

  /** Applying the function twice is applying it once: a rewritten text
      matches no pattern. This is what lets `get_row` rewrite rows it has
      already rewritten. */
  lemma ProcessTextIdempotent(s: string, force: bool)
    ensures ProcessText(ProcessText(s, force), force) == ProcessText(s, force)
  {
    ResultShape(s, force);
    var r := ProcessText(s, force);
    if r != s {
      NoPatternUnchanged(r, force);
    }
  }

  lemma ProcessTextDateIdempotent(v: Value, force: bool)
    ensures ProcessTextDate(ProcessTextDate(v, force), force) == ProcessTextDate(v, force)
  {
    if v.Str? {
      ProcessTextIdempotent(v.text, force);
    }
  }

  /** How each pattern is rewritten: month-year texts always become
      `YYYY-MM`, whatever the month and the flag; a day-month-year text
      becomes the chosen reading unless it is ambiguous (a day of 12 or less
      that differs from the month, or a two-digit year) and dates are not
      forced; a text in no pattern, one that is empty, and one whose readings
      are both invalid stay as they are. */
  lemma RewriteRule(s: string, force: bool)
    ensures BranchOf(s).Keep? ==> ProcessText(s, force) == s
    ensures BranchOf(s).MonthYear? ==>
              var p := Split(s, [BranchOf(s).sep]);
              ProcessText(s, force) == FormatMonth(DigitsValue(p[1]), DigitsValue(p[0]))
    ensures BranchOf(s).DayMonthYear? ==>
              var d := Chosen(s, BranchOf(s).sep, BranchOf(s).twoDigit);
              (d.None? ==> ProcessText(s, force) == s)
              && (d.Some? ==>
                    var kept := (d.value.day <= 12 && d.value.day != d.value.month) || BranchOf(s).twoDigit;
                    ProcessText(s, force) == (if kept && !force then s else Format(d.value))
                    && (ProcessText(s, force) == s <==> kept && !force))
  {
    var b := BranchOf(s);
    if b.DayMonthYear? {
      var d := Chosen(s, b.sep, b.twoDigit);
      assert ProcessText(s, force) == ReadDayMonthYear(s, b.sep, b.twoDigit, force);
      if d.Some? {
        FormatFields(d.value);
        assert Format(d.value) != s by {
          assert !NoPattern(s);
        }
        DecideRule(s, d.value, b.twoDigit, force);
      }
    }
  }

  /** The ambiguity policy on a reading whose written form differs from the
      text. */
  lemma DecideRule(s: string, d: Date, twoDigit: bool, force: bool)
    requires Format(d) != s
    ensures var kept := (d.day <= 12 && d.day != d.month) || twoDigit;
            Decide(s, d, twoDigit, force) == (if kept && !force then s else Format(d))
            && (Decide(s, d, twoDigit, force) == s <==> kept && !force)
  {
  }

  /** The flag only ever widens what is rewritten. */
  lemma ForceWidens(s: string)
    ensures ProcessText(s, false) != s ==> ProcessText(s, true) == ProcessText(s, false)
    ensures ProcessText(s, true) == s ==> ProcessText(s, false) == s
  {
    RewriteRule(s, false);
    RewriteRule(s, true);
  }

  /** The text `a<sep>b<sep>y` of three digit fields. */
  function Fields3(a: string, b: string, y: string, sep: char): string {
    a + [sep] + b + [sep] + y
  }

  lemma BranchOfFields(a: string, b: string, y: string, sep: char, width: nat)
    requires sep == '/' || sep == '-'
    requires width == 2 || width == 4
    requires DigitField(a, 1, 2) && DigitField(b, 1, 2) && DigitField(y, width, width)
    ensures Split(Fields3(a, b, y, sep), [sep]) == [a, b, y]
    ensures BranchOf(Fields3(a, b, y, sep)) == DayMonthYear(sep, width == 2)
  {
    var s := Fields3(a, b, y, sep);
    DigitsWithout(a, sep);
    DigitsWithout(b, sep);
    DigitsWithout(y, sep);
    SplitThree(a, b, y, sep);
    if sep == '-' {
      DigitsWithout(a, '/');
      DigitsWithout(b, '/');
      DigitsWithout(y, '/');
      assert '/' !in s;
      SplitNoChar(s, '/');
    }
  }

  /** A day above 12 cannot be a month, so writing it first or second gives
      the same date: `5/14/2000` and `14/5/2000` both become `2000-05-14`.
      With a two-digit year this holds when dates are forced. */
  lemma DayAbove12Symmetric(a: string, b: string, y: string, sep: char, width: nat, force: bool)
    requires sep == '/' || sep == '-'
    requires width == 2 || width == 4
    requires DigitField(a, 1, 2) && DigitField(b, 1, 2) && DigitField(y, width, width)
    requires DigitsValue(b) > 12
    requires width == 4 || force
    requires ValidDate(Date(YearOf(y, width), DigitsValue(a), DigitsValue(b)))
    ensures ProcessText(Fields3(a, b, y, sep), force) == ProcessText(Fields3(b, a, y, sep), force)
    ensures ProcessText(Fields3(a, b, y, sep), force) == Format(Date(YearOf(y, width), DigitsValue(a), DigitsValue(b)))
  {
    BothOrders(a, b, y, sep, width);
    RewriteRule(Fields3(a, b, y, sep), force);
    RewriteRule(Fields3(b, a, y, sep), force);
  }

  /** The year a year field stands for. */
  function YearOf(y: string, width: nat): nat
    requires DigitField(y, width, width) && (width == 2 || width == 4)
  {
    DigitsValueBound(y);
    if width == 2 then CenturyYear(DigitsValue(y)) else DigitsValue(y)
  }

  lemma BothOrders(a: string, b: string, y: string, sep: char, width: nat)
    requires sep == '/' || sep == '-'
    requires width == 2 || width == 4
    requires DigitField(a, 1, 2) && DigitField(b, 1, 2) && DigitField(y, width, width)
    requires DigitsValue(b) > 12
    requires ValidDate(Date(YearOf(y, width), DigitsValue(a), DigitsValue(b)))
    ensures BranchOf(Fields3(a, b, y, sep)) == DayMonthYear(sep, width == 2)
    ensures BranchOf(Fields3(b, a, y, sep)) == DayMonthYear(sep, width == 2)
    ensures Chosen(Fields3(a, b, y, sep), sep, width == 2) == Some(Date(YearOf(y, width), DigitsValue(a), DigitsValue(b)))
    ensures Chosen(Fields3(b, a, y, sep), sep, width == 2) == Some(Date(YearOf(y, width), DigitsValue(a), DigitsValue(b)))
  {
    BranchOfFields(a, b, y, sep, width);
    BranchOfFields(b, a, y, sep, width);
    DigitsValueBound(y);
    assert Reading([b, a, y], true, width == 2).None?;
  }

  /** A two-digit year is never rewritten unless dates are forced. */
  lemma TwoDigitYearKept(a: string, b: string, y: string, sep: char)
    requires sep == '/' || sep == '-'
    requires DigitField(a, 1, 2) && DigitField(b, 1, 2) && DigitField(y, 2, 2)
    ensures ProcessText(Fields3(a, b, y, sep), false) == Fields3(a, b, y, sep)
  {
    BranchOfFields(a, b, y, sep, 2);
    RewriteRule(Fields3(a, b, y, sep), false);
  }

  /** With dates forced, a valid month-first reading is always written out. */
  lemma ForcedMonthFirst(a: string, b: string, y: string, sep: char, width: nat)
    requires sep == '/' || sep == '-'
    requires width == 2 || width == 4
    requires DigitField(a, 1, 2) && DigitField(b, 1, 2) && DigitField(y, width, width)
    requires ValidDate(Date(YearOf(y, width), DigitsValue(a), DigitsValue(b)))
    ensures ProcessText(Fields3(a, b, y, sep), true) == Format(Date(YearOf(y, width), DigitsValue(a), DigitsValue(b)))
  {
    BranchOfFields(a, b, y, sep, width);
    DigitsValueBound(y);
    RewriteRule(Fields3(a, b, y, sep), true);
  }

  /** `m/yyyy` and `m-yyyy` become `yyyy-mm` whatever the flag, with no check
      on the month. */
  lemma MonthYearRewritten(m: string, y: string, sep: char, force: bool)
    requires sep == '/' || sep == '-'
    requires DigitField(m, 1, 2) && DigitField(y, 4, 4)
    ensures BranchOf(m + [sep] + y) == MonthYear(sep)
    ensures ProcessText(m + [sep] + y, force) == FormatMonth(DigitsValue(y), DigitsValue(m))
  {
    var s := m + [sep] + y;
    DigitsWithout(m, sep);
    DigitsWithout(y, sep);
    SplitTwo(m, y, sep);
    if sep == '-' {
      DigitsWithout(m, '/');
      DigitsWithout(y, '/');
      assert '/' !in s;
      SplitNoChar(s, '/');
    }
    assert BranchOf(s) == MonthYear(sep);
  }

  /** `5/14/2000` and `14/5/2000` both give `2000-05-14`. */
  lemma SlashExample(s: string, t: string)
    requires s == "5/14/2000" && t == "14/5/2000"
    ensures ProcessText(s, false) == "2000-05-14" && ProcessText(t, false) == "2000-05-14"
  {
    assert s == Fields3("5", "14", "2000", '/');
    assert t == Fields3("14", "5", "2000", '/');
    SlashExampleFields();
    DayAbove12Symmetric("5", "14", "2000", '/', 4, false);
    SlashExampleWritten();
  }

  lemma SlashExampleFields()
    ensures DigitField("5", 1, 2) && DigitField("14", 1, 2) && DigitField("2000", 4, 4)
    ensures DigitsValue("5") == 5 && DigitsValue("14") == 14 && DigitsValue("2000") == 2000
    ensures YearOf("2000", 4) == 2000 && ValidDate(Date(2000, 5, 14))
  {
    Digits4("2000", 2000);
    Digits2("14", 14);
    Digits1("5", 5);
  }

  lemma SlashExampleWritten()
    ensures Format(Date(2000, 5, 14)) == "2000-05-14"
  {
    Digits4("2000", 2000);
    Digits2("05", 5);
    Digits2("14", 14);
    Written(2000, 5, 14, "2000", "05", "14", "2000-05-14");
  }

  /** `3-17-2013` and `17-3-2013` both give `2013-03-17`. */
  lemma DashExample(s: string, t: string)
    requires s == "3-17-2013" && t == "17-3-2013"
    ensures ProcessText(s, false) == "2013-03-17" && ProcessText(t, false) == "2013-03-17"
  {
    assert s == Fields3("3", "17", "2013", '-');
    assert t == Fields3("17", "3", "2013", '-');
    DashExampleFields();
    DayAbove12Symmetric("3", "17", "2013", '-', 4, false);
    DashExampleWritten();
  }

  lemma DashExampleFields()
    ensures DigitField("3", 1, 2) && DigitField("17", 1, 2) && DigitField("2013", 4, 4)
    ensures DigitsValue("3") == 3 && DigitsValue("17") == 17 && DigitsValue("2013") == 2013
    ensures YearOf("2013", 4) == 2013 && ValidDate(Date(2013, 3, 17))
  {
    Digits4("2013", 2013);
    Digits2("17", 17);
    Digits1("3", 3);
  }

  lemma DashExampleWritten()
    ensures Format(Date(2013, 3, 17)) == "2013-03-17"
  {
    Digits4("2013", 2013);
    Digits2("03", 3);
    Digits2("17", 17);
    Written(2013, 3, 17, "2013", "03", "17", "2013-03-17");
  }

  /** `5/4/99` is ambiguous twice over: kept as it is, or `1999-05-04` when
      dates are forced. */
  lemma AmbiguousExample(s: string)
    requires s == "5/4/99"
    ensures ProcessText(s, false) == s
    ensures ProcessText(s, true) == "1999-05-04"
  {
    assert s == Fields3("5", "4", "99", '/');
    AmbiguousExampleFields();
    TwoDigitYearKept("5", "4", "99", '/');
    ForcedMonthFirst("5", "4", "99", '/', 2);
    AmbiguousExampleWritten();
  }

  lemma AmbiguousExampleFields()
    ensures DigitField("5", 1, 2) && DigitField("4", 1, 2) && DigitField("99", 2, 2)
    ensures DigitsValue("5") == 5 && DigitsValue("4") == 4 && YearOf("99", 2) == 1999
    ensures ValidDate(Date(1999, 5, 4))
  {
    Digits2("99", 99);
    Digits1("5", 5);
    Digits1("4", 4);
  }

  lemma AmbiguousExampleWritten()
    ensures Format(Date(1999, 5, 4)) == "1999-05-04"
  {
    Digits4("1999", 1999);
    Digits2("05", 5);
    Digits2("04", 4);
    Written(1999, 5, 4, "1999", "05", "04", "1999-05-04");
  }

  /** `3-3-03` and `05-14-12` have two-digit years and are kept. */
  lemma TwoDigitExample(s: string, t: string)
    requires s == "3-3-03" && t == "05-14-12"
    ensures ProcessText(s, false) == s && ProcessText(t, false) == t
  {
    assert s == Fields3("3", "3", "03", '-');
    assert t == Fields3("05", "14", "12", '-');
    Digits1("3", 3);
    Digits2("03", 3);
    Digits2("05", 5);
    Digits2("14", 14);
    Digits2("12", 12);
    TwoDigitYearKept("3", "3", "03", '-');
    TwoDigitYearKept("05", "14", "12", '-');
  }

  /** `6/1912` gives `1912-06`, and an impossible month is written all the
      same: `13/2000` gives `2000-13`. */
  lemma MonthYearExample(s: string, t: string)
    requires s == "6/1912" && t == "13/2000"
    ensures ProcessText(s, false) == "1912-06" && ProcessText(t, false) == "2000-13"
  {
    assert s == "6" + ['/'] + "1912";
    assert t == "13" + ['/'] + "2000";
    Digits1("6", 6);
    Digits4("1912", 1912);
    Digits2("13", 13);
    Digits4("2000", 2000);
    MonthYearRewritten("6", "1912", '/', false);
    MonthYearRewritten("13", "2000", '/', false);
    MonthYearExampleWritten();
  }

  lemma MonthYearExampleWritten()
    ensures FormatMonth(1912, 6) == "1912-06" && FormatMonth(2000, 13) == "2000-13"
  {
    Digits4("1912", 1912);
    Digits2("06", 6);
    MonthWritten(1912, 6, "1912", "06", "1912-06");
    Digits4("2000", 2000);
    Digits2("13", 13);
    MonthWritten(2000, 13, "2000", "13", "2000-13");
  }

  /** Values that are not texts pass through untouched, and so does an empty
      text. */
  lemma PassThroughExample(force: bool)
    ensures ProcessTextDate(NoneValue, force) == NoneValue
    ensures ProcessTextDate(Number(1), force) == Number(1)
    ensures ProcessTextDate(Str(""), force) == Str("")
  {
  }

  lemma Digits1(t: string, v: nat)
    requires |t| == 1 && IsDigit(t[0]) && v == t[0] as int - '0' as int
    ensures AllDigits(t) && DigitsValue(t) == v
  {
    DigitsValueSnoc([], t[0]);
    assert [] + [t[0]] == t;
  }

  lemma Digits2(t: string, v: nat)
    requires |t| == 2 && IsDigit(t[0]) && IsDigit(t[1])
    requires v == (t[0] as int - '0' as int) * 10 + (t[1] as int - '0' as int)
    ensures AllDigits(t) && DigitsValue(t) == v
  {
    Digits1(t[..1], t[0] as int - '0' as int);
    DigitsValueSnoc(t[..1], t[1]);
    assert t[..1] + [t[1]] == t;
  }

  lemma Digits4(t: string, v: nat)
    requires |t| == 4 && IsDigit(t[0]) && IsDigit(t[1]) && IsDigit(t[2]) && IsDigit(t[3])
    requires v == (t[0] as int - '0' as int) * 1000 + (t[1] as int - '0' as int) * 100
                  + (t[2] as int - '0' as int) * 10 + (t[3] as int - '0' as int)
    ensures AllDigits(t) && DigitsValue(t) == v
  {
    Digits2(t[..2], (t[0] as int - '0' as int) * 10 + (t[1] as int - '0' as int));
    DigitsValueSnoc(t[..2], t[2]);
    assert t[..2] + [t[2]] == t[..3];
    DigitsValueSnoc(t[..3], t[3]);
    assert t[..3] + [t[3]] == t;
  }

  /** The text a date is written as, from its fields' texts. */
  lemma Written(year: nat, month: nat, day: nat, y: string, m: string, d: string, text: string)
    requires |y| == 4 && |m| == 2 && |d| == 2 && AllDigits(y) && AllDigits(m) && AllDigits(d)
    requires DigitsValue(y) == year && DigitsValue(m) == month && DigitsValue(d) == day
    requires text == y + "-" + m + "-" + d
    ensures Format(Date(year, month, day)) == text
  {
    PadIs(y, 4);
    PadIs(m, 2);
    PadIs(d, 2);
  }

  lemma MonthWritten(year: nat, month: nat, y: string, m: string, text: string)
    requires |y| == 4 && |m| == 2 && AllDigits(y) && AllDigits(m)
    requires DigitsValue(y) == year && DigitsValue(m) == month
    requires text == y + "-" + m
    ensures FormatMonth(year, month) == text
  {
    PadIs(y, 4);
    PadIs(m, 2);
  }
}
