/** `process_text_date` of the older script (generate_mods.py): the same
    day-month-year patterns, readings and ambiguity policy as the package,
    but no month-year pattern, and the date is written with Python 2's
    `strftime('%Y-%m-%d')`, which refuses years before 1900. */
module ScriptDates {
  import opened Common
  import opened Text
  import opened Dates

  /** None of the script's four patterns. */
  predicate ScriptNoPattern(s: string) {
    !MatchesDayMonthYear(s, '/', 2) && !MatchesDayMonthYear(s, '/', 4)
    && !MatchesDayMonthYear(s, '-', 2) && !MatchesDayMonthYear(s, '-', 4)
  }

  /** Which pattern, in the script's order of tests, a text falls under. */
  function ScriptBranchOf(s: string): (b: Branch)
    ensures !b.MonthYear?
    ensures b.DayMonthYear? ==> MatchesDayMonthYear(s, b.sep, if b.twoDigit then 2 else 4)
    ensures b.Keep? <==> |s| == 0 || ScriptNoPattern(s)
  {
    if |s| == 0 then Keep
    else if MatchesDayMonthYear(s, '/', 2) then DayMonthYear('/', true)
    else if MatchesDayMonthYear(s, '/', 4) then DayMonthYear('/', false)
    else if MatchesDayMonthYear(s, '-', 2) then DayMonthYear('-', true)
    else if MatchesDayMonthYear(s, '-', 4) then DayMonthYear('-', false)
    else Keep
  }

  // ---------------------------------------------------------------------
  // As written: Python 2's strftime
  // ---------------------------------------------------------------------

  /** `newDate.strftime('%Y-%m-%d')` under Python 2, which raises ValueError
      for a year before 1900; nothing in the script catches it. */
  function Strftime(d: Date): (r: Result<string>)
    requires ValidDate(d)
    ensures r.Failure? <==> d.year < 1900
    ensures r.Failure? ==> r.error == YearBefore1900
    ensures r.Success? ==> Split(r.value, "-") == [Pad(d.year, 4), Pad(d.month, 2), Pad(d.day, 2)]
  {
    FormatFields(d);
    if d.year < 1900 then Failure(YearBefore1900) else Success(Format(d))
  }

  /** The ambiguity policy with the script's way of writing a date. */
  function DecideAsWritten(s: string, d: Date, twoDigit: bool, force: bool): (r: Result<string>)
    requires ValidDate(d)
    ensures r.Failure? ==> r.error == YearBefore1900
  {
    if d.day <= 12 && d.day != d.month then (if force then Strftime(d) else Success(s))
    else if twoDigit then (if force then Strftime(d) else Success(s))
    else Strftime(d)
  }

  /** The script's `process_text_date` on a text, as written. */
  function ScriptProcessTextAsWritten(s: string, force: bool): Result<string> {
    match ScriptBranchOf(s)
    case DayMonthYear(sep, twoDigit) =>
      (match Chosen(s, sep, twoDigit)
       case Some(d) => DecideAsWritten(s, d, twoDigit, force)
       case None => Success(s))
    case _ => Success(s)
  }

  // ---------------------------------------------------------------------
  // Corrected: every valid date is written out
  // ---------------------------------------------------------------------

  /** The script's `process_text_date` on a text, writing every date as
      `'%04d-%02d-%02d'`, as the package does. */
  function ScriptProcessText(s: string, force: bool): string {
    match ScriptBranchOf(s)
    case DayMonthYear(sep, twoDigit) => ReadDayMonthYear(s, sep, twoDigit, force)
    case _ => s
  }

  /** `process_text_date(str_date, force_dates)` of the script: a value that
      is not a string is returned as it is. */
  function ScriptProcessTextDate(v: Value, force: bool): Value {
    if v.Str? then Str(ScriptProcessText(v.text, force)) else v
  }

  // ---------------------------------------------------------------------
  // Properties
  // ---------------------------------------------------------------------

  /** A month-year text has a single separator, so no day-month-year
      pattern matches it. */
  lemma MonthYearNotThreeParts(s: string, sep: char)
    requires sep == '/' || sep == '-'
    requires MatchesMonthYear(s, sep)
    ensures ScriptNoPattern(s)
  {
    var p := Split(s, [sep]);
    var other := if sep == '/' then '-' else '/';
    DigitsWithout(p[0], other);
    DigitsWithout(p[1], other);
    assert p == [p[0], p[1]];
    assert Join(p, [sep]) == p[0] + [sep] + p[1] by {
      assert p[1..] == [p[1]];
    }
    assert other !in s;
    SplitNoChar(s, other);
  }

  /** The script's tests pick the package's branch, except that a
      month-year text falls through to no pattern at all. */
  lemma ScriptBranchAgrees(s: string)
    ensures BranchOf(s).MonthYear? ==> ScriptBranchOf(s) == Keep
    ensures !BranchOf(s).MonthYear? ==> ScriptBranchOf(s) == BranchOf(s)
  {
    if BranchOf(s).MonthYear? {
      MonthYearNotThreeParts(s, BranchOf(s).sep);
    }
  }

  /** The script rewrites exactly what the package rewrites, except that
      month-year texts such as `6/1912` are left as they are. */
  lemma ScriptAgreesWithPackage(s: string, force: bool)
    ensures !BranchOf(s).MonthYear? ==> ScriptProcessText(s, force) == ProcessText(s, force)
    ensures BranchOf(s).MonthYear? ==> ScriptProcessText(s, force) == s
  {
    ScriptBranchAgrees(s);
  }

  /** Applying the corrected script function twice is applying it once. */
  lemma ScriptIdempotent(s: string, force: bool)
    ensures ScriptProcessText(ScriptProcessText(s, force), force) == ScriptProcessText(s, force)
  {
    ScriptAgreesWithPackage(s, force);
    var r := ScriptProcessText(s, force);
    if r != s {
      ResultShape(s, force);
      ScriptBranchAgrees(r);
      ScriptAgreesWithPackage(r, force);
      NoPatternUnchanged(r, force);
    }
  }

  lemma ScriptDateIdempotent(v: Value, force: bool)
    ensures ScriptProcessTextDate(ScriptProcessTextDate(v, force), force) == ScriptProcessTextDate(v, force)
  {
    if v.Str? {
      ScriptIdempotent(v.text, force);
    }
  }

  /** The policy as written raises where the corrected policy writes out a
      year before 1900, and agrees with it everywhere else. */
  lemma DecideAsWrittenAgrees(s: string, d: Date, twoDigit: bool, force: bool)
    requires ValidDate(d) && Format(d) != s
    ensures DecideAsWritten(s, d, twoDigit, force).Success? ==>
              DecideAsWritten(s, d, twoDigit, force).value == Decide(s, d, twoDigit, force)
    ensures DecideAsWritten(s, d, twoDigit, force).Failure? <==>
              Decide(s, d, twoDigit, force) != s && d.year < 1900
  {
  }

  /** Where a year is written, it is the first field of the result. */
  lemma RewrittenYear(s: string, force: bool)
    requires ScriptProcessText(s, force) != s
    ensures ScriptBranchOf(s).DayMonthYear?
    ensures Chosen(s, ScriptBranchOf(s).sep, ScriptBranchOf(s).twoDigit).Some?
    ensures var d := Chosen(s, ScriptBranchOf(s).sep, ScriptBranchOf(s).twoDigit).value;
            var y := Split(Format(d), "-")[0];
            ScriptProcessText(s, force) == Format(d) && AllDigits(y) && DigitsValue(y) == d.year
  {
    ScriptAgreesWithPackage(s, force);
    ScriptBranchAgrees(s);
    RewriteRule(s, force);
    var b := BranchOf(s);
    var d := Chosen(s, b.sep, b.twoDigit).value;
    FormatFields(d);
  }

  /** As written, the script raises exactly where the corrected function
      writes out a year before 1900, and agrees with it everywhere else. */
  lemma AsWrittenRaisesBefore1900(s: string, force: bool)
    ensures ScriptProcessTextAsWritten(s, force).Success? ==>
              ScriptProcessTextAsWritten(s, force).value == ScriptProcessText(s, force)
    ensures ScriptProcessTextAsWritten(s, force).Failure? <==>
              var y := Split(ScriptProcessText(s, force), "-")[0];
              ScriptProcessText(s, force) != s && AllDigits(y) && DigitsValue(y) < 1900
    ensures ScriptProcessTextAsWritten(s, force).Failure? ==>
              ScriptProcessTextAsWritten(s, force).error == YearBefore1900
  {
    var b := ScriptBranchOf(s);
    if b.DayMonthYear? {
      var d := Chosen(s, b.sep, b.twoDigit);
      if d.Some? {
        FormatFields(d.value);
        assert Format(d.value) != s by {
          assert !NoPattern(s);
        }
        DecideAsWrittenAgrees(s, d.value, b.twoDigit, force);
        if ScriptProcessText(s, force) != s {
          RewrittenYear(s, force);
        }
      }
    }
  }

  /** A two-digit year reads as 1969 or later, so only four-digit years
      can make the script raise. */
  lemma TwoDigitYearsNeverRaise(s: string, force: bool)
    requires ScriptBranchOf(s).DayMonthYear? && ScriptBranchOf(s).twoDigit
    ensures ScriptProcessTextAsWritten(s, force).Success?
  {
    var b := ScriptBranchOf(s);
    var p := Split(s, [b.sep]);
    DigitsValueBound(p[2]);
  }

  /** `7/13/1899` is a valid date that the package writes as `1899-07-13`;
      the script, as written, raises on it. */
  lemma Before1900Example(s: string)
    requires s == "7/13/1899"
    ensures ScriptProcessTextAsWritten(s, false) == Failure(YearBefore1900)
    ensures ScriptProcessText(s, false) == "1899-07-13"
  {
    assert s == Fields3("7", "13", "1899", '/');
    Before1900Fields();
    BothOrders("7", "13", "1899", '/', 4);
    ScriptBranchAgrees(s);
    RewriteRule(s, false);
    Before1900Written();
  }

  lemma Before1900Fields()
    ensures DigitField("7", 1, 2) && DigitField("13", 1, 2) && DigitField("1899", 4, 4)
    ensures DigitsValue("7") == 7 && DigitsValue("13") == 13 && YearOf("1899", 4) == 1899
    ensures ValidDate(Date(1899, 7, 13))
  {
    Digits4("1899", 1899);
    Digits2("13", 13);
    Digits1("7", 7);
  }

  lemma Before1900Written()
    ensures Format(Date(1899, 7, 13)) == "1899-07-13"
  {
    Digits4("1899", 1899);
    Digits2("07", 7);
    Digits2("13", 13);
    Written(1899, 7, 13, "1899", "07", "13", "1899-07-13");
  }

  /** A month-year text is left as it is by the script, raising nothing. */
  lemma ScriptMonthYearKept(m: string, y: string, sep: char, force: bool)
    requires sep == '/' || sep == '-'
    requires DigitField(m, 1, 2) && DigitField(y, 4, 4)
    ensures ScriptProcessText(m + [sep] + y, force) == m + [sep] + y
    ensures ScriptProcessTextAsWritten(m + [sep] + y, force) == Success(m + [sep] + y)
  {
    MonthYearRewritten(m, y, sep, force);
    ScriptBranchAgrees(m + [sep] + y);
  }

  /** Day-month-year texts are read by the script as by the package. */
  lemma ScriptFields3(a: string, b: string, y: string, sep: char, width: nat, force: bool)
    requires sep == '/' || sep == '-'
    requires width == 2 || width == 4
    requires DigitField(a, 1, 2) && DigitField(b, 1, 2) && DigitField(y, width, width)
    ensures ScriptProcessText(Fields3(a, b, y, sep), force) == ProcessText(Fields3(a, b, y, sep), force)
  {
    BranchOfFields(a, b, y, sep, width);
    ScriptAgreesWithPackage(Fields3(a, b, y, sep), force);
  }

  /** The script has no month-year pattern: `6/1912` is returned unchanged,
      where the package gives `1912-06`. */
  lemma MonthYearKeptExample(s: string)
    requires s == "6/1912"
    ensures ScriptProcessText(s, false) == s && ScriptProcessTextAsWritten(s, false) == Success(s)
    ensures ProcessText(s, false) == "1912-06"
  {
    MonthYearExample(s, "13/2000");
    MonthYearKeptScript(s);
  }

  lemma MonthYearKeptScript(s: string)
    requires s == "6/1912"
    ensures ScriptProcessText(s, false) == s && ScriptProcessTextAsWritten(s, false) == Success(s)
  {
    assert s == "6" + ['/'] + "1912";
    Digits1("6", 6);
    Digits4("1912", 1912);
    ScriptMonthYearKept("6", "1912", '/', false);
  }

  /** The script's tests of `5/14/2000`, `14/5/2000`, `3-17-2013`,
      `17-3-2013` and `5/4/99` (plain and forced) give the package's
      results, and values that are not texts pass through. */
  lemma SharedExamples(a: string, b: string, c: string, d: string, e: string)
    requires a == "5/14/2000" && b == "14/5/2000" && c == "3-17-2013" && d == "17-3-2013"
    requires e == "5/4/99"
    ensures ScriptProcessText(a, false) == "2000-05-14" && ScriptProcessText(b, false) == "2000-05-14"
    ensures ScriptProcessText(c, false) == "2013-03-17" && ScriptProcessText(d, false) == "2013-03-17"
    ensures ScriptProcessText(e, false) == e && ScriptProcessText(e, true) == "1999-05-04"
    ensures ScriptProcessTextDate(NoneValue, false) == NoneValue
    ensures ScriptProcessTextDate(Number(1), false) == Number(1)
  {
    ScriptSlashExample(a, b);
    ScriptDashExample(c, d);
    ScriptAmbiguousExample(e);
  }

  lemma ScriptSlashExample(a: string, b: string)
    requires a == "5/14/2000" && b == "14/5/2000"
    ensures ScriptProcessText(a, false) == "2000-05-14" && ScriptProcessText(b, false) == "2000-05-14"
  {
    SlashExample(a, b);
    AgreesOnSlash(a, b);
  }

  lemma AgreesOnSlash(a: string, b: string)
    requires a == "5/14/2000" && b == "14/5/2000"
    ensures ScriptProcessText(a, false) == ProcessText(a, false)
    ensures ScriptProcessText(b, false) == ProcessText(b, false)
  {
    SlashExampleFields();
    assert a == Fields3("5", "14", "2000", '/') && b == Fields3("14", "5", "2000", '/');
    ScriptFields3("5", "14", "2000", '/', 4, false);
    ScriptFields3("14", "5", "2000", '/', 4, false);
  }

  lemma ScriptDashExample(c: string, d: string)
    requires c == "3-17-2013" && d == "17-3-2013"
    ensures ScriptProcessText(c, false) == "2013-03-17" && ScriptProcessText(d, false) == "2013-03-17"
  {
    DashExample(c, d);
    AgreesOnDash(c, d);
  }

  lemma AgreesOnDash(c: string, d: string)
    requires c == "3-17-2013" && d == "17-3-2013"
    ensures ScriptProcessText(c, false) == ProcessText(c, false)
    ensures ScriptProcessText(d, false) == ProcessText(d, false)
  {
    DashExampleFields();
    assert c == Fields3("3", "17", "2013", '-') && d == Fields3("17", "3", "2013", '-');
    ScriptFields3("3", "17", "2013", '-', 4, false);
    ScriptFields3("17", "3", "2013", '-', 4, false);
  }

  lemma ScriptAmbiguousExample(e: string)
    requires e == "5/4/99"
    ensures ScriptProcessText(e, false) == e && ScriptProcessText(e, true) == "1999-05-04"
  {
    AmbiguousExample(e);
    AgreesOnAmbiguous(e, false);
    AgreesOnAmbiguous(e, true);
  }

  lemma AgreesOnAmbiguous(e: string, force: bool)
    requires e == "5/4/99"
    ensures ScriptProcessText(e, force) == ProcessText(e, force)
  {
    AmbiguousExampleFields();
    assert e == Fields3("5", "4", "99", '/');
    ScriptFields3("5", "4", "99", '/', 2, force);
  }
}
