/**
  Naive datetimes as Python's `datetime` holds them, the `isoformat()` rendering,
  `strptime` with the format "%Y-%m-%dT%H:%M:%S.%f", and `repr()`.

  The rendering follows ISO 8601 extended calendar date and time of day
  (section 4.3.2 of ISO 8601:2004) with a decimal fraction of the second
  (section 4.2.2.4); the fraction is omitted when it is zero, as Python does.
*/
module DateTimes {
  import opened Wrappers
  import opened Digits

  predicate IsLeapYear(year: int)
  {
    year % 4 == 0 && (year % 100 != 0 || year % 400 == 0)
  }

  /** Days in a month of the proleptic Gregorian calendar. */
  function DaysInMonth(year: int, month: int): int
  {
    if month == 2 then (if IsLeapYear(year) then 29 else 28)
    else if month == 4 || month == 6 || month == 9 || month == 11 then 30
    else 31
  }

  datatype DateTime = DateTime(year: int, month: int, day: int,
                               hour: int, minute: int, second: int, microsecond: int)
  {
    /** The ranges Python's `datetime` constructor accepts (MINYEAR = 1, MAXYEAR = 9999). */
    predicate Valid()
    {
      && 1 <= year <= 9999
      && 1 <= month <= 12
      && 1 <= day <= DaysInMonth(year, month)
      && 0 <= hour <= 23
      && 0 <= minute <= 59
      && 0 <= second <= 59
      && 0 <= microsecond <= 999999
    }

    function Fields(): seq<int>
    {
      [year, month, day, hour, minute, second, microsecond]
    }
  }

  /** A datetime value Python can hold. */
  type ValidDateTime = t: DateTime | t.Valid() witness DateTime(1, 1, 1, 0, 0, 0, 0)

  /** Lexicographic order on equally long sequences of fields. */
  predicate LexNotAfter(xs: seq<int>, ys: seq<int>)
    requires |xs| == |ys|
  {
    xs == [] || xs[0] < ys[0] || (xs[0] == ys[0] && LexNotAfter(xs[1..], ys[1..]))
  }

  /** Chronological order of naive datetimes: `a <= b`. */
  predicate NotAfter(a: DateTime, b: DateTime)
  {
    LexNotAfter(a.Fields(), b.Fields())
  }

  lemma {:induction false} LexNotAfterTransitive(xs: seq<int>, ys: seq<int>, zs: seq<int>)
    requires |xs| == |ys| == |zs|
    requires LexNotAfter(xs, ys) && LexNotAfter(ys, zs)
    ensures LexNotAfter(xs, zs)
  {
    if xs != [] && xs[0] == ys[0] == zs[0] {
      LexNotAfterTransitive(xs[1..], ys[1..], zs[1..]);
    }
  }

  lemma {:induction false} LexNotAfterAntisymmetric(xs: seq<int>, ys: seq<int>)
    requires |xs| == |ys|
    requires LexNotAfter(xs, ys) && LexNotAfter(ys, xs)
    ensures xs == ys
  {
    if xs != [] {
      LexNotAfterAntisymmetric(xs[1..], ys[1..]);
      assert xs == [xs[0]] + xs[1..];
      assert ys == [ys[0]] + ys[1..];
    }
  }

  lemma {:induction false} LexNotAfterReflexive(xs: seq<int>)
    ensures LexNotAfter(xs, xs)
  {
    if xs != [] {
      LexNotAfterReflexive(xs[1..]);
    }
  }

  /** `<=` on datetimes is reflexive: every reading is no later than itself. */
  lemma NotAfterReflexive(a: DateTime)
    ensures NotAfter(a, a)
  {
    LexNotAfterReflexive(a.Fields());
  }

  /** `<=` on datetimes is transitive: a clock that never goes back keeps earlier readings earlier. */
  lemma NotAfterTransitive(a: DateTime, b: DateTime, c: DateTime)
    requires NotAfter(a, b) && NotAfter(b, c)
    ensures NotAfter(a, c)
  {
    LexNotAfterTransitive(a.Fields(), b.Fields(), c.Fields());
  }

  /** `<=` on datetimes is antisymmetric: two readings each no later than the other are equal. */
  lemma NotAfterAntisymmetric(a: DateTime, b: DateTime)
    requires NotAfter(a, b) && NotAfter(b, a)
    ensures a == b
  {
    LexNotAfterAntisymmetric(a.Fields(), b.Fields());
    assert a.Fields()[0] == b.Fields()[0] && a.Fields()[6] == b.Fields()[6];
  }

  /**
    `t.isoformat(sep)`: "YYYY-MM-DD<sep>HH:MM:SS", followed by ".ffffff" only
    when the microsecond is not zero.
  */
  function IsoFormat(t: ValidDateTime, sep: char): string
  {
    Padded(t.year, 4) + "-" + Padded(t.month, 2) + "-" + Padded(t.day, 2) + [sep]
    + Padded(t.hour, 2) + ":" + Padded(t.minute, 2) + ":" + Padded(t.second, 2)
    + Fraction(t.microsecond)
  }

  /** `isoformat()` writes the microseconds only when they are not zero. */
  function Fraction(microsecond: nat): string
    requires microsecond < 1000000
  {
    if microsecond == 0 then "" else "." + Padded(microsecond, 6)
  }

  /** `repr(t)`: the trailing microsecond, then the trailing second, are dropped when zero. */
  function ReprDateTime(t: ValidDateTime): string
  {
    var shown := [t.year, t.month, t.day, t.hour, t.minute]
                 + (if t.microsecond != 0 then [t.second, t.microsecond]
                    else if t.second != 0 then [t.second]
                    else []);
    "datetime.datetime(" + JoinInts(shown) + ")"
  }

  /**
    `repr(t)` shows a prefix of the seven fields: at least year to minute, and
    after that only up to the last field that is not zero. The fields it leaves
    out are zero, so the prefix and its length determine `t`.
  */
  lemma ReprDateTimeFields(t: ValidDateTime) returns (n: nat)
    ensures 5 <= n <= 7
    ensures ReprDateTime(t) == "datetime.datetime(" + JoinInts(t.Fields()[..n]) + ")"
    ensures forall i :: n <= i < 7 ==> t.Fields()[i] == 0
    ensures n > 5 ==> t.Fields()[n - 1] != 0
  {
    var f := t.Fields();
    if t.microsecond != 0 {
      n := 7;
      assert f[..7] == [t.year, t.month, t.day, t.hour, t.minute] + [t.second, t.microsecond];
    } else if t.second != 0 {
      n := 6;
      assert f[..6] == [t.year, t.month, t.day, t.hour, t.minute] + [t.second];
    } else {
      n := 5;
      assert f[..5] == [t.year, t.month, t.day, t.hour, t.minute] + [];
    }
  }

  /** `", ".join(map(str, xs))` */
  function JoinInts(xs: seq<int>): string
  {
    if |xs| == 0 then "" else if |xs| == 1 then IntText(xs[0])
    else IntText(xs[0]) + ", " + JoinInts(xs[1..])
  }

  /** The text before the first character of `s` that is in `seps`, and the text after it. */
  function SplitAt(s: string, seps: set<char>): Option<(string, string)>
  {
    if s == [] then None
    else if s[0] in seps then Some(([], s[1..]))
    else match SplitAt(s[1..], seps)
      case None => None
      case Some(parts) => Some(([s[0]] + parts.0, parts.1))
  }

  predicate NoneOf(s: string, seps: set<char>)
  {
    forall i :: 0 <= i < |s| ==> s[i] !in seps
  }

  lemma {:induction false} SplitAtFirst(before: string, sep: char, after: string, seps: set<char>)
    requires sep in seps && NoneOf(before, seps)
    ensures SplitAt(before + [sep] + after, seps) == Some((before, after))
  {
    var s := before + [sep] + after;
    if before != [] {
      assert s[1..] == before[1..] + [sep] + after;
      SplitAtFirst(before[1..], sep, after, seps);
      assert [before[0]] + before[1..] == before;
    } else {
      assert s[1..] == after;
    }
  }

  lemma {:induction false} SplitAtAbsent(s: string, seps: set<char>)
    requires NoneOf(s, seps)
    ensures SplitAt(s, seps) == None
  {
    if s != [] {
      SplitAtAbsent(s[1..], seps);
    }
  }

  /** `%m` matches 1[0-2]|0[1-9]|[1-9]. */
  predicate MonthText(f: string)
  {
    1 <= |f| <= 2 && AllDigits(f) && 1 <= ValueOf(f) <= 12
  }

  /** `%d` matches 3[01]|[12]\d|0[1-9]|[1-9]| [1-9]. */
  predicate DayText(f: string)
  {
    || (1 <= |f| <= 2 && AllDigits(f) && 1 <= ValueOf(f) <= 31)
    || (|f| == 2 && f[0] == ' ' && '1' <= f[1] <= '9')
  }

  function DayValue(f: string): nat
    requires DayText(f)
  {
    if f[0] == ' ' then DigitValue(f[1]) else ValueOf(f)
  }

  /**
    `%H` (2[0-3]|[0-1]\d|\d), `%M` ([0-5]\d|\d) and `%S` (6[0-1]|[0-5]\d|\d):
    one or two digits up to `max`.
  */
  predicate UpTo(f: string, max: nat)
  {
    1 <= |f| <= 2 && AllDigits(f) && ValueOf(f) <= max
  }

  /** `%f` matches one to six digits, and nothing may follow them. */
  predicate FractionText(f: string)
  {
    1 <= |f| <= 6 && AllDigits(f)
  }

  /** A fraction of one to six digits, right-padded with zeros to microseconds. */
  function Microseconds(f: string): nat
    requires FractionText(f)
  {
    ValueOf(f) * Pow10(6 - |f|)
  }

  /**
    `datetime.strptime(s, "%Y-%m-%dT%H:%M:%S.%f")`: `Some` of the datetime, or
    `None` where Python raises ValueError. Each field is the text up to the next
    literal of the format (the field patterns hold only digits and a space, so
    the match cannot end anywhere else); "T" is matched ignoring case; seconds 60
    and 61 pass the pattern but not the datetime constructor, and neither does a
    day past the end of its month or the year 0.
  */
  function Parse(s: string): Option<ValidDateTime>
  {
    if |s| < 5 || !AllDigits(s[..4]) || s[4] != '-' then None
    else
      var month :- SplitAt(s[5..], {'-'});
      var day :- SplitAt(month.1, {'T', 't'});
      var hour :- SplitAt(day.1, {':'});
      var minute :- SplitAt(hour.1, {':'});
      var second :- SplitAt(minute.1, {'.'});
      if && MonthText(month.0) && DayText(day.0) && UpTo(hour.0, 23)
         && UpTo(minute.0, 59) && UpTo(second.0, 61) && FractionText(second.1)
      then
        var t := DateTime(ValueOf(s[..4]), ValueOf(month.0), DayValue(day.0), ValueOf(hour.0),
                          ValueOf(minute.0), ValueOf(second.0), Microseconds(second.1));
        if t.Valid() then Some(t) else None
      else None
  }

  lemma DigitsAvoid(s: string, seps: set<char>)
    requires AllDigits(s)
    requires forall c :: c in seps ==> !IsDigit(c)
    ensures NoneOf(s, seps)
  {
  }

  /** Concatenation regrouped around the separators that parsing looks for. */
  lemma Regroup(y: string, mo: string, d: string, sep: char, h: string, mi: string, se: string, frac: string)
    ensures y + "-" + mo + "-" + d + [sep] + h + ":" + mi + ":" + se + frac
         == y + "-" + (mo + "-" + (d + [sep] + (h + ":" + (mi + ":" + (se + frac)))))
  {
  }

  /** A four-character year, a dash and the rest. */
  lemma HeadSplit(y: string, tail0: string)
    requires |y| == 4
    ensures var s := y + "-" + tail0; |s| >= 5 && s[..4] == y && s[4] == '-' && s[5..] == tail0
  {
    var s := y + "-" + tail0;
    assert s[..4] == y;
    assert s[5..] == tail0;
  }

  /** Parsing a string whose separators have been located. */
  lemma ParseSplit(s: string, tail0: string, month: (string, string), day: (string, string),
                   hour: (string, string), minute: (string, string))
    requires |s| >= 5 && AllDigits(s[..4]) && s[4] == '-' && s[5..] == tail0
    requires SplitAt(tail0, {'-'}) == Some(month)
    requires SplitAt(month.1, {'T', 't'}) == Some(day)
    requires SplitAt(day.1, {':'}) == Some(hour)
    requires SplitAt(hour.1, {':'}) == Some(minute)
    ensures SplitAt(minute.1, {'.'}).None? ==> Parse(s) == None
    ensures SplitAt(minute.1, {'.'}).Some? ==>
      var second := SplitAt(minute.1, {'.'}).value;
      Parse(s) ==
        if && MonthText(month.0) && DayText(day.0) && UpTo(hour.0, 23)
           && UpTo(minute.0, 59) && UpTo(second.0, 61) && FractionText(second.1)
        then
          var t := DateTime(ValueOf(s[..4]), ValueOf(month.0), DayValue(day.0), ValueOf(hour.0),
                            ValueOf(minute.0), ValueOf(second.0), Microseconds(second.1));
          if t.Valid() then Some(t) else None
        else None
  {
  }

  /** The padded fields of a valid datetime match the field patterns and read back as the fields. */
  lemma PaddedFields(t: ValidDateTime)
    ensures |Padded(t.year, 4)| == 4 && AllDigits(Padded(t.year, 4)) && ValueOf(Padded(t.year, 4)) == t.year
    ensures MonthText(Padded(t.month, 2)) && ValueOf(Padded(t.month, 2)) == t.month
    ensures DayText(Padded(t.day, 2)) && DayValue(Padded(t.day, 2)) == t.day
    ensures UpTo(Padded(t.hour, 2), 23) && ValueOf(Padded(t.hour, 2)) == t.hour
    ensures UpTo(Padded(t.minute, 2), 59) && ValueOf(Padded(t.minute, 2)) == t.minute
    ensures UpTo(Padded(t.second, 2), 61) && ValueOf(Padded(t.second, 2)) == t.second
    ensures FractionText(Padded(t.microsecond, 6)) && Microseconds(Padded(t.microsecond, 6)) == t.microsecond
  {
    assert Pow10(4) == 10000 && Pow10(6) == 1000000;
    PaddedDenotes(t.year, 4);
    PaddedTwo(t.month, 12);
    PaddedTwo(t.day, 31);
    PaddedTwo(t.hour, 23);
    PaddedTwo(t.minute, 59);
    PaddedTwo(t.second, 61);
    PaddedDenotes(t.microsecond, 6);
  }

  /** A two-digit field up to `max` reads back as its value. */
  lemma PaddedTwo(n: nat, max: nat)
    requires n <= max < 100
    ensures UpTo(Padded(n, 2), max) && ValueOf(Padded(n, 2)) == n
    ensures Padded(n, 2)[0] != ' '
  {
    assert Pow10(2) == 100;
    PaddedDenotes(n, 2);
  }

  /** The rendering of a datetime, grouped from the right. */
  lemma IsoFormatShape(t: ValidDateTime)
    ensures var y, mo, d := Padded(t.year, 4), Padded(t.month, 2), Padded(t.day, 2);
      var h, mi, se := Padded(t.hour, 2), Padded(t.minute, 2), Padded(t.second, 2);
      IsoFormat(t, 'T') == y + "-" + (mo + "-" + (d + ['T'] + (h + ":" + (mi + ":" + (se + Fraction(t.microsecond))))))
  {
    Regroup(Padded(t.year, 4), Padded(t.month, 2), Padded(t.day, 2), 'T', Padded(t.hour, 2),
            Padded(t.minute, 2), Padded(t.second, 2), Fraction(t.microsecond));
  }

  /** The rendering of a datetime splits at its separators up to the minutes, whatever follows them. */
  lemma SplitsToMinute(t: ValidDateTime, rest: string)
    ensures var mo, d, h, mi := Padded(t.month, 2), Padded(t.day, 2), Padded(t.hour, 2), Padded(t.minute, 2);
      var tail3 := mi + ":" + rest;
      var tail2 := h + ":" + tail3;
      var tail1 := d + ['T'] + tail2;
      && SplitAt(mo + "-" + tail1, {'-'}) == Some((mo, tail1))
      && SplitAt(tail1, {'T', 't'}) == Some((d, tail2))
      && SplitAt(tail2, {':'}) == Some((h, tail3))
      && SplitAt(tail3, {':'}) == Some((mi, rest))
  {
    var mo, d, h, mi := Padded(t.month, 2), Padded(t.day, 2), Padded(t.hour, 2), Padded(t.minute, 2);
    PaddedFields(t);
    var tail3 := mi + ":" + rest;
    var tail2 := h + ":" + tail3;
    var tail1 := d + ['T'] + tail2;
    DigitsAvoid(mo, {'-'});
    DigitsAvoid(d, {'T', 't'});
    DigitsAvoid(h, {':'});
    DigitsAvoid(mi, {':'});
    SplitAtFirst(mo, '-', tail1, {'-'});
    SplitAtFirst(d, 'T', tail2, {'T', 't'});
    SplitAtFirst(h, ':', tail3, {':'});
    SplitAtFirst(mi, ':', rest, {':'});
  }

  /**
    Parsing the rendering of a datetime whose microsecond is not zero gives that datetime back.
  */
  lemma ParseIsoFormat(t: ValidDateTime)
    requires t.microsecond != 0
    ensures Parse(IsoFormat(t, 'T')) == Some(t)
  {
    var y, mo, d := Padded(t.year, 4), Padded(t.month, 2), Padded(t.day, 2);
    var h, mi, se := Padded(t.hour, 2), Padded(t.minute, 2), Padded(t.second, 2);
    var f := Padded(t.microsecond, 6);
    PaddedFields(t);
    var tail4 := se + Fraction(t.microsecond);
    var tail3 := mi + ":" + tail4;
    var tail2 := h + ":" + tail3;
    var tail1 := d + ['T'] + tail2;
    var tail0 := mo + "-" + tail1;
    var s := IsoFormat(t, 'T');
    IsoFormatShape(t);
    assert s == y + "-" + tail0;
    HeadSplit(y, tail0);
    SplitsToMinute(t, tail4);
    assert tail4 == se + ['.'] + f;
    DigitsAvoid(se, {'.'});
    SplitAtFirst(se, '.', f, {'.'});
    ParseSplit(s, tail0, (mo, tail1), (d, tail2), (h, tail3), (mi, tail4));
  }

  /**
    A datetime whose microsecond is zero renders without a fraction, which the
    ".%f" part of the format then fails to match: parsing it fails.
  */
  lemma ParseIsoFormatWholeSecond(t: ValidDateTime)
    requires t.microsecond == 0
    ensures Parse(IsoFormat(t, 'T')) == None
  {
    var y, mo, d := Padded(t.year, 4), Padded(t.month, 2), Padded(t.day, 2);
    var h, mi, se := Padded(t.hour, 2), Padded(t.minute, 2), Padded(t.second, 2);
    PaddedFields(t);
    var tail4 := se + Fraction(t.microsecond);
    var tail3 := mi + ":" + tail4;
    var tail2 := h + ":" + tail3;
    var tail1 := d + ['T'] + tail2;
    var tail0 := mo + "-" + tail1;
    var s := IsoFormat(t, 'T');
    IsoFormatShape(t);
    assert s == y + "-" + tail0;
    HeadSplit(y, tail0);
    SplitsToMinute(t, tail4);
    assert tail4 == se;
    DigitsAvoid(se, {'.'});
    SplitAtAbsent(tail4, {'.'});
    ParseSplit(s, tail0, (mo, tail1), (d, tail2), (h, tail3), (mi, tail4));
  }
}
