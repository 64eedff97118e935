/** Why comparing publish timestamps as strings is comparing them in time:
    RFC 3339 section 5.6 date-times in UTC with whole seconds, against a count
    of seconds in the Gregorian calendar. */
module Timestamps {
  import opened Text

  // ----- the rules that use the order -----

  /** `is_newer`: empty never wins, anything else beats empty. */
  predicate IsNewer(candidate: string, existing: string)
  {
    candidate != "" && LexLess(existing, candidate)
  }

  predicate ShouldDownload(binaryExists: bool, cachedTs: string, releaseTs: string)
  {
    !binaryExists || IsNewer(releaseTs, cachedTs)
  }

  predicate DecideSeed(bundleTs: string, cachedTs: string, bundleExists: bool)
  {
    bundleExists && IsNewer(bundleTs, cachedTs)
  }

  // ----- the calendar -----

  datatype Moment = Moment(year: nat, month: nat, day: nat, hour: nat, minute: nat, second: nat)

  predicate IsLeap(year: nat)
  {
    year % 4 == 0 && (year % 100 != 0 || year % 400 == 0)
  }

  function DaysInMonth(year: nat, month: nat): nat
  {
    if month == 2 then (if IsLeap(year) then 29 else 28)
    else if month == 4 || month == 6 || month == 9 || month == 11 then 30
    else 31
  }

  predicate Valid(t: Moment)
  {
    && t.year <= 9999 && 1 <= t.month <= 12 && 1 <= t.day <= DaysInMonth(t.year, t.month)
    && t.hour < 24 && t.minute < 60 && t.second < 60
  }

  function DaysBeforeMonth(year: nat, month: nat): nat
  {
    if month <= 1 then 0 else DaysBeforeMonth(year, month - 1) + DaysInMonth(year, month - 1)
  }

  function DaysInYear(year: nat): nat
  {
    DaysBeforeMonth(year, 13)
  }

  function DaysBeforeYear(year: nat): nat
  {
    if year == 0 then 0 else DaysBeforeYear(year - 1) + DaysInYear(year - 1)
  }

  function DayNumber(t: Moment): nat
    requires t.day >= 1
  {
    DaysBeforeYear(t.year) + DaysBeforeMonth(t.year, t.month) + t.day - 1
  }

  /** Seconds since the start of year 0. */
  function Seconds(t: Moment): nat
    requires t.day >= 1
  {
    DayNumber(t) * 86400 + t.hour * 3600 + t.minute * 60 + t.second
  }

  predicate FieldsLess(a: Moment, b: Moment)
  {
    || a.year < b.year
    || (a.year == b.year && (|| a.month < b.month
    || (a.month == b.month && (|| a.day < b.day
    || (a.day == b.day && (|| a.hour < b.hour
    || (a.hour == b.hour && (|| a.minute < b.minute
    || (a.minute == b.minute && a.second < b.second)))))))))
  }

  lemma {:induction false} MonthsAdd(year: nat, m: nat, n: nat)
    requires 1 <= m < n <= 13
    ensures DaysBeforeMonth(year, m) + DaysInMonth(year, m) <= DaysBeforeMonth(year, n)
  {
    if m < n - 1 {
      MonthsAdd(year, m, n - 1);
    }
  }

  lemma {:induction false} YearsAdd(y: nat, z: nat)
    requires y < z
    ensures DaysBeforeYear(y) + DaysInYear(y) <= DaysBeforeYear(z)
  {
    if y < z - 1 {
      YearsAdd(y, z - 1);
    }
  }

  lemma DaysOrdered(a: Moment, b: Moment)
    requires Valid(a) && Valid(b)
    requires a.year < b.year || (a.year == b.year && (a.month < b.month || (a.month == b.month && a.day < b.day)))
    ensures DayNumber(a) < DayNumber(b)
  {
    if a.year < b.year {
      MonthsAdd(a.year, a.month, 13);
      YearsAdd(a.year, b.year);
    } else if a.month < b.month {
      MonthsAdd(a.year, a.month, b.month);
    }
  }

  lemma FieldsLessIsEarlier(a: Moment, b: Moment)
    requires Valid(a) && Valid(b) && FieldsLess(a, b)
    ensures Seconds(a) < Seconds(b)
  {
    if a.year != b.year || a.month != b.month || a.day != b.day {
      DaysOrdered(a, b);
    }
  }

  // ----- the strings -----

  function Pow10(k: nat): (p: nat)
    ensures p >= 1
  {
    if k == 0 then 1 else 10 * Pow10(k - 1)
  }

  function Numeral(n: nat, width: nat): (s: string)
    ensures |s| == width && forall i :: 0 <= i < |s| ==> IsDigit(s[i])
  {
    if width == 0 then "" else Numeral(n / 10, width - 1) + [DigitChar(n % 10)]
  }

  /** A fixed-width number and the character that ends it. */
  datatype Field = Field(width: nat, end: char)

  /** `YYYY-MM-DDTHH:MM:SSZ` */
  const LAYOUT: seq<Field> :=
    [Field(4, '-'), Field(2, '-'), Field(2, 'T'), Field(2, ':'), Field(2, ':'), Field(2, 'Z')]

  function FieldsOf(t: Moment): seq<nat>
  {
    [t.year, t.month, t.day, t.hour, t.minute, t.second]
  }

  predicate Fits(ns: seq<nat>, layout: seq<Field>)
  {
    |ns| == |layout| && forall i :: 0 <= i < |ns| ==> ns[i] < Pow10(layout[i].width)
  }

  function PrintFields(ns: seq<nat>, layout: seq<Field>): string
    requires |ns| == |layout|
  {
    if ns == [] then ""
    else Numeral(ns[0], layout[0].width) + ([layout[0].end] + PrintFields(ns[1..], layout[1..]))
  }

  function Print(t: Moment): string
  {
    PrintFields(FieldsOf(t), LAYOUT)
  }

  predicate AllDigits(s: string)
  {
    forall i :: 0 <= i < |s| ==> IsDigit(s[i])
  }

  function ParseFields(s: string, layout: seq<Field>): (r: Option<seq<nat>>)
    ensures r.Some? ==> |r.value| == |layout|
  {
    if layout == [] then (if s == "" then Some([]) else None)
    else
      var w := layout[0].width;
      if |s| <= w || !AllDigits(s[..w]) || s[w] != layout[0].end then None
      else
        var rest := ParseFields(s[w + 1..], layout[1..]);
        if rest.None? then None else Some([DigitsValue(s[..w])] + rest.value)
  }

  /** Reading a timestamp: the layout, then the calendar's ranges. */
  function Parse(s: string): Option<Moment>
  {
    var r := ParseFields(s, LAYOUT);
    if r.None? then None
    else
      var ns := r.value;
      var t := Moment(ns[0], ns[1], ns[2], ns[3], ns[4], ns[5]);
      if Valid(t) then Some(t) else None
  }

  lemma LastDigit(front: string, last: char)
    requires AllDigits(front) && IsDigit(last)
    ensures var n := DigitsValue(front + [last]);
            n / 10 == DigitsValue(front) && n % 10 == DigitValue(last) && DigitChar(n % 10) == last
  {
    assert (front + [last])[..|front|] == front;
    DigitRoundTrip(DigitValue(last));
  }

  lemma {:induction false} NumeralOfDigits(d: string)
    requires AllDigits(d)
    ensures Numeral(DigitsValue(d), |d|) == d
  {
    if d != "" {
      var front, last := d[..|d| - 1], d[|d| - 1];
      assert d == front + [last];
      NumeralOfDigits(front);
      LastDigit(front, last);
    }
  }

  lemma SplitByTen(n: nat, k: nat)
    requires k > 0 && n < Pow10(k)
    ensures n / 10 < Pow10(k - 1) && n == n / 10 * 10 + n % 10
  {
  }

  lemma DigitAfter(front: string, d: nat)
    requires AllDigits(front) && d < 10
    ensures AllDigits(front + [DigitChar(d)]) && DigitsValue(front + [DigitChar(d)]) == DigitsValue(front) * 10 + d
  {
    DigitRoundTrip(d);
    assert (front + [DigitChar(d)])[..|front|] == front;
  }

  lemma {:induction false} DigitsOfNumeral(n: nat, width: nat)
    requires n < Pow10(width)
    ensures DigitsValue(Numeral(n, width)) == n
  {
    if width > 0 {
      SplitByTen(n, width);
      DigitsOfNumeral(n / 10, width - 1);
      DigitAfter(Numeral(n / 10, width - 1), n % 10);
    }
  }

  lemma CutAt(s: string, w: nat)
    requires w < |s|
    ensures s == s[..w] + ([s[w]] + s[w + 1..])
  {
  }

  lemma FirstField(s: string, layout: seq<Field>)
    requires layout != [] && ParseFields(s, layout).Some?
    ensures var w := layout[0].width;
            && w < |s| && AllDigits(s[..w]) && s[w] == layout[0].end
            && ParseFields(s[w + 1..], layout[1..]).Some?
            && ParseFields(s, layout).value == [DigitsValue(s[..w])] + ParseFields(s[w + 1..], layout[1..]).value
  {
  }

  lemma {:induction false} ParsedFieldsPrint(s: string, layout: seq<Field>)
    requires ParseFields(s, layout).Some?
    ensures PrintFields(ParseFields(s, layout).value, layout) == s
  {
    if layout != [] {
      var w := layout[0].width;
      FirstField(s, layout);
      CutAt(s, w);
      var rest := ParseFields(s[w + 1..], layout[1..]).value;
      NumeralOfDigits(s[..w]);
      ParsedFieldsPrint(s[w + 1..], layout[1..]);
      assert ParseFields(s, layout).value[1..] == rest;
    }
  }

  lemma ParseOneField(head: string, tail: string, layout: seq<Field>)
    requires layout != [] && |head| == layout[0].width && AllDigits(head)
    ensures var rest := ParseFields(tail, layout[1..]);
            ParseFields(head + ([layout[0].end] + tail), layout) ==
              if rest.None? then None else Some([DigitsValue(head)] + rest.value)
  {
    var s := head + ([layout[0].end] + tail);
    assert s[..|head|] == head && s[|head|] == layout[0].end && s[|head| + 1..] == tail;
  }

  lemma {:induction false} PrintedFieldsParse(ns: seq<nat>, layout: seq<Field>)
    requires Fits(ns, layout)
    ensures ParseFields(PrintFields(ns, layout), layout) == Some(ns)
  {
    if ns != [] {
      DigitsOfNumeral(ns[0], layout[0].width);
      PrintedFieldsParse(ns[1..], layout[1..]);
      ParseOneField(Numeral(ns[0], layout[0].width), PrintFields(ns[1..], layout[1..]), layout);
      assert [ns[0]] + ns[1..] == ns;
    }
  }

  /** Exactly the printed forms of valid moments are timestamps. */
  lemma ParseInverse(s: string, t: Moment)
    ensures Parse(s) == Some(t) <==> Valid(t) && Print(t) == s
  {
    if Parse(s) == Some(t) {
      ParsedFieldsPrint(s, LAYOUT);
      assert ParseFields(s, LAYOUT).value == FieldsOf(t);
    }
    if Valid(t) && Print(t) == s {
      ValidFits(t);
      PrintedFieldsParse(FieldsOf(t), LAYOUT);
    }
  }

  lemma ValidFits(t: Moment)
    requires Valid(t)
    ensures Fits(FieldsOf(t), LAYOUT)
  {
    assert Pow10(2) == 100 && Pow10(4) == 10000;
  }

  predicate SeqLess(a: seq<nat>, b: seq<nat>)
    requires |a| == |b|
  {
    a != [] && (a[0] < b[0] || (a[0] == b[0] && SeqLess(a[1..], b[1..])))
  }

  lemma DigitOrder(x: nat, y: nat)
    requires x < 10 && y < 10
    ensures LexLess([DigitChar(x)], [DigitChar(y)]) <==> x < y
    ensures DigitChar(x) == DigitChar(y) <==> x == y
  {
    DigitRoundTrip(x);
    DigitRoundTrip(y);
    assert [DigitChar(x)][1..] == "" && [DigitChar(y)][1..] == "";
  }

  lemma OneMoreDigit(x: string, c: char, y: string, d: char)
    requires |x| == |y|
    ensures x + [c] == y + [d] <==> x == y && c == d
  {
    assert (x + [c])[..|x|] == x && (y + [d])[..|y|] == y;
    assert (x + [c])[|x|] == c && (y + [d])[|y|] == d;
  }

  lemma {:induction false} NumeralOrder(a: nat, b: nat, width: nat)
    requires a < Pow10(width) && b < Pow10(width)
    ensures LexLess(Numeral(a, width), Numeral(b, width)) <==> a < b
    ensures Numeral(a, width) == Numeral(b, width) <==> a == b
  {
    if width > 0 {
      SplitByTen(a, width);
      SplitByTen(b, width);
      NumeralOrder(a / 10, b / 10, width - 1);
      var x, y := Numeral(a / 10, width - 1), Numeral(b / 10, width - 1);
      var c, d := DigitChar(a % 10), DigitChar(b % 10);
      LexConcat(x, [c], y, [d]);
      DigitOrder(a % 10, b % 10);
      OneMoreDigit(x, c, y, d);
    }
  }

  /** Fixed-width fields compare as strings as they compare as numbers. */
  lemma {:induction false} PrintOrder(a: seq<nat>, b: seq<nat>, layout: seq<Field>)
    requires Fits(a, layout) && Fits(b, layout)
    ensures LexLess(PrintFields(a, layout), PrintFields(b, layout)) <==> SeqLess(a, b)
  {
    if a != [] {
      var w, end := layout[0].width, [layout[0].end];
      var ra, rb := PrintFields(a[1..], layout[1..]), PrintFields(b[1..], layout[1..]);
      NumeralOrder(a[0], b[0], w);
      LexConcat(Numeral(a[0], w), end + ra, Numeral(b[0], w), end + rb);
      LexConcat(end, ra, end, rb);
      LexTotal(end, end);
      PrintOrder(a[1..], b[1..], layout[1..]);
    }
  }

  lemma MomentOrder(a: Moment, b: Moment)
    ensures SeqLess(FieldsOf(a), FieldsOf(b)) <==> FieldsLess(a, b)
  {
    var x, y := FieldsOf(a), FieldsOf(b);
    assert SeqLess(x[5..], y[5..]) <==> a.second < b.second;
    assert x[4..][1..] == x[5..] && y[4..][1..] == y[5..];
    assert x[3..][1..] == x[4..] && y[3..][1..] == y[4..];
    assert x[2..][1..] == x[3..] && y[2..][1..] == y[3..];
    assert x[1..][1..] == x[2..] && y[1..][1..] == y[2..];
    assert SeqLess(x[4..], y[4..]) <==> a.minute < b.minute || (a.minute == b.minute && SeqLess(x[5..], y[5..]));
    assert SeqLess(x[3..], y[3..]) <==> a.hour < b.hour || (a.hour == b.hour && SeqLess(x[4..], y[4..]));
    assert SeqLess(x[2..], y[2..]) <==> a.day < b.day || (a.day == b.day && SeqLess(x[3..], y[3..]));
  }

  /** Lexicographic comparison equals chronological order. */
  lemma LexIsChronological(s: string, t: string)
    requires Parse(s).Some? && Parse(t).Some?
    ensures LexLess(s, t) <==> Seconds(Parse(s).value) < Seconds(Parse(t).value)
    ensures s == t <==> Seconds(Parse(s).value) == Seconds(Parse(t).value)
  {
    var a, b := Parse(s).value, Parse(t).value;
    ParseInverse(s, a);
    ParseInverse(t, b);
    ValidFits(a);
    ValidFits(b);
    PrintOrder(FieldsOf(a), FieldsOf(b), LAYOUT);
    MomentOrder(a, b);
    if FieldsLess(a, b) {
      FieldsLessIsEarlier(a, b);
    } else if FieldsLess(b, a) {
      FieldsLessIsEarlier(b, a);
    } else {
      assert a == b;
    }
  }

  /** `is_newer` is exactly "strictly later", with the empty timestamp least. */
  lemma IsNewerIsLater(candidate: string, existing: string)
    requires candidate == "" || Parse(candidate).Some?
    requires existing == "" || Parse(existing).Some?
    ensures IsNewer(candidate, existing) <==>
              candidate != ""
              && (existing == "" || Seconds(Parse(existing).value) < Seconds(Parse(candidate).value))
  {
    if candidate != "" && existing != "" {
      LexIsChronological(existing, candidate);
    }
  }
}
