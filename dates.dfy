/**
 * Calendar dates as the API sends them, `YYYY-MM-DD` (the full-date form of
 * section 5.6 of RFC 3339), the two ways the pages reformat them for display,
 * and why sorting them as strings sorts them in time (section 5.1 of RFC 3339).
 */
module Dates {
  import opened JsText
  import opened LexOrder

  predicate IsFullDate(s: string) {
    && |s| == 10 && s[4] == '-' && s[7] == '-'
    && (forall i :: 0 <= i < 4 ==> IsDecimalDigit(s[i]))
    && IsDecimalDigit(s[5]) && IsDecimalDigit(s[6]) && IsDecimalDigit(s[8]) && IsDecimalDigit(s[9])
  }

  function Year(s: string): nat
    requires IsFullDate(s)
  {
    DigitsValue(s[..4], 10)
  }

  function Month(s: string): nat
    requires IsFullDate(s)
  {
    DigitsValue(s[5..7], 10)
  }

  function Day(s: string): nat
    requires IsFullDate(s)
  {
    DigitsValue(s[8..], 10)
  }

  /** `a` is an earlier day than `b`: by year, then month, then day. */
  predicate Earlier(a: string, b: string)
    requires IsFullDate(a) && IsFullDate(b)
  {
    || Year(a) < Year(b)
    || (Year(a) == Year(b) && Month(a) < Month(b))
    || (Year(a) == Year(b) && Month(a) == Month(b) && Day(a) < Day(b))
  }

  /** An element read by array destructuring: a missing one is `undefined`,
      which a template literal writes as the text "undefined". */
  function PartOr(parts: seq<string>, i: nat): string {
    if i < |parts| then parts[i] else "undefined"
  }

  /** `const [y, m, d] = date.split('-')` shown as `${d}-${m}-${y}`. */
  function DayMonthYear(date: string): string {
    var p := Split(date, '-');
    PartOr(p, 2) + "-" + PartOr(p, 1) + "-" + PartOr(p, 0)
  }

  /** `const p = d.split('-')` shown as `${p[2]}-${p[1]}`: the chart's axis label. */
  function DayMonth(date: string): string {
    var p := Split(date, '-');
    PartOr(p, 2) + "-" + PartOr(p, 1)
  }

  lemma JoinThree(a: string, b: string, c: string, sep: string)
    ensures Join([a, b, c], sep) == a + sep + b + sep + c
  {
    assert [a, b, c][1..] == [b, c];
    assert [b, c][1..] == [c];
    assert Join([c], sep) == c;
    assert Join([b, c], sep) == b + sep + c;
    assert Join([a, b, c], sep) == a + sep + (b + sep + c);
  }

  lemma FullDateParts(s: string)
    requires IsFullDate(s)
    ensures Split(s, '-') == [s[..4], s[5..7], s[8..]]
  {
    var parts := [s[..4], s[5..7], s[8..]];
    JoinThree(s[..4], s[5..7], s[8..], "-");
    assert s == Join(parts, "-");
    forall i | 0 <= i < |parts| ensures '-' !in parts[i] {
      if i == 0 {
        assert forall k :: 0 <= k < 4 ==> parts[0][k] == s[k];
      }
    }
    SplitJoin(parts, '-');
  }

  /** A full date `YYYY-MM-DD` is shown as `DD-MM-YYYY`. */
  lemma DayMonthYearOfFullDate(s: string)
    requires IsFullDate(s)
    ensures DayMonthYear(s) == s[8..] + "-" + s[5..7] + "-" + s[..4]
  {
    FullDateParts(s);
  }

  /** The chart label of a full date `YYYY-MM-DD` is `DD-MM`: the table's day and month without the year. */
  lemma DayMonthOfFullDate(s: string)
    requires IsFullDate(s)
    ensures DayMonth(s) == s[8..] + "-" + s[5..7]
    ensures DayMonth(s) == DayMonthYear(s)[..5]
  {
    FullDateParts(s);
    assert DayMonthYear(s) == DayMonth(s) + "-" + s[..4];
  }

  /** Reformatting swaps the first and the last of three dash-separated parts, so doing it twice
      restores the input: no information is lost in the table's date column. */
  lemma DayMonthYearTwice(s: string)
    requires |Split(s, '-')| == 3
    ensures DayMonthYear(DayMonthYear(s)) == s
  {
    var p := Split(s, '-');
    var q := [p[2], p[1], p[0]];
    JoinThree(p[2], p[1], p[0], "-");
    assert DayMonthYear(s) == Join(q, "-");
    SplitJoin(q, '-');
    JoinThree(p[0], p[1], p[2], "-");
    assert [p[0], p[1], p[2]] == p;
  }

  lemma {:induction false} DigitsOrder(x: string, y: string)
    requires |x| == |y|
    requires forall i :: 0 <= i < |x| ==> IsDecimalDigit(x[i]) && IsDecimalDigit(y[i])
    requires Less(x, y)
    ensures DigitsValue(x, 10) < DigitsValue(y, 10)
    decreases |x|
  {
    var n := |x|;
    var x', y' := x[..n - 1], y[..n - 1];
    assert x == x' + [x[n - 1]] && y == y' + [y[n - 1]];
    LessAppend(x', [x[n - 1]], y', [y[n - 1]]);
    if Less(x', y') {
      DigitsOrder(x', y');
      assert DigitValue(x[n - 1]) < 10;
    }
  }

  /** On digit strings of one width, string order is numeric order and string equality is numeric equality. */
  lemma DigitsCompare(x: string, y: string)
    requires |x| == |y|
    requires forall i :: 0 <= i < |x| ==> IsDecimalDigit(x[i]) && IsDecimalDigit(y[i])
    ensures Less(x, y) <==> DigitsValue(x, 10) < DigitsValue(y, 10)
    ensures x == y <==> DigitsValue(x, 10) == DigitsValue(y, 10)
  {
    if x != y {
      Connected(x, y);
      if Less(x, y) {
        DigitsOrder(x, y);
      } else {
        DigitsOrder(y, x);
        Asymmetric(y, x);
      }
    } else {
      Irreflexive(x);
    }
  }

  /** Sorting full dates as strings (the date axis is built with a comparator-less `sort()`) puts them
      in calendar order: one date sorts before another exactly when it is an earlier day. */
  lemma SortOrderIsCalendarOrder(a: string, b: string)
    requires IsFullDate(a) && IsFullDate(b)
    ensures Less(a, b) <==> Earlier(a, b)
  {
    var ya, yb, ma, mb, da, db := a[..4], b[..4], a[5..7], b[5..7], a[8..], b[8..];
    assert a == ya + ("-" + (ma + ("-" + da)));
    assert b == yb + ("-" + (mb + ("-" + db)));
    LessAppend(ya, "-" + (ma + ("-" + da)), yb, "-" + (mb + ("-" + db)));
    LessAppend("-", ma + ("-" + da), "-", mb + ("-" + db));
    LessAppend(ma, "-" + da, mb, "-" + db);
    LessAppend("-", da, "-", db);
    Irreflexive("-");
    DigitsCompare(ya, yb);
    DigitsCompare(ma, mb);
    DigitsCompare(da, db);
  }
}
