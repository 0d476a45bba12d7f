/** Calendar dates as the tracker stores them: `str(date)`, the ISO form `YYYY-MM-DD`. */
module Dates {
  import opened Text

  datatype Date = Date(year: int, month: int, day: int)

  /** A date that `str(date)` writes as `YYYY-MM-DD`: a four-digit year, a month, a
      day of a month. The dashboard's `pd.to_datetime` accepts only years from about
      1677 to 2262; the date picker's default range stays well inside that. */
  predicate ValidDate(d: Date)
  {
    1 <= d.year <= 9999 && 1 <= d.month <= 12 && 1 <= d.day <= 31
  }

  /** Chronological order. */
  predicate Before(a: Date, b: Date)
  {
    a.year < b.year
    || (a.year == b.year && a.month < b.month)
    || (a.year == b.year && a.month == b.month && a.day < b.day)
  }

  function Pow10(w: nat): (p: nat)
    ensures p >= 1
  {
    if w == 0 then 1 else 10 * Pow10(w - 1)
  }

  function DigitChar(d: int): char
    requires 0 <= d < 10
  {
    ('0' as int + d) as char
  }

  /** `n` written in decimal with exactly `w` digits, zero-padded on the left. */
  function Pad(n: nat, w: nat): (s: string)
    ensures |s| == w
  {
    if w == 0 then [] else Pad(n / 10, w - 1) + [DigitChar(n % 10)]
  }

  /** The bounds of four- and two-digit fields. */
  lemma Pow10Widths()
    ensures Pow10(4) == 10000 && Pow10(2) == 100
  {
    assert Pow10(1) == 10;
    assert Pow10(3) == 1000;
  }

  /** Zero-padded numerals of one width compare as strings the way the numbers do. */
  lemma {:induction false} PadOrder(x: nat, y: nat, w: nat)
    requires x < Pow10(w) && y < Pow10(w)
    ensures LexLess(Pad(x, w), Pad(y, w)) <==> x < y
    ensures Pad(x, w) == Pad(y, w) <==> x == y
  {
    if w == 0 {
      assert x == 0 && y == 0;
    } else {
      PadOrder(x / 10, y / 10, w - 1);
      LexLessConcat(Pad(x / 10, w - 1), [DigitChar(x % 10)], Pad(y / 10, w - 1), [DigitChar(y % 10)]);
      if Pad(x, w) == Pad(y, w) {
        assert Pad(x, w)[..w - 1] == Pad(x / 10, w - 1) && Pad(y, w)[..w - 1] == Pad(y / 10, w - 1);
        assert Pad(x, w)[w - 1] == DigitChar(x % 10) && Pad(y, w)[w - 1] == DigitChar(y % 10);
      }
    }
  }

  /** The calendar month of a date, as `YYYY-MM`. */
  function MonthString(d: Date): string
    requires ValidDate(d)
  {
    Pad(d.year, 4) + "-" + Pad(d.month, 2)
  }

  /** `str(date)` for a `datetime.date`. */
  function DateString(d: Date): (s: string)
    requires ValidDate(d)
    ensures |s| == 10
  {
    MonthString(d) + "-" + Pad(d.day, 2)
  }

  /** A string `str(date)` produces for some date. */
  ghost predicate IsDateString(s: string)
  {
    exists d :: ValidDate(d) && DateString(d) == s
  }

  /** The month of a stored date string: its first seven characters, which is what
      grouping by the parsed date's monthly period amounts to for ISO strings. */
  function MonthOf(date: string): string
  {
    if |date| >= 7 then date[..7] else date
  }

  /** The month taken from a stored date string is the date's calendar month. */
  lemma MonthOfDateString(d: Date)
    requires ValidDate(d)
    ensures MonthOf(DateString(d)) == MonthString(d)
  {
    assert DateString(d)[..7] == MonthString(d);
  }

  /** Comparing `YYYY-MM` strings is comparing the calendar months, the order of the
      monthly periods the trend is indexed by. */
  lemma MonthStringOrder(a: Date, b: Date)
    requires ValidDate(a) && ValidDate(b)
    ensures LexLess(MonthString(a), MonthString(b)) <==>
            a.year < b.year || (a.year == b.year && a.month < b.month)
    ensures MonthString(a) == MonthString(b) <==> a.year == b.year && a.month == b.month
  {
    Pow10Widths();
    PadOrder(a.year, b.year, 4);
    PadOrder(a.month, b.month, 2);
    FieldOrder(Pad(a.year, 4), Pad(a.month, 2), Pad(b.year, 4), Pad(b.month, 2));
  }

  /** Comparing stored date strings is comparing the dates: sorting the `date` column
      as text sorts chronologically. */
  lemma DateStringOrder(a: Date, b: Date)
    requires ValidDate(a) && ValidDate(b)
    ensures LexLess(DateString(a), DateString(b)) <==> Before(a, b)
    ensures DateString(a) == DateString(b) <==> a == b
  {
    Pow10Widths();
    PadOrder(a.year, b.year, 4);
    PadOrder(a.month, b.month, 2);
    PadOrder(a.day, b.day, 2);
    var ya, yb := Pad(a.year, 4), Pad(b.year, 4);
    var ma, mb := Pad(a.month, 2), Pad(b.month, 2);
    var da, db := Pad(a.day, 2), Pad(b.day, 2);
    FieldOrder(ma, da, mb, db);
    FieldOrder(ya, ma + "-" + da, yb, mb + "-" + db);
    assert DateString(a) == ya + "-" + (ma + "-" + da);
    assert DateString(b) == yb + "-" + (mb + "-" + db);
  }

  /** Two fields of equal width joined by `-` to what follows compare field first,
      and are equal exactly when both parts are. */
  lemma FieldOrder(x: string, u: string, y: string, v: string)
    requires |x| == |y|
    ensures LexLess(x + "-" + u, y + "-" + v) <==> LexLess(x, y) || (x == y && LexLess(u, v))
    ensures x + "-" + u == y + "-" + v <==> x == y && u == v
  {
    assert x + "-" + u == x + ("-" + u);
    assert y + "-" + v == y + ("-" + v);
    LexLessConcat(x, "-" + u, y, "-" + v);
    LexLessConcat("-", u, "-", v);
    LexLessIrreflexive("-");
    if x + "-" + u == y + "-" + v {
      assert (x + "-" + u)[..|x|] == x && (y + "-" + v)[..|y|] == y;
      assert (x + "-" + u)[|x| + 1..] == u && (y + "-" + v)[|y| + 1..] == v;
    }
  }
}
