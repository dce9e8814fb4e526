/** Calendar dates as the template code handles them: rendered `YYYY-MM-DD` and
    compared as strings. */
module Dates {
  import opened Strings

  datatype Date = Date(year: nat, month: nat, day: nat)

  /** A date that `%Y-%m-%d` renders with four year digits and two digits each for
      month and day. */
  predicate Valid(d: Date)
  {
    d.year < 10000 && 1 <= d.month <= 12 && 1 <= d.day <= 31
  }

  /** Chronological order: `a` is on or before `b`. */
  predicate NotAfter(a: Date, b: Date)
  {
    a.year < b.year || (a.year == b.year && (a.month < b.month || (a.month == b.month && a.day <= b.day)))
  }

  /** The text `strftime('%Y-%m-%d')` produces, which is also how a date field is stored. */
  function Iso(d: Date): (s: string)
    ensures |s| == 10 && s[4] == '-' && s[7] == '-'
  {
    Digits(d.year, 4) + ("-" + (Digits(d.month, 2) + ("-" + Digits(d.day, 2))))
  }

  /** Comparing the rendered strings orders dates chronologically, which is why the
      template code may compare them as text. */
  lemma IsoOrder(a: Date, b: Date)
    requires Valid(a) && Valid(b)
    ensures StrLe(Iso(a), Iso(b)) <==> NotAfter(a, b)
  {
    var ma, da := Digits(a.month, 2), Digits(a.day, 2);
    var mb, db := Digits(b.month, 2), Digits(b.day, 2);
    assert Pow10(2) == 100 && Pow10(4) == 10000;
    DigitsOrder(a.year, b.year, 4);
    DigitsOrder(a.month, b.month, 2);
    DigitsOrder(a.day, b.day, 2);
    StrLeConcat(Digits(a.year, 4), "-" + (ma + ("-" + da)), Digits(b.year, 4), "-" + (mb + ("-" + db)));
    StrLeConcat("-", ma + ("-" + da), "-", mb + ("-" + db));
    StrLeConcat(ma, "-" + da, mb, "-" + db);
    StrLeConcat("-", da, "-", db);
  }
}
