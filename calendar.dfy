/** Calendar dates as java.time.LocalDate compares them. */
module Calendar {

  datatype Date = Date(year: int, month: int, day: int)

  /** A date's position on a calendar of 32-day months and 13-month years,
      which preserves the order of dates whose month and day are in range. */
  function Key(d: Date): int {
    (d.year * 13 + d.month) * 32 + d.day
  }

  predicate InRange(d: Date) {
    1 <= d.month <= 12 && 1 <= d.day <= 31
  }

  /** LocalDate.isBefore: year first, then month, then day. On dates with
      month and day in range it is the order of their keys. */
  predicate IsBefore(a: Date, b: Date): (r: bool)
    ensures InRange(a) && InRange(b) ==> (r <==> Key(a) < Key(b))
  {
    KeyOrder(a, b);
    || a.year < b.year
    || (a.year == b.year && a.month < b.month)
    || (a.year == b.year && a.month == b.month && a.day < b.day)
  }

  /** Comparing year, month and day in turn agrees with comparing keys. */
  lemma KeyOrder(a: Date, b: Date)
    ensures InRange(a) && InRange(b) ==>
      ((|| a.year < b.year
        || (a.year == b.year && a.month < b.month)
        || (a.year == b.year && a.month == b.month && a.day < b.day)) <==> Key(a) < Key(b))
  {
    if InRange(a) && InRange(b) {
      var ma, mb := a.year * 13 + a.month, b.year * 13 + b.month;
      assert (a.year < b.year || (a.year == b.year && a.month < b.month)) <==> ma < mb by {
        if a.year < b.year {
          assert a.year * 13 <= b.year * 13 - 13;
        } else if a.year > b.year {
          assert b.year * 13 <= a.year * 13 - 13;
        }
      }
      if ma < mb {
        assert ma * 32 <= mb * 32 - 32;
      } else if ma > mb {
        assert mb * 32 <= ma * 32 - 32;
      }
    }
  }

  /** IsBefore is a strict total order: irreflexive, transitive, and any two
      distinct dates are related one way round. */
  lemma IsBeforeStrictTotalOrder(a: Date, b: Date, c: Date)
    ensures !IsBefore(a, a)
    ensures IsBefore(a, b) && IsBefore(b, c) ==> IsBefore(a, c)
    ensures a != b <==> (IsBefore(a, b) || IsBefore(b, a))
    ensures !(IsBefore(a, b) && IsBefore(b, a))
  {
  }
}
