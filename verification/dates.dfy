/** Calendar dates, reduced to what the store needs of `java.time.LocalDate`: its order. */
module Dates {

  /** A `LocalDate` as its three components; calendar validity is not modelled. */
  datatype Date = Date(year: int, month: int, day: int)

  /** `LocalDate.compareTo(b) <= 0`: year first, then month, then day. */
  predicate OnOrBefore(a: Date, b: Date)
  {
    a.year < b.year
    || (a.year == b.year && (a.month < b.month || (a.month == b.month && a.day <= b.day)))
  }

  /** The order is total: a date not on or before another is after it. */
  lemma Total(a: Date, b: Date)
    ensures OnOrBefore(a, b) || OnOrBefore(b, a)
  {
  }

  /** The order is transitive. */
  lemma Trans(a: Date, b: Date, c: Date)
    requires OnOrBefore(a, b) && OnOrBefore(b, c)
    ensures OnOrBefore(a, c)
  {
  }
}
