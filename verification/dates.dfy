/** Calendar dates written `YYYY-MM-DD`, the only date format this model
    compares. Any other text is an invalid date, against which every
    comparison is false (as with JavaScript's `Invalid Date`). */
module Dates {
  import opened Wrappers
  import opened Numbers

  /** `s` has the shape `YYYY-MM-DD` with a month in 1..12 and a day in 1..31. */
  predicate IsIsoDate(s: string) {
    && |s| == 10
    && AllDigits(s[..4]) && s[4] == '-' && AllDigits(s[5..7]) && s[7] == '-' && AllDigits(s[8..])
    && 1 <= DigitsValue(s[5..7]) <= 12 && 1 <= DigitsValue(s[8..]) <= 31
  }

  function Year(s: string): nat requires IsIsoDate(s) { DigitsValue(s[..4]) }
  function Month(s: string): nat requires IsIsoDate(s) { DigitsValue(s[5..7]) }
  function Day(s: string): nat requires IsIsoDate(s) { DigitsValue(s[8..]) }

  /** The date as one number `YYYYMMDD`, or `None` for an invalid date. */
  function DateKey(s: string): (r: Option<int>)
    ensures r.Some? <==> IsIsoDate(s)
  {
    if IsIsoDate(s) then Some(Year(s) * 10000 + Month(s) * 100 + Day(s)) else None
  }

  /** Comparing keys is comparing dates: by year, then month, then day. */
  lemma KeyOrderIsCalendarOrder(a: string, b: string)
    requires IsIsoDate(a) && IsIsoDate(b)
    ensures DateKey(a).value <= DateKey(b).value <==>
      || Year(a) < Year(b)
      || (Year(a) == Year(b) && Month(a) < Month(b))
      || (Year(a) == Year(b) && Month(a) == Month(b) && Day(a) <= Day(b))
  {
  }

  /** `a` falls no later than `b` on the calendar: by year, then month, then day. */
  predicate CalendarNotLater(a: string, b: string)
    requires IsIsoDate(a) && IsIsoDate(b)
  {
    || Year(a) < Year(b)
    || (Year(a) == Year(b) && Month(a) < Month(b))
    || (Year(a) == Year(b) && Month(a) == Month(b) && Day(a) <= Day(b))
  }

  lemma KeyOrderCases(a: string, b: string)
    ensures IsIsoDate(a) && IsIsoDate(b) ==> (DateKey(a).value <= DateKey(b).value <==> CalendarNotLater(a, b))
  {
    if IsIsoDate(a) && IsIsoDate(b) {
      KeyOrderIsCalendarOrder(a, b);
    }
  }

  /** `new Date(a) >= new Date(b)`. */
  predicate OnOrAfter(a: string, b: string)
    ensures OnOrAfter(a, b) <==> IsIsoDate(a) && IsIsoDate(b) && CalendarNotLater(b, a)
  {
    KeyOrderCases(b, a);
    DateKey(a).Some? && DateKey(b).Some? && DateKey(a).value >= DateKey(b).value
  }

  /** `new Date(a) <= new Date(b)`. */
  predicate OnOrBefore(a: string, b: string)
    ensures OnOrBefore(a, b) <==> IsIsoDate(a) && IsIsoDate(b) && CalendarNotLater(a, b)
  {
    KeyOrderCases(a, b);
    DateKey(a).Some? && DateKey(b).Some? && DateKey(a).value <= DateKey(b).value
  }

  /** The two bounds are mirror images, and both are reflexive on valid dates only. */
  lemma BoundsMirror(a: string, b: string)
    ensures OnOrAfter(a, b) <==> OnOrBefore(b, a)
    ensures OnOrAfter(a, a) <==> IsIsoDate(a)
  {
  }
}
