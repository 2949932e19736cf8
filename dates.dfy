/** The date normaliser `extract_date`: a timestamp string of at least ten characters is cut
    to its first ten (the calendar day of an ISO timestamp, not validated); anything else
    becomes a fixed sentinel. */
module Dates {
  import opened Fields
  import opened LexOrder

  const UnknownDate: string := "Unknown Date"

  function ExtractDate(timestamp: Field): (d: string)
    ensures d == UnknownDate <==> !(timestamp.Str? && |timestamp.s| >= 10)
    ensures d != UnknownDate ==> timestamp.Str? && |d| == 10 && d <= timestamp.s
  {
    if timestamp.Str? && |timestamp.s| >= 10 then timestamp.s[..10] else UnknownDate
  }

  /** Under Python's string order every date that starts with a digit comes before the sentinel,
      so a row with the sentinel date sorts after every row whose date starts with a digit. A
      date cut from a timestamp that does not start with a digit can sort on either side. */
  lemma DigitDatesBeforeSentinel(d: string)
    requires |d| > 0 && '0' <= d[0] <= '9'
    ensures LexLess(d, UnknownDate)
  {
  }
}
