/** The integer day / time-of-day arithmetic of `utils/date-time.ts`.
    Timestamps are milliseconds since the Unix epoch. A numeric date is the
    number of whole days since the epoch (floored); the time of day is
    JavaScript's remainder, which truncates toward zero, so it takes the sign
    of the timestamp. Dafny's `%` is Euclidean, so the JavaScript remainder is
    written out in `JsRem`. */
module DateTime {
  const MillisecondsPerSecond: int := 1000
  const MillisecondsPerMinute: int := MillisecondsPerSecond * 60
  const MillisecondsPerHour: int := MillisecondsPerMinute * 60
  const MillisecondsPerDay: int := MillisecondsPerHour * 24
  const MillisecondsPerWeek: int := MillisecondsPerDay * 7

  datatype NumericDateTime = NumericDateTime(date: int, time: int)

  lemma Constants()
    ensures MillisecondsPerMinute == 60000
    ensures MillisecondsPerHour == 3600000
    ensures MillisecondsPerDay == 86400000
    ensures MillisecondsPerWeek == 7 * 86400000 == 604800000
  {
  }

  /** JavaScript's `a % b` on integers for a positive divisor. */
  function JsRem(a: int, b: int): (r: int)
    requires b > 0
    ensures -b < r < b
    ensures a >= 0 ==> r >= 0
    ensures a <= 0 ==> r <= 0
  {
    if a >= 0 then a % b else -((-a) % b)
  }

  /** `Math.floor(timestamp / millisecondsPerDay)`. */
  function TimestampToNumericDate(timestamp: int): (r: int)
    ensures r * MillisecondsPerDay <= timestamp < (r + 1) * MillisecondsPerDay
  {
    timestamp / MillisecondsPerDay
  }

  function TimestampToTime(timestamp: int): (r: int)
    ensures -MillisecondsPerDay < r < MillisecondsPerDay
    ensures timestamp >= 0 ==> 0 <= r
    ensures timestamp < 0 ==> r <= 0
    ensures (timestamp - r) % MillisecondsPerDay == 0
  {
    JsRem(timestamp, MillisecondsPerDay)
  }

  function TimestampToNumericDateAndTime(timestamp: int): (r: NumericDateTime)
    ensures r.date == TimestampToNumericDate(timestamp) && r.time == TimestampToTime(timestamp)
  {
    NumericDateTime(TimestampToNumericDate(timestamp), TimestampToTime(timestamp))
  }

  function NumericDateToTimestamp(numericDate: int): (r: int)
    ensures r % MillisecondsPerDay == 0
  {
    numericDate * MillisecondsPerDay
  }

  function NumericDateTimeToTimestamp(dt: NumericDateTime): (r: int)
    ensures r - dt.time == NumericDateToTimestamp(dt.date)
  {
    NumericDateToTimestamp(dt.date) + dt.time
  }

  /** A numeric date survives the trip through its timestamp. */
  lemma DateRoundTrip(numericDate: int)
    ensures TimestampToNumericDate(NumericDateToTimestamp(numericDate)) == numericDate
  {
  }

  /** The start of a day is at time 0. */
  lemma DayStartHasTimeZero(numericDate: int)
    ensures TimestampToTime(NumericDateToTimestamp(numericDate)) == 0
  {
    var t := NumericDateToTimestamp(numericDate);
    if t < 0 {
      assert -t == (-numericDate) * MillisecondsPerDay;
      assert (-t) % MillisecondsPerDay == 0;
    }
  }

  /** For timestamps at or after the epoch, date and time together give back
      the timestamp, and the time of day lies within one day. */
  lemma DateAndTimeRoundTrip(timestamp: int)
    requires timestamp >= 0
    ensures NumericDateTimeToTimestamp(TimestampToNumericDateAndTime(timestamp)) == timestamp
    ensures 0 <= TimestampToNumericDateAndTime(timestamp).time < MillisecondsPerDay
  {
  }

  /** One millisecond before the epoch: the date floors to -1 but the time is
      -1 rather than `millisecondsPerDay - 1`, so the pair does not give back
      the timestamp. */
  lemma NegativeTimestampDoesNotRoundTrip()
    ensures TimestampToNumericDateAndTime(-1) == NumericDateTime(-1, -1)
    ensures NumericDateTimeToTimestamp(TimestampToNumericDateAndTime(-1)) == -MillisecondsPerDay - 1
  {
  }

  /** The time of day paired with the floored date: the floored (Euclidean)
      remainder. */
  function TimestampToTimeFloored(timestamp: int): (r: int)
    ensures 0 <= r < MillisecondsPerDay
    ensures timestamp >= 0 ==> r == TimestampToTime(timestamp)
  {
    timestamp % MillisecondsPerDay
  }

  function TimestampToNumericDateAndTimeFloored(timestamp: int): (r: NumericDateTime)
    ensures r.date == TimestampToNumericDate(timestamp) && r.time == TimestampToTimeFloored(timestamp)
  {
    NumericDateTime(TimestampToNumericDate(timestamp), TimestampToTimeFloored(timestamp))
  }

  /** With the floored time every timestamp, before or after the epoch, round
      trips. */
  lemma FlooredDateAndTimeRoundTrip(timestamp: int)
    ensures NumericDateTimeToTimestamp(TimestampToNumericDateAndTimeFloored(timestamp)) == timestamp
    ensures TimestampToNumericDateAndTimeFloored(timestamp) == TimestampToNumericDateAndTime(timestamp) <==> timestamp >= 0 || TimestampToTime(timestamp) == 0
  {
  }
}
