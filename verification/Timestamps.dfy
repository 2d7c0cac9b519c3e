/** Conversion between dates and timestamps, in exact arithmetic.

    A date is the number of seconds since the reference date, a timestamp counts
    seconds and nanoseconds since the Unix epoch with both parts of the same sign. */
module Timestamps {
  import opened Values

  const INT64_MAX := 0x7fff_ffff_ffff_ffff
  const INT64_MIN := -0x8000_0000_0000_0000
  const INT32_MAX := 0x7fff_ffff

  /** Seconds from the Unix epoch to the reference date. */
  const EPOCH := 978307200
  const NANOS := 1_000_000_000

  datatype Timestamp = Timestamp(seconds: int, nanoseconds: int)

  const LATEST := Timestamp(INT64_MAX, NANOS - 1)
  const EARLIEST := Timestamp(INT64_MIN, 1 - NANOS)

  /** A C++ cast from floating point to an integer type. */
  function Trunc(x: real): int {
    if x >= 0.0 then x.Floor else -((-x).Floor)
  }

  /** What the timestamp class demands of its parts. */
  predicate Canonical(ts: Timestamp) {
    && -NANOS < ts.nanoseconds < NANOS
    && ((ts.seconds >= 0 && ts.nanoseconds >= 0) || (ts.seconds <= 0 && ts.nanoseconds <= 0))
  }

  predicate Representable(ts: Timestamp) {
    INT64_MIN <= ts.seconds <= INT64_MAX && -INT32_MAX <= ts.nanoseconds <= INT32_MAX
  }

  /** The instant, in seconds since the Unix epoch. */
  function Instant(ts: Timestamp): real {
    ts.seconds as real + ts.nanoseconds as real / 1_000_000_000.0
  }

  function ToDate(ts: Timestamp): real {
    (ts.seconds - EPOCH) as real + ts.nanoseconds as real / 1_000_000_000.0
  }

  predicate TooLate(t: real) {
    t >= (INT64_MAX - EPOCH) as real
  }

  /** The guard subtracts the offset where the seconds will have it added. */
  predicate TooEarly(t: real) {
    t - EPOCH as real < INT64_MIN as real
  }

  /** `RLMTimestampToNSDate`: a null timestamp is no date. */
  function DateFor(ts: Option<Timestamp>): Option<real> {
    if ts.None? then None else Some(ToDate(ts.value))
  }

  /** `RLMTimestampForNSDate`: no date is a null timestamp. */
  method TimestampFor(date: Option<real>) returns (ts: Option<Timestamp>)
    ensures ts == TimestampOf(date)
  {
    if date.None? {
      return None;
    }
    var t := date.value;
    if TooLate(t) {
      return Some(Timestamp(INT64_MAX, NANOS - 1));
    }
    if TooEarly(t) {
      return Some(Timestamp(INT64_MIN, 1 - NANOS));
    }
    var seconds := Trunc(t);
    var nanoseconds := Trunc((t - seconds as real) * 1_000_000_000.0);
    seconds := seconds + EPOCH;
    if nanoseconds < 0 && seconds > 0 {
      nanoseconds := nanoseconds + NANOS;
      seconds := seconds - 1;
    }
    SplitTotal(t);
    SameTotal(Timestamp(seconds, nanoseconds), DateTimestamp(t));
    ts := Some(Timestamp(seconds, nanoseconds));
  }

  /** Nanoseconds since the Unix epoch. */
  function Total(ts: Timestamp): int {
    ts.seconds * NANOS + ts.nanoseconds
  }

  /** The canonical timestamp of a number of nanoseconds. */
  function FromTotal(n: int): Timestamp {
    if n >= 0 then Timestamp(n / NANOS, n % NANOS) else Timestamp(-(-n / NANOS), -(-n % NANOS))
  }

  /** The reference definition: cut the date off below the nanosecond, towards the
      reference date, move it to the Unix epoch and clamp it. */
  function DateTimestamp(t: real): Timestamp {
    if TooLate(t) then LATEST
    else if TooEarly(t) then EARLIEST
    else FromTotal(EPOCH * NANOS + Trunc(t * 1_000_000_000.0))
  }

  function TimestampOf(date: Option<real>): Option<Timestamp> {
    if date.None? then None else Some(DateTimestamp(date.value))
  }

  /** A canonical timestamp is determined by its total. */
  lemma SameTotal(x: Timestamp, y: Timestamp)
    ensures Canonical(x) && Canonical(y) && Total(x) == Total(y) ==> x == y
  {
  }

  /** Truncating the seconds and then the rest is truncating the nanoseconds. */
  lemma SplitTotal(t: real)
    ensures var s := Trunc(t);
            var n := Trunc((t - s as real) * 1_000_000_000.0);
            && s * NANOS + n == Trunc(t * 1_000_000_000.0)
            && -NANOS < n < NANOS
            && (t >= 0.0 ==> s >= 0 && n >= 0) && (t <= 0.0 ==> s <= 0 && n <= 0)
  {
  }

  /** The order of the timestamp class. */
  predicate Before(x: Timestamp, y: Timestamp) {
    x.seconds < y.seconds || (x.seconds == y.seconds && x.nanoseconds <= y.nanoseconds)
  }

  /** Every real date becomes a timestamp whose parts fit their types and never have
      opposite signs; unless the date is clamped it is less than a nanosecond off, and nearer to
      the reference date than the date itself, never past it. */
  lemma DatesAreCanonical(t: real)
    ensures Canonical(DateTimestamp(t)) && Representable(DateTimestamp(t))
    ensures !TooLate(t) && !TooEarly(t) ==>
              -1.0 < (Instant(DateTimestamp(t)) - (t + EPOCH as real)) * 1_000_000_000.0 < 1.0
    ensures !TooLate(t) && !TooEarly(t) ==>
              if t >= 0.0 then EPOCH as real <= Instant(DateTimestamp(t)) <= t + EPOCH as real
              else t + EPOCH as real <= Instant(DateTimestamp(t)) <= EPOCH as real
  {
    if !TooLate(t) && !TooEarly(t) {
      var n := EPOCH * NANOS + Trunc(t * 1_000_000_000.0);
      assert Total(FromTotal(n)) == n;
      assert Instant(FromTotal(n)) * 1_000_000_000.0 == n as real;
    }
  }

  /** Later dates never become earlier timestamps, across both clamps and the carry. */
  lemma DatesKeepTheirOrder(t: real, u: real)
    requires t <= u
    ensures Before(DateTimestamp(t), DateTimestamp(u))
  {
    var x, y := DateTimestamp(t), DateTimestamp(u);
    DatesAreCanonical(t);
    DatesAreCanonical(u);
    if !TooLate(t) && !TooEarly(t) && !TooLate(u) && !TooEarly(u) {
      assert Trunc(t * 1_000_000_000.0) <= Trunc(u * 1_000_000_000.0);
      assert Total(x) <= Total(y);
    }
  }

  /** A timestamp survives the way to a date and back exactly when it is null, lies
      between the two guards or is one of the two clamp values. The lower guard is
      twice the offset above the smallest second, so the timestamps below it do not. */
  lemma RoundTrip(ts: Option<Timestamp>)
    requires ts.Some? ==> Canonical(ts.value) && Representable(ts.value)
    ensures TimestampOf(DateFor(ts)) == ts <==>
              ts.None? || ts == Some(LATEST) || ts == Some(EARLIEST)
              || (INT64_MIN + 2 * EPOCH) as real <= Instant(ts.value) < INT64_MAX as real
  {
    if ts.Some? {
      RoundTripOf(ts.value);
    }
  }

  lemma RoundTripOf(ts: Timestamp)
    requires Canonical(ts) && Representable(ts)
    ensures DateTimestamp(ToDate(ts)) == ts <==>
              ((INT64_MIN + 2 * EPOCH) as real <= Instant(ts) < INT64_MAX as real) || ts == LATEST || ts == EARLIEST
  {
    var t := ToDate(ts);
    assert t == Instant(ts) - EPOCH as real;
    assert t * 1_000_000_000.0 == (Total(ts) - EPOCH * NANOS) as real;
    if !TooLate(t) && !TooEarly(t) {
      assert Trunc(t * 1_000_000_000.0) == Total(ts) - EPOCH * NANOS;
      assert FromTotal(Total(ts)) == ts;
    }
  }

  /** The smallest case: this timestamp is representable, and so is the date it
      becomes, but the way back clamps it, almost a billion seconds too early. */
  lemma EarlyDateIsClamped()
    ensures var early := Timestamp(INT64_MIN + EPOCH, 0);
            && Canonical(early) && Representable(early) && early != EARLIEST
            && TimestampOf(DateFor(Some(early))) == Some(EARLIEST)
  {
  }

  /** The fixed points of the conversion: the two clamps, from the guards on, and the
      reference date, which is the first of January 2001. */
  lemma FixedPoints(t: real)
    ensures TimestampOf(Some(0.0)) == Some(Timestamp(978307200, 0))
    ensures t >= 9223372035876468607.0 <==> TimestampOf(Some(t)) == Some(Timestamp(9223372036854775807, 999999999))
    ensures t < -9223372035876468608.0 <==> TimestampOf(Some(t)) == Some(Timestamp(-9223372036854775808, -999999999))
  {
    if !TooLate(t) && !TooEarly(t) {
      DatesAreCanonical(t);
    }
  }
}
