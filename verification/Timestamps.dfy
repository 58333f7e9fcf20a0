// Conversion between a Timestamp and a date counted from the reference date,
// over ideal reals.
module Timestamps {
  import opened Wrappers

  newtype int64 = x: int | -0x8000_0000_0000_0000 <= x < 0x8000_0000_0000_0000
  newtype int32 = x: int | -0x8000_0000 <= x < 0x8000_0000

  // NSTimeIntervalSince1970: seconds from the Unix epoch to the reference date.
  const EPOCH: int := 978_307_200
  const NANOS: int := 1_000_000_000
  const MAX: int := 0x7fff_ffff_ffff_ffff
  const MIN: int := -0x8000_0000_0000_0000

  datatype Timestamp = Timestamp(seconds: int64, nanoseconds: int32)

  // timeIntervalSinceReferenceDate
  datatype Date = NaN | Interval(t: real)

  // Both parts have the same sign, and the second is a fraction of a second.
  predicate Normal(ts: Timestamp) {
    && -NANOS < ts.nanoseconds as int < NANOS
    && !(ts.nanoseconds < 0 && ts.seconds > 0)
    && !(ts.nanoseconds > 0 && ts.seconds < 0)
  }

  // Nanoseconds since the Unix epoch.
  function Total(ts: Timestamp): int {
    ts.seconds as int * NANOS + ts.nanoseconds as int
  }

  predicate Earlier(a: Timestamp, b: Timestamp) {
    a.seconds < b.seconds || (a.seconds == b.seconds && a.nanoseconds < b.nanoseconds)
  }

  // Rounds towards zero, as static_cast to an integer type does.
  function Trunc(x: real): int {
    if x >= 0.0 then x.Floor else -(-x).Floor
  }

  function ToDate(ts: Option<Timestamp>): (date: Option<Date>)
    ensures date.None? <==> ts.None?
  {
    match ts
    case None => None
    case Some(ts) => Some(Interval(ts.seconds as real - EPOCH as real + ts.nanoseconds as real / NANOS as real))
  }

  predicate TooLate(t: real) {
    t >= MAX as real - EPOCH as real
  }

  predicate TooEarly(t: real) {
    t - EPOCH as real < MIN as real
  }

  const LATEST := Timestamp(MAX as int64, 999_999_999)
  const EARLIEST := Timestamp(MIN as int64, -999_999_999)

  // The whole nanoseconds of a date, cut off towards the reference date.
  function Nanos(t: real): int {
    Trunc(t * NANOS as real) + EPOCH * NANOS
  }

  // Normalised, exact to the whole nanosecond in range, and the extreme values at
  // the clamps.
  ghost predicate IsFor(t: real, ts: Timestamp) {
    && Normal(ts)
    && (TooLate(t) ==> ts == LATEST)
    && (TooEarly(t) ==> ts == EARLIEST)
    && (!TooLate(t) && !TooEarly(t) ==> Total(ts) == Nanos(t))
  }

  // The variables are int64 and int32, so no step overflows.
  method ForDate(date: Option<Date>) returns (ts: Option<Timestamp>)
    ensures ts.None? <==> date.None?
    ensures date == Some(NaN) ==> ts == Some(Timestamp(0, 0))
    ensures date.Some? && date.value.Interval? ==> IsFor(date.value.t, ts.value)
  {
    if date.None? {
      return None;
    }
    if date.value.NaN? {
      return Some(Timestamp(0, 0));
    }
    var t := date.value.t;
    if t >= MAX as real - EPOCH as real {
      return Some(LATEST);
    }
    if t - EPOCH as real < MIN as real {
      return Some(EARLIEST);
    }
    WholeSeconds(t);
    var seconds: int64 := Trunc(t) as int64;
    var nanoseconds: int32 := Trunc((t - seconds as real) * NANOS as real) as int32;
    seconds := seconds + EPOCH as int64;
    if nanoseconds < 0 && seconds > 0 {
      nanoseconds := nanoseconds + NANOS as int32;
      seconds := seconds - 1;
    }
    ts := Some(Timestamp(seconds, nanoseconds));
  }

  // Whole seconds and the nanoseconds of the rest make up the nanoseconds.
  lemma {:induction false} WholeSeconds(t: real)
    ensures var rest := Trunc((t - Trunc(t) as real) * NANOS as real);
            && -NANOS < rest < NANOS && (t >= 0.0 ==> rest >= 0) && (t < 0.0 ==> rest <= 0)
            && Trunc(t) * NANOS + rest == Trunc(t * NANOS as real)
    ensures t >= 0.0 ==> 0 <= Trunc(t) && Trunc(t) as real <= t
    ensures t < 0.0 ==> t <= Trunc(t) as real <= 0.0
  {
    var n := NANOS as real;
    if t >= 0.0 {
      FloorParts(t, n);
    } else {
      FloorParts(-t, n);
      assert (t - Trunc(t) as real) * n == -((-t - (-t).Floor as real) * n);
      assert t * n == -((-t) * n);
    }
  }

  lemma {:induction false} FloorParts(t: real, n: real)
    requires t >= 0.0 && n == NANOS as real
    ensures 0 <= ((t - t.Floor as real) * n).Floor < NANOS
    ensures (t * n).Floor == t.Floor * NANOS + ((t - t.Floor as real) * n).Floor
    ensures t * n >= 0.0 && (t - t.Floor as real) * n >= 0.0
  {
    var f := t - t.Floor as real;
    assert 0.0 <= f < 1.0;
    assert t * n == (t.Floor * NANOS) as real + f * n;
  }

  // ----- Timestamps are ordered like their nanoseconds -----

  lemma {:induction false} OrderIsTotal(a: Timestamp, b: Timestamp)
    requires Normal(a) && Normal(b)
    ensures Earlier(a, b) <==> Total(a) < Total(b)
    ensures a == b <==> Total(a) == Total(b)
  {
  }

  lemma {:induction false} TruncMonotone(x: real, y: real)
    requires x <= y
    ensures Trunc(x) <= Trunc(y)
  {
  }

  // An earlier date never gives a later timestamp, across both clamps.
  lemma {:induction false} Monotone(s: real, t: real, a: Timestamp, b: Timestamp)
    requires s <= t && IsFor(s, a) && IsFor(t, b)
    ensures !Earlier(b, a)
  {
    TruncMonotone(s * NANOS as real, t * NANOS as real);
    OrderIsTotal(b, a);
  }

  // A timestamp survives the way to a date and back exactly if it is the last
  // of its clamp or lies inside both clamps. The lower clamp leaves out twice
  // the epoch shift, because it subtracts the shift instead of adding it.
  lemma {:induction false} RoundTrip(ts: Timestamp, back: Timestamp)
    requires Normal(ts) && IsFor(ToDate(Some(ts)).value.t, back)
    ensures back == ts <==>
              (ts.seconds as int < MAX || ts == LATEST) && (Total(ts) >= (MIN + 2 * EPOCH) * NANOS || ts == EARLIEST)
  {
    var t := ToDate(Some(ts)).value.t;
    DateNanos(ts);
    OrderIsTotal(ts, back);
  }

  lemma {:induction false} DateNanos(ts: Timestamp)
    ensures var t := ToDate(Some(ts)).value.t;
            && t * NANOS as real == (Total(ts) - EPOCH * NANOS) as real
            && Nanos(t) == Total(ts)
            && (TooLate(t) <==> Total(ts) >= MAX * NANOS)
            && (TooEarly(t) <==> Total(ts) < (MIN + 2 * EPOCH) * NANOS)
  {
    var t := ToDate(Some(ts)).value.t;
    assert t * NANOS as real == (Total(ts) - EPOCH * NANOS) as real;
  }

  // The date that comes back is less than a nanosecond away, on the side of
  // the reference date.
  lemma {:induction false} WithinANanosecond(t: real, ts: Timestamp)
    requires IsFor(t, ts) && !TooLate(t) && !TooEarly(t)
    ensures var back := ToDate(Some(ts)).value.t;
            && (t >= 0.0 ==> back <= t < back + 1.0 / NANOS as real)
            && (t < 0.0 ==> back - 1.0 / NANOS as real < t <= back)
  {
    DateNanos(ts);
  }
}
