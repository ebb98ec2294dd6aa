/**
 * A stored record and its time-to-live arithmetic (`Record`, `is_expired`, `get_ttl`).
 *
 * The clock is a parameter: `now` and `ttlStart` are instants in nanoseconds, and the
 * elapsed time is whole seconds, zero when the clock reads earlier than the start.
 */
module Records {
  import opened Wrappers
  import opened Values

  const NanosPerSecond: nat := 1_000_000_000

  datatype Record = Record(
    value: Value,
    ttl: Option<nat>,          // seconds; None never expires
    ttlStart: int,             // when the record was written, in nanoseconds
    typeName: string,          // the type the value was stored as
    desiredTypeName: string)   // the type word the client sent

  /** `now.duration_since(start).unwrap_or_default().as_secs()`. */
  function ElapsedSeconds(start: int, now: int): nat
  {
    if now < start then 0 else (now - start) / NanosPerSecond
  }

  /** Whether the record has lived at least its time-to-live. */
  predicate IsExpired(r: Record, now: int)
  {
    match r.ttl
    case None => false
    case Some(t) => ElapsedSeconds(r.ttlStart, now) >= t
  }

  /** The seconds the record has left to live, saturating at zero; None when it never expires. */
  function GetTtl(r: Record, now: int): Option<nat>
  {
    match r.ttl
    case None => None
    case Some(t) =>
      var elapsed := ElapsedSeconds(r.ttlStart, now);
      if elapsed >= t then Some(0) else Some(t - elapsed)
  }

  /** A record without a time-to-live is never expired and reports none. */
  lemma NoTtlNeverExpires(r: Record, now: int)
    requires r.ttl.None?
    ensures GetTtl(r, now) == None && !IsExpired(r, now)
  {
  }

  /** The remaining time is the time-to-live less the elapsed seconds, or zero once it has run out. */
  lemma GetTtlValue(r: Record, now: int)
    requires r.ttl.Some?
    ensures var elapsed := ElapsedSeconds(r.ttlStart, now);
      if elapsed >= r.ttl.value then GetTtl(r, now) == Some(0)
      else GetTtl(r, now) == Some(r.ttl.value - elapsed) && 1 <= GetTtl(r, now).value <= r.ttl.value
  {
  }

  /** For one reading of the clock, a record is expired exactly when it has no time left. */
  lemma ExpiredIffNoTimeLeft(r: Record, now: int)
    ensures IsExpired(r, now) <==> GetTtl(r, now) == Some(0)
  {
  }

  /** A clock that reads earlier than the start counts as no time elapsed. */
  lemma ClockBeforeStart(r: Record, now: int)
    requires r.ttl.Some? && now < r.ttlStart
    ensures GetTtl(r, now) == Some(r.ttl.value)
    ensures IsExpired(r, now) <==> r.ttl.value == 0
  {
  }

  lemma DivMonotone(a: nat, b: nat, d: nat)
    requires a <= b && d > 0
    ensures a / d <= b / d
  {
    assert d * (a / d) + a % d == a && d * (b / d) + b % d == b;
    assert d * (a / d) < d * (b / d + 1);
    MulCancel(d, a / d, b / d + 1);
  }

  lemma MulCancel(d: nat, x: nat, y: nat)
    requires d * x < d * y
    ensures x < y
  {
    if x >= y {
      MulMonotone(d, y, x);
    }
  }

  lemma MulMonotone(d: nat, x: nat, y: nat)
    requires x <= y
    ensures d * x <= d * y
  {
  }

  /** Elapsed time never runs backwards as the clock advances. */
  lemma ElapsedMonotone(start: int, now1: int, now2: int)
    requires now1 <= now2
    ensures ElapsedSeconds(start, now1) <= ElapsedSeconds(start, now2)
  {
    if start <= now1 {
      DivMonotone(now1 - start, now2 - start, NanosPerSecond);
    }
  }

  /** The remaining time of a record never grows, and an expired record stays expired. */
  lemma GetTtlNonIncreasing(r: Record, now1: int, now2: int)
    requires r.ttl.Some? && now1 <= now2
    ensures GetTtl(r, now2).value <= GetTtl(r, now1).value
    ensures IsExpired(r, now1) ==> IsExpired(r, now2)
  {
    ElapsedMonotone(r.ttlStart, now1, now2);
  }
}
