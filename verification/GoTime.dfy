/** Go's int64 arithmetic and clock values, as far as the model needs them. */
module GoTime {
  const MAX_INT64 := 0x7fff_ffff_ffff_ffff
  const MIN_INT64 := -0x8000_0000_0000_0000

  /** Two's-complement wrap-around of an int64 result. */
  function Wrap64(x: int): (r: int)
    ensures MIN_INT64 <= r <= MAX_INT64
    ensures MIN_INT64 <= x <= MAX_INT64 ==> r == x
  {
    (x - MIN_INT64) % 0x1_0000_0000_0000_0000 + MIN_INT64
  }

  lemma WrapAdd(a: int, b: int)
    ensures Wrap64(Wrap64(a) + b) == Wrap64(a + b)
  {
    var m := 0x1_0000_0000_0000_0000;
    var k := (a - MIN_INT64) / m;
    assert Wrap64(a) == a - k * m;
    assert (Wrap64(a) + b - MIN_INT64) % m == (a + b - MIN_INT64) % m;
  }

  /** Durations are int64 nanoseconds; instants are nanoseconds since the zero `time.Time`. */
  type Time = int

  const ZERO: Time := 0
  const SECOND := 1_000_000_000
  const MINUTE := 60 * SECOND
  const HOUR := 60 * MINUTE

  /** A reading of the wall clock: later than the year 293. */
  type Now = t: int | t >= 0x8000_0000_0000_0000 witness 0x8000_0000_0000_0000

  /** `a.Sub(b)`, which saturates. */
  function Sub(a: Time, b: Time): int {
    if a - b > MAX_INT64 then MAX_INT64 else if a - b < MIN_INT64 then MIN_INT64 else a - b
  }
}
