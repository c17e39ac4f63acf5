/** time.Time as an unbounded count of nanoseconds and time.Duration as an int64,
    with Go's saturating subtraction and wrapping addition written out. */
module GoTime {

  const MAX_INT64 := 0x7FFF_FFFF_FFFF_FFFF
  const MIN_INT64 := -0x8000_0000_0000_0000
  const SECOND := 1_000_000_000

  predicate IsInt64(n: int) {
    MIN_INT64 <= n <= MAX_INT64
  }

  /** Time.Sub: the exact difference, saturated at the bounds of a Duration. */
  function Sub(t: int, u: int): (d: int)
    ensures IsInt64(d)
  {
    if t - u > MAX_INT64 then MAX_INT64
    else if t - u < MIN_INT64 then MIN_INT64
    else t - u
  }

  /** The two's-complement value of an int64 sum. */
  function Wrap(n: int): (w: int)
    ensures IsInt64(w)
  {
    (n - MIN_INT64) % 0x1_0000_0000_0000_0000 + MIN_INT64
  }

  /** Time.Unix: whole seconds, rounded towards the past. */
  function Unix(t: int): (s: int)
  {
    t / SECOND
  }

  /** Comparing a saturated difference with a bound is exact unless the bound is
      the largest duration, which no difference exceeds. */
  lemma {:induction false} SubExceeds(t: int, u: int, d: int)
    requires IsInt64(d)
    ensures Sub(t, u) > d <==> t - u > d && d != MAX_INT64
  {
  }
}
