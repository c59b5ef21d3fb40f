/** Time arithmetic of src/ngx_http_error_abuse_time.h, for a signed 64-bit time_t. */
module Times {

  const TIME_MAX: int := 0x7FFF_FFFF_FFFF_FFFF

  /** The wall clock: non-negative and before the last representable second. */
  type Clock = t: int | 0 <= t < TIME_MAX

  function AddSaturateAt(now: int, duration: int, ceiling: int): int
  {
    if now >= ceiling then ceiling
    else if duration <= 0 then now
    else if duration > ceiling - now then ceiling
    else now + duration
  }

  function AddSaturate(now: int, duration: int): int
  {
    AddSaturateAt(now, duration, TIME_MAX)
  }

  /** From a non-negative start the sum is the mathematical one cut off at the ceiling, and no
      intermediate value leaves the range of a 64-bit time_t. */
  lemma SaturatesExactly(now: int, duration: int, ceiling: int)
    requires 0 <= now && 0 <= ceiling <= TIME_MAX
    ensures AddSaturateAt(now, duration, ceiling)
         == if now >= ceiling then ceiling
            else if duration < 0 then now
            else if now + duration < ceiling then now + duration else ceiling
    ensures 0 <= AddSaturateAt(now, duration, ceiling) <= ceiling
    ensures now < ceiling ==> 0 <= ceiling - now <= TIME_MAX
  {
  }

  /** A deadline set now is never in the past, and is strictly ahead before the last second. */
  lemma DeadlineAhead(now: Clock, duration: int)
    requires 1 <= duration
    ensures now < AddSaturate(now, duration) <= TIME_MAX
  {
  }
}
