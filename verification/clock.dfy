/** The simulated clock of the test harness: a clock of frequency f toggles
    every half period, and half periods are whole femtoseconds whose rounding
    error is carried from one interval to the next. */
module Clock {
  import opened Results

  /** Femtoseconds in one second: the simulator's time unit. */
  const Second: nat := 1_000_000_000_000_000

  /** Highest frequency the clock accepts, so that a half period is at least 1 fs. */
  const MaxFrequency: nat := 500_000_000_000_000

  /** `doubleFreq` is twice the frequency (half periods per second); `carry`
      is the remainder left over by the previous interval. */
  datatype Clock = Clock(doubleFreq: int, carry: int)

  /** Constructor: rejects frequencies above `MaxFrequency`. */
  function NewClock(freqHz: int): (r: Result<Clock>)
    ensures r.Ok? <==> freqHz <= MaxFrequency
    ensures r.Err? ==> r.error == FrequencyTooHigh
    ensures r.Ok? ==> r.value.doubleFreq == 2 * freqHz && r.value.carry == 0
    ensures r.Ok? && freqHz > 0 ==> 0 < r.value.doubleFreq <= Second
  {
    if freqHz <= MaxFrequency then Ok(Clock(2 * freqHz, 0)) else Err(FrequencyTooHigh)
  }

  /** The length of the next half period and the clock with the new carry. */
  function NextInterval(c: Clock): (r: (int, Clock))
    requires c.doubleFreq > 0
    ensures r.0 * c.doubleFreq + r.1.carry == Second + c.carry
    ensures 0 <= r.1.carry < c.doubleFreq
    ensures r.1.doubleFreq == c.doubleFreq
    ensures 0 <= c.carry < c.doubleFreq ==>
              Second / c.doubleFreq <= r.0 <= Second / c.doubleFreq + 1
  {
    var total := Second + c.carry;
    QuotientOfCarry(Second, c.carry, c.doubleFreq);
    (total / c.doubleFreq, Clock(c.doubleFreq, total % c.doubleFreq))
  }

  lemma QuotientOfCarry(s: nat, carry: int, d: int)
    requires d > 0
    ensures 0 <= carry < d ==> s / d <= (s + carry) / d <= s / d + 1
  {
    if 0 <= carry < d {
      var q, r := s / d, s % d;
      var q', r' := (s + carry) / d, (s + carry) % d;
      assert s == q * d + r;
      assert s + carry == q' * d + r';
      QuotientStep(q, r, q', r', carry, d);
    }
  }

  lemma QuotientStep(q: int, r: int, q': int, r': int, carry: int, d: int)
    requires d > 0 && 0 <= r < d && 0 <= r' < d && 0 <= carry < d
    requires q' * d + r' == q * d + r + carry
    ensures q <= q' <= q + 1
  {
    var e := q' - q;
    assert e * d == q' * d - q * d;
  }

  /** `n` successive calls of NextInterval: the sum of the intervals and the final clock. */
  function Intervals(c: Clock, n: nat): (int, Clock)
    requires c.doubleFreq > 0
  {
    if n == 0 then (0, c)
    else
      var (sum, c') := Intervals(c, n - 1);
      var (step, c'') := NextInterval(c');
      (sum + step, c'')
  }

  /** No time is lost or invented: after n intervals the elapsed time plus the
      carry, in units of 1 / doubleFreq fs, is exactly n seconds' worth; the
      carry stays a proper remainder. */
  lemma {:induction false} IntervalsAccumulate(c: Clock, n: nat)
    requires c.doubleFreq > 0
    ensures Intervals(c, n).1.doubleFreq == c.doubleFreq
    ensures Intervals(c, n).0 * c.doubleFreq + Intervals(c, n).1.carry == n * Second + c.carry
    ensures n > 0 ==> 0 <= Intervals(c, n).1.carry < c.doubleFreq
  {
    if n > 0 {
      IntervalsAccumulate(c, n - 1);
      var (sum, c') := Intervals(c, n - 1);
      var (step, c'') := NextInterval(c');
      AddInterval(sum, step, c.doubleFreq, c.carry, c'.carry, c''.carry, n);
    }
  }

  /** The arithmetic step of IntervalsAccumulate: one more interval adds one second. */
  lemma AddInterval(sum: int, step: int, d: int, carry0: int, carry1: int, carry2: int, n: nat)
    requires n > 0
    requires sum * d + carry1 == (n - 1) * Second + carry0
    requires step * d + carry2 == Second + carry1
    ensures (sum + step) * d + carry2 == n * Second + carry0
  {
    assert (sum + step) * d == sum * d + step * d;
    assert (n - 1) * Second + Second == n * Second;
  }
}
