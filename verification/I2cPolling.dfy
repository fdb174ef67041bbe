/** i2c_interrupt_status as a search: the first poll that shows the bus's bit decides. */
module I2cPolling {
  import opened Bits
  import opened I2cHardware
  import opened I2cDriver

  /** The history after k polls that led to nothing. */
  function IdleAfter(e: Env, h: History, k: nat): History {
    if k == 0 then h
    else
      var before := IdleAfter(e, h, k - 1);
      before + [Read(DISR, e(before, DISR))]
  }

  /** Poll number k, counted from 0, shows the bit of the current bus. */
  predicate Shows(e: Env, d: Driver, k: nat)
    requires d.OnBus()
  {
    Bit(e(IdleAfter(e, d.history, k), DISR), d.busNum)
  }

  lemma {:induction false} PollSkipsIdle(e: Env, d: Driver, n: nat, k: nat)
    requires d.OnBus() && k <= n && forall j: nat | j < k :: !Shows(e, d, j)
    ensures Poll(e, d, n) == Poll(e, d.(history := IdleAfter(e, d.history, k)), n - k)
    decreases k
  {
    if k > 0 {
      PollSkipsIdle(e, d, n, k - 1);
      assert !Shows(e, d, k - 1);
    }
  }

  /** If poll k < 100000 is the first to show the bit, the status is what ISR reads
      right after it, and ISR is cleared once. */
  lemma FirstHitDecides(e: Env, d: Driver, k: nat)
    requires d.OnBus() && k < POLL_LIMIT
    requires Shows(e, d, k) && forall j: nat | j < k :: !Shows(e, d, j)
    ensures var (d1, status) := InterruptStatus(e, d);
            var polled := IdleAfter(e, d.history, k + 1);
            && status == e(polled, d.busBase + ISR)
            && d1.history == polled + [Read(d.busBase + ISR, status), Write(d.busBase + ISR, 0xFFFFFFFF)]
  {
    PollSkipsIdle(e, d, POLL_LIMIT, k);
    var idle := d.(history := IdleAfter(e, d.history, k));
    assert Poll(e, idle, POLL_LIMIT - k).0 == idle.Get(e, DISR).Get(e, d.busBase + ISR);
  }

  /** If none of the 100000 polls shows it, the status is 0; ISR is never read but
      still cleared once. */
  lemma NoHitMeansZero(e: Env, d: Driver)
    requires d.OnBus() && forall j: nat | j < POLL_LIMIT :: !Shows(e, d, j)
    ensures InterruptStatus(e, d)
         == (d.(history := IdleAfter(e, d.history, POLL_LIMIT) + [Write(d.busBase + ISR, 0xFFFFFFFF)]), 0)
  {
    PollSkipsIdle(e, d, POLL_LIMIT, POLL_LIMIT);
  }
}
