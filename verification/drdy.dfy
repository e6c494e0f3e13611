/**
 * The data-ready wait both sensor drivers run before a read: a 16-bit
 * counter starts at 100; while DRDY is not asserted and the counter, tested
 * before its post-decrement, is non-zero, the driver sleeps; afterwards a
 * counter of zero is taken to mean the wait timed out.
 *
 * `busy(k)` is what the k-th poll of the DRDY line or register reports
 * (k = 0 is the first poll). The counter is decremented after its test, so
 * the loop ends with 65535 when DRDY never asserts, and with 0 when it
 * asserts exactly on the 101st poll.
 */
module DataReady {
  import opened Optional
  import opened MachineInt

  /** ACC_DRDY_READY_TIMEOUT and TEMP_PRESSURE_SENSOR_DATA_READY_TIMEOUT. */
  const Polls: nat := 100

  /** The value a sensor output holds when no reading was decoded: 0x8000
      stored into an int16_t. */
  const Missing: int16 := -0x8000

  /** DRDY asserts for the first time on poll k. */
  predicate ReadyAt(busy: nat -> bool, k: nat)
  {
    !busy(k) && forall j :: 0 <= j < k ==> busy(j)
  }

  /** DRDY stays deasserted on every poll up to and including n. */
  predicate NeverReady(busy: nat -> bool, n: nat)
  {
    forall j :: 0 <= j <= n ==> busy(j)
  }

  /** The first poll from k to n on which DRDY is asserted. */
  function FirstReady(busy: nat -> bool, k: nat, n: nat): (r: Option<nat>)
    ensures r.Some? ==> k <= r.value <= n && !busy(r.value) && forall j :: k <= j < r.value ==> busy(j)
    ensures r.None? ==> forall j :: k <= j <= n ==> busy(j)
    decreases n + 1 - k
  {
    if k > n then None
    else if !busy(k) then Some(k)
    else FirstReady(busy, k + 1, n)
  }

  /** The counter the wait leaves, as written: 100 - k when DRDY first
      asserts on poll k, and 65535 when it never does. */
  function TimeoutAsWritten(busy: nat -> bool): (t: uint16)
  {
    match FirstReady(busy, 0, Polls)
    case Some(k) => Polls - k
    case None => 0xFFFF
  }

  /** The number of sleeps the wait performs. */
  function Sleeps(busy: nat -> bool): (n: nat)
    ensures n <= Polls
  {
    match FirstReady(busy, 0, Polls)
    case Some(k) => k
    case None => Polls
  }

  /** The loop as written: each poll, then the post-decrement test of the
      16-bit counter, then a sleep. */
  method WaitAsWritten(busy: nat -> bool) returns (timeout: uint16, sleeps: nat)
    ensures timeout == TimeoutAsWritten(busy) && sleeps == Sleeps(busy)
  {
    timeout := Polls;
    sleeps := 0;
    while true
      invariant sleeps <= Polls && timeout == Polls - sleeps
      invariant forall j :: 0 <= j < sleeps ==> busy(j)
      decreases timeout
    {
      if !busy(sleeps) {
        assert ReadyAt(busy, sleeps);
        FirstReadyIs(busy, sleeps);
        return;
      }
      var before := timeout;
      timeout := U16(timeout - 1);
      if before == 0 {
        assert NeverReady(busy, Polls);
        return;
      }
      sleeps := sleeps + 1;
    }
  }

  /** When DRDY first asserts on poll k within the window, the search finds k. */
  lemma FirstReadyIs(busy: nat -> bool, k: nat)
    requires k <= Polls && ReadyAt(busy, k)
    ensures FirstReady(busy, 0, Polls) == Some(k)
  {
  }

  /** The as-written timeout test fires exactly when DRDY first asserts on
      poll 100, and misses the case it was written for: when DRDY never
      asserts the counter has wrapped to 65535 and the driver goes on to
      read. */
  lemma TimeoutAsWrittenMisfires(busy: nat -> bool)
    ensures TimeoutAsWritten(busy) == 0 <==> ReadyAt(busy, Polls)
    ensures TimeoutAsWritten(busy) == 0xFFFF <==> NeverReady(busy, Polls)
  {
    var r := FirstReady(busy, 0, Polls);
    if ReadyAt(busy, Polls) {
      FirstReadyIs(busy, Polls);
    }
    if r.Some? {
      assert !busy(r.value);
    }
  }

  /** Two concrete runs: DRDY never asserts, and DRDY asserts on poll 100. */
  lemma TimeoutAsWrittenExamples()
    ensures TimeoutAsWritten(_ => true) == 0xFFFF
    ensures TimeoutAsWritten(k => k < Polls) == 0
  {
    TimeoutAsWrittenMisfires(_ => true);
    TimeoutAsWrittenMisfires(k => k < Polls);
  }

  /** The wait as intended: it times out exactly when DRDY asserts on none
      of the polls. */
  function TimedOut(busy: nat -> bool): (b: bool)
    ensures b <==> NeverReady(busy, Polls)
  {
    FirstReady(busy, 0, Polls).None?
  }

  /** However the wait ends, it sleeps at most 100 times, and when it ends
      before timing out DRDY was asserted on the last poll. */
  lemma WaitBounded(busy: nat -> bool)
    ensures Sleeps(busy) <= Polls
    ensures !TimedOut(busy) ==> ReadyAt(busy, Sleeps(busy))
    ensures TimedOut(busy) ==> Sleeps(busy) == Polls
  {
  }

  /** The test the sensor drivers apply to the counter after the wait: the
      firmware's `timeout == 0`, or the test it was meant to be, which fires
      exactly when DRDY never asserted. */
  datatype TimeoutTest = AsWritten | Intended

  /** Whether a driver gives up after the wait under test `t`. */
  function WaitFails(t: TimeoutTest, busy: nat -> bool): (b: bool)
    ensures t == AsWritten ==> (b <==> ReadyAt(busy, Polls))
    ensures t == Intended ==> (b <==> NeverReady(busy, Polls))
  {
    TimeoutAsWrittenMisfires(busy);
    match t
    case AsWritten => TimeoutAsWritten(busy) == 0
    case Intended => TimedOut(busy)
  }

  /** The two tests disagree on exactly the two runs the as-written one
      gets wrong: DRDY never asserting and DRDY first asserting on the last
      poll. */
  lemma WaitTestsDisagree(busy: nat -> bool)
    ensures WaitFails(AsWritten, busy) != WaitFails(Intended, busy) <==>
              NeverReady(busy, Polls) || ReadyAt(busy, Polls)
  {
    if NeverReady(busy, Polls) {
      assert busy(Polls);
    }
  }
}
