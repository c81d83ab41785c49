/** Polling a port with exponential backoff until a deadline.  Times are nanoseconds; the clock moves
    only while a dial is under way (at most 200 ms) and while sleeping (exactly as long as asked). */
module WaitForPort {

  const MS := 1_000_000
  const DIAL_LIMIT := 200 * MS
  const FIRST_BACKOFF := 50 * MS
  const MAX_BACKOFF := 2000 * MS

  datatype Dial = Dial(duration: nat, connected: bool)

  datatype Outcome = Ready | Cancelled | TimedOut

  function Min(a: int, b: int): int {
    if a < b then a else b
  }

  /** The pause after dial number `k`, when the deadline does not cut it short. */
  function BackoffAfter(k: nat): nat {
    if k == 0 then FIRST_BACKOFF else Min(2 * BackoffAfter(k - 1), MAX_BACKOFF)
  }

  /** The earliest time at which dial number `k` can start. */
  function Earliest(k: nat): nat {
    if k == 0 then 0 else Earliest(k - 1) + BackoffAfter(k - 1)
  }

  /** `dial` and `cancelled` say what each dial and each look at the context find.  Returns the time of
      the result, the number of dials, and the time of the last wake-up from a sleep. */
  method WaitFor(timeout: int, dial: nat -> Dial, cancelled: nat -> bool)
    returns (r: Outcome, now: nat, dials: nat, woken: nat)
    requires forall k :: dial(k).duration <= DIAL_LIMIT
    // the result is that of the first dial that connects or the first look that finds the context ended
    ensures forall k :: 0 <= k < dials - 1 ==> !dial(k).connected
    ensures forall k :: 0 <= k < dials ==> !cancelled(k)
    ensures r == Ready <==> dials > 0 && dial(dials - 1).connected
    ensures r == Cancelled ==> cancelled(dials)
    ensures r == TimedOut ==> now >= timeout
    // it sleeps at most to the deadline, and only a dial can go past it
    ensures timeout >= 0 ==> woken <= timeout && now <= timeout + 200_000_000
    ensures timeout <= 0 ==> r == TimedOut && dials == 0 && now == 0
    // the dials are spaced by the backoff
    ensures dials > 0 ==> Earliest(dials - 1) < timeout
    ensures r == TimedOut && (forall k :: dial(k).duration == 0) ==> timeout <= Earliest(dials)
  {
    now, dials, woken := 0, 0, 0;
    var deadline := timeout;
    var backoff := FIRST_BACKOFF;
    while now < deadline
      invariant forall k :: 0 <= k < dials ==> !dial(k).connected && !cancelled(k)
      invariant backoff == BackoffAfter(dials) > 0
      invariant Earliest(dials) <= now || deadline <= now
      invariant dials > 0 ==> Earliest(dials - 1) < timeout
      invariant (forall k :: dial(k).duration == 0) ==> now <= Earliest(dials)
      invariant timeout >= 0 ==> woken <= timeout && now <= timeout + DIAL_LIMIT
      invariant timeout <= 0 ==> dials == 0 && now == 0
      decreases deadline - now
    {
      if cancelled(dials) {
        return Cancelled, now, dials, woken;
      }
      var d := dial(dials);
      now := now + d.duration;
      dials := dials + 1;
      if d.connected {
        return Ready, now, dials, woken;
      }
      var sleep := backoff;
      if now + sleep > deadline {
        sleep := deadline - now;
      }
      if sleep > 0 {
        now := now + sleep;
        woken := now;
      }
      backoff := backoff * 2;
      if backoff > MAX_BACKOFF {
        backoff := MAX_BACKOFF;
      }
    }
    r := TimedOut;
  }

  lemma {:induction false} FirstBackoffs()
    ensures Earliest(1) == 50 * MS && Earliest(2) == 150 * MS && Earliest(3) == 350 * MS
    ensures Earliest(4) == 750 * MS && Earliest(5) == 1550 * MS && Earliest(6) == 3150 * MS
    ensures BackoffAfter(6) == 2000 * MS
  {
    assert BackoffAfter(1) == 100 * MS && BackoffAfter(2) == 200 * MS && BackoffAfter(3) == 400 * MS;
    assert BackoffAfter(4) == 800 * MS && BackoffAfter(5) == 1600 * MS;
  }

  lemma {:induction false} LaterBackoffs(k: nat)
    requires k >= 6
    ensures Earliest(k) == 3150 * MS + (k - 6) * 2000 * MS && BackoffAfter(k) == 2000 * MS
  {
    FirstBackoffs();
    if k > 6 { LaterBackoffs(k - 1); }
  }

  /** At most six dials, and one more for every two seconds of the timeout. */
  lemma {:induction false} DialBound(timeout: nat, dials: nat)
    requires dials > 0 ==> Earliest(dials - 1) < timeout
    ensures dials <= 6 + timeout / 2_000_000_000
  {
    if dials > 6 { LaterBackoffs(dials - 1); }
  }
}
