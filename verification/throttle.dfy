/**
 * The broadcast throttle of the game server. A priority broadcast goes out
 * at once. A routine broadcast goes out at once when at least 16 ms have
 * passed since the last one; otherwise a single deferred broadcast is
 * scheduled for 16 ms after the last one, and further routine requests
 * are dropped while it is pending.
 */
module Broadcasting {

  const BROADCAST_INTERVAL := 16

  /**
   * The throttle's state: when the last broadcast went out, whether a
   * deferred one is scheduled, and (meaningful only then) when it is due.
   */
  datatype Throttle = Throttle(lastBroadcastTime: int, pendingBroadcast: bool, pendingDue: int)

  /** What one `broadcast(data, priority)` call at time `now` does. */
  datatype Decision = SendNow | Schedule(due: int) | Drop

  function Decide(t: Throttle, priority: bool, now: int): Decision {
    if priority then SendNow
    else if now - t.lastBroadcastTime < BROADCAST_INTERVAL then
      // the timer delay `BROADCAST_INTERVAL - (now - lastBroadcastTime)` ends 16 ms after the last broadcast
      if !t.pendingBroadcast then Schedule(now + (BROADCAST_INTERVAL - (now - t.lastBroadcastTime))) else Drop
    else SendNow
  }

  /** The throttle after the call; sending stamps the time. */
  function AfterRequest(t: Throttle, priority: bool, now: int): Throttle {
    match Decide(t, priority, now)
    case SendNow => t.(lastBroadcastTime := now)
    case Schedule(due) => t.(pendingBroadcast := true, pendingDue := due)
    case Drop => t
  }

  /** The deferred broadcast firing at time `now`: it sends and clears the pending flag. */
  function AfterTimer(t: Throttle, now: int): Throttle {
    t.(lastBroadcastTime := now, pendingBroadcast := false)
  }

  /** A priority broadcast always goes out at once, pending timer or not. */
  lemma PrioritySendsNow(t: Throttle, now: int)
    ensures Decide(t, true, now) == SendNow
    ensures AfterRequest(t, true, now) == t.(lastBroadcastTime := now)
  {
  }

  /**
   * A routine broadcast goes out at once exactly when the interval has
   * elapsed; otherwise it schedules a timer only when none is pending, and
   * that timer is due 16 ms after the last broadcast, later than now.
   */
  lemma RoutineRule(t: Throttle, now: int)
    ensures Decide(t, false, now) == SendNow <==> now - t.lastBroadcastTime >= BROADCAST_INTERVAL
    ensures Decide(t, false, now).Schedule? <==> now - t.lastBroadcastTime < BROADCAST_INTERVAL && !t.pendingBroadcast
    ensures Decide(t, false, now).Schedule? ==>
      Decide(t, false, now).due == t.lastBroadcastTime + BROADCAST_INTERVAL && Decide(t, false, now).due > now
  {
  }

  /** A request never clears a pending timer and never schedules a second one. */
  lemma AtMostOneTimer(t: Throttle, priority: bool, now: int)
    ensures t.pendingBroadcast ==> AfterRequest(t, priority, now).pendingBroadcast
    ensures t.pendingBroadcast ==> AfterRequest(t, priority, now).pendingDue == t.pendingDue
    ensures !Decide(t, priority, now).Schedule? || !t.pendingBroadcast
  {
  }

  /** Routine requests at the given times, in order. */
  function Requests(t: Throttle, times: seq<int>): Throttle
    decreases |times|
  {
    if |times| == 0 then t else Requests(AfterRequest(t, false, times[0]), times[1..])
  }

  /** How many of those requests sent at once. */
  function SentNow(t: Throttle, times: seq<int>): nat
    decreases |times|
  {
    if |times| == 0 then 0
    else (if Decide(t, false, times[0]) == SendNow then 1 else 0) + SentNow(AfterRequest(t, false, times[0]), times[1..])
  }

  /**
   * Coalescing: a burst of routine requests inside the interval after the
   * last broadcast sends nothing at once and leaves exactly one timer,
   * due when the interval ends.
   */
  lemma {:induction false} BurstCoalesces(t: Throttle, times: seq<int>)
    requires |times| > 0
    requires forall i :: 0 <= i < |times| ==> times[i] - t.lastBroadcastTime < BROADCAST_INTERVAL
    requires t.pendingBroadcast ==> t.pendingDue == t.lastBroadcastTime + BROADCAST_INTERVAL
    ensures SentNow(t, times) == 0
    ensures Requests(t, times) == Throttle(t.lastBroadcastTime, true, t.lastBroadcastTime + BROADCAST_INTERVAL)
    decreases |times|
  {
    var t' := AfterRequest(t, false, times[0]);
    assert t' == Throttle(t.lastBroadcastTime, true, t.lastBroadcastTime + BROADCAST_INTERVAL);
    if |times| > 1 {
      forall i | 0 <= i < |times| - 1 ensures times[1..][i] - t'.lastBroadcastTime < BROADCAST_INTERVAL {
        assert times[1..][i] == times[i + 1];
      }
      BurstCoalesces(t', times[1..]);
    }
  }

  /** At 60 broadcasts a second: requests 5 ms and 10 ms after a broadcast at 100 leave one timer due at 116, and the timer then sends. */
  lemma ThrottleScenario()
    ensures Requests(Throttle(100, false, 0), [105, 110]) == Throttle(100, true, 116)
    ensures AfterTimer(Throttle(100, true, 116), 116) == Throttle(116, false, 116)
    ensures Decide(Throttle(116, false, 116), false, 132) == SendNow
  {
    BurstCoalesces(Throttle(100, false, 0), [105, 110]);
  }

  /**
   * After a quiet spell two routine requests 5 ms apart are not merged into
   * one flush: the first goes out at once, the second leaves a timer due
   * 16 ms after the first.
   */
  lemma QuietBurstScenario()
    ensures SentNow(Throttle(0, false, 0), [1000, 1005]) == 1
    ensures Requests(Throttle(0, false, 0), [1000, 1005]) == Throttle(1000, true, 1016)
  {
    assert [1000, 1005][1..] == [1005];
    assert [1005][1..] == [];
  }
}
