/**
 The two pollers: `waitForJob` of packages/sdk-node/src/client.ts and `pollToTerminal` of
 packages/widget/src/embed.ts. The answer to the k-th read and the clock reading after it are
 functions of k; reading 0 is the one taken before the loop.
 */
module Polling {
  import opened Results

  /** One read of the job: still running, terminal, or a failed read. */
  datatype Read<J, E> = Pending | Terminal(job: J) | ReadFails(error: E)

  datatype WaitError<E> = InvalidInput | TimedOut | Propagated(error: E)

  /** Each sleep takes at least `pollMs`, and the clock never goes back. */
  ghost predicate SleepsAtLeast(clock: nat -> int, pollMs: int) {
    clock(1) >= clock(0) && forall k: nat | k >= 1 :: clock(k + 1) >= clock(k) + pollMs
  }

  /** A poller that goes on after read `k` only while `goesOn(k)`, stopped after `count` reads. */
  ghost predicate StopsAfter<J, E>(poll: nat -> Read<J, E>, goesOn: nat -> bool, count: nat) {
    count >= 1 && (forall k | 1 <= k < count :: poll(k).Pending? && goesOn(k))
        && (poll(count).Pending? ==> !goesOn(count))
  }

  /** Where a poller stops is determined. */
  lemma StopsOnce<J, E>(poll: nat -> Read<J, E>, goesOn: nat -> bool, a: nat, b: nat)
    requires StopsAfter(poll, goesOn, a) && StopsAfter(poll, goesOn, b)
    ensures a == b
  {
  }

  /** After read `k` the next one would not be past the deadline. */
  predicate BeforeDeadline(clock: nat -> int, pollMs: int, timeoutMs: int, k: nat) {
    clock(k) + pollMs <= clock(0) + timeoutMs
  }

  function OnTime(clock: nat -> int, pollMs: int, timeoutMs: int): nat -> bool {
    (k: nat) => BeforeDeadline(clock, pollMs, timeoutMs, k)
  }

  /**
   However long reads and sleeps take, the poller goes on after a read exactly while the time elapsed since
   before the first read leaves room for another poll interval.
   */
  lemma StopsByElapsedTime<J, E>(
      poll: nat -> Read<J, E>, clock: nat -> int, pollMs: int, timeoutMs: int, count: nat)
    ensures StopsAfter(poll, OnTime(clock, pollMs, timeoutMs), count)
       <==> && count >= 1
            && (forall k | 1 <= k < count :: poll(k).Pending? && clock(k) - clock(0) <= timeoutMs - pollMs)
            && (poll(count).Pending? ==> clock(count) - clock(0) > timeoutMs - pollMs)
  {
    forall k: nat ensures OnTime(clock, pollMs, timeoutMs)(k) <==> clock(k) - clock(0) <= timeoutMs - pollMs {
    }
  }

  method WaitForJob<J, E>(poll: nat -> Read<J, E>, clock: nat -> int, pollMs: real, timeoutMs: real)
    returns (r: Result<J, WaitError<E>>, count: nat)
    requires SleepsAtLeast(clock, pollMs.Floor)
    ensures (pollMs != pollMs.Floor as real || pollMs <= 0.0 || timeoutMs != timeoutMs.Floor as real || timeoutMs < 0.0)
       <==> count == 0
    ensures count == 0 ==> r == Err(InvalidInput)
    ensures count > 0 ==> StopsAfter(poll, OnTime(clock, pollMs.Floor, timeoutMs.Floor), count)
    ensures count > 0 ==> r == match poll(count)
                               case Terminal(job) => Ok(job)
                               case ReadFails(error) => Err(Propagated(error))
                               case Pending => Err(TimedOut)
  {
    count := 0;
    if pollMs != pollMs.Floor as real || pollMs <= 0.0 {
      return Err(InvalidInput), count;
    }
    if timeoutMs != timeoutMs.Floor as real || timeoutMs < 0.0 {
      return Err(InvalidInput), count;
    }
    var step, deadline := pollMs.Floor, clock(0) + timeoutMs.Floor;
    while true
      invariant forall k | 1 <= k <= count :: poll(k).Pending? && BeforeDeadline(clock, step, timeoutMs.Floor, k)
      decreases deadline - clock(if count == 0 then 1 else count), if count == 0 then 1 else 0
    {
      count := count + 1;
      var job := poll(count);
      if job.Terminal? {
        return Ok(job.job), count;
      }
      if job.ReadFails? {
        return Err(Propagated(job.error)), count;
      }
      if clock(count) + step > deadline {
        return Err(TimedOut), count;
      }
    }
  }

  /** After `k` reads at least `k - 1` sleeps have passed. */
  lemma {:induction false} ClockAfterReads(clock: nat -> int, pollMs: int, k: nat)
    requires SleepsAtLeast(clock, pollMs) && k >= 1
    ensures clock(k) >= clock(0) + (k - 1) * pollMs
  {
    if k > 1 {
      ClockAfterReads(clock, pollMs, k - 1);
      assert clock(k) >= clock(k - 1) + pollMs;
      assert (k - 1) * pollMs == (k - 2) * pollMs + pollMs;
    }
  }

  lemma ScaleUp(a: int, b: int, p: int)
    requires a <= b && p > 0
    ensures a * p <= b * p
  {
  }

  lemma QuotientBound(k: int, p: int, t: int)
    requires p > 0 && k * p <= t
    ensures k <= t / p
  {
    var q := t / p;
    assert t < (q + 1) * p;
    if k > q {
      ScaleUp(q + 1, k, p);
    }
  }

  /** However the clock runs, there are at most floor(timeout / poll) + 1 reads. */
  lemma ReadsBounded<J, E>(poll: nat -> Read<J, E>, clock: nat -> int, pollMs: int, timeoutMs: int, count: nat)
    requires pollMs > 0 && timeoutMs >= 0 && SleepsAtLeast(clock, pollMs)
    requires StopsAfter(poll, OnTime(clock, pollMs, timeoutMs), count)
    ensures count <= timeoutMs / pollMs + 1
  {
    if count > 1 {
      ClockAfterReads(clock, pollMs, count - 1);
      assert OnTime(clock, pollMs, timeoutMs)(count - 1);
      assert (count - 1) * pollMs == (count - 2) * pollMs + pollMs;
      QuotientBound(count - 1, pollMs, timeoutMs);
    }
  }

  /** Sleeps are exact and reads take no time. */
  ghost predicate ExactClock(clock: nat -> int, pollMs: int) {
    forall k: nat | k >= 1 :: clock(k) == clock(0) + (k - 1) * pollMs
  }

  /**
   With exact sleeps and instantaneous reads, no read starts after the deadline, and a job that never
   ends is read exactly floor(timeout / poll) + 1 times, the last time with less than a poll left.
   */
  lemma ExactReads<J, E>(poll: nat -> Read<J, E>, clock: nat -> int, pollMs: int, timeoutMs: int, count: nat)
    requires pollMs > 0 && timeoutMs >= 0 && ExactClock(clock, pollMs)
    requires StopsAfter(poll, OnTime(clock, pollMs, timeoutMs), count)
    ensures forall k | 1 <= k <= count :: clock(k) <= clock(0) + timeoutMs
    ensures poll(count).Pending? ==> count == timeoutMs / pollMs + 1
  {
    forall k | 1 <= k <= count ensures clock(k) <= clock(0) + timeoutMs {
      if k > 1 {
        assert OnTime(clock, pollMs, timeoutMs)(k - 1);
        assert (k - 1) * pollMs == (k - 2) * pollMs + pollMs;
      }
    }
    ExactIsAtLeast(clock, pollMs);
    ReadsBounded(poll, clock, pollMs, timeoutMs, count);
    if poll(count).Pending? {
      assert count * pollMs == (count - 1) * pollMs + pollMs;
      AboveQuotient(count, pollMs, timeoutMs);
    }
  }

  lemma ExactIsAtLeast(clock: nat -> int, pollMs: int)
    requires ExactClock(clock, pollMs)
    ensures SleepsAtLeast(clock, pollMs)
  {
    assert clock(1) == clock(0) + 0 * pollMs;
    forall k: nat | k >= 1 ensures clock(k + 1) >= clock(k) + pollMs {
      assert k * pollMs == (k - 1) * pollMs + pollMs;
    }
  }

  lemma AboveQuotient(k: int, p: int, t: int)
    requires p > 0 && k * p > t
    ensures k >= t / p + 1
  {
    var q := t / p;
    assert q * p <= t;
    if k <= q {
      ScaleUp(k, q, p);
    }
  }

  // ----- The widget's poller -----

  const POLL_INTERVAL_MS: int := 1000
  const POLL_TIMEOUT_MS: int := 60_000

  predicate WithinTimeout(clock: nat -> int, k: nat) {
    clock(k) - clock(0) < POLL_TIMEOUT_MS
  }

  function StillYoung(clock: nat -> int): nat -> bool {
    (k: nat) => WithinTimeout(clock, k)
  }

  /** None stands for a timeout or a failed read. */
  method PollToTerminal<J, E>(poll: nat -> Read<J, E>, clock: nat -> int) returns (r: Option<J>, count: nat)
    requires SleepsAtLeast(clock, POLL_INTERVAL_MS)
    ensures StopsAfter(poll, StillYoung(clock), count)
    ensures r == if poll(count).Terminal? then Some(poll(count).job) else None
    ensures count <= 61
  {
    count := 0;
    while true
      invariant forall k | 1 <= k <= count :: poll(k).Pending? && WithinTimeout(clock, k)
      invariant count <= POLL_TIMEOUT_MS / POLL_INTERVAL_MS
      decreases POLL_TIMEOUT_MS / POLL_INTERVAL_MS - count
    {
      count := count + 1;
      var polled := poll(count);
      if polled.ReadFails? {
        return None, count;
      }
      if polled.Terminal? {
        return Some(polled.job), count;
      }
      if clock(count) - clock(0) >= POLL_TIMEOUT_MS {
        return None, count;
      }
      ClockAfterReads(clock, POLL_INTERVAL_MS, count);
    }
  }

  /** The widget's poller goes on after a read exactly while less than a minute has gone by since it began. */
  lemma StopsAfterAMinute<J, E>(poll: nat -> Read<J, E>, clock: nat -> int, count: nat)
    ensures StopsAfter(poll, StillYoung(clock), count)
       <==> && count >= 1 && (forall k | 1 <= k < count :: poll(k).Pending? && clock(k) - clock(0) < 60_000)
            && (poll(count).Pending? ==> clock(count) - clock(0) >= 60_000)
  {
    forall k: nat ensures StillYoung(clock)(k) <==> clock(k) - clock(0) < 60_000 {
    }
  }
}
