/** The inter-process speech lock: an exclusive, non-blocking file lock
    polled every 100 ms until it is taken or the timeout has passed, a
    pause that keeps consecutive speeches at least `spacing` apart, the
    speech itself, a time stamp written when the speech returned normally,
    and the release on every path. Time is in milliseconds; whether each
    lock attempt succeeds, what the clock reads and whether the speech
    raises are parameters. */
module SpeechLock {

  /** Python `SpeechLock(timeout=10.0)`. */
  const DefaultTimeout := 10000
  /** The sleep between two lock attempts. */
  const PollInterval := 100
  /** Python `acquire(min_spacing=1.0)`; the handler passes the same value. */
  const DefaultSpacing := 1000

  /** How the waiting ended: the lock was taken at attempt `attempt`, or
      attempt `attempt` failed after the timeout had passed. */
  datatype LockWait = Locked(attempt: nat) | TimedOut(attempt: nat)

  /** Sleeping between attempts: the elapsed time read after the `k`-th
      failed attempt is at least `k` poll intervals. */
  ghost predicate Sleeps(elapsed: nat -> int) {
    forall k: nat :: PollInterval * k <= elapsed(k)
  }

  /** All attempts before `k` failed within the timeout. */
  ghost predicate FailedWithin(free: nat -> bool, elapsed: nat -> int, timeout: int, k: nat) {
    forall j: nat :: j < k ==> !free(j) && elapsed(j) <= timeout
  }

  /** The polling loop of Python `acquire`: try the lock; on failure give
      up when more than `timeout` has elapsed, else sleep and try again. */
  method WaitForLock(free: nat -> bool, elapsed: nat -> int, timeout: int) returns (w: LockWait)
    requires Sleeps(elapsed)
    ensures FailedWithin(free, elapsed, timeout, w.attempt)
    ensures w.Locked? ==> free(w.attempt)
    ensures w.TimedOut? ==> !free(w.attempt) && elapsed(w.attempt) > timeout
    ensures w.attempt == 0 || PollInterval * (w.attempt - 1) <= timeout
  {
    var k: nat := 0;
    while true
      invariant FailedWithin(free, elapsed, timeout, k)
      invariant k == 0 || PollInterval * (k - 1) <= timeout
      decreases timeout - PollInterval * k
    {
      if free(k) {
        return Locked(k);
      }
      if elapsed(k) > timeout {
        return TimedOut(k);
      }
      k := k + 1;
    }
  }

  /** The last-speech stamp file: absent, unreadable or unparsable, or a
      time. */
  datatype StampFile = NoStamp | Garbled | Stamp(time: int)

  /** How the speech ends. */
  datatype Body = Returns | Raises

  /** What happens, in order. */
  datatype Event = Retry | Lock | Pace(ms: int) | Speak | Write(time: int) | Unlock

  /** How `acquire` is left: normally, by the timeout error, or by the
      speech's own exception. */
  datatype Exit = Done | Timeout | BodyError

  datatype Session = Session(trace: seq<Event>, exit: Exit, stamp: StampFile)

  /** The pause before speaking, with the lock held at time `now`: the
      speech starts `spacing` after the stamped time when that has not
      passed yet, at once otherwise, and at once when there is no usable
      stamp. */
  function Pause(stamp: StampFile, now: int, spacing: int): (p: int)
    ensures p >= 0
    ensures stamp.Stamp? && now - stamp.time < spacing ==> now + p == stamp.time + spacing
    ensures stamp.Stamp? ==> now + p - stamp.time >= spacing
    ensures !stamp.Stamp? ==> p == 0
    ensures stamp.Stamp? && now - stamp.time >= spacing ==> p == 0
  {
    if stamp.Stamp? && now - stamp.time < spacing then spacing - (now - stamp.time) else 0
  }

  /** `k` sleeps between failed attempts. */
  function Retries(k: nat): (r: seq<Event>)
    ensures |r| == k
    ensures forall e :: e in r ==> e == Retry
  {
    if k == 0 then [] else Retries(k - 1) + [Retry]
  }

  /** The rest of Python `acquire` once the wait is over: pace, speak,
      stamp on normal return, and unlock in `finally` on every path. The
      stamp written is the clock reading `finish` after the speech. */
  function SessionOf(w: LockWait, stamp: StampFile, now: int, spacing: int, body: Body, finish: int): (s: Session)
    ensures s.exit == Timeout <==> w.TimedOut?
    ensures s.exit == BodyError <==> w.Locked? && body == Raises
    ensures s.stamp == (if s.exit == Done then Stamp(finish) else stamp)
  {
    match w
    case TimedOut(k) => Session(Retries(k) + [Unlock], Timeout, stamp)
    case Locked(k) =>
      var p := Pause(stamp, now, spacing);
      var spoken := Retries(k) + [Lock] + (if p > 0 then [Pace(p)] else []) + [Speak];
      if body == Raises then Session(spoken + [Unlock], BodyError, stamp)
      else Session(spoken + [Write(finish), Unlock], Done, Stamp(finish))
  }

  /** Python `acquire` around one speech. */
  method Acquire(free: nat -> bool, elapsed: nat -> int, timeout: int, stamp: StampFile,
                 now: int, spacing: int, body: Body, finish: int) returns (s: Session)
    requires Sleeps(elapsed)
    ensures s.exit == Timeout <==> exists k: nat :: !free(k) && elapsed(k) > timeout && FailedWithin(free, elapsed, timeout, k)
    ensures s.exit != Timeout ==> exists k: nat :: free(k) && FailedWithin(free, elapsed, timeout, k)
    ensures s.stamp == (if s.exit == Done then Stamp(finish) else stamp)
    ensures s.exit == Done <==> s.exit != Timeout && body == Returns
  {
    var w := WaitForLock(free, elapsed, timeout);
    s := SessionOf(w, stamp, now, spacing, body, finish);
    if s.exit != Timeout {
      forall k: nat | !free(k) && elapsed(k) > timeout && FailedWithin(free, elapsed, timeout, k)
        ensures false
      {
      }
    }
  }

  /** The lock is released on every path, exactly once, as the last step. */
  lemma ReleasedOnEveryPath(w: LockWait, stamp: StampFile, now: int, spacing: int, body: Body, finish: int)
    ensures var s := SessionOf(w, stamp, now, spacing, body, finish);
      |s.trace| > 0 && s.trace[|s.trace| - 1] == Unlock && multiset(s.trace)[Unlock] == 1
  {
    var s := SessionOf(w, stamp, now, spacing, body, finish);
    assert Unlock !in Retries(w.attempt);
  }

  /** The speech happens at most once, and exactly once unless the lock
      timed out. */
  lemma SpeaksAtMostOnce(w: LockWait, stamp: StampFile, now: int, spacing: int, body: Body, finish: int)
    ensures var s := SessionOf(w, stamp, now, spacing, body, finish);
      multiset(s.trace)[Speak] == (if s.exit == Timeout then 0 else 1)
  {
    assert Speak !in Retries(w.attempt);
  }

  /** The stamp is written exactly when the speech returned normally. */
  lemma StampOnlyOnReturn(w: LockWait, stamp: StampFile, now: int, spacing: int, body: Body, finish: int)
    ensures var s := SessionOf(w, stamp, now, spacing, body, finish);
      (Write(finish) in s.trace <==> s.exit == Done)
      && multiset(s.trace)[Write(finish)] <= 1
  {
    assert Write(finish) !in Retries(w.attempt);
  }

  /** The speech is made with the lock held: after the lock and before the
      release. */
  lemma SpeaksUnderLock(w: LockWait, stamp: StampFile, now: int, spacing: int, body: Body, finish: int, i: nat)
    requires var s := SessionOf(w, stamp, now, spacing, body, finish);
      i < |s.trace| && s.trace[i] == Speak
    ensures var s := SessionOf(w, stamp, now, spacing, body, finish);
      Lock in s.trace[..i] && Unlock !in s.trace[..i]
  {
    var s := SessionOf(w, stamp, now, spacing, body, finish);
    var k := w.attempt;
    assert Speak !in Retries(k) && Unlock !in Retries(k);
    assert s.trace[k] == Lock;
  }
}
