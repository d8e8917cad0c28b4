/**
 The deadline arithmetic of `Condition::blockTimed(Mutex*, uint32_t u32USec)`
 (include/ThreadMinimal.h): the current gettimeofday reading plus an
 interval in microseconds becomes the absolute `struct timespec` handed to
 pthread_cond_timedwait. The clock reading is a parameter.
 */
module Timespec {
  import opened Basics
  import opened SocketState

  datatype Timespec = Timespec(sec: int, nsec: int)

  /** The deadline a timespec stands for, in microseconds since the epoch. */
  function TimespecMicros(ts: Timespec): int
  {
    ts.sec * 1000000 + ts.nsec / 1000
  }

  /** The interval form of blockTimed: seconds and microseconds of the
      interval are added field by field, and one carry of a whole second
      moves the microseconds back into range before they become nanoseconds. */
  function IntervalDeadline(now: Timeval, usec: uint32): (ts: Timespec)
    // the deadline lies exactly usec after now
    ensures TimespecMicros(ts) == TimeuS64(now) + usec
    ensures ts.nsec % 1000 == 0
    // a normalised clock reading yields a normalised timespec
    ensures Normalized(now) ==> 0 <= ts.nsec < 1000000000
    ensures Normalized(now) ==> now.sec + usec / 1000000 <= ts.sec <= now.sec + usec / 1000000 + 1
  {
    var sec := now.sec + usec / 1000000;
    var us := now.usec + usec % 1000000;
    if us >= 1000000 then Timespec(sec + 1, (us - 1000000) * 1000)
    else Timespec(sec, us * 1000)
  }

  /** A longer interval never gives an earlier deadline, and an interval of 0
      gives the current time itself. */
  lemma {:induction false} IntervalDeadlineMonotone(now: Timeval, a: uint32, b: uint32)
    requires Normalized(now)
    requires a <= b
    ensures TimespecMicros(IntervalDeadline(now, a)) <= TimespecMicros(IntervalDeadline(now, b))
    ensures IntervalDeadline(now, 0) == Timespec(now.sec, now.usec * 1000)
  {
  }

  /** The timespec is the normalised form of its deadline: seconds and
      nanoseconds are recovered from the microsecond count alone. */
  lemma {:induction false} IntervalDeadlineCanonical(now: Timeval, usec: uint32)
    requires Normalized(now)
    ensures var ts := IntervalDeadline(now, usec);
            var t := TimeuS64(now) + usec;
            ts.sec == t / 1000000 && ts.nsec == (t % 1000000) * 1000
  {
    var ts := IntervalDeadline(now, usec);
    var t := TimeuS64(now) + usec;
    assert t == ts.sec * 1000000 + ts.nsec / 1000;
    assert 0 <= ts.nsec / 1000 < 1000000;
  }
}
