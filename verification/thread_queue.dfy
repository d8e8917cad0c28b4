/**
 `ThreadQueue` (include/ThreadMinimal.h) as a sequential FIFO of messages.

 The mutex is not modelled. Blocking on the condition variable is an
 oracle: each time a get has to block, the next `Wake` says whether the
 wait was signalled or timed out, together with the messages other threads
 put while it waited (possibly none: another consumer may have taken them).
 A timed wait can report a timeout even though a put came in while the
 mutex was released, so a timed-out wake may carry arrivals too. A get that
 would block with no wake left is `StillBlocked`.
 */
module ThreadQueue {
  import opened Basics

  datatype Wake<T> = Signalled(arrived: seq<T>) | TimedOut(arrived: seq<T>)

  /** The four read operations: `getNonBlocking`, `get`, `getTimed(u32USec)`
      and `getTimed(struct timespec*)`. */
  datatype GetMode = NonBlocking | Blocking | Relative(usec: uint32) | Absolute

  /** A get returns a message or NULL (`msg`), the queue left behind and how
      many wakes it consumed; or it is still blocked when the wakes run out. */
  datatype GetResult<T> = Got(msg: Option<T>, rest: seq<T>, used: nat) | StillBlocked(rest: seq<T>)

  /** `put`: the message goes to the back. */
  function Put<T>(q: seq<T>, x: T): (r: seq<T>)
    ensures |r| == |q| + 1 && r[..|q|] == q && r[|q|] == x
  {
    q + [x]
  }

  /** `size`. */
  function Size<T>(q: seq<T>): nat
  {
    |q|
  }

  /** Messages put by other threads during the first n wakes, in order. */
  function Arrivals<T>(wakes: seq<Wake<T>>, n: nat): seq<T>
    requires n <= |wakes|
  {
    if n == 0 then []
    else Arrivals(wakes, n - 1) + wakes[n - 1].arrived
  }

  /** A get returns NULL without waiting in exactly these modes. */
  predicate NeverBlocks(mode: GetMode)
  {
    mode.NonBlocking? || mode == Relative(0)
  }

  /** pthread_cond_wait has no timeout: a blocking get only wakes signalled. */
  predicate WakesFit<T>(mode: GetMode, wakes: seq<Wake<T>>)
  {
    mode.Blocking? ==> forall i :: 0 <= i < |wakes| ==> wakes[i].Signalled?
  }

  /** The get loop: take the front if there is one; otherwise return NULL at
      once in a non-blocking mode, or block and look again after the wake. */
  function Get<T>(q: seq<T>, mode: GetMode, wakes: seq<Wake<T>>): (r: GetResult<T>)
    requires WakesFit(mode, wakes)
    ensures r.Got? ==> r.used <= |wakes|
    decreases |wakes|
  {
    if |q| > 0 then Got(Some(q[0]), q[1..], 0)
    else if NeverBlocks(mode) then Got(None, q, 0)
    else if |wakes| == 0 then StillBlocked(q)
    else match wakes[0]
      case TimedOut(a) => Got(None, q + a, 1)
      case Signalled(a) =>
        match Get(q + a, mode, wakes[1..])
        case Got(m, rest, used) => Got(m, rest, used + 1)
        case StillBlocked(rest) => StillBlocked(rest)
  }

  /** FIFO: a non-empty queue yields its front at once, in every mode. */
  lemma {:induction false} GetFront<T>(q: seq<T>, mode: GetMode, wakes: seq<Wake<T>>)
    requires WakesFit(mode, wakes)
    ensures |q| > 0 ==> Get(q, mode, wakes) == Got(Some(q[0]), q[1..], 0)
  {
  }

  /** A message a get returns is the front of the queue as it stood plus
      what other threads put while it waited; the rest stays queued in order. */
  lemma {:induction false} GetDelivers<T>(q: seq<T>, mode: GetMode, wakes: seq<Wake<T>>)
    requires WakesFit(mode, wakes)
    ensures var r := Get(q, mode, wakes);
            r.Got? && r.msg.Some? ==> [r.msg.value] + r.rest == q + Arrivals(wakes, r.used)
    decreases |wakes|
  {
    if |q| == 0 && !NeverBlocks(mode) && |wakes| > 0 && wakes[0].Signalled? {
      var a := wakes[0].arrived;
      GetStep(q, mode, wakes);
      var r' := Get(a, mode, wakes[1..]);
      if r'.Got? && r'.msg.Some? {
        GetDelivers(a, mode, wakes[1..]);
        ArrivalsConsAt(wakes, r'.used);
      }
    }
  }

  /** A get returns NULL only when the queue it started on was empty, and
      only without waiting (in a non-blocking mode) or right after a timeout;
      a blocking get never returns NULL. The timed-out get does not look at
      the queue again, so whatever arrived while it waited stays queued. */
  lemma {:induction false} GetNull<T>(q: seq<T>, mode: GetMode, wakes: seq<Wake<T>>)
    requires WakesFit(mode, wakes)
    ensures var r := Get(q, mode, wakes);
            r.Got? && r.msg.None? ==>
              q == [] && r.rest == Arrivals(wakes, r.used) &&
              ((r.used == 0 && NeverBlocks(mode)) || (r.used >= 1 && wakes[r.used - 1].TimedOut?)) &&
              !mode.Blocking?
    decreases |wakes|
  {
    if |q| == 0 && !NeverBlocks(mode) && |wakes| > 0 && wakes[0].Signalled? {
      var a := wakes[0].arrived;
      GetStep(q, mode, wakes);
      var r' := Get(a, mode, wakes[1..]);
      if r'.Got? && r'.msg.None? {
        GetNull(a, mode, wakes[1..]);
        ArrivalsConsAt(wakes, r'.used);
        assert wakes[r'.used] == wakes[1..][r'.used - 1];
      }
    }
  }

  /** A timed get on an empty queue whose wait reports a timeout after
      another thread put x returns NULL and leaves x queued. */
  lemma TimeoutLeavesArrivals<T>(x: T, usec: uint32)
    requires usec > 0
    ensures Get([], Relative(usec), [TimedOut([x])]) == Got(None, [x], 1)
    ensures Get([], Absolute, [TimedOut([x])]) == Got(None, [x], 1)
  {
  }

  /** A get is left blocked only on an empty queue that nothing arrived in,
      in a mode that waits. */
  lemma {:induction false} GetBlocked<T>(q: seq<T>, mode: GetMode, wakes: seq<Wake<T>>)
    requires WakesFit(mode, wakes)
    ensures var r := Get(q, mode, wakes);
            r.StillBlocked? ==> q == [] && r.rest == [] && Arrivals(wakes, |wakes|) == [] && !NeverBlocks(mode)
    decreases |wakes|
  {
    if |q| == 0 && !NeverBlocks(mode) && |wakes| > 0 && wakes[0].Signalled? {
      var a := wakes[0].arrived;
      GetStep(q, mode, wakes);
      var r' := Get(a, mode, wakes[1..]);
      if r'.StillBlocked? {
        GetBlocked(a, mode, wakes[1..]);
        ArrivalsConsAt(wakes, |wakes| - 1);
      }
    }
  }

  /** One round of the get loop on an empty queue: the signalled wake's
      arrivals become the queue the next round looks at. */
  lemma {:induction false} GetStep<T>(q: seq<T>, mode: GetMode, wakes: seq<Wake<T>>)
    requires WakesFit(mode, wakes)
    requires |q| == 0 && !NeverBlocks(mode) && |wakes| > 0 && wakes[0].Signalled?
    ensures WakesFit(mode, wakes[1..])
    ensures var r' := Get(wakes[0].arrived, mode, wakes[1..]);
            Get(q, mode, wakes) == (if r'.Got? then Got(r'.msg, r'.rest, r'.used + 1) else r')
  {
    assert q + wakes[0].arrived == wakes[0].arrived;
  }

  /** Arrivals over a sequence of wakes split into the first and the rest. */
  lemma {:induction false} ArrivalsCons<T>(wakes: seq<Wake<T>>)
    requires |wakes| >= 1
    ensures forall n :: 0 <= n < |wakes| ==>
              Arrivals(wakes, n + 1) ==
              wakes[0].arrived + Arrivals(wakes[1..], n)
  {
    forall n | 0 <= n < |wakes|
      ensures Arrivals(wakes, n + 1) ==
              wakes[0].arrived + Arrivals(wakes[1..], n)
    {
      ArrivalsConsAt(wakes, n);
    }
  }

  lemma {:induction false} ArrivalsConsAt<T>(wakes: seq<Wake<T>>, n: nat)
    requires n < |wakes|
    ensures Arrivals(wakes, n + 1) ==
            wakes[0].arrived + Arrivals(wakes[1..], n)
  {
    if n > 0 {
      ArrivalsConsAt(wakes, n - 1);
      assert wakes[n] == wakes[1..][n - 1];
    }
  }

  /** getNonBlocking and getTimed(0) agree, and on an empty queue they return
      NULL and leave the queue as it was. */
  lemma {:induction false} NonBlockingOnEmpty<T>(wakes: seq<Wake<T>>)
    ensures Get([], NonBlocking, wakes) == Got(None, [], 0)
    ensures Get([], Relative(0), wakes) == Got(None, [], 0)
  {
  }

  lemma {:induction false} NonBlockingAgree<T>(q: seq<T>, wakes: seq<Wake<T>>)
    ensures Get(q, NonBlocking, wakes) == Get(q, Relative(0), wakes)
    ensures Get(q, NonBlocking, wakes).Got? && Get(q, NonBlocking, wakes).used == 0
  {
  }

  /** Puts each message of xs in turn. */
  function PutAll<T>(q: seq<T>, xs: seq<T>): seq<T>
    decreases |xs|
  {
    if |xs| == 0 then q else PutAll(Put(q, xs[0]), xs[1..])
  }

  /** Up to n non-blocking gets in a row: the messages they return, and the
      queue left once one returns NULL or n have been made. */
  function Drain<T>(q: seq<T>, n: nat): (seq<T>, seq<T>)
  {
    if n == 0 then ([], q)
    else match Get(q, NonBlocking, [])
      case Got(Some(m), rest, _) =>
        var d := Drain(rest, n - 1);
        ([m] + d.0, d.1)
      case _ => ([], q)
  }

  /** Puts append to the back, in the order made. */
  lemma {:induction false} PutAllAppends<T>(q: seq<T>, xs: seq<T>)
    ensures PutAll(q, xs) == q + xs
    decreases |xs|
  {
    if |xs| > 0 {
      PutAllAppends(Put(q, xs[0]), xs[1..]);
      assert Put(q, xs[0]) + xs[1..] == q + xs;
    }
  }

  /** Draining a queue returns its messages front first and empties it. */
  lemma {:induction false} DrainAll<T>(q: seq<T>)
    ensures Drain(q, |q|) == (q, [])
    decreases |q|
  {
    if |q| > 0 {
      DrainAll(q[1..]);
      assert [q[0]] + q[1..] == q;
    }
  }

  /** FIFO: after putting xs on a queue holding q, as many non-blocking gets
      as there are messages return q and then xs, in order, and leave the
      queue empty. */
  lemma {:induction false} FifoOrder<T>(q: seq<T>, xs: seq<T>)
    ensures Drain(PutAll(q, xs), |q| + |xs|) == (q + xs, [])
  {
    PutAllAppends(q, xs);
    DrainAll(q + xs);
  }

  /** One step of a single-threaded trace: a put, or a get with its wakes. */
  datatype Op<T> = PutOp(x: T) | GetOp(mode: GetMode, wakes: seq<Wake<T>>)

  /** The state after a trace: the queue, how many puts it made, how many gets
      returned a message, how many messages other threads put while a get
      waited, and whether a get was left blocked (the trace stops there). */
  datatype Trace<T> = Trace(q: seq<T>, puts: nat, hits: nat, arrivals: nat, blocked: bool)

  predicate OpsFit<T>(ops: seq<Op<T>>)
  {
    forall i :: 0 <= i < |ops| ==> ops[i].GetOp? ==> WakesFit(ops[i].mode, ops[i].wakes)
  }

  function Replay<T>(q: seq<T>, ops: seq<Op<T>>): Trace<T>
    requires OpsFit(ops)
    decreases |ops|
  {
    if |ops| == 0 then Trace(q, 0, 0, 0, false)
    else
      assert OpsFit(ops[1..]) by {
        forall i | 0 <= i < |ops[1..]| ensures ops[1..][i].GetOp? ==> WakesFit(ops[1..][i].mode, ops[1..][i].wakes) {
          assert ops[1..][i] == ops[i + 1];
        }
      }
      match ops[0]
      case PutOp(x) =>
        var t := Replay(Put(q, x), ops[1..]);
        t.(puts := t.puts + 1)
      case GetOp(mode, wakes) =>
        match Get(q, mode, wakes)
        case StillBlocked(rest) => Trace(rest, 0, 0, |Arrivals(wakes, |wakes|)|, true)
        case Got(m, rest, used) =>
          var t := Replay(rest, ops[1..]);
          t.(hits := t.hits + (if m.Some? then 1 else 0), arrivals := t.arrivals + |Arrivals(wakes, used)|)
  }

  /** `size` counts the messages put, by this trace or by others while it
      waited, minus the gets that returned one. */
  lemma {:induction false} SizeAccounting<T>(q: seq<T>, ops: seq<Op<T>>)
    requires OpsFit(ops)
    ensures var t := Replay(q, ops);
            Size(t.q) + t.hits == |q| + t.puts + t.arrivals
    decreases |ops|
  {
    if |ops| > 0 {
      assert OpsFit(ops[1..]) by {
        forall i | 0 <= i < |ops[1..]| ensures ops[1..][i].GetOp? ==> WakesFit(ops[1..][i].mode, ops[1..][i].wakes) {
          assert ops[1..][i] == ops[i + 1];
        }
      }
      match ops[0]
      case PutOp(x) =>
        SizeAccounting(Put(q, x), ops[1..]);
      case GetOp(mode, wakes) =>
        GetDelivers(q, mode, wakes);
        GetNull(q, mode, wakes);
        GetBlocked(q, mode, wakes);
        match Get(q, mode, wakes)
        case StillBlocked(rest) =>
        case Got(m, rest, used) =>
          SizeAccounting(rest, ops[1..]);
          if m.Some? {
            assert |[m.value] + rest| == |q + Arrivals(wakes, used)|;
          }
    }
  }
}
