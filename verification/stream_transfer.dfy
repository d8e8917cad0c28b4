/**
 The stream transfer routines of src/Socket.cc: `TCPSocket::LockedTransfer`,
 which accumulates partial send(2)/recv(2) results against an absolute
 deadline, `TCPSocket::LockedRecvAll`, which repeats it, and the public
 Send/Recv wrappers of include/Socket.h.

 Each iteration of the transfer loop is one `Round` of the environment: the
 oracle for the LockedWait call, the reply of the raw transfer call and the
 clock reading taken after it. The raw reply is what the kernel can move at
 that moment: a negative value is a failed call (with errno), 0 is end of
 stream, and a positive value is capped by the byte count the call asks for,
 as the kernel never moves more than the length it is given.
 */
module StreamTransfer {
  import opened Basics
  import opened Exceptions
  import opened SocketState
  import opened DeadlineWait

  datatype Round = Round(wait: WaitEnv, offer: int, errno: int, now: int)

  /** The clock reading taken before the loop, and the rounds that follow. */
  datatype TransferEnv = TransferEnv(start: int, rounds: seq<Round>)

  /** One LockedWait call of a transfer: the timeout it was given, what it
      ended with, and the budgets of the polls it made. */
  datatype WaitCall = WaitCall(budget: int, out: Outcome<()>, polls: seq<int>)

  /** The timeout the socket applies in a direction. */
  function TimeoutFor(s: Socket, dir: Direction): int
  {
    match dir
    case SendDir => s.sendTimeout
    case RecvDir => s.recvTimeout
  }

  /** What one raw send/recv call for `len` bytes returns, given the oracle's offer. */
  function RawResult(offer: int, len: nat): (rc: int)
    ensures rc <= len
    ensures rc < 0 <==> offer < 0
    ensures rc == 0 <==> offer == 0 || (offer > 0 && len == 0)
    ensures rc > 0 ==> rc == offer || rc == len
  {
    if offer < 0 then offer
    else if offer > len then len
    else offer
  }

  /** Converts a failed wait into the transfer's own outcome type. */
  function Propagate(w: Outcome<()>): (r: Outcome<uint32>)
    requires !w.Done?
    ensures r.Pending? <==> w.Pending?
    ensures w.Raised? ==> r == Raised(w.fault)
  {
    match w
    case Raised(f) => Raised(f)
    case Pending => Pending
  }

  /** The timeout LockedWait is given in round j: the deadline less the clock,
      which is the whole timeout in the first round and, later, what is left
      after the clock reading that followed the previous raw call. */
  function RoundBudget(timeout: int, env: TransferEnv, j: nat): int
    requires j < |env.rounds|
  {
    if j == 0 then timeout else env.start + timeout - env.rounds[j - 1].now
  }

  /** A wait that ran as LockedWait runs it for a transfer in direction dir. */
  predicate WaitRan(dir: Direction, c: WaitCall, wait: WaitEnv)
  {
    LockedWaitsAs(dir == RecvDir, dir == SendDir, c.budget, wait, c.out, c.polls)
  }

  /** Each recorded wait ran on its round's oracle. */
  predicate WaitsRan(dir: Direction, env: TransferEnv, calls: seq<WaitCall>)
    requires |calls| <= |env.rounds|
    decreases |calls|
  {
    |calls| == 0 ||
    (WaitsRan(dir, env, calls[..|calls| - 1]) && WaitRan(dir, calls[|calls| - 1], env.rounds[|calls| - 1].wait))
  }

  /** The wait of any recorded round ran on that round's oracle. */
  lemma {:induction false} WaitsRanAt(dir: Direction, env: TransferEnv, calls: seq<WaitCall>, j: nat)
    requires |calls| <= |env.rounds| && WaitsRan(dir, env, calls)
    requires j < |calls|
    ensures WaitRan(dir, calls[j], env.rounds[j].wait)
    decreases |calls|
  {
    if j < |calls| - 1 {
      WaitsRanAt(dir, env, calls[..|calls| - 1], j);
    }
  }

  /** Each recorded wait was given its round's budget. */
  predicate BudgetsFollow(timeout: int, env: TransferEnv, calls: seq<WaitCall>)
    requires |calls| <= |env.rounds|
  {
    forall j :: 0 <= j < |calls| ==> calls[j].budget == RoundBudget(timeout, env, j)
  }

  /** The first n rounds each went on to the next: the wait succeeded, the raw
      call moved all it offered, a positive count, and the clock read after it
      was still before the deadline. */
  predicate RoundsWentOn(timeout: int, env: TransferEnv, moved: seq<nat>, calls: seq<WaitCall>, n: nat)
    requires n <= |calls| <= |env.rounds| && n <= |moved|
  {
    forall j :: 0 <= j < n ==>
      calls[j].out == Done(()) && env.rounds[j].offer > 0 && moved[j] == env.rounds[j].offer &&
      env.rounds[j].now < env.start + timeout
  }

  /** How the last round ends the transfer: a failed wait passes its outcome
      on; a failed raw call raises a system error; otherwise its result is
      recorded, and the transfer returns at end of stream, in short mode or
      with nothing left, raises a timeout once the clock has reached the
      deadline, and else needs a round the environment does not have. */
  predicate LastRoundEnds(dir: Direction, timeout: int, count: nat, short: bool, env: TransferEnv,
                          out: Outcome<uint32>, moved: seq<nat>, calls: seq<WaitCall>)
    requires 1 <= |calls| <= |env.rounds| && |calls| - 1 <= |moved| <= |calls|
  {
    var k := |calls| - 1;
    var r := env.rounds[k];
    var left := count - Sum(moved[..k]);
    if !calls[k].out.Done? then |moved| == k && out == Propagate(calls[k].out)
    else if r.offer < 0 then |moved| == k && out == Raised(Fault(Sys, TransferFailed(dir, r.errno)))
    else
      && |moved| == k + 1 && left >= 0 && moved[k] == RawResult(r.offer, left)
      && if moved[k] == 0 || short || moved[k] == left then out.Done? && out.value == Sum(moved)
         else if r.now >= env.start + timeout then out == Raised(Fault(Timeout, TransferTimedOut(dir)))
         else k == |env.rounds| - 1 && out == Pending
  }

  /** Reference description of a LockedTransfer run for `count` bytes:
      `moved` lists what each raw call that did not fail returned and
      `calls` the LockedWait call that opened each round, whose runs
      `WaitsRan` describes. */
  predicate TransfersAs(dir: Direction, timeout: int, count: nat, short: bool, env: TransferEnv,
                        out: Outcome<uint32>, moved: seq<nat>, calls: seq<WaitCall>)
  {
    if |env.rounds| == 0 then out == Pending && moved == [] && calls == []
    else
      && 1 <= |calls| <= |env.rounds|
      && |calls| - 1 <= |moved| <= |calls|
      && WaitsRan(dir, env, calls)
      && BudgetsFollow(timeout, env, calls)
      && RoundsWentOn(timeout, env, moved, calls, |calls| - 1)
      && (|calls| > 1 ==> !short && Sum(moved[..|calls| - 1]) < count)
      && LastRoundEnds(dir, timeout, count, short, env, out, moved, calls)
  }

  /** The LockedWait call that opens each round of the transfer. */
  method RoundWait(dir: Direction, budget: int, wait: WaitEnv) returns (c: WaitCall)
    ensures c.budget == budget && WaitRan(dir, c, wait)
    ensures budget < 0 ==> c.out == Raised(Fault(Param, NegativeTimeout(budget)))
    ensures c.out.Raised? ==> WaitFault(c.out.fault)
  {
    var w, polls := LockedWait(dir == RecvDir, dir == SendDir, budget, wait);
    c := WaitCall(budget, w, polls);
  }

  /** Appends one raw result to the record of a transfer. */
  method Record(moved: seq<nat>, rc: nat) returns (r: seq<nat>)
    ensures r == moved + [rc]
    ensures |r| == |moved| + 1 && r[|moved|] == rc
    ensures forall j :: 0 <= j < |moved| ==> r[j] == moved[j]
    ensures forall j :: 0 <= j <= |moved| ==> r[..j] == moved[..j]
    ensures Sum(r) == Sum(moved) + rc
  {
    r := moved + [rc];
    SumSnoc(moved, rc);
  }

  /** The state of the transfer loop before round |moved|: every earlier
      round went on, and `remaining` bytes are still to move. */
  predicate LoopState(dir: Direction, timeout: int, count: nat, short: bool, env: TransferEnv,
                      moved: seq<nat>, calls: seq<WaitCall>, now: int, remaining: nat)
  {
    && |moved| == |calls| <= |env.rounds|
    && Sum(moved) + remaining == count
    && WaitsRan(dir, env, calls) && BudgetsFollow(timeout, env, calls)
    && RoundsWentOn(timeout, env, moved, calls, |moved|)
    && (|moved| > 0 ==> remaining > 0 && !short)
    && now == if |moved| == 0 then env.start else env.rounds[|moved| - 1].now
  }

  /** One iteration of the transfer loop: the wait, then the raw call and the
      clock reading; `stop` says the transfer ended in this round. */
  method TransferRound(dir: Direction, timeout: int, count: uint32, short: bool, env: TransferEnv,
                       moved: seq<nat>, calls: seq<WaitCall>, now: int, remaining: nat)
    returns (stop: bool, out: Outcome<uint32>, moved': seq<nat>, calls': seq<WaitCall>, now': int, remaining': nat)
    requires |calls| < |env.rounds|
    requires LoopState(dir, timeout, count, short, env, moved, calls, now, remaining)
    ensures |calls'| == |calls| + 1 <= |env.rounds| && WaitsRan(dir, env, calls')
    ensures stop ==> TransfersAs(dir, timeout, count, short, env, out, moved', calls')
    ensures !stop ==> out == Pending && LoopState(dir, timeout, count, short, env, moved', calls', now', remaining')
    ensures !stop && |calls'| == |env.rounds| ==> TransfersAs(dir, timeout, count, short, env, Pending, moved', calls')
  {
    var c := NextWait(dir, timeout, env, moved, calls, now);
    calls' := calls + [c];
    if !c.out.Done? {
      stop, out, moved', now', remaining' := true, Propagate(c.out), moved, now, remaining;
      EndsOnWait(dir, timeout, count, short, env, out, moved, calls');
    } else {
      stop, out, moved', now', remaining' := MoveRound(dir, timeout, count, short, env, moved, calls', now, remaining);
    }
  }

  /** The wait of the next round, on the time left before the deadline,
      joined to the record. */
  method NextWait(dir: Direction, timeout: int, env: TransferEnv, moved: seq<nat>, calls: seq<WaitCall>, now: int)
    returns (c: WaitCall)
    requires |moved| == |calls| < |env.rounds|
    requires WaitsRan(dir, env, calls) && BudgetsFollow(timeout, env, calls)
    requires RoundsWentOn(timeout, env, moved, calls, |calls|)
    requires now == if |moved| == 0 then env.start else env.rounds[|moved| - 1].now
    ensures WaitsRan(dir, env, calls + [c]) && BudgetsFollow(timeout, env, calls + [c])
    ensures RoundsWentOn(timeout, env, moved, calls + [c], |calls|)
  {
    c := RoundWait(dir, env.start + timeout - now, env.rounds[|calls|].wait);
    Logged(dir, timeout, env, moved, calls, c);
  }

  /** The raw call of a round whose wait succeeded, and the clock reading
      after it. */
  method MoveRound(dir: Direction, timeout: int, count: uint32, short: bool, env: TransferEnv,
                   moved: seq<nat>, calls: seq<WaitCall>, now: int, remaining: nat)
    returns (stop: bool, out: Outcome<uint32>, moved': seq<nat>, now': int, remaining': nat)
    requires |moved| + 1 == |calls| <= |env.rounds|
    requires BudgetsFollow(timeout, env, calls) && RoundsWentOn(timeout, env, moved, calls, |moved|)
    requires Sum(moved) + remaining == count && (|moved| > 0 ==> remaining > 0 && !short)
    requires WaitsRan(dir, env, calls) && calls[|moved|].out == Done(())
    ensures stop ==> TransfersAs(dir, timeout, count, short, env, out, moved', calls)
    ensures !stop ==> out == Pending && LoopState(dir, timeout, count, short, env, moved', calls, now', remaining')
    ensures !stop && |calls| == |env.rounds| ==> TransfersAs(dir, timeout, count, short, env, Pending, moved', calls)
  {
    var r := env.rounds[|moved|];
    stop, moved', now', remaining' := true, moved, now, remaining;
    var rc := RawResult(r.offer, remaining);
    if rc < 0 {
      out := Raised(Fault(Sys, TransferFailed(dir, r.errno)));
      EndsOnWait(dir, timeout, count, short, env, out, moved, calls);
      return;
    }
    moved' := Record(moved, rc);
    remaining' := remaining - rc;
    if rc == 0 || short || remaining' < 1 {
      out := Done(count - remaining');
      EndsOnResult(dir, timeout, count, short, env, out, moved, remaining, rc, calls);
      return;
    }
    now' := r.now;
    if now' >= env.start + timeout {
      out := Raised(Fault(Timeout, TransferTimedOut(dir)));
      EndsOnResult(dir, timeout, count, short, env, out, moved, remaining, rc, calls);
      return;
    }
    stop, out := false, Pending;
    if |calls| == |env.rounds| {
      EndsOnResult(dir, timeout, count, short, env, out, moved, remaining, rc, calls);
    }
    WentOn(timeout, env, moved, rc, calls);
  }

  /** `TCPSocket::LockedTransfer(bDirection, pu8Bytes, u32Bytes, bShort)`. */
  method LockedTransfer(s: Socket, dir: Direction, count: uint32, short: bool, env: TransferEnv)
    returns (out: Outcome<uint32>, moved: seq<nat>, calls: seq<WaitCall>)
    ensures TransfersAs(dir, TimeoutFor(s, dir), count, short, env, out, moved, calls)
    ensures |calls| <= |env.rounds| && WaitsRan(dir, env, calls)
  {
    var timeout := TimeoutFor(s, dir);
    var now := env.start;
    var remaining: nat := count;
    moved := [];
    calls := [];
    out := Pending;
    while |calls| < |env.rounds|
      invariant LoopState(dir, timeout, count, short, env, moved, calls, now, remaining)
      invariant out.Pending?
      invariant |calls| == |env.rounds| ==> TransfersAs(dir, timeout, count, short, env, out, moved, calls)
      decreases |env.rounds| - |calls|
    {
      var stop;
      stop, out, moved, calls, now, remaining := TransferRound(dir, timeout, count, short, env, moved, calls, now, remaining);
      if stop {
        return;
      }
    }
  }

  /** A new wait joins the record: the earlier waits and the rounds that went
      on are described as before. */
  lemma {:induction false} Logged(dir: Direction, timeout: int, env: TransferEnv,
                                  moved: seq<nat>, calls: seq<WaitCall>, c: WaitCall)
    requires |moved| == |calls| < |env.rounds|
    requires WaitsRan(dir, env, calls) && BudgetsFollow(timeout, env, calls)
    requires RoundsWentOn(timeout, env, moved, calls, |calls|)
    requires WaitRan(dir, c, env.rounds[|calls|].wait) && c.budget == RoundBudget(timeout, env, |calls|)
    ensures WaitsRan(dir, env, calls + [c]) && BudgetsFollow(timeout, env, calls + [c])
    ensures RoundsWentOn(timeout, env, moved, calls + [c], |calls|)
  {
    var cs := calls + [c];
    assert WaitsRan(dir, env, cs) by {
      assert cs[..|calls|] == calls && cs[|calls|] == c;
    }
    BudgetLogged(timeout, env, moved, calls, c);
  }

  /** The budgets and the rounds that went on are unaffected by a new wait. */
  lemma {:induction false} BudgetLogged(timeout: int, env: TransferEnv,
                                        moved: seq<nat>, calls: seq<WaitCall>, c: WaitCall)
    requires |moved| == |calls| < |env.rounds|
    requires BudgetsFollow(timeout, env, calls) && RoundsWentOn(timeout, env, moved, calls, |calls|)
    requires c.budget == RoundBudget(timeout, env, |calls|)
    ensures BudgetsFollow(timeout, env, calls + [c]) && RoundsWentOn(timeout, env, moved, calls + [c], |calls|)
  {
    var cs := calls + [c];
    assert forall j :: 0 <= j < |calls| ==> cs[j] == calls[j];
  }

  /** The round went on: its result joins the rounds that went on. */
  lemma {:induction false} WentOn(timeout: int, env: TransferEnv, m0: seq<nat>, rc: nat, calls: seq<WaitCall>)
    requires |m0| + 1 == |calls| <= |env.rounds|
    requires RoundsWentOn(timeout, env, m0, calls, |m0|)
    requires calls[|m0|].out == Done(()) && env.rounds[|m0|].offer == rc > 0
    requires env.rounds[|m0|].now < env.start + timeout
    ensures RoundsWentOn(timeout, env, m0 + [rc], calls, |m0| + 1)
  {
    var m := m0 + [rc];
    assert forall j :: 0 <= j < |m0| ==> m[j] == m0[j];
  }

  /** A round whose wait or raw call failed ends the transfer as described. */
  lemma {:induction false} EndsOnWait(dir: Direction, timeout: int, count: nat, short: bool, env: TransferEnv,
                                      out: Outcome<uint32>, moved: seq<nat>, calls: seq<WaitCall>)
    requires |moved| + 1 == |calls| <= |env.rounds|
    requires WaitsRan(dir, env, calls)
    requires BudgetsFollow(timeout, env, calls) && RoundsWentOn(timeout, env, moved, calls, |moved|)
    requires |moved| > 0 ==> !short && Sum(moved) < count
    requires var k := |moved|;
             if !calls[k].out.Done? then out == Propagate(calls[k].out)
             else env.rounds[k].offer < 0 && out == Raised(Fault(Sys, TransferFailed(dir, env.rounds[k].errno)))
    ensures TransfersAs(dir, timeout, count, short, env, out, moved, calls)
  {
    assert moved[..|moved|] == moved;
  }

  /** A round whose raw call returned rc ends the transfer as described, or
      is the last round the environment has. */
  lemma {:induction false} EndsOnResult(dir: Direction, timeout: int, count: nat, short: bool, env: TransferEnv,
                                        out: Outcome<uint32>, m0: seq<nat>, left: nat, rc: nat, calls: seq<WaitCall>)
    requires |m0| + 1 == |calls| <= |env.rounds|
    requires WaitsRan(dir, env, calls)
    requires BudgetsFollow(timeout, env, calls) && RoundsWentOn(timeout, env, m0, calls, |m0|)
    requires |m0| > 0 ==> !short && Sum(m0) < count
    requires left == count - Sum(m0)
    requires var k := |m0|;
             var r := env.rounds[k];
             && calls[k].out == Done(()) && r.offer >= 0 && rc == RawResult(r.offer, left)
             && if rc == 0 || short || rc == left then out.Done? && out.value == Sum(m0) + rc
                else if r.now >= env.start + timeout then out == Raised(Fault(Timeout, TransferTimedOut(dir)))
                else k == |env.rounds| - 1 && out == Pending
    ensures TransfersAs(dir, timeout, count, short, env, out, m0 + [rc], calls)
  {
    var m := m0 + [rc];
    assert m[..|m0|] == m0;
    SumSnoc(m0, rc);
    assert forall j :: 0 <= j < |m0| ==> m[j] == m0[j];
  }

  /** The count returned is the sum of the raw results and never exceeds the
      request; every result but the last is positive; short mode stops after
      one chunk; a full transfer falls short only at end of stream. */
  lemma {:induction false} TransferCountsMoved(dir: Direction, timeout: int, count: nat, short: bool, env: TransferEnv,
                                               out: Outcome<uint32>, moved: seq<nat>, calls: seq<WaitCall>)
    requires TransfersAs(dir, timeout, count, short, env, out, moved, calls)
    ensures Sum(moved) <= count
    ensures out.Done? ==> out.value == Sum(moved) && |moved| >= 1
    ensures forall j :: 0 <= j < |moved| - 1 ==> moved[j] > 0
    ensures out.Done? && short ==> |moved| == 1
    ensures out.Done? && out.value < count ==> short || moved[|moved| - 1] == 0
  {
    if |env.rounds| > 0 {
      var k := |calls| - 1;
      if |moved| == k {
        assert moved[..k] == moved;
      }
    }
  }

  /** Once the last wait has succeeded, a raw call that fails raises a system
      error and one that returns zero ends the transfer without error. */
  lemma {:induction false} TransferEndsOnRawResult(dir: Direction, timeout: int, count: nat, short: bool, env: TransferEnv,
                                                   out: Outcome<uint32>, moved: seq<nat>, calls: seq<WaitCall>)
    requires TransfersAs(dir, timeout, count, short, env, out, moved, calls)
    requires |calls| >= 1 && calls[|calls| - 1].out == Done(())
    ensures var r := env.rounds[|calls| - 1];
            r.offer < 0 ==> out == Raised(Fault(Sys, TransferFailed(dir, r.errno)))
    ensures var r := env.rounds[|calls| - 1];
            r.offer == 0 ==> out.Done? && out.value == Sum(moved) && moved[|moved| - 1] == 0
  {
  }

  /** A wait's fault is never one of the transfer's own. */
  lemma {:induction false} WaitFaultsAreWaits(wantRead: bool, wantWrite: bool, timeout: int, wait: WaitEnv,
                                              w: Outcome<()>, polls: seq<int>)
    requires LockedWaitsAs(wantRead, wantWrite, timeout, wait, w, polls)
    requires w.Raised?
    ensures WaitFault(w.fault)
  {
    if (wantRead || wantWrite) && timeout > 0 {
      var k := |polls| - 1;
      var p := wait.polls[k];
      if !(p.rc == 0 && Latency(wait, k) < timeout) {
        assert w == PollVerdict(wantRead, timeout, p, Latency(wait, k));
      }
    }
  }

  /** Where a fault comes from: a system error of the transfer only from a
      failed raw call after a successful wait, a timeout of the transfer only
      with bytes left once the clock has reached the deadline, and any other
      fault from the last wait. */
  lemma {:induction false} TransferFaults(dir: Direction, timeout: int, count: nat, short: bool, env: TransferEnv,
                                          out: Outcome<uint32>, moved: seq<nat>, calls: seq<WaitCall>)
    requires TransfersAs(dir, timeout, count, short, env, out, moved, calls)
    requires out.Raised?
    ensures |calls| >= 1
    ensures var k := |calls| - 1;
            out.fault.reason.TransferFailed? ==>
              out.fault.kind == Sys && calls[k].out == Done(()) && env.rounds[k].offer < 0
    ensures var k := |calls| - 1;
            out.fault.reason.TransferTimedOut? ==>
              out.fault.kind == Timeout && !short && Sum(moved) < count && env.rounds[k].now >= env.start + timeout
    ensures var k := |calls| - 1;
            !out.fault.reason.TransferFailed? && !out.fault.reason.TransferTimedOut? ==>
              calls[k].out == Raised(out.fault) && WaitFault(out.fault)
  {
    var k := |calls| - 1;
    var c := calls[k];
    if !c.out.Done? {
      WaitsRanAt(dir, env, calls, k);
      WaitFaultsAreWaits(dir == RecvDir, dir == SendDir, c.budget, env.rounds[k].wait, c.out, c.polls);
    } else if env.rounds[k].offer >= 0 {
      assert |moved| == k + 1;
      assert moved[..k + 1] == moved;
    }
  }

  /** The budgets of the waits: the whole timeout first, then the positive time
      left before the deadline; a negative timeout is refused by the first wait. */
  lemma {:induction false} TransferBudgets(dir: Direction, timeout: int, count: nat, short: bool, env: TransferEnv,
                                           out: Outcome<uint32>, moved: seq<nat>, calls: seq<WaitCall>)
    requires TransfersAs(dir, timeout, count, short, env, out, moved, calls)
    ensures |calls| >= 1 ==> calls[0].budget == timeout
    ensures forall j :: 1 <= j < |calls| ==>
              calls[j].budget == env.start + timeout - env.rounds[j - 1].now && calls[j].budget > 0
    ensures timeout < 0 && |env.rounds| >= 1 ==> out == Raised(Fault(Param, NegativeTimeout(timeout)))
  {
    if |env.rounds| >= 1 {
      WaitsRanAt(dir, env, calls, 0);
      forall j | 1 <= j < |calls|
        ensures calls[j].budget == env.start + timeout - env.rounds[j - 1].now && calls[j].budget > 0
      {
        assert env.rounds[j - 1].now < env.start + timeout;
      }
    }
  }

  /** A sequence of positive naturals sums to at least its length. */
  lemma {:induction false} SumOfPositives(s: seq<nat>)
    requires forall j :: 0 <= j < |s| ==> s[j] > 0
    ensures Sum(s) >= |s|
  {
    if |s| > 0 {
      SumOfPositives(s[..|s| - 1]);
    }
  }

  /** Every round but the last moved at least one byte, so a transfer takes at
      most one round per requested byte (and one round for an empty request). */
  lemma {:induction false} TransferRoundsBounded(dir: Direction, timeout: int, count: nat, short: bool, env: TransferEnv,
                                                 out: Outcome<uint32>, moved: seq<nat>, calls: seq<WaitCall>)
    requires TransfersAs(dir, timeout, count, short, env, out, moved, calls)
    ensures |calls| <= 1 || |calls| <= count
  {
    if |calls| > 1 {
      var k := |calls| - 1;
      var m := moved[..k];
      assert Sum(m) < count && forall j :: 0 <= j < |m| ==> m[j] > 0 by {
        assert RoundsWentOn(timeout, env, moved, calls, k);
      }
      SumOfPositives(m);
    }
  }

  /** `TCPSocket::Send`: a non-short SEND transfer on the send timeout. */
  method Send(s: Socket, count: uint32, env: TransferEnv)
    returns (out: Outcome<uint32>, moved: seq<nat>, calls: seq<WaitCall>)
    ensures TransfersAs(SendDir, s.sendTimeout, count, false, env, out, moved, calls)
    ensures out.Done? ==> out.value == Sum(moved) <= count && |moved| >= 1
    ensures out.Done? && out.value < count ==> moved[|moved| - 1] == 0
  {
    out, moved, calls := LockedTransfer(s, SendDir, count, false, env);
    TransferCountsMoved(SendDir, s.sendTimeout, count, false, env, out, moved, calls);
  }

  /** `TCPSocket::Recv`: a RECV transfer on the receive timeout, not short
      unless asked. */
  method Recv(s: Socket, count: uint32, env: TransferEnv, short: bool := false)
    returns (out: Outcome<uint32>, moved: seq<nat>, calls: seq<WaitCall>)
    ensures TransfersAs(RecvDir, s.recvTimeout, count, short, env, out, moved, calls)
    ensures out.Done? ==> out.value == Sum(moved) <= count && |moved| >= 1
    ensures out.Done? && out.value < count ==> short || moved[|moved| - 1] == 0
    ensures out.Done? && short ==> |moved| == 1
  {
    out, moved, calls := LockedTransfer(s, RecvDir, count, short, env);
    TransferCountsMoved(RecvDir, s.recvTimeout, count, short, env, out, moved, calls);
  }

  /** One LockedTransfer call made by LockedRecvAll. */
  datatype TransferRun = TransferRun(out: Outcome<uint32>, moved: seq<nat>, calls: seq<WaitCall>)

  /** Transfer j ran as a full RECV transfer on its own environment, asked for
      what the earlier transfers left of the request. */
  predicate RanTransfer(timeout: int, count: nat, calls: seq<TransferEnv>, got: seq<nat>, runs: seq<TransferRun>, j: nat)
    requires j < |runs| <= |calls| && j <= |got|
  {
    var left := count - Sum(got[..j]);
    left > 0 && TransfersAs(RecvDir, timeout, left, false, calls[j], runs[j].out, runs[j].moved, runs[j].calls)
  }

  /** Reference description of a LockedRecvAll run: `runs` are its transfers
      and `got` lists the counts of those that returned. Transfer j asks for
      what is still missing after the first j; every transfer but the last
      returned a positive count; the last one either failed, which ends the
      call the same way, or returned 0 or the rest, which ends it with the
      total, or else needs an environment the caller did not provide. */
  predicate RecvsAllAs(timeout: int, count: nat, calls: seq<TransferEnv>,
                       out: Outcome<uint32>, got: seq<nat>, runs: seq<TransferRun>)
  {
    if |runs| == 0 then got == [] && if count == 0 then out == Done(0) else |calls| == 0 && out == Pending
    else
      && |runs| <= |calls|
      && |runs| - 1 <= |got| <= |runs|
      && (forall j :: 0 <= j < |runs| ==> RanTransfer(timeout, count, calls, got, runs, j))
      && (forall j :: 0 <= j < |got| ==> runs[j].out.Done? && runs[j].out.value == got[j])
      && (forall j :: 0 <= j < |runs| - 1 ==> got[j] > 0)
      && var k := |runs| - 1;
         if |got| == k then !out.Done? && out == runs[k].out
         else if got[k] == 0 || Sum(got) == count then out.Done? && out.value == Sum(got)
         else |runs| == |calls| && out == Pending
  }

  /** What the receive loop keeps between transfers. */
  predicate RecvState(timeout: int, count: nat, calls: seq<TransferEnv>, got: seq<nat>, runs: seq<TransferRun>,
                      total: nat, remaining: nat)
  {
    && |got| == |runs| <= |calls|
    && total == Sum(got) && total + remaining == count
    && (forall k :: 0 <= k < |runs| ==> RanTransfer(timeout, count, calls, got, runs, k))
    && (forall k :: 0 <= k < |runs| ==> runs[k].out.Done? && runs[k].out.value == got[k] > 0)
  }

  /** `TCPSocket::LockedRecvAll`: repeats full RECV transfers, one environment
      per call, until the request is met or a transfer returns 0. */
  method LockedRecvAll(s: Socket, count: uint32, calls: seq<TransferEnv>)
    returns (out: Outcome<uint32>, got: seq<nat>, runs: seq<TransferRun>)
    ensures RecvsAllAs(s.recvTimeout, count, calls, out, got, runs)
    ensures Sum(got) <= count
    ensures out.Done? ==> out.value == Sum(got)
    ensures out.Done? && out.value < count ==> |got| >= 1 && got[|got| - 1] == 0
    ensures forall j :: 0 <= j < |got| - 1 ==> got[j] > 0
    ensures |got| <= count
    ensures count == 0 ==> out == Done(0) && got == []
  {
    var remaining: nat := count;
    var total: nat := 0;
    var stop := false;
    out, got, runs := Pending, [], [];
    while remaining > 0 && !stop
      invariant !stop ==> RecvState(s.recvTimeout, count, calls, got, runs, total, remaining)
      invariant stop ==> RecvsAllAs(s.recvTimeout, count, calls, out, got, runs)
      decreases remaining + if stop then 0 else 1
    {
      if |runs| == |calls| {
        out, stop := Pending, true;
        RecvsAllStops(s.recvTimeout, count, calls, out, got, runs, total, remaining);
      } else {
        stop, out, got, runs, total, remaining := RecvRound(s, count, calls, got, runs, total, remaining);
      }
    }
    if !stop {
      out := Done(total);
      RecvsAllStops(s.recvTimeout, count, calls, out, got, runs, total, remaining);
    }
    RecvAllCounts(s.recvTimeout, count, calls, out, got, runs);
  }

  /** One full RECV transfer asked for `remaining` bytes. */
  method RecvTransfer(s: Socket, remaining: nat, env: TransferEnv) returns (run: TransferRun)
    requires 0 < remaining < 0x1_0000_0000
    ensures TransfersAs(RecvDir, s.recvTimeout, remaining, false, env, run.out, run.moved, run.calls)
    ensures run.out.Done? ==> run.out.value <= remaining
  {
    var r, moved, waits := LockedTransfer(s, RecvDir, remaining, false, env);
    TransferCountsMoved(RecvDir, s.recvTimeout, remaining, false, env, r, moved, waits);
    run := TransferRun(r, moved, waits);
  }

  /** One full transfer of the receive loop; `stop` says the loop ends. */
  method RecvRound(s: Socket, count: uint32, calls: seq<TransferEnv>, got: seq<nat>, runs: seq<TransferRun>,
                   total: nat, remaining: nat)
    returns (stop: bool, out: Outcome<uint32>, got': seq<nat>, runs': seq<TransferRun>, total': nat, remaining': nat)
    requires remaining > 0 && |runs| < |calls|
    requires RecvState(s.recvTimeout, count, calls, got, runs, total, remaining)
    ensures stop ==> RecvsAllAs(s.recvTimeout, count, calls, out, got', runs')
    ensures !stop ==> RecvState(s.recvTimeout, count, calls, got', runs', total', remaining') && remaining' < remaining
    ensures remaining' <= remaining
  {
    var run := RecvTransfer(s, remaining, calls[|runs|]);
    var r := run.out;
    runs' := runs + [run];
    stop, out, got', total', remaining' := true, r, got, total, remaining;
    if r.Done? {
      got' := got + [r.value];
      total', remaining' := total + r.value, remaining - r.value;
      if r.value == 0 {
        out := Done(total');
      } else {
        stop, out := false, Pending;
        RecvStateGrows(s.recvTimeout, count, calls, got, runs, total, remaining, run);
        return;
      }
    }
    if r.Done? {
      RecvEndsAtEof(s.recvTimeout, count, calls, out, got, runs, total, remaining, run);
    } else {
      RecvEndsOnFault(s.recvTimeout, count, calls, got, runs, total, remaining, run);
    }
  }

  /** A transfer that returned a positive count keeps the loop going. */
  lemma {:induction false} RecvStateGrows(timeout: int, count: nat, calls: seq<TransferEnv>, got: seq<nat>,
                                          runs: seq<TransferRun>, total: nat, remaining: nat, run: TransferRun)
    requires RecvState(timeout, count, calls, got, runs, total, remaining) && |runs| < |calls|
    requires remaining > 0 && run.out.Done? && 0 < run.out.value <= remaining
    requires TransfersAs(RecvDir, timeout, remaining, false, calls[|runs|], run.out, run.moved, run.calls)
    ensures RecvState(timeout, count, calls, got + [run.out.value], runs + [run],
                      total + run.out.value, remaining - run.out.value)
  {
    var got' := got + [run.out.value];
    assert got'[..|got|] == got;
    RunsGrow(timeout, count, calls, got, runs, got', run);
    StateGrows(timeout, count, calls, got, runs, total, remaining, run);
  }

  /** The loop state after a transfer that returned a positive count, once
      every transfer is known to be described. */
  lemma {:induction false} StateGrows(timeout: int, count: nat, calls: seq<TransferEnv>, got: seq<nat>,
                                      runs: seq<TransferRun>, total: nat, remaining: nat, run: TransferRun)
    requires RecvState(timeout, count, calls, got, runs, total, remaining) && |runs| < |calls|
    requires remaining > 0 && run.out.Done? && 0 < run.out.value <= remaining
    requires forall k :: 0 <= k < |runs| + 1 ==> RanTransfer(timeout, count, calls, got + [run.out.value], runs + [run], k)
    ensures RecvState(timeout, count, calls, got + [run.out.value], runs + [run],
                      total + run.out.value, remaining - run.out.value)
  {
    var got', runs' := got + [run.out.value], runs + [run];
    assert got'[..|got|] == got;
    assert forall k :: 0 <= k < |runs| ==> runs'[k] == runs[k] && got'[k] == got[k];
  }

  /** A transfer that failed ends the loop with its fault. */
  lemma {:induction false} RecvEndsOnFault(timeout: int, count: nat, calls: seq<TransferEnv>,
                                           got: seq<nat>, runs: seq<TransferRun>, total: nat, remaining: nat, run: TransferRun)
    requires RecvState(timeout, count, calls, got, runs, total, remaining) && |runs| < |calls|
    requires remaining > 0 && !run.out.Done?
    requires TransfersAs(RecvDir, timeout, remaining, false, calls[|runs|], run.out, run.moved, run.calls)
    ensures RecvsAllAs(timeout, count, calls, run.out, got, runs + [run])
  {
    var runs' := runs + [run];
    assert got[..|got|] == got;
    RunsGrow(timeout, count, calls, got, runs, got, run);
    assert forall k :: 0 <= k < |runs| ==> runs'[k] == runs[k];
  }

  /** A transfer that returned 0 ends the loop with the total so far. */
  lemma {:induction false} RecvEndsAtEof(timeout: int, count: nat, calls: seq<TransferEnv>, out: Outcome<uint32>,
                                         got: seq<nat>, runs: seq<TransferRun>, total: nat, remaining: nat, run: TransferRun)
    requires RecvState(timeout, count, calls, got, runs, total, remaining) && |runs| < |calls|
    requires remaining > 0 && run.out == Done(0) && out.Done? && out.value == total
    requires TransfersAs(RecvDir, timeout, remaining, false, calls[|runs|], run.out, run.moved, run.calls)
    ensures RecvsAllAs(timeout, count, calls, out, got + [0], runs + [run])
  {
    var got' := got + [0];
    assert got'[..|got|] == got;
    RunsGrow(timeout, count, calls, got, runs, got', run);
    EofEnds(timeout, count, calls, out, got, runs, total, remaining, run);
  }

  /** The end state after a transfer that returned 0, once every transfer
      is known to be described. */
  lemma {:induction false} EofEnds(timeout: int, count: nat, calls: seq<TransferEnv>, out: Outcome<uint32>,
                                   got: seq<nat>, runs: seq<TransferRun>, total: nat, remaining: nat, run: TransferRun)
    requires RecvState(timeout, count, calls, got, runs, total, remaining) && |runs| < |calls|
    requires remaining > 0 && run.out == Done(0) && out.Done? && out.value == total
    requires forall k :: 0 <= k < |runs| + 1 ==> RanTransfer(timeout, count, calls, got + [0], runs + [run], k)
    ensures RecvsAllAs(timeout, count, calls, out, got + [0], runs + [run])
  {
    var got', runs' := got + [0], runs + [run];
    assert got'[..|got|] == got;
    assert forall k :: 0 <= k < |runs| ==> runs'[k] == runs[k] && got'[k] == got[k];
  }

  /** Appending a transfer that asked for what was still missing keeps
      every transfer described. */
  lemma {:induction false} RunsGrow(timeout: int, count: nat, calls: seq<TransferEnv>,
                                    got: seq<nat>, runs: seq<TransferRun>, got': seq<nat>, run: TransferRun)
    requires |got| == |runs| < |calls| && |got| <= |got'| && got'[..|got|] == got
    requires forall k :: 0 <= k < |runs| ==> RanTransfer(timeout, count, calls, got, runs, k)
    requires Sum(got) < count
    requires TransfersAs(RecvDir, timeout, count - Sum(got), false, calls[|runs|], run.out, run.moved, run.calls)
    ensures forall k :: 0 <= k < |runs| + 1 ==> RanTransfer(timeout, count, calls, got', runs + [run], k)
  {
    var runs' := runs + [run];
    RunsKept(timeout, count, calls, got, runs, got', run);
    assert RanTransfer(timeout, count, calls, got', runs', |runs|) by {
      assert got'[..|runs|] == got && runs'[|runs|] == run;
    }
  }

  /** The transfers already described stay described. */
  lemma {:induction false} RunsKept(timeout: int, count: nat, calls: seq<TransferEnv>,
                                    got: seq<nat>, runs: seq<TransferRun>, got': seq<nat>, run: TransferRun)
    requires |got| == |runs| < |calls| && |got| <= |got'| && got'[..|got|] == got
    requires forall k :: 0 <= k < |runs| ==> RanTransfer(timeout, count, calls, got, runs, k)
    ensures forall k :: 0 <= k < |runs| ==> RanTransfer(timeout, count, calls, got', runs + [run], k)
  {
    var runs' := runs + [run];
    forall k | 0 <= k < |runs|
      ensures RanTransfer(timeout, count, calls, got', runs', k)
    {
      assert got'[..k] == got[..k] && runs'[k] == runs[k];
      assert RanTransfer(timeout, count, calls, got, runs, k);
    }
  }

  /** The loop ends between transfers: either the request is met, or the
      caller's environments ran out first. */
  lemma {:induction false} RecvsAllStops(timeout: int, count: nat, calls: seq<TransferEnv>, out: Outcome<uint32>,
                                         got: seq<nat>, runs: seq<TransferRun>, total: nat, remaining: nat)
    requires RecvState(timeout, count, calls, got, runs, total, remaining)
    requires remaining > 0 ==> |runs| == |calls| && out == Pending
    requires remaining == 0 ==> out.Done? && out.value == total
    ensures RecvsAllAs(timeout, count, calls, out, got, runs)
  {
    if |runs| > 0 {
      var k := |runs| - 1;
      assert RanTransfer(timeout, count, calls, got, runs, k);
    }
  }

  /** The last transfer asked for a positive count and returned no more. */
  lemma {:induction false} LastRecvWithin(timeout: int, count: nat, calls: seq<TransferEnv>,
                                          out: Outcome<uint32>, got: seq<nat>, runs: seq<TransferRun>)
    requires RecvsAllAs(timeout, count, calls, out, got, runs) && |runs| > 0
    ensures var k := |runs| - 1;
            count - Sum(got[..k]) > 0 && (runs[k].out.Done? ==> runs[k].out.value <= count - Sum(got[..k]))
  {
    var k := |runs| - 1;
    var left := count - Sum(got[..k]);
    var t := runs[k];
    assert left > 0 && TransfersAs(RecvDir, timeout, left, false, calls[k], t.out, t.moved, t.calls) by {
      assert RanTransfer(timeout, count, calls, got, runs, k);
    }
    TransferCountsMoved(RecvDir, timeout, left, false, calls[k], t.out, t.moved, t.calls);
  }

  /** What a LockedRecvAll run returns: the sum of its transfers' counts,
      never more than requested, one transfer per byte at most, and less than
      requested only when the last transfer returned 0. */
  lemma {:induction false} RecvAllCounts(timeout: int, count: nat, calls: seq<TransferEnv>,
                                         out: Outcome<uint32>, got: seq<nat>, runs: seq<TransferRun>)
    requires RecvsAllAs(timeout, count, calls, out, got, runs)
    ensures Sum(got) <= count
    ensures out.Done? ==> out.value == Sum(got)
    ensures out.Done? && out.value < count ==> |got| >= 1 && got[|got| - 1] == 0
    ensures forall j :: 0 <= j < |got| - 1 ==> got[j] > 0
    ensures |got| <= count
    ensures count == 0 ==> out == Done(0) && got == []
  {
    if |runs| > 0 {
      var k := |runs| - 1;
      LastRecvWithin(timeout, count, calls, out, got, runs);
      SumOfPositives(got[..k]);
      if |got| == k + 1 {
        assert got[..k + 1] == got;
      } else {
        assert got[..k] == got;
      }
    }
  }

  /** A negative timeout ends a transfer in its first round: the first
      LockedWait rejects its budget, so no raw call is made and the
      parameter error reaches the caller. */
  lemma {:induction false} TransferNegativeTimeout(dir: Direction, timeout: int, count: nat, short: bool,
                                                   env: TransferEnv, out: Outcome<uint32>, moved: seq<nat>,
                                                   calls: seq<WaitCall>)
    requires TransfersAs(dir, timeout, count, short, env, out, moved, calls)
    requires timeout < 0 && |env.rounds| > 0
    ensures out == Raised(Fault(Param, NegativeTimeout(timeout)))
    ensures moved == [] && |calls| == 1
  {
    WaitsRanAt(dir, env, calls, 0);
    assert calls[0].budget == RoundBudget(timeout, env, 0);
    if |calls| > 1 {
      assert false;
    }
  }

  /** With a negative receive timeout LockedRecvAll raises the parameter
      error of its first transfer and receives nothing. */
  lemma {:induction false} RecvAllNegativeTimeout(timeout: int, count: nat, calls: seq<TransferEnv>,
                                                  out: Outcome<uint32>, got: seq<nat>, runs: seq<TransferRun>)
    requires RecvsAllAs(timeout, count, calls, out, got, runs)
    requires timeout < 0 && count > 0 && |calls| > 0 && |calls[0].rounds| > 0
    ensures out == Raised(Fault(Param, NegativeTimeout(timeout)))
    ensures got == [] && |runs| == 1
  {
    assert RanTransfer(timeout, count, calls, got, runs, 0);
    assert got[..0] == [];
    var t := runs[0];
    TransferNegativeTimeout(RecvDir, timeout, count, false, calls[0], t.out, t.moved, t.calls);
    if |runs| > 1 {
      assert false;
    }
  }

  /** LockedRecvAll returns less than it was asked for only when its last
      transfer ended at end of stream: that transfer's last raw recv returned 0. */
  lemma {:induction false} RecvAllShortOnlyAtEnd(timeout: int, count: nat, calls: seq<TransferEnv>,
                                                 out: Outcome<uint32>, got: seq<nat>, runs: seq<TransferRun>)
    requires RecvsAllAs(timeout, count, calls, out, got, runs)
    requires out.Done? && out.value < count
    ensures |runs| >= 1 && |got| == |runs|
    ensures var last := runs[|runs| - 1];
            |last.moved| >= 1 && last.moved[|last.moved| - 1] == 0
  {
    var k := |runs| - 1;
    assert RanTransfer(timeout, count, calls, got, runs, k);
    var left := count - Sum(got[..k]);
    var t := runs[k];
    TransferCountsMoved(RecvDir, timeout, left, false, calls[k], t.out, t.moved, t.calls);
    assert got[..k + 1] == got;
  }
}
