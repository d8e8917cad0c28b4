/**
 The deadline wait of src/Socket.cc: `Socket::Select`, the poll loop that
 keeps a remaining-time budget, and `Socket::LockedWait`, which validates its
 arguments before delegating to it.

 The operating system is an oracle. A `WaitEnv` holds the clock reading taken
 before the first poll and, for each poll(2) call in turn, what it returned,
 the revents it reported, errno, and the clock reading taken right after it.
 */
module DeadlineWait {
  import opened Basics
  import opened Exceptions
  import opened SocketState

  /** The revents bits the source inspects. */
  datatype Revents = Revents(pollIn: bool, pollOut: bool, pollErr: bool)

  /** One poll(2) call: its return value, revents, errno and the TimeuS64()
      reading taken after it returned. */
  datatype PollReply = PollReply(rc: int, revents: Revents, errno: int, clock: int)

  /** The clock reading before the loop and the replies of successive polls. */
  datatype WaitEnv = WaitEnv(begin: int, polls: seq<PollReply>)

  /** Microseconds elapsed since the loop began, as measured after poll i. */
  function Latency(env: WaitEnv, i: nat): int
    requires i < |env.polls|
  {
    env.polls[i].clock - env.begin
  }

  /** The POLLERR check is skipped exactly when read was wanted and POLLIN
      came back; write readiness never skips it. */
  predicate ErrorCheckSkipped(wantRead: bool, rev: Revents)
  {
    wantRead && rev.pollIn
  }

  /** What one poll that ends the loop makes Select do: a positive count
      leaves the loop for the revents inspection, -1 is a system error, 0
      past the deadline is a timeout, anything else is a "wild" result. */
  function PollVerdict(wantRead: bool, timeout: int, p: PollReply, latency: int): Outcome<()>
  {
    if p.rc > 0 then
      if !ErrorCheckSkipped(wantRead, p.revents) && p.revents.pollErr
      then Raised(Fault(Sys, PollSocketError(latency, timeout)))
      else Done(())
    else if p.rc == -1 then Raised(Fault(Sys, PollFailed(latency, timeout, p.errno)))
    else if p.rc == 0 then Raised(Fault(Timeout, PollTimedOut(latency, timeout)))
    else Raised(Fault(Sys, PollWild(p.rc)))
  }

  /** The first n polls all returned 0 before the deadline: they were retried. */
  predicate Retried(env: WaitEnv, timeout: int, n: nat)
    requires n <= |env.polls|
  {
    forall j :: 0 <= j < n ==> env.polls[j].rc == 0 && Latency(env, j) < timeout
  }

  /** The budget handed to each poll: the whole timeout first, then the
      timeout less the latency measured after the previous poll. */
  predicate BudgetsFollowClock(env: WaitEnv, timeout: int, budgets: seq<int>)
    requires |budgets| <= |env.polls|
  {
    && (|budgets| >= 1 ==> budgets[0] == timeout)
    && forall j :: 1 <= j < |budgets| ==> budgets[j] == timeout - Latency(env, j - 1)
  }

  /** Reference description of a Select run: `budgets` lists the remaining
      microseconds passed to each poll (poll receives them divided by 1000). */
  predicate SelectsAs(wantRead: bool, timeout: int, env: WaitEnv, out: Outcome<()>, budgets: seq<int>)
  {
    if timeout < 1 then out == Done(()) && budgets == []
    else if |env.polls| == 0 then out == Pending && budgets == []
    else
      && 1 <= |budgets| <= |env.polls|
      && BudgetsFollowClock(env, timeout, budgets)
      && Retried(env, timeout, |budgets| - 1)
      && var k := |budgets| - 1;
         var p := env.polls[k];
         if p.rc == 0 && Latency(env, k) < timeout
         then k == |env.polls| - 1 && out == Pending
         else out == PollVerdict(wantRead, timeout, p, Latency(env, k))
  }

  /** `Socket::Select`. */
  method Select(wantRead: bool, wantWrite: bool, timeout: int, env: WaitEnv)
    returns (out: Outcome<()>, budgets: seq<int>)
    ensures SelectsAs(wantRead, timeout, env, out, budgets)
    ensures forall j :: 0 <= j < |budgets| ==> budgets[j] > 0
  {
    budgets := [];
    if timeout < 1 {
      out := Done(());
      return;
    }
    var remaining := timeout;
    var i := 0;
    while i < |env.polls|
      invariant 0 <= i <= |env.polls|
      invariant |budgets| == i
      invariant BudgetsFollowClock(env, timeout, budgets)
      invariant Retried(env, timeout, i)
      invariant remaining == if i == 0 then timeout else timeout - Latency(env, i - 1)
      invariant remaining > 0
      invariant forall j :: 0 <= j < i ==> budgets[j] > 0
    {
      budgets := budgets + [remaining];
      var p := env.polls[i];
      var latency := p.clock - env.begin;
      if p.rc > 0 {
        if !(wantRead && p.revents.pollIn) && p.revents.pollErr {
          out := Raised(Fault(Sys, PollSocketError(latency, timeout)));
        } else {
          out := Done(());
        }
        return;
      } else if p.rc == -1 {
        out := Raised(Fault(Sys, PollFailed(latency, timeout, p.errno)));
        return;
      } else if p.rc == 0 {
        if latency >= timeout {
          out := Raised(Fault(Timeout, PollTimedOut(latency, timeout)));
          return;
        }
        remaining := timeout - latency;
      } else {
        out := Raised(Fault(Sys, PollWild(p.rc)));
        return;
      }
      i := i + 1;
    }
    out := Pending;
  }

  /** The faults a wait can raise: its own parameter checks and the poll results. */
  predicate WaitFault(f: Fault)
  {
    f.reason.NoDirection? || f.reason.NegativeTimeout? || f.reason.PollFailed? ||
    f.reason.PollTimedOut? || f.reason.PollWild? || f.reason.PollSocketError?
  }

  /** Reference description of a LockedWait run. */
  predicate LockedWaitsAs(wantRead: bool, wantWrite: bool, timeout: int, env: WaitEnv,
                          out: Outcome<()>, budgets: seq<int>)
  {
    if !wantRead && !wantWrite then out == Raised(Fault(Param, NoDirection)) && budgets == []
    else if timeout < 0 then out == Raised(Fault(Param, NegativeTimeout(timeout))) && budgets == []
    else if timeout == 0 then out == Done(()) && budgets == []
    else SelectsAs(wantRead, timeout, env, out, budgets)
  }

  /** `Socket::LockedWait`: parameter checks, then Select unless the timeout
      is 0. The release and re-acquisition of the socket lock around Select
      are not modelled. */
  method LockedWait(wantRead: bool, wantWrite: bool, timeout: int, env: WaitEnv)
    returns (out: Outcome<()>, budgets: seq<int>)
    ensures LockedWaitsAs(wantRead, wantWrite, timeout, env, out, budgets)
    ensures out.Raised? && out.fault.kind == Param <==> (!wantRead && !wantWrite) || timeout < 0
    ensures out.Raised? ==> WaitFault(out.fault)
    ensures forall j :: 0 <= j < |budgets| ==> budgets[j] > 0
  {
    budgets := [];
    if !wantRead && !wantWrite {
      out := Raised(Fault(Param, NoDirection));
    } else if timeout < 0 {
      out := Raised(Fault(Param, NegativeTimeout(timeout)));
    } else if timeout > 0 {
      out, budgets := Select(wantRead, wantWrite, timeout, env);
    } else {
      out := Done(());
    }
  }

  /** Select with a timeout below 1 returns at once, polls nothing and is
      neither a timeout nor an error. */
  lemma {:induction false} SelectWithoutBudget(wantRead: bool, timeout: int, env: WaitEnv,
                                               out: Outcome<()>, budgets: seq<int>)
    requires timeout < 1
    requires SelectsAs(wantRead, timeout, env, out, budgets)
    ensures out == Done(()) && budgets == []
  {
  }

  /** A timeout is raised only by a zero-event poll whose measured latency
      reached the timeout; every earlier poll was a zero-event poll before it. */
  lemma {:induction false} TimeoutOnlyAtDeadline(wantRead: bool, timeout: int, env: WaitEnv,
                                                 out: Outcome<()>, budgets: seq<int>)
    requires SelectsAs(wantRead, timeout, env, out, budgets)
    requires out.Raised? && out.fault.kind == Timeout
    ensures timeout >= 1 && |budgets| >= 1
    ensures env.polls[|budgets| - 1].rc == 0 && Latency(env, |budgets| - 1) >= timeout
    ensures Retried(env, timeout, |budgets| - 1)
  {
    var k := |budgets| - 1;
    var p := env.polls[k];
    if !(p.rc == 0 && Latency(env, k) < timeout) {
      assert out == PollVerdict(wantRead, timeout, p, Latency(env, k));
    }
  }

  /** A successful Select either had no budget or ended on a poll that
      reported events, with POLLERR absent or excused by read readiness. */
  lemma {:induction false} ReadyMeansEvents(wantRead: bool, timeout: int, env: WaitEnv,
                                            out: Outcome<()>, budgets: seq<int>)
    requires SelectsAs(wantRead, timeout, env, out, budgets)
    requires out == Done(())
    ensures timeout >= 1 ==>
      var p := env.polls[|budgets| - 1];
      p.rc > 0 && (p.revents.pollErr ==> wantRead && p.revents.pollIn)
  {
    if timeout >= 1 {
      var k := |budgets| - 1;
      var p := env.polls[k];
      var latency := Latency(env, k);
      if !(p.rc == 0 && latency < timeout) {
        assert out == PollVerdict(wantRead, timeout, p, latency);
      }
    }
  }

  /** The asymmetric POLLERR rule: after a ready poll reporting POLLERR, the
      outcome is success exactly when read was wanted and POLLIN came back.
      Whether write was wanted or POLLOUT came back makes no difference. */
  lemma PollErrAsymmetry(wantRead: bool, timeout: int, p: PollReply, latency: int)
    requires p.rc > 0 && p.revents.pollErr
    ensures PollVerdict(wantRead, timeout, p, latency) == Done(()) <==> wantRead && p.revents.pollIn
    ensures PollVerdict(wantRead, timeout, p, latency)
         == PollVerdict(wantRead, timeout, p.(revents := p.revents.(pollOut := !p.revents.pollOut)), latency)
  {
  }

  /** The description is deterministic: a Select run has one outcome. */
  lemma {:induction false} SelectsAsUnique(wantRead: bool, timeout: int, env: WaitEnv,
                                           out1: Outcome<()>, budgets1: seq<int>,
                                           out2: Outcome<()>, budgets2: seq<int>)
    requires SelectsAs(wantRead, timeout, env, out1, budgets1)
    requires SelectsAs(wantRead, timeout, env, out2, budgets2)
    ensures out1 == out2 && budgets1 == budgets2
  {
    if timeout >= 1 {
      assert |budgets1| == |budgets2|;
      forall j | 0 <= j < |budgets1|
        ensures budgets1[j] == budgets2[j]
      {
      }
    }
  }
}
