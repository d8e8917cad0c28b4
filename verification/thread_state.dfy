/**
 The flag state machine of `Thread` (include/ThreadMinimal.h) and of the
 `ProcWrapThread` trampoline that runs `Run` on the new thread
 (src/ThreadMinimal.cc).

 Real thread creation and joining are not modelled; what remains is the
 four flags and the order in which the two sides set them. The source's
 `assert`s on the flags are preconditions here.
 */
module ThreadState {

  datatype ThreadFlags = ThreadFlags(started: bool, stillRunning: bool, stopRequested: bool, joined: bool)

  /** Every flag false: the state Reset leaves and go() demands. */
  predicate Idle(f: ThreadFlags)
  {
    !f.started && !f.stillRunning && !f.stopRequested && !f.joined
  }

  /** The combinations the protocol can reach: running or joined only after
      starting, and never running once joined. */
  predicate WellFormed(f: ThreadFlags)
  {
    && (f.stillRunning ==> f.started)
    && (f.joined ==> f.started)
    && (f.joined ==> !f.stillRunning)
  }

  /** `Reset` (also what the constructor does). */
  function Reset(f: ThreadFlags): (r: ThreadFlags)
    ensures Idle(r) && WellFormed(r)
  {
    ThreadFlags(false, false, false, false)
  }

  /** What `Run` did: returned, or threw a library exception, a standard
      exception, or something else. ProcWrapThread catches all three. */
  datatype RunEnd = Returned | ThrewLibrary | ThrewStd | ThrewOther

  /** The flags while Run executes and after ProcWrapThread returns, and
      whether an exception was caught and reported. */
  datatype Lifetime = Lifetime(whileRunning: ThreadFlags, atExit: ThreadFlags, reported: bool)

  /** `ProcWrapThread`: started and stillRunning are set before Run;
      stillRunning is cleared after it whatever way Run ended. */
  function ProcWrapThread(f: ThreadFlags, run: RunEnd): (r: Lifetime)
    ensures r.whileRunning.started && r.whileRunning.stillRunning
    ensures r.whileRunning.(started := f.started, stillRunning := f.stillRunning) == f
    ensures !r.atExit.stillRunning && r.atExit == r.whileRunning.(stillRunning := false)
    ensures r.reported <==> run != Returned
  {
    var running := f.(started := true, stillRunning := true);
    Lifetime(running, running.(stillRunning := false), run != Returned)
  }

  /** The exit state does not depend on how Run ended. */
  lemma {:induction false} ExitIgnoresRunEnd(f: ThreadFlags, a: RunEnd, b: RunEnd)
    ensures ProcWrapThread(f, a).atExit == ProcWrapThread(f, b).atExit
    ensures ProcWrapThread(f, a).whileRunning == ProcWrapThread(f, b).whileRunning
  {
  }

  /** `go`: all four flags must be false; it returns once it holds the lock
      again and sees started set. The new thread releases the lock before
      Run, so a Run that ends quickly may already have had stillRunning
      cleared by then: `finished` is that scheduling choice. */
  function Go(f: ThreadFlags, run: RunEnd, finished: bool): (r: ThreadFlags)
    requires Idle(f)
    ensures r.started && !r.stopRequested && !r.joined
    ensures r.stillRunning <==> !finished
    ensures WellFormed(r)
  {
    var life := ProcWrapThread(Reset(f), run);
    if finished then life.atExit else life.whileRunning
  }

  /** `SetStopRequested`. */
  function SetStopRequested(f: ThreadFlags): (r: ThreadFlags)
    ensures r.stopRequested && r.(stopRequested := f.stopRequested) == f
    ensures r.started == f.started && r.stillRunning == f.stillRunning && r.joined == f.joined
  {
    f.(stopRequested := true)
  }

  /** `wait`: the thread must have started and not been joined. pthread_join
      returns only after ProcWrapThread has cleared stillRunning; then
      joined is set. */
  function Wait(f: ThreadFlags): (r: ThreadFlags)
    requires f.started && !f.joined
    ensures r.joined && !r.stillRunning && r.started
    ensures r.stopRequested == f.stopRequested
  {
    f.(stillRunning := false, joined := true)
  }

  /** Every operation keeps the flags well formed. */
  lemma {:induction false} OperationsKeepWellFormed(f: ThreadFlags, run: RunEnd, finished: bool)
    requires WellFormed(f)
    ensures WellFormed(Reset(f)) && WellFormed(SetStopRequested(f))
    ensures WellFormed(ProcWrapThread(f, run).whileRunning) || f.joined
    ensures WellFormed(ProcWrapThread(f, run).atExit)
    ensures f.started && !f.joined ==> WellFormed(Wait(f))
    ensures Idle(f) ==> WellFormed(Go(f, run, finished))
  {
  }

  /** A thread is started once: after go() it cannot go() again, and after
      wait() it cannot be waited on again; only Reset makes it startable. */
  lemma {:induction false} GoWaitProtocol(f: ThreadFlags, run: RunEnd, finished: bool)
    requires Idle(f)
    ensures !Idle(Go(f, run, finished))
    ensures var done := ProcWrapThread(Reset(f), run).atExit;
            var joined := Wait(done);
            joined.joined && !Idle(joined) && Idle(Reset(joined))
    ensures Wait(Go(f, run, finished)).joined
    ensures Wait(Go(f, run, finished)) == Wait(ProcWrapThread(Reset(f), run).atExit)
  {
  }
}
