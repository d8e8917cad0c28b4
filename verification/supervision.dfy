/**
 The child registry of `ThreadMother` (include/ThreadMinimal.h,
 src/ThreadMinimal.cc): `ChildBirth`, `GetNumChildren`, `ReapChildren`,
 `Infanticide` and `SendAllChildren`.

 A child is its identity, its flags and its message queue. Waiting on and
 deleting a child are recorded in an event log instead of being performed;
 the registry's mutex is not modelled.
 */
module Supervision {
  import opened Basics
  import opened ThreadState
  import opened Message
  import opened ThreadQueue

  datatype Child = Child(id: nat, flags: ThreadFlags, inbox: seq<Msg>)

  /** What the mother does to a child, in the order it does it. */
  datatype Event = StopRequested(id: nat) | Joined(id: nat) | Deleted(id: nat)

  /** `GetNumChildren`. */
  function GetNumChildren(reg: seq<Child>): nat
  {
    |reg|
  }

  /** `ChildBirth`: the child goes to the back and is handed back. */
  function ChildBirth(reg: seq<Child>, t: Child): (r: (seq<Child>, Child))
    ensures r.1 == t
    ensures |r.0| == |reg| + 1 && r.0[..|reg|] == reg && r.0[|reg|] == t
    ensures GetNumChildren(r.0) == GetNumChildren(reg) + 1
  {
    (reg + [t], t)
  }

  /** wait() asserts the child started and was not joined yet. */
  predicate Waitable(c: Child)
  {
    c.flags.started && !c.flags.joined
  }

  /** The children whose stillRunning flag is set, in registry order. */
  function Running(reg: seq<Child>): seq<Child>
  {
    if |reg| == 0 then []
    else Running(reg[..|reg| - 1]) + (if reg[|reg| - 1].flags.stillRunning then [reg[|reg| - 1]] else [])
  }

  /** The children whose stillRunning flag is clear, in registry order. */
  function Finished(reg: seq<Child>): seq<Child>
  {
    if |reg| == 0 then []
    else Finished(reg[..|reg| - 1]) + (if reg[|reg| - 1].flags.stillRunning then [] else [reg[|reg| - 1]])
  }

  /** Positions of the running children, in increasing order. */
  function RunningIndices(reg: seq<Child>): seq<nat>
  {
    if |reg| == 0 then []
    else RunningIndices(reg[..|reg| - 1]) + (if reg[|reg| - 1].flags.stillRunning then [|reg| - 1] else [])
  }

  /** A child after wait(). */
  function Reaped(c: Child): Child
    requires Waitable(c)
  {
    c.(flags := Wait(c.flags))
  }

  /** The log of waiting on and then deleting each child of cs in turn. */
  function ReapLog(cs: seq<Child>): seq<Event>
  {
    if |cs| == 0 then [] else ReapLog(cs[..|cs| - 1]) + [Joined(cs[|cs| - 1].id), Deleted(cs[|cs| - 1].id)]
  }

  /** The log of requesting stop on each child of cs in turn. */
  function StopLog(cs: seq<Child>): seq<Event>
  {
    if |cs| == 0 then [] else StopLog(cs[..|cs| - 1]) + [StopRequested(cs[|cs| - 1].id)]
  }

  lemma {:induction false} StopLogShape(cs: seq<Child>)
    ensures |StopLog(cs)| == |cs|
    ensures forall k :: 0 <= k < |cs| ==> StopLog(cs)[k] == StopRequested(cs[k].id)
  {
    if |cs| > 0 {
      StopLogShape(cs[..|cs| - 1]);
    }
  }

  lemma {:induction false} ReapLogShape(cs: seq<Child>)
    ensures |ReapLog(cs)| == 2 * |cs|
    ensures forall k :: 0 <= k < |cs| ==> ReapLog(cs)[2 * k] == Joined(cs[k].id) && ReapLog(cs)[2 * k + 1] == Deleted(cs[k].id)
  {
    if |cs| > 0 {
      ReapLogShape(cs[..|cs| - 1]);
    }
  }

  /** The first loop of ReapChildren: the registry split into the children
      still running and the finished ones, each in registry order. */
  method SplitRunning(reg: seq<Child>) returns (keep: seq<Child>, delete: seq<Child>)
    ensures keep == Running(reg) && delete == Finished(reg)
    ensures forall k :: 0 <= k < |keep| ==> keep[k].flags.stillRunning
    ensures forall k :: 0 <= k < |delete| ==> !delete[k].flags.stillRunning && delete[k] in reg
  {
    keep := [];
    delete := [];
    var i := 0;
    while i < |reg|
      invariant 0 <= i <= |reg|
      invariant keep == Running(reg[..i]) && delete == Finished(reg[..i])
      invariant forall k :: 0 <= k < |delete| ==> !delete[k].flags.stillRunning && delete[k] in reg[..i]
      invariant forall k :: 0 <= k < |keep| ==> keep[k].flags.stillRunning
    {
      assert reg[..i + 1][..i] == reg[..i];
      assert reg[..i + 1] == reg[..i] + [reg[i]];
      if !reg[i].flags.stillRunning {
        delete := delete + [reg[i]];
      } else {
        keep := keep + [reg[i]];
      }
      i := i + 1;
    }
    assert reg[..|reg|] == reg;
  }

  /** The second loop of ReapChildren: wait() on and delete each finished
      child in order. */
  method JoinFinished(delete: seq<Child>) returns (reaped: seq<Child>, log: seq<Event>)
    requires forall k :: 0 <= k < |delete| ==> Waitable(delete[k])
    ensures |reaped| == |delete|
    ensures forall k :: 0 <= k < |delete| ==> reaped[k] == Reaped(delete[k])
    ensures log == ReapLog(delete)
  {
    reaped := [];
    log := [];
    var j := 0;
    while j < |delete|
      invariant 0 <= j <= |delete|
      invariant |reaped| == j
      invariant forall k :: 0 <= k < j ==> reaped[k] == Reaped(delete[k])
      invariant log == ReapLog(delete[..j])
    {
      assert delete[..j + 1][..j] == delete[..j];
      reaped := reaped + [Reaped(delete[j])];
      log := log + [Joined(delete[j].id), Deleted(delete[j].id)];
      j := j + 1;
    }
    assert delete[..|delete|] == delete;
  }

  /** `ReapChildren`: splits the registry into running and finished children,
      waits on and deletes each finished one in order, and keeps the rest. */
  method ReapChildren(reg: seq<Child>) returns (kept: seq<Child>, reaped: seq<Child>, log: seq<Event>)
    requires forall i :: 0 <= i < |reg| ==> !reg[i].flags.stillRunning ==> Waitable(reg[i])
    ensures kept == Running(reg)
    ensures |reaped| == |Finished(reg)|
    ensures forall k :: 0 <= k < |reaped| ==> Waitable(Finished(reg)[k]) && reaped[k] == Reaped(Finished(reg)[k])
    ensures log == ReapLog(Finished(reg))
    ensures forall k :: 0 <= k < |kept| ==> kept[k].flags.stillRunning
    ensures |kept| + |reaped| == |reg|
  {
    var delete;
    kept, delete := SplitRunning(reg);
    reaped, log := JoinFinished(delete);
    ReapPartition(reg);
  }

  /** The registry splits into running and finished children with nothing
      lost, added or duplicated. */
  lemma {:induction false} ReapPartition(reg: seq<Child>)
    ensures multiset(Running(reg)) + multiset(Finished(reg)) == multiset(reg)
    ensures |Running(reg)| + |Finished(reg)| == |reg|
  {
    if |reg| > 0 {
      var init, last := reg[..|reg| - 1], reg[|reg| - 1];
      ReapPartition(init);
      LastSplit(reg);
      if last.flags.stillRunning {
        assert Running(reg) == Running(init) + [last];
        assert multiset(Running(reg)) == multiset(Running(init)) + multiset{last};
        assert Finished(reg) == Finished(init);
      } else {
        assert Running(reg) == Running(init);
        assert Finished(reg) == Finished(init) + [last];
        assert multiset(Finished(reg)) == multiset(Finished(init)) + multiset{last};
      }
    }
  }

  /** A non-empty registry is its front part plus its last child. */
  lemma LastSplit(reg: seq<Child>)
    requires |reg| > 0
    ensures multiset(reg) == multiset(reg[..|reg| - 1]) + multiset{reg[|reg| - 1]}
  {
    assert reg == reg[..|reg| - 1] + [reg[|reg| - 1]];
  }

  /** The kept children are exactly the running ones, taken at increasing
      positions: the order of the registry is preserved. */
  lemma {:induction false} RunningInOrder(reg: seq<Child>)
    ensures |RunningIndices(reg)| == |Running(reg)|
    ensures forall k :: 0 <= k < |RunningIndices(reg)| ==>
              RunningIndices(reg)[k] < |reg| && Running(reg)[k] == reg[RunningIndices(reg)[k]]
    ensures forall k, l :: 0 <= k < l < |RunningIndices(reg)| ==> RunningIndices(reg)[k] < RunningIndices(reg)[l]
    ensures forall i :: 0 <= i < |reg| ==> (reg[i].flags.stillRunning <==> i in RunningIndices(reg))
  {
    if |reg| > 0 {
      var init := reg[..|reg| - 1];
      RunningInOrder(init);
      forall i | 0 <= i < |init|
        ensures init[i] == reg[i]
      {
      }
    }
  }

  /** A child after SetStopRequested and then wait(). */
  function Killed(c: Child): (r: Child)
    requires Waitable(c)
    ensures r.id == c.id && r.inbox == c.inbox
    ensures r.flags.stopRequested && r.flags.joined && !r.flags.stillRunning && r.flags.started
  {
    c.(flags := Wait(SetStopRequested(c.flags)))
  }

  /** A child after SetStopRequested. */
  function StopRequestedOn(c: Child): Child
  {
    c.(flags := SetStopRequested(c.flags))
  }

  /** The first loop of Infanticide: SetStopRequested on every child in order. */
  method RequestStops(reg: seq<Child>) returns (stopped: seq<Child>, stops: seq<Event>)
    ensures |stopped| == |reg|
    ensures forall k :: 0 <= k < |reg| ==> stopped[k] == StopRequestedOn(reg[k])
    ensures stops == StopLog(reg)
  {
    stopped := [];
    stops := [];
    var i := 0;
    while i < |reg|
      invariant 0 <= i <= |reg|
      invariant |stopped| == i
      invariant forall k :: 0 <= k < i ==> stopped[k] == StopRequestedOn(reg[k])
      invariant stops == StopLog(reg[..i])
    {
      assert reg[..i + 1][..i] == reg[..i];
      stopped := stopped + [StopRequestedOn(reg[i])];
      stops := stops + [StopRequested(reg[i].id)];
      i := i + 1;
    }
    assert reg[..|reg|] == reg;
  }

  /** The second loop of Infanticide: wait() on and delete every stopped child
      in order. */
  method JoinAll(reg: seq<Child>, stopped: seq<Child>) returns (reaped: seq<Child>, reaps: seq<Event>)
    requires |stopped| == |reg|
    requires forall k :: 0 <= k < |reg| ==> Waitable(reg[k]) && stopped[k] == StopRequestedOn(reg[k])
    ensures |reaped| == |reg|
    ensures forall k :: 0 <= k < |reg| ==> reaped[k] == Killed(reg[k])
    ensures reaps == ReapLog(reg)
  {
    reaped := [];
    reaps := [];
    var j := 0;
    while j < |stopped|
      invariant 0 <= j <= |stopped|
      invariant |reaped| == j
      invariant forall k :: 0 <= k < j ==> reaped[k] == Killed(reg[k])
      invariant reaps == ReapLog(reg[..j])
    {
      assert reg[..j + 1][..j] == reg[..j];
      reaped := reaped + [stopped[j].(flags := Wait(stopped[j].flags))];
      reaps := reaps + [Joined(reg[j].id), Deleted(reg[j].id)];
      j := j + 1;
    }
    assert reg[..|reg|] == reg;
  }

  /** `Infanticide`: stop is requested on every child, then every child is
      waited on and deleted, and the registry is emptied. */
  method Infanticide(reg: seq<Child>) returns (remaining: seq<Child>, reaped: seq<Child>, log: seq<Event>)
    requires forall i :: 0 <= i < |reg| ==> Waitable(reg[i])
    ensures remaining == []
    ensures |reaped| == |reg|
    ensures forall k :: 0 <= k < |reg| ==> reaped[k] == Killed(reg[k])
    ensures log == StopLog(reg) + ReapLog(reg)
    // every stop request comes before any wait
    ensures forall i, j :: 0 <= i < |log| && 0 <= j < |log| && log[i].Joined? && log[j].StopRequested? ==> j < i
  {
    var stopped, stops := RequestStops(reg);
    var reaps;
    reaped, reaps := JoinAll(reg, stopped);
    log := stops + reaps;
    remaining := [];
    StopsBeforeJoins(reg, log);
  }

  /** In the Infanticide log the stop requests are exactly the first |cs|
      entries, so each of them comes before every join. */
  lemma {:induction false} StopsBeforeJoins(cs: seq<Child>, log: seq<Event>)
    requires log == StopLog(cs) + ReapLog(cs)
    ensures forall i :: 0 <= i < |log| ==> (log[i].StopRequested? <==> i < |cs|)
    ensures forall i, j :: 0 <= i < |log| && 0 <= j < |log| && log[i].Joined? && log[j].StopRequested? ==> j < i
  {
    var n := |cs|;
    StopLogShape(cs);
    ReapLogShape(cs);
    forall i | 0 <= i < |log|
      ensures log[i].StopRequested? <==> i < n
    {
      if i < n {
        assert log[i] == StopLog(cs)[i];
      } else {
        assert log[i] == ReapLog(cs)[i - n];
        var k := (i - n) / 2;
        var c := cs[k];
        if (i - n) % 2 == 0 {
          assert i - n == 2 * k;
        } else {
          assert i - n == 2 * k + 1;
        }
      }
    }
  }

  /** What SendAllChildren does, in order: queue the message on a child,
      then take one acknowledgement from the private queue. */
  datatype SendEvent = Queued(id: nat) | Acked

  function SendLog(cs: seq<Child>): seq<SendEvent>
  {
    if |cs| == 0 then [] else SendLog(cs[..|cs| - 1]) + [Queued(cs[|cs| - 1].id), Acked]
  }

  lemma {:induction false} SendLogStep(cs: seq<Child>, i: nat)
    requires i < |cs|
    ensures SendLog(cs[..i + 1]) == SendLog(cs[..i]) + [Queued(cs[i].id), Acked]
  {
    assert cs[..i + 1][..i] == cs[..i];
  }

  /** The registry once the first n children have the message queued. */
  function QueuedUpTo(cs: seq<Child>, n: nat, m: Msg): seq<Child>
  {
    seq(|cs|, k requires 0 <= k < |cs| => if k < n then cs[k].(inbox := cs[k].inbox + [m]) else cs[k])
  }

  lemma {:induction false} QueuedUpToShape(cs: seq<Child>, n: nat, m: Msg)
    requires n <= |cs|
    ensures var r := QueuedUpTo(cs, n, m);
            |r| == |cs| &&
            (forall k :: 0 <= k < |cs| ==> r[k].id == cs[k].id && r[k].flags == cs[k].flags) &&
            (forall k :: 0 <= k < n ==> r[k].inbox == cs[k].inbox + [m]) &&
            (forall k :: n <= k < |cs| ==> r[k] == cs[k])
  {
  }

  lemma {:induction false} QueuedUpToStep(cs: seq<Child>, i: nat, m: Msg)
    requires i < |cs|
    ensures QueuedUpTo(cs, i, m)[i := cs[i].(inbox := cs[i].inbox + [m])] == QueuedUpTo(cs, i + 1, m)
  {
  }

  /** One blocking get on the private queue: it blocks only when the queue is
      empty and no acknowledgement ever arrives. */
  method AwaitAck(notify: seq<Msg>, wakes: seq<Wake<Msg>>) returns (blocked: bool, rest: seq<Msg>)
    requires WakesFit(Blocking, wakes)
    ensures blocked ==> notify == [] && Arrivals(wakes, |wakes|) == []
    ensures |notify| > 0 ==> !blocked && rest == notify[1..]
  {
    var r := Get(notify, Blocking, wakes);
    GetBlocked(notify, Blocking, wakes);
    GetFront(notify, Blocking, wakes);
    blocked := r.StillBlocked?;
    rest := r.rest;
  }

  /** `SendAllChildren(m)`: the message's response queue becomes the private
      queue `notifyQ`; for each child in registry order the message is
      queued on the child and one message is taken from the private queue.
      `acks[i]` wakes the blocking get of the i-th round; a round without
      one blocks, which ends the run with `blocked`. */
  method SendAllChildren(reg: seq<Child>, m: Msg, notifyQ: nat, acks: seq<seq<Wake<Msg>>>)
    returns (after: seq<Child>, sent: Msg, notify: seq<Msg>, gets: nat, log: seq<SendEvent>, blocked: bool)
    requires forall i :: 0 <= i < |acks| ==> WakesFit(Blocking, acks[i])
    ensures sent == SetQRespond(m, Some(notifyQ))
    // the registry itself is unchanged: same children, same order, same flags
    ensures |after| == |reg|
    ensures forall k :: 0 <= k < |reg| ==> after[k].id == reg[k].id && after[k].flags == reg[k].flags
    // without blocking: exactly one queue and one get per child
    ensures !blocked ==> gets == |reg| && log == SendLog(reg)
    ensures !blocked ==> forall k :: 0 <= k < |reg| ==> after[k].inbox == reg[k].inbox + [sent]
    // when a get blocks, the children before it and the blocked one have the message, the rest do not
    ensures blocked ==> gets < |reg| && log == SendLog(reg[..gets]) + [Queued(reg[gets].id)]
    ensures blocked ==> forall k :: 0 <= k <= gets ==> after[k].inbox == reg[k].inbox + [sent]
    ensures blocked ==> forall k :: gets < k < |reg| ==> after[k] == reg[k]
    // a get blocks only in a round whose wakes bring no acknowledgement
    ensures blocked ==> gets >= |acks| || Arrivals(acks[gets], |acks[gets]|) == []
  {
    sent := SetQRespond(m, Some(notifyQ));
    after := reg;
    notify := [];
    gets := 0;
    log := [];
    blocked := false;
    var i := 0;
    assert QueuedUpTo(reg, 0, sent) == reg;
    while i < |reg|
      invariant 0 <= i <= |reg| && gets == i
      invariant after == QueuedUpTo(reg, i, sent)
      invariant log == SendLog(reg[..i])
    {
      QueuedUpToStep(reg, i, sent);
      after := after[i := reg[i].(inbox := reg[i].inbox + [sent])];
      log := log + [Queued(reg[i].id)];
      var wakes := if i < |acks| then acks[i] else [];
      blocked, notify := AwaitAck(notify, wakes);
      if blocked {
        QueuedUpToShape(reg, i + 1, sent);
        return;
      }
      SendLogStep(reg, i);
      log := log + [Acked];
      gets := gets + 1;
      i := i + 1;
    }
    assert reg[..|reg|] == reg;
    QueuedUpToShape(reg, |reg|, sent);
  }
}
