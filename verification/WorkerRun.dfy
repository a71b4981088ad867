/** A whole run of the worker pool (src/auksd/auksd.c) in which every kind of step is taken: one connection is served
    and one refused, a wake-up is sent and one is spurious, and the shutdown cancels a processor that sleeps. */
module WorkerRun {
  import opened WorkerPool

  /** A pool of one processor. */
  function One(pc: Proc, cancel: bool, main: Main, mutex: Holder, queue: seq<Conn>, eofWorker: bool, accepted: nat,
      enqueued: seq<Conn>, refused: seq<Conn>, taken: seq<Job>, processed: seq<Job>, closed: seq<Job>): State
  {
    State([pc], [cancel], main, mutex, queue, eofWorker, accepted, enqueued, refused, taken, processed, closed)
  }

  /** The steps `actions` lead from `s` to `t`. */
  ghost predicate Leads(s: State, actions: seq<Action>, t: State)
    decreases |actions|
  {
    if actions == [] then s == t
    else Enabled(s, actions[0]) && Leads(Do(s, actions[0]), actions[1..], t)
  }

  lemma {:induction false} Step(s: State, a: Action, t: State)
    requires Enabled(s, a) && Do(s, a) == t
    ensures Leads(s, [a], t)
  {
    assert [a][1..] == [];
  }

  lemma {:induction false} Then(s: State, a: seq<Action>, t: State, b: seq<Action>, u: State)
    requires Leads(s, a, t) && Leads(t, b, u)
    ensures Leads(s, a + b, u)
    decreases |a|
  {
    hide Enabled, Do;
    if a == [] {
      assert a + b == b;
    } else {
      Then(Do(s, a[0]), a[1..], t, b, u);
      assert (a + b)[1..] == a[1..] + b;
    }
  }

  /** Steps that lead somewhere are a run. */
  lemma {:induction false} LeadsIsRun(s: State, actions: seq<Action>, t: State) returns (states: seq<State>)
    requires Leads(s, actions, t)
    ensures |states| == |actions| + 1 && states[0] == s && states[|actions|] == t
    ensures forall i :: 0 <= i < |actions| ==> Enabled(states[i], actions[i]) && states[i + 1] == Do(states[i], actions[i])
    decreases |actions|
  {
    hide Enabled, Do;
    if actions == [] {
      states := [s];
    } else {
      var rest := LeadsIsRun(Do(s, actions[0]), actions[1..], t);
      states := [s] + rest;
      forall i | 0 <= i < |actions|
        ensures Enabled(states[i], actions[i]) && states[i + 1] == Do(states[i], actions[i])
      {
        if i > 0 { assert actions[i] == actions[1..][i - 1] && states[i] == rest[i - 1]; }
      }
    }
  }

  ghost const START := One(Top, false, Accepting, Free, [], false, 0, [], [], [], [], [])
  ghost const ASLEEP := One(Sleeping, false, Accepting, Free, [], false, 0, [], [], [], [], [])
  ghost const ASLEEP_AGAIN := One(Sleeping, false, Accepting, Free, [], false, 0, [], [], [], [], [])
  ghost const QUEUED := One(Woken, false, Accepting, Free, [0], false, 1, [0], [], [], [], [])
  ghost const TAKEN := One(Serving(0), false, Accepting, Free, [], false, 1, [0], [], [Job(0, 0)], [], [])
  ghost const SERVED := One(Top, false, Accepting, Free, [], false, 1, [0], [], [Job(0, 0)], [Job(0, 0)], [Job(0, 0)])
  ghost const REFUSED := One(Top, false, Accepting, Free, [], false, 2, [0], [1], [Job(0, 0)], [Job(0, 0)], [Job(0, 0)])
  ghost const SLEEPING := One(Sleeping, false, Accepting, Free, [], false, 2, [0], [1], [Job(0, 0)], [Job(0, 0)], [Job(0, 0)])
  ghost const STOPPED := One(Sleeping, false, Cancelling(0), Free, [], true, 2, [0], [1], [Job(0, 0)], [Job(0, 0)], [Job(0, 0)])
  ghost const CANCELLED := One(Leaving, true, Joining(0), Free, [], true, 2, [0], [1], [Job(0, 0)], [Job(0, 0)], [Job(0, 0)])
  ghost const END := One(Exited, true, Done, Free, [], true, 2, [0], [1], [Job(0, 0)], [Job(0, 0)], [Job(0, 0)])

  /** The processor finds the queue empty and sleeps. */
  lemma {:induction false} FallAsleep()
    ensures Leads(START, [ReadFlag(0), Lock(0), Test(0)], ASLEEP)
  {
    hide Leads;
    var s0 := START;
    var s1 := One(LockBlocking, false, Accepting, Free, [], false, 0, [], [], [], [], []);
    Step(s0, ReadFlag(0), s1);
    var s2 := One(CheckBlocking(false), false, Accepting, ByProc(0), [], false, 0, [], [], [], [], []);
    Step(s1, Lock(0), s2);
    var s3 := One(Sleeping, false, Accepting, Free, [], false, 0, [], [], [], [], []);
    Step(s2, Test(0), s3);
    hide Enabled, Do;
    Then(s0, [ReadFlag(0)], s1, [Lock(0)], s2);
    assert [ReadFlag(0)] + [Lock(0)] == [ReadFlag(0), Lock(0)];
    Then(s0, [ReadFlag(0), Lock(0)], s2, [Test(0)], s3);
    assert [ReadFlag(0), Lock(0)] + [Test(0)] == [ReadFlag(0), Lock(0), Test(0)];
  }

  /** It wakes up although nobody has signalled, and sleeps again. */
  lemma {:induction false} WakeForNothing()
    ensures Leads(ASLEEP, [Spurious(0), Lock(0), Test(0)], ASLEEP_AGAIN)
  {
    hide Leads;
    var s0 := ASLEEP;
    var s1 := One(Woken, false, Accepting, Free, [], false, 0, [], [], [], [], []);
    Step(s0, Spurious(0), s1);
    var s2 := One(CheckBlocking(true), false, Accepting, ByProc(0), [], false, 0, [], [], [], [], []);
    Step(s1, Lock(0), s2);
    var s3 := One(Sleeping, false, Accepting, Free, [], false, 0, [], [], [], [], []);
    Step(s2, Test(0), s3);
    hide Enabled, Do;
    Then(s0, [Spurious(0)], s1, [Lock(0)], s2);
    assert [Spurious(0)] + [Lock(0)] == [Spurious(0), Lock(0)];
    Then(s0, [Spurious(0), Lock(0)], s2, [Test(0)], s3);
    assert [Spurious(0), Lock(0)] + [Test(0)] == [Spurious(0), Lock(0), Test(0)];
  }

  /** A connection is accepted, queued and signalled. */
  lemma {:induction false} QueueOne()
    ensures Leads(ASLEEP_AGAIN, [Accept, LockEnq, Link, SignalMain(0), UnlockMain], QUEUED)
  {
    hide Leads;
    var s0 := ASLEEP_AGAIN;
    var s1 := One(Sleeping, false, EnqLock(0), Free, [], false, 1, [], [], [], [], []);
    Step(s0, Accept, s1);
    var s2 := One(Sleeping, false, EnqHeld(0), ByMain, [], false, 1, [], [], [], [], []);
    Step(s1, LockEnq, s2);
    var s3 := One(Sleeping, false, EnqLinked, ByMain, [0], false, 1, [0], [], [], [], []);
    Step(s2, Link, s3);
    var s4 := One(Woken, false, EnqSignalled, ByMain, [0], false, 1, [0], [], [], [], []);
    Step(s3, SignalMain(0), s4);
    var s5 := One(Woken, false, Accepting, Free, [0], false, 1, [0], [], [], [], []);
    Step(s4, UnlockMain, s5);
    hide Enabled, Do;
    Then(s0, [Accept], s1, [LockEnq], s2);
    assert [Accept] + [LockEnq] == [Accept, LockEnq];
    Then(s0, [Accept, LockEnq], s2, [Link], s3);
    assert [Accept, LockEnq] + [Link] == [Accept, LockEnq, Link];
    Then(s0, [Accept, LockEnq, Link], s3, [SignalMain(0)], s4);
    assert [Accept, LockEnq, Link] + [SignalMain(0)] == [Accept, LockEnq, Link, SignalMain(0)];
    Then(s0, [Accept, LockEnq, Link, SignalMain(0)], s4, [UnlockMain], s5);
    assert [Accept, LockEnq, Link, SignalMain(0)] + [UnlockMain] == [Accept, LockEnq, Link, SignalMain(0), UnlockMain];
  }

  /** The processor takes it. */
  lemma {:induction false} TakeOne()
    ensures Leads(QUEUED, [Lock(0), Test(0), SignalProc(0, 0), Unlock(0)], TAKEN)
  {
    hide Leads, Enabled, Do;
    var s := One(Taken(0), false, Accepting, ByProc(0), [], false, 1, [0], [], [Job(0, 0)], [], []);
    TakeFromQueue(s);
    SignalNobody(s);
    Then(QUEUED, [Lock(0), Test(0)], s, [SignalProc(0, 0), Unlock(0)], TAKEN);
    assert [Lock(0), Test(0)] + [SignalProc(0, 0), Unlock(0)] == [Lock(0), Test(0), SignalProc(0, 0), Unlock(0)];
  }

  lemma {:induction false} TakeFromQueue(s: State)
    requires s == One(Taken(0), false, Accepting, ByProc(0), [], false, 1, [0], [], [Job(0, 0)], [], [])
    ensures Leads(QUEUED, [Lock(0), Test(0)], s)
  {
    hide Leads;
    var s1 := One(CheckBlocking(true), false, Accepting, ByProc(0), [0], false, 1, [0], [], [], [], []);
    Step(QUEUED, Lock(0), s1);
    assert [0][1..] == [];
    Step(s1, Test(0), s);
    hide Enabled, Do;
    Then(QUEUED, [Lock(0)], s1, [Test(0)], s);
    assert [Lock(0)] + [Test(0)] == [Lock(0), Test(0)];
  }

  lemma {:induction false} SignalNobody(s: State)
    requires s == One(Taken(0), false, Accepting, ByProc(0), [], false, 1, [0], [], [Job(0, 0)], [], [])
    ensures Leads(s, [SignalProc(0, 0), Unlock(0)], TAKEN)
  {
    hide Leads;
    var s1 := One(Signalled(0), false, Accepting, ByProc(0), [], false, 1, [0], [], [Job(0, 0)], [], []);
    Step(s, SignalProc(0, 0), s1);
    Step(s1, Unlock(0), TAKEN);
    hide Enabled, Do;
    Then(s, [SignalProc(0, 0)], s1, [Unlock(0)], TAKEN);
    assert [SignalProc(0, 0)] + [Unlock(0)] == [SignalProc(0, 0), Unlock(0)];
  }

  /** It serves it, closes it and goes back to the end flag. */
  lemma {:induction false} ServeOne()
    ensures Leads(TAKEN, [Process(0), Close(0), TestCancel(0)], SERVED)
  {
    hide Leads;
    var s0 := TAKEN;
    var s1 := One(Served(0), false, Accepting, Free, [], false, 1, [0], [], [Job(0, 0)], [Job(0, 0)], []);
    Step(s0, Process(0), s1);
    var s2 := One(Closed, false, Accepting, Free, [], false, 1, [0], [], [Job(0, 0)], [Job(0, 0)], [Job(0, 0)]);
    Step(s1, Close(0), s2);
    var s3 := One(Top, false, Accepting, Free, [], false, 1, [0], [], [Job(0, 0)], [Job(0, 0)], [Job(0, 0)]);
    Step(s2, TestCancel(0), s3);
    hide Enabled, Do;
    Then(s0, [Process(0)], s1, [Close(0)], s2);
    assert [Process(0)] + [Close(0)] == [Process(0), Close(0)];
    Then(s0, [Process(0), Close(0)], s2, [TestCancel(0)], s3);
    assert [Process(0), Close(0)] + [TestCancel(0)] == [Process(0), Close(0), TestCancel(0)];
  }

  /** The next connection cannot be queued. */
  lemma {:induction false} RefuseOne()
    ensures Leads(SERVED, [Accept, FailEnq, CloseRefused], REFUSED)
  {
    hide Leads;
    var s0 := SERVED;
    var s1 := One(Top, false, EnqLock(1), Free, [], false, 2, [0], [], [Job(0, 0)], [Job(0, 0)], [Job(0, 0)]);
    Step(s0, Accept, s1);
    var s2 := One(Top, false, EnqFailed(1), Free, [], false, 2, [0], [], [Job(0, 0)], [Job(0, 0)], [Job(0, 0)]);
    Step(s1, FailEnq, s2);
    var s3 := One(Top, false, Accepting, Free, [], false, 2, [0], [1], [Job(0, 0)], [Job(0, 0)], [Job(0, 0)]);
    Step(s2, CloseRefused, s3);
    hide Enabled, Do;
    Then(s0, [Accept], s1, [FailEnq], s2);
    assert [Accept] + [FailEnq] == [Accept, FailEnq];
    Then(s0, [Accept, FailEnq], s2, [CloseRefused], s3);
    assert [Accept, FailEnq] + [CloseRefused] == [Accept, FailEnq, CloseRefused];
  }

  /** The processor sleeps. */
  lemma {:induction false} SleepOn()
    ensures Leads(REFUSED, [ReadFlag(0), Lock(0), Test(0)], SLEEPING)
  {
    hide Leads;
    var s0 := REFUSED;
    var s1 := One(LockBlocking, false, Accepting, Free, [], false, 2, [0], [1], [Job(0, 0)], [Job(0, 0)], [Job(0, 0)]);
    Step(s0, ReadFlag(0), s1);
    var s2 := One(CheckBlocking(false), false, Accepting, ByProc(0), [], false, 2, [0], [1], [Job(0, 0)], [Job(0, 0)], [Job(0, 0)]);
    Step(s1, Lock(0), s2);
    var s3 := One(Sleeping, false, Accepting, Free, [], false, 2, [0], [1], [Job(0, 0)], [Job(0, 0)], [Job(0, 0)]);
    Step(s2, Test(0), s3);
    hide Enabled, Do;
    Then(s0, [ReadFlag(0)], s1, [Lock(0)], s2);
    assert [ReadFlag(0)] + [Lock(0)] == [ReadFlag(0), Lock(0)];
    Then(s0, [ReadFlag(0), Lock(0)], s2, [Test(0)], s3);
    assert [ReadFlag(0), Lock(0)] + [Test(0)] == [ReadFlag(0), Lock(0), Test(0)];
  }

  /** The dispatcher stops and finds the queue empty. */
  lemma {:induction false} StopAll()
    ensures Leads(SLEEPING, [StopAccepting, SetEof, Poll], STOPPED)
  {
    hide Leads;
    var s0 := SLEEPING;
    var s1 := One(Sleeping, false, Stopped, Free, [], false, 2, [0], [1], [Job(0, 0)], [Job(0, 0)], [Job(0, 0)]);
    Step(s0, StopAccepting, s1);
    var s2 := One(Sleeping, false, Polling, Free, [], true, 2, [0], [1], [Job(0, 0)], [Job(0, 0)], [Job(0, 0)]);
    Step(s1, SetEof, s2);
    var s3 := One(Sleeping, false, Cancelling(0), Free, [], true, 2, [0], [1], [Job(0, 0)], [Job(0, 0)], [Job(0, 0)]);
    Step(s2, Poll, s3);
    hide Enabled, Do;
    Then(s0, [StopAccepting], s1, [SetEof], s2);
    assert [StopAccepting] + [SetEof] == [StopAccepting, SetEof];
    Then(s0, [StopAccepting, SetEof], s2, [Poll], s3);
    assert [StopAccepting, SetEof] + [Poll] == [StopAccepting, SetEof, Poll];
  }

  /** It cancels the processor. */
  lemma {:induction false} CancelAll()
    ensures Leads(STOPPED, [Cancel, Cancel, CancelWait(0)], CANCELLED)
  {
    hide Leads;
    var s0 := STOPPED;
    var s1 := One(Sleeping, true, Cancelling(1), Free, [], true, 2, [0], [1], [Job(0, 0)], [Job(0, 0)], [Job(0, 0)]);
    assert [false][0 := true] == [true];
    Step(s0, Cancel, s1);
    var s2 := One(Sleeping, true, Joining(0), Free, [], true, 2, [0], [1], [Job(0, 0)], [Job(0, 0)], [Job(0, 0)]);
    Step(s1, Cancel, s2);
    var s3 := One(Leaving, true, Joining(0), Free, [], true, 2, [0], [1], [Job(0, 0)], [Job(0, 0)], [Job(0, 0)]);
    Step(s2, CancelWait(0), s3);
    hide Enabled, Do;
    Then(s0, [Cancel], s1, [Cancel], s2);
    assert [Cancel] + [Cancel] == [Cancel, Cancel];
    Then(s0, [Cancel, Cancel], s2, [CancelWait(0)], s3);
    assert [Cancel, Cancel] + [CancelWait(0)] == [Cancel, Cancel, CancelWait(0)];
  }

  /** The processor leaves and is joined. */
  lemma {:induction false} JoinAll()
    ensures Leads(CANCELLED, [Leave(0), Join, Join], END)
  {
    hide Leads;
    var s0 := CANCELLED;
    var s1 := One(Exited, true, Joining(0), Free, [], true, 2, [0], [1], [Job(0, 0)], [Job(0, 0)], [Job(0, 0)]);
    Step(s0, Leave(0), s1);
    var s2 := One(Exited, true, Joining(1), Free, [], true, 2, [0], [1], [Job(0, 0)], [Job(0, 0)], [Job(0, 0)]);
    Step(s1, Join, s2);
    var s3 := One(Exited, true, Done, Free, [], true, 2, [0], [1], [Job(0, 0)], [Job(0, 0)], [Job(0, 0)]);
    Step(s2, Join, s3);
    hide Enabled, Do;
    Then(s0, [Leave(0)], s1, [Join], s2);
    assert [Leave(0)] + [Join] == [Leave(0), Join];
    Then(s0, [Leave(0), Join], s2, [Join], s3);
    assert [Leave(0), Join] + [Join] == [Leave(0), Join, Join];
  }

  /** A run through every kind of step: it ends with all workers joined, the first connection processed and closed by
      the worker that took it, and the second refused. */
  lemma {:induction false} EveryStepHappens() returns (actions: seq<Action>, states: seq<State>)
    ensures actions ==
      [ReadFlag(0), Lock(0), Test(0)]
      + [Spurious(0), Lock(0), Test(0)]
      + [Accept, LockEnq, Link, SignalMain(0), UnlockMain]
      + [Lock(0), Test(0), SignalProc(0, 0), Unlock(0)]
      + [Process(0), Close(0), TestCancel(0)]
      + [Accept, FailEnq, CloseRefused]
      + [ReadFlag(0), Lock(0), Test(0)]
      + [StopAccepting, SetEof, Poll]
      + [Cancel, Cancel, CancelWait(0)]
      + [Leave(0), Join, Join]
    ensures IsRun(1, actions, states)
    ensures var s := states[|actions|];
      && s.main == Done && s.accepted == 2 && s.enqueued == [0] && s.refused == [1]
      && s.taken == s.processed == s.closed == [Job(0, 0)]
  {
    FallAsleep();
    WakeForNothing();
    QueueOne();
    TakeOne();
    ServeOne();
    RefuseOne();
    SleepOn();
    StopAll();
    CancelAll();
    JoinAll();
    hide Leads, Enabled, Do;
    actions := [ReadFlag(0), Lock(0), Test(0)];
    Then(START, actions, ASLEEP, [Spurious(0), Lock(0), Test(0)], ASLEEP_AGAIN);
    actions := actions + [Spurious(0), Lock(0), Test(0)];
    Then(START, actions, ASLEEP_AGAIN, [Accept, LockEnq, Link, SignalMain(0), UnlockMain], QUEUED);
    actions := actions + [Accept, LockEnq, Link, SignalMain(0), UnlockMain];
    Then(START, actions, QUEUED, [Lock(0), Test(0), SignalProc(0, 0), Unlock(0)], TAKEN);
    actions := actions + [Lock(0), Test(0), SignalProc(0, 0), Unlock(0)];
    Then(START, actions, TAKEN, [Process(0), Close(0), TestCancel(0)], SERVED);
    actions := actions + [Process(0), Close(0), TestCancel(0)];
    Then(START, actions, SERVED, [Accept, FailEnq, CloseRefused], REFUSED);
    actions := actions + [Accept, FailEnq, CloseRefused];
    Then(START, actions, REFUSED, [ReadFlag(0), Lock(0), Test(0)], SLEEPING);
    actions := actions + [ReadFlag(0), Lock(0), Test(0)];
    Then(START, actions, SLEEPING, [StopAccepting, SetEof, Poll], STOPPED);
    actions := actions + [StopAccepting, SetEof, Poll];
    Then(START, actions, STOPPED, [Cancel, Cancel, CancelWait(0)], CANCELLED);
    actions := actions + [Cancel, Cancel, CancelWait(0)];
    Then(START, actions, CANCELLED, [Leave(0), Join, Join], END);
    actions := actions + [Leave(0), Join, Join];
    states := LeadsIsRun(START, actions, END);
    assert Start(1) == START;
  }
}
