/** The dispatcher and the processor threads of the daemon (src/auksd/auksd.c) around the shared queue
    (src/api/xternal/xqueue.c), as a state machine: one main thread, which runs the dispatcher and then
    the shutdown sequence, n processors, one mutex and one condition variable.

    Every change inside a critical section is one step, so the mutex is a component of the state.
    Connections are numbered in the order in which they are accepted. */
module WorkerPool {

  type Conn = nat

  /** A connection in the hands of a processor. */
  datatype Job = Job(conn: Conn, worker: nat)

  function Conns(js: seq<Job>): seq<Conn> { seq(|js|, i requires 0 <= i < |js| => js[i].conn) }

  /** Where a processor is in `processor_main_function`. */
  datatype Proc =
    | Top                                   // about to read eof_worker_flag
    | LockBlocking | LockTry                // about to lock the mutex in a blocking or non-blocking dequeue
    | CheckBlocking(woken: bool) | CheckTry // holds the mutex, about to test for emptiness
    | Sleeping                              // waits on the condition
    | Woken                                 // no longer waits, about to lock the mutex again
    | Taken(conn: Conn) | Signalled(conn: Conn) // holds the mutex after the dequeue, before and after the signal
    | Serving(conn: Conn) | Served(conn: Conn)  // cancellation disabled, before and after auksd_process_req
    | Closed                                // socket closed, about to call pthread_testcancel
    | Leaving                               // cancelled in pthread_cond_wait, about to lock and unlock the mutex
    | Exited

  /** Where the main thread is in `dispatcher_main_function` and `auksd_main_loop`. */
  datatype Main =
    | Accepting
    | EnqLock(conn: Conn)                   // about to lock the mutex in the enqueue
    | EnqHeld(conn: Conn)                   // holds the mutex
    | EnqLinked | EnqSignalled              // holds the mutex, before and after the signal
    | EnqFailed(conn: Conn)                 // the enqueue returned an error
    | Stopped                               // about to set eof_worker_flag
    | Polling                               // waits until the queue length is zero
    | Cancelling(i: nat) | Joining(i: nat) | Done

  datatype Holder = Free | ByMain | ByProc(p: nat)

  datatype State = State(
    procs: seq<Proc>, cancel: seq<bool>, main: Main,
    mutex: Holder, queue: seq<Conn>, eofWorker: bool,
    // what has happened so far
    accepted: nat, enqueued: seq<Conn>, refused: seq<Conn>,
    taken: seq<Job>, processed: seq<Job>, closed: seq<Job>)

  datatype Action =
    // the main thread
    | Accept | LockEnq | FailEnq | Link | SignalMain(w: nat) | UnlockMain | CloseRefused
    | StopAccepting | SetEof | Poll | Cancel | Join
    // processor p
    | ReadFlag(p: nat) | Lock(p: nat) | Test(p: nat) | SignalProc(p: nat, w: nat) | Unlock(p: nat)
    | Process(p: nat) | Close(p: nat) | TestCancel(p: nat) | CancelWait(p: nat) | Leave(p: nat) | Spurious(p: nat)

  function Start(n: nat): State {
    State(seq(n, _ => Top), seq(n, _ => false), Accepting, Free, [], false, 0, [], [], [], [], [])
  }

  ghost predicate SomeSleeps(s: State) { exists p :: 0 <= p < |s.procs| && s.procs[p] == Sleeping }

  /** `pthread_cond_signal` may unblock `w`; without a sleeper it does nothing. */
  ghost predicate MayWake(s: State, w: nat) {
    SomeSleeps(s) ==> w < |s.procs| && s.procs[w] == Sleeping
  }

  function Wake(procs: seq<Proc>, w: nat): seq<Proc> {
    if w < |procs| && procs[w] == Sleeping then procs[w := Woken] else procs
  }

  ghost predicate Enabled(s: State, a: Action) {
    var n := |s.procs|;
    match a
    case Accept => s.main == Accepting
    case LockEnq => s.main.EnqLock? && s.mutex == Free
    case FailEnq => s.main.EnqLock?
    case Link => s.main.EnqHeld?
    case SignalMain(w) => s.main == EnqLinked && MayWake(s, w)
    case UnlockMain => s.main == EnqSignalled
    case CloseRefused => s.main.EnqFailed?
    case StopAccepting => s.main == Accepting
    case SetEof => s.main == Stopped
    case Poll => s.main == Polling && s.mutex == Free
    case Cancel => s.main.Cancelling?
    case Join => s.main.Joining? && (s.main.i < n ==> s.procs[s.main.i] == Exited)
    case ReadFlag(p) => p < n && s.procs[p] == Top
    case Lock(p) => p < n && s.mutex == Free && (s.procs[p] == LockBlocking || s.procs[p] == LockTry || s.procs[p] == Woken)
    case Test(p) => p < n && (s.procs[p].CheckBlocking? || s.procs[p] == CheckTry)
    case SignalProc(p, w) => p < n && s.procs[p].Taken? && MayWake(s, w)
    case Unlock(p) => p < n && s.procs[p].Signalled?
    case Process(p) => p < n && s.procs[p].Serving?
    case Close(p) => p < n && s.procs[p].Served?
    case TestCancel(p) => p < n && s.procs[p] == Closed
    case CancelWait(p) => p < n && p < |s.cancel| && s.cancel[p] && (s.procs[p] == Sleeping || s.procs[p] == Woken)
    case Leave(p) => p < n && s.procs[p] == Leaving && s.mutex == Free
    case Spurious(p) => p < n && s.procs[p] == Sleeping
  }

  ghost function Do(s: State, a: Action): State
    requires Enabled(s, a)
  {
    match a
    case Accept => s.(main := EnqLock(s.accepted), accepted := s.accepted + 1)
    case LockEnq => s.(main := EnqHeld(s.main.conn), mutex := ByMain)
    case FailEnq => s.(main := EnqFailed(s.main.conn))
    case Link => s.(main := EnqLinked, queue := s.queue + [s.main.conn], enqueued := s.enqueued + [s.main.conn])
    case SignalMain(w) => s.(main := EnqSignalled, procs := Wake(s.procs, w))
    case UnlockMain => s.(main := Accepting, mutex := Free)
    case CloseRefused => s.(main := Accepting, refused := s.refused + [s.main.conn])
    case StopAccepting => s.(main := Stopped)
    case SetEof => s.(main := Polling, eofWorker := true)
    case Poll => if s.queue == [] then s.(main := Cancelling(0)) else s
    case Cancel =>
      if s.main.i < |s.cancel| then s.(main := Cancelling(s.main.i + 1), cancel := s.cancel[s.main.i := true])
      else s.(main := Joining(0))
    case Join => if s.main.i < |s.procs| then s.(main := Joining(s.main.i + 1)) else s.(main := Done)
    case ReadFlag(p) => s.(procs := s.procs[p := if s.eofWorker then LockTry else LockBlocking])
    case Lock(p) =>
      s.(mutex := ByProc(p),
         procs := s.procs[p := if s.procs[p] == LockTry then CheckTry else CheckBlocking(s.procs[p] == Woken)])
    case Test(p) =>
      if s.queue != [] then
        s.(procs := s.procs[p := Taken(s.queue[0])], queue := s.queue[1..], taken := s.taken + [Job(s.queue[0], p)])
      else s.(procs := s.procs[p := if s.procs[p] == CheckTry then Exited else Sleeping], mutex := Free)
    case SignalProc(p, w) =>
      var procs := Wake(s.procs, w);
      s.(procs := procs[p := Signalled(s.procs[p].conn)])
    case Unlock(p) => s.(procs := s.procs[p := Serving(s.procs[p].conn)], mutex := Free)
    case Process(p) =>
      s.(procs := s.procs[p := Served(s.procs[p].conn)], processed := s.processed + [Job(s.procs[p].conn, p)])
    case Close(p) => s.(procs := s.procs[p := Closed], closed := s.closed + [Job(s.procs[p].conn, p)])
    case TestCancel(p) => s.(procs := s.procs[p := if p < |s.cancel| && s.cancel[p] then Exited else Top])
    case CancelWait(p) => s.(procs := s.procs[p := Leaving])
    case Leave(p) => s.(procs := s.procs[p := Exited])
    case Spurious(p) => s.(procs := s.procs[p := Woken])
  }

  // ---------- the invariants ----------

  predicate Holds(pc: Proc) { pc.CheckBlocking? || pc == CheckTry || pc.Taken? || pc.Signalled? }

  predicate MainHolds(m: Main) { m.EnqHeld? || m == EnqLinked || m == EnqSignalled }

  /** The mutex is held by the thread that is inside a critical section, and by no other. */
  ghost predicate MutexOk(s: State) {
    && (s.mutex == ByMain <==> MainHolds(s.main))
    && (forall p :: 0 <= p < |s.procs| ==> (Holds(s.procs[p]) <==> s.mutex == ByProc(p)))
    && (s.mutex.ByProc? ==> s.mutex.p < |s.procs|)
  }

  function CountSleeping(procs: seq<Proc>): nat {
    if procs == [] then 0 else CountSleeping(procs[..|procs| - 1]) + if procs[|procs| - 1] == Sleeping then 1 else 0
  }

  predicate YetToCheck(pc: Proc) { pc == Woken || pc == CheckBlocking(true) }

  /** The processors that were woken and have not yet tested the queue again. */
  function CountWoken(procs: seq<Proc>): nat {
    if procs == [] then 0 else CountWoken(procs[..|procs| - 1]) + if YetToCheck(procs[|procs| - 1]) then 1 else 0
  }

  /** No wake-up is lost: as long as somebody sleeps, there is a woken processor under way for every
      queued connection, but for the one whose signal is still to come. */
  ghost predicate WakeUpsOk(s: State) {
    CountSleeping(s.procs) > 0 ==> |s.queue| <= CountWoken(s.procs) + if s.main == EnqLinked then 1 else 0
  }

  predicate ShuttingDown(m: Main) { m == Polling || m.Cancelling? || m.Joining? || m == Done }

  predicate Emptied(m: Main) { m.Cancelling? || m.Joining? || m == Done }

  predicate Gone(pc: Proc) { pc == Leaving || pc == Exited }

  /** A processor leaves, and stops waiting for the mutex, only when the shutdown has begun; it leaves
      only when nothing is queued any more. */
  ghost predicate LeaverOk(s: State, pc: Proc) {
    && (Gone(pc) ==> s.eofWorker && s.queue == [])
    && (pc == LockTry || pc == CheckTry ==> s.eofWorker)
  }

  ghost predicate LeavingOk(s: State) {
    && (s.eofWorker <==> ShuttingDown(s.main))
    && (Emptied(s.main) ==> s.queue == [])
    && forall p :: 0 <= p < |s.procs| ==> LeaverOk(s, s.procs[p])
  }

  /** Cancellations are sent only when nothing is queued any more, and what the cancel and join loops
      have passed is cancelled and has exited. */
  ghost predicate CancelsOk(s: State) {
    && |s.cancel| == |s.procs|
    && (forall p :: 0 <= p < |s.procs| && s.cancel[p] ==> Emptied(s.main))
    && (s.main.Joining? || s.main == Done ==> forall p :: 0 <= p < |s.procs| ==> s.cancel[p])
    && (s.main.Cancelling? ==> s.main.i <= |s.procs| && forall p :: 0 <= p < s.main.i ==> s.cancel[p])
    && (s.main.Joining? ==> s.main.i <= |s.procs| && forall p :: 0 <= p < s.main.i ==> s.procs[p] == Exited)
    && (s.main == Done ==> forall p :: 0 <= p < |s.procs| ==> s.procs[p] == Exited)
  }

  ghost predicate ShutdownOk(s: State) { LeavingOk(s) && CancelsOk(s) }

  // ---------- accounting ----------

  /** How often `c` occurs in `q`. */
  function Times(q: seq<Conn>, c: Conn): nat {
    if q == [] then 0 else Times(q[..|q| - 1], c) + if q[|q| - 1] == c then 1 else 0
  }

  predicate Holding(pc: Proc, c: Conn) { (pc.Taken? || pc.Signalled? || pc.Serving? || pc.Served?) && pc.conn == c }

  /** How many processors have `c` in hand. */
  function Held(procs: seq<Proc>, c: Conn): nat {
    if procs == [] then 0 else Held(procs[..|procs| - 1], c) + if Holding(procs[|procs| - 1], c) then 1 else 0
  }

  /** How many processors have served `c` and not closed it yet. */
  function Unclosed(procs: seq<Proc>, c: Conn): nat {
    if procs == [] then 0 else Unclosed(procs[..|procs| - 1], c) + if procs[|procs| - 1] == Served(c) then 1 else 0
  }

  predicate Pending(m: Main, c: Conn) { (m.EnqLock? || m.EnqHeld? || m.EnqFailed?) && m.conn == c }

  /** Connections are taken in the order in which they were queued. */
  ghost predicate FifoOk(s: State) { s.enqueued == Conns(s.taken) + s.queue }

  /** An accepted connection is pending at the dispatcher, has been queued, or is refused, exactly once;
      one taken from the queue is in the hands of one processor or closed, exactly once; and the closed
      ones are processed exactly once. */
  ghost predicate CountsOk(s: State, c: Conn) {
    && Times(s.enqueued, c) + Times(s.refused, c) + (if Pending(s.main, c) then 1 else 0) == (if c < s.accepted then 1 else 0)
    && Times(Conns(s.taken), c) == Held(s.procs, c) + Times(Conns(s.closed), c)
    && Times(Conns(s.processed), c) == Unclosed(s.procs, c) + Times(Conns(s.closed), c)
  }

  ghost predicate AccountOk(s: State) { FifoOk(s) && forall c: Conn :: CountsOk(s, c) }

  /** A processor has in hand only what it took itself, and what it has served and closed it took itself. */
  ghost predicate WorkersOk(s: State) {
    && (forall p, c :: 0 <= p < |s.procs| && Holding(s.procs[p], c) ==> Job(c, p) in s.taken)
    && (forall j :: j in s.processed || j in s.closed ==> j in s.taken)
  }

  ghost predicate Inv(s: State) { MutexOk(s) && WakeUpsOk(s) && ShutdownOk(s) && AccountOk(s) && WorkersOk(s) }

  // ---------- counting and updates ----------

  lemma {:induction false} CountUpdate(procs: seq<Proc>, p: nat, x: Proc)
    requires p < |procs|
    ensures CountSleeping(procs[p := x]) == CountSleeping(procs)
      - (if procs[p] == Sleeping then 1 else 0) + (if x == Sleeping then 1 else 0)
    ensures CountWoken(procs[p := x]) == CountWoken(procs)
      - (if YetToCheck(procs[p]) then 1 else 0) + (if YetToCheck(x) then 1 else 0)
    ensures procs[p] == Sleeping ==> CountSleeping(procs) > 0
  {
    var n := |procs| - 1;
    if p < n {
      CountUpdate(procs[..n], p, x);
      assert procs[p := x][..n] == procs[..n][p := x];
    } else {
      assert procs[p := x][..n] == procs[..n];
    }
  }

  lemma {:induction false} HeldUpdate(procs: seq<Proc>, p: nat, x: Proc, c: Conn)
    requires p < |procs|
    ensures Held(procs[p := x], c) == Held(procs, c)
      - (if Holding(procs[p], c) then 1 else 0) + (if Holding(x, c) then 1 else 0)
    ensures Unclosed(procs[p := x], c) == Unclosed(procs, c)
      - (if procs[p] == Served(c) then 1 else 0) + (if x == Served(c) then 1 else 0)
  {
    var n := |procs| - 1;
    if p < n {
      HeldUpdate(procs[..n], p, x, c);
      assert procs[p := x][..n] == procs[..n][p := x];
    } else {
      assert procs[p := x][..n] == procs[..n];
    }
  }

  lemma {:induction false} NoneCounted(procs: seq<Proc>)
    ensures CountSleeping(procs) > 0 ==> exists p :: 0 <= p < |procs| && procs[p] == Sleeping
    ensures CountWoken(procs) > 0 ==> exists p :: 0 <= p < |procs| && YetToCheck(procs[p])
  {
    if procs == [] {
    } else {
      var rest := procs[..|procs| - 1];
      NoneCounted(rest);
      assert forall p :: 0 <= p < |rest| ==> rest[p] == procs[p];
    }
  }

  // ---------- every step keeps the invariant ----------

  predicate OfMain(a: Action) {
    a.Accept? || a.LockEnq? || a.FailEnq? || a.Link? || a.SignalMain? || a.UnlockMain? || a.CloseRefused? ||
    a.StopAccepting? || a.SetEof? || a.Poll? || a.Cancel? || a.Join?
  }

  /** A processor stays where it is, unless it sleeps and is woken. */
  predicate StaysOrWakes(before: Proc, after: Proc) { after == before || (before == Sleeping && after == Woken) }

  lemma {:induction false} MainMoves(s: State, a: Action)
    requires OfMain(a) && Enabled(s, a)
    ensures var t := Do(s, a);
      |t.procs| == |s.procs| && forall p :: 0 <= p < |s.procs| ==> StaysOrWakes(s.procs[p], t.procs[p])
  {
    hide MayWake, SomeSleeps;
  }

  /** A step of a processor: what changes but for its own place and the mutex. */
  lemma {:induction false} ProcMoves(s: State, a: Action)
    requires !OfMain(a) && Enabled(s, a)
    ensures var t := Do(s, a);
      && a.p < |t.procs| == |s.procs|
      && t.main == s.main && t.eofWorker == s.eofWorker && t.cancel == s.cancel && (s.queue == [] ==> t.queue == [])
      && forall p :: 0 <= p < |s.procs| && p != a.p ==> StaysOrWakes(s.procs[p], t.procs[p])
  {
    hide MayWake, SomeSleeps;
  }

  lemma {:induction false} MutexMain(s: State, a: Action)
    requires MutexOk(s) && OfMain(a) && Enabled(s, a)
    ensures MutexOk(Do(s, a))
  {
    hide Enabled, Do;
    var t := Do(s, a);
    MainMoves(s, a);
    MainTakesOrGives(s, a);
    forall p | 0 <= p < |t.procs| ensures Holds(t.procs[p]) <==> t.mutex == ByProc(p) {
      assert StaysOrWakes(s.procs[p], t.procs[p]);
    }
  }

  /** The main thread takes the mutex when it is free, gives it back, or leaves it alone. */
  lemma {:induction false} MainTakesOrGives(s: State, a: Action)
    requires OfMain(a) && Enabled(s, a) && (s.mutex == ByMain <==> MainHolds(s.main))
    ensures var t := Do(s, a);
      && (t.mutex == ByMain <==> MainHolds(t.main))
      && (t.mutex == s.mutex || (!s.mutex.ByProc? && !t.mutex.ByProc?))
  {
    hide MayWake, SomeSleeps, Wake;
  }

  lemma {:induction false} MutexProc(s: State, a: Action)
    requires MutexOk(s) && !OfMain(a) && Enabled(s, a)
    ensures MutexOk(Do(s, a))
  {
    hide Enabled, Do;
    var t := Do(s, a);
    ProcMoves(s, a);
    assert Holds(s.procs[a.p]) <==> s.mutex == ByProc(a.p);
    TakesOrGives(s, a);
    forall p | 0 <= p < |t.procs| ensures Holds(t.procs[p]) <==> t.mutex == ByProc(p) {
      assert p != a.p ==> StaysOrWakes(s.procs[p], t.procs[p]);
    }
  }

  /** The processor that acts takes the mutex when it is free, gives it back, or leaves it alone. */
  lemma {:induction false} TakesOrGives(s: State, a: Action)
    requires !OfMain(a) && Enabled(s, a) && (Holds(s.procs[a.p]) <==> s.mutex == ByProc(a.p))
    ensures var t, me := Do(s, a), ByProc(a.p);
      && |t.procs| == |s.procs| && (Holds(t.procs[a.p]) <==> t.mutex == me)
      && (t.mutex == s.mutex || (s.mutex == Free && t.mutex == me) || (s.mutex == me && t.mutex == Free))
  {
    hide MayWake, SomeSleeps;
  }

  lemma {:induction false} WakeCounts(s: State, w: nat)
    requires MayWake(s, w)
    ensures var t := Wake(s.procs, w);
      if SomeSleeps(s) then CountSleeping(t) == CountSleeping(s.procs) - 1 && CountWoken(t) == CountWoken(s.procs) + 1
      else t == s.procs && CountSleeping(t) == 0
    ensures forall p :: 0 <= p < |s.procs| && s.procs[p] != Sleeping ==> Wake(s.procs, w)[p] == s.procs[p]
  {
    NoneCounted(s.procs);
    if SomeSleeps(s) { CountUpdate(s.procs, w, Woken); }
  }

  lemma {:induction false} WakeUpsMain(s: State, a: Action)
    requires WakeUpsOk(s) && OfMain(a) && Enabled(s, a)
    ensures WakeUpsOk(Do(s, a))
  {
    hide CountSleeping, CountWoken, MayWake, SomeSleeps, Wake;
    if a.SignalMain? { WakeCounts(s, a.w); }
  }

  lemma {:induction false} WakeUpsProc(s: State, a: Action)
    requires WakeUpsOk(s) && ShutdownOk(s) && !OfMain(a) && Enabled(s, a)
    ensures WakeUpsOk(Do(s, a))
  {
    hide CountSleeping, CountWoken, MayWake, SomeSleeps, Wake;
    var t := Do(s, a);
    ProcsAfter(s, a);
    if a.SignalProc? { WakeCounts(s, a.w); }
    CountUpdate(ProcsBefore(s, a), a.p, t.procs[a.p]);
  }

  lemma {:induction false} LeavingMain(s: State, a: Action)
    requires LeavingOk(s) && OfMain(a) && Enabled(s, a)
    ensures LeavingOk(Do(s, a))
  {
    hide MayWake, SomeSleeps, Wake;
    var t := Do(s, a);
    MainMoves(s, a);
    forall p | 0 <= p < |t.procs| ensures LeaverOk(t, t.procs[p]) {
      assert LeaverOk(s, s.procs[p]) && StaysOrWakes(s.procs[p], t.procs[p]);
    }
  }

  lemma {:induction false} CancelsMain(s: State, a: Action)
    requires CancelsOk(s) && OfMain(a) && Enabled(s, a)
    ensures CancelsOk(Do(s, a))
  {
    hide MayWake, SomeSleeps, Wake;
    MainMoves(s, a);
  }

  lemma {:induction false} LeavingProc(s: State, a: Action)
    requires ShutdownOk(s) && !OfMain(a) && Enabled(s, a)
    ensures LeavingOk(Do(s, a))
  {
    hide Enabled, Do;
    var t := Do(s, a);
    ProcMoves(s, a);
    assert LeaverOk(s, s.procs[a.p]);
    ActorLeaves(s, a);
    forall p | 0 <= p < |t.procs| && p != a.p ensures LeaverOk(t, t.procs[p]) {
      assert LeaverOk(s, s.procs[p]) && StaysOrWakes(s.procs[p], t.procs[p]);
    }
  }

  lemma {:induction false} ActorLeaves(s: State, a: Action)
    requires !OfMain(a) && Enabled(s, a) && LeaverOk(s, s.procs[a.p]) && |s.cancel| == |s.procs|
    requires s.cancel[a.p] ==> s.eofWorker && s.queue == []
    ensures |Do(s, a).procs| == |s.procs| && LeaverOk(Do(s, a), Do(s, a).procs[a.p]) && s.procs[a.p] != Exited
  {
    hide MayWake, SomeSleeps;
  }

  lemma {:induction false} CancelsProc(s: State, a: Action)
    requires ShutdownOk(s) && !OfMain(a) && Enabled(s, a)
    ensures CancelsOk(Do(s, a))
  {
    hide Enabled, Do;
    var t := Do(s, a);
    ProcMoves(s, a);
    assert LeaverOk(s, s.procs[a.p]);
    ActorLeaves(s, a);
    forall p | 0 <= p < |t.procs| && s.procs[p] == Exited ensures t.procs[p] == Exited {
      assert StaysOrWakes(s.procs[p], t.procs[p]);
    }
  }

  lemma {:induction false} ShutdownStep(s: State, a: Action)
    requires ShutdownOk(s) && Enabled(s, a)
    ensures ShutdownOk(Do(s, a))
  {
    hide LeavingOk, CancelsOk, Enabled, Do;
    if OfMain(a) {
      LeavingMain(s, a);
      CancelsMain(s, a);
    } else {
      LeavingProc(s, a);
      CancelsProc(s, a);
    }
  }

  lemma {:induction false} FifoStep(s: State, a: Action)
    requires FifoOk(s) && Enabled(s, a)
    ensures FifoOk(Do(s, a))
  {
    hide MayWake, SomeSleeps, Wake;
    if a.Link? { assert Conns(s.taken) + (s.queue + [s.main.conn]) == Conns(s.taken) + s.queue + [s.main.conn]; }
    if a.Test? && s.queue != [] {
      ConnsSnoc(s.taken, Job(s.queue[0], a.p));
      assert Conns(s.taken) + s.queue == Conns(s.taken) + [s.queue[0]] + s.queue[1..];
    }
  }

  lemma {:induction false} ConnsSnoc(js: seq<Job>, j: Job)
    ensures Conns(js + [j]) == Conns(js) + [j.conn]
  {
  }

  lemma {:induction false} JobSnoc(js: seq<Job>, j: Job, c: Conn)
    ensures Times(Conns(js + [j]), c) == Times(Conns(js), c) + if j.conn == c then 1 else 0
  {
    hide Times, Conns;
    ConnsSnoc(js, j);
    Snoc(Conns(js), j.conn, c);
  }

  lemma {:induction false} Snoc(q: seq<Conn>, x: Conn, c: Conn)
    ensures Times(q + [x], c) == Times(q, c) + if x == c then 1 else 0
  {
    assert (q + [x])[..|q|] == q;
  }

  lemma {:induction false} WakeHeld(procs: seq<Proc>, w: nat, c: Conn)
    ensures Held(Wake(procs, w), c) == Held(procs, c) && Unclosed(Wake(procs, w), c) == Unclosed(procs, c)
  {
    if w < |procs| && procs[w] == Sleeping { HeldUpdate(procs, w, Woken, c); }
  }

  lemma {:induction false} CountsMain(s: State, a: Action, c: Conn)
    requires CountsOk(s, c) && OfMain(a) && Enabled(s, a)
    ensures CountsOk(Do(s, a), c)
  {
    hide MayWake, SomeSleeps, Held, Unclosed, Wake, Times;
    match a {
      case SignalMain(w) => WakeHeld(s.procs, w, c);
      case Link => Snoc(s.enqueued, s.main.conn, c);
      case CloseRefused => Snoc(s.refused, s.main.conn, c);
      case _ =>
    }
  }

  /** The places of all processors but the one that acts. */
  ghost function ProcsBefore(s: State, a: Action): seq<Proc> {
    if a.SignalProc? then Wake(s.procs, a.w) else s.procs
  }

  lemma {:induction false} ProcsAfter(s: State, a: Action)
    requires !OfMain(a) && Enabled(s, a)
    ensures var b := ProcsBefore(s, a);
      a.p < |b| == |s.procs| && b[a.p] == s.procs[a.p] && Do(s, a).procs == b[a.p := Do(s, a).procs[a.p]]
  {
    hide MayWake, SomeSleeps;
  }

  /** Taking a connection, serving it and closing it each move it from one place to the next. */
  lemma {:induction false} CountsProc(s: State, a: Action, c: Conn)
    requires CountsOk(s, c) && !OfMain(a) && Enabled(s, a)
    ensures CountsOk(Do(s, a), c)
  {
    hide MayWake, SomeSleeps, Held, Unclosed, Wake, Times;
    var t := Do(s, a);
    ProcsAfter(s, a);
    if a.SignalProc? { WakeHeld(s.procs, a.w, c); }
    HeldUpdate(ProcsBefore(s, a), a.p, t.procs[a.p], c);
    match a {
      case Close(p) => JobSnoc(s.closed, Job(s.procs[p].conn, p), c);
      case Process(p) => JobSnoc(s.processed, Job(s.procs[p].conn, p), c);
      case Test(p) => if s.queue != [] { JobSnoc(s.taken, Job(s.queue[0], p), c); }
      case _ =>
    }
  }

  lemma {:induction false} WorkersMain(s: State, a: Action)
    requires WorkersOk(s) && OfMain(a) && Enabled(s, a)
    ensures WorkersOk(Do(s, a))
  {
    var t := Do(s, a);
    MainMoves(s, a);
    assert t.taken == s.taken && t.processed == s.processed && t.closed == s.closed by { hide MayWake, SomeSleeps, Wake; }
    hide Enabled, Do;
    forall p, c | 0 <= p < |t.procs| && Holding(t.procs[p], c) ensures Job(c, p) in t.taken {
      assert StaysOrWakes(s.procs[p], t.procs[p]) && Holding(s.procs[p], c);
    }
  }

  lemma {:induction false} WorkersProc(s: State, a: Action)
    requires WorkersOk(s) && !OfMain(a) && Enabled(s, a)
    ensures WorkersOk(Do(s, a))
  {
    hide Enabled, Do;
    var t := Do(s, a);
    ProcMoves(s, a);
    ActorJobs(s, a);
    forall p, c | 0 <= p < |t.procs| && Holding(t.procs[p], c) ensures Job(c, p) in t.taken {
      if p != a.p { assert StaysOrWakes(s.procs[p], t.procs[p]) && Holding(s.procs[p], c); }
    }
  }

  /** What the acting processor takes, serves and closes it has in hand. */
  lemma {:induction false} ActorJobs(s: State, a: Action)
    requires WorkersOk(s) && !OfMain(a) && Enabled(s, a)
    ensures var t := Do(s, a);
      && |t.procs| == |s.procs|
      && (forall j :: j in s.taken ==> j in t.taken)
      && (forall c :: Holding(t.procs[a.p], c) ==> Job(c, a.p) in t.taken)
      && (forall j :: j in t.processed || j in t.closed ==> j in t.taken)
  {
    hide MayWake, SomeSleeps;
    var t := Do(s, a);
    ProcMoves(s, a);
    forall c | Holding(t.procs[a.p], c) ensures Job(c, a.p) in t.taken {
      if a.Test? {
        assert t.taken[|s.taken|] == Job(c, a.p);
      } else {
        assert Holding(s.procs[a.p], c);
      }
    }
    if a.Process? || a.Close? { assert Holding(s.procs[a.p], s.procs[a.p].conn); }
  }

  /** Every step of every thread keeps the invariant. */
  lemma {:induction false} StepKeeps(s: State, a: Action)
    requires Inv(s) && Enabled(s, a)
    ensures Inv(Do(s, a))
  {
    hide MutexOk, WakeUpsOk, ShutdownOk, CountsOk, FifoOk, WorkersOk, Enabled, Do;
    if OfMain(a) { MutexMain(s, a); } else { MutexProc(s, a); }
    if OfMain(a) { WakeUpsMain(s, a); } else { WakeUpsProc(s, a); }
    if OfMain(a) { WorkersMain(s, a); } else { WorkersProc(s, a); }
    ShutdownStep(s, a);
    FifoStep(s, a);
    forall c: Conn ensures CountsOk(Do(s, a), c) {
      if OfMain(a) { CountsMain(s, a, c); } else { CountsProc(s, a, c); }
    }
  }

  // ---------- whole runs ----------

  /** A run: what the scheduler, the network and the operating system choose is in the actions. */
  ghost predicate IsRun(n: nat, actions: seq<Action>, states: seq<State>) {
    && |states| == |actions| + 1 && states[0] == Start(n)
    && forall i :: 0 <= i < |actions| ==> Enabled(states[i], actions[i]) && states[i + 1] == Do(states[i], actions[i])
  }

  lemma {:induction false} AllTop(n: nat, c: Conn)
    ensures var procs := seq(n, _ => Top);
      CountSleeping(procs) == 0 && Held(procs, c) == 0 && Unclosed(procs, c) == 0
  {
    if n == 0 {
    } else {
      AllTop(n - 1, c);
      assert seq(n, _ => Top)[..n - 1] == seq(n - 1, _ => Top);
    }
  }

  lemma {:induction false} RunKeeps(n: nat, actions: seq<Action>, states: seq<State>, i: nat)
    requires IsRun(n, actions, states) && i < |states|
    ensures Inv(states[i]) && |states[i].procs| == n
  {
    if i == 0 {
      forall c: Conn ensures CountsOk(Start(n), c) && CountSleeping(Start(n).procs) == 0 { AllTop(n, c); }
      AllTop(n, 0);
    } else {
      RunKeeps(n, actions, states, i - 1);
      hide Inv, Do;
      StepKeeps(states[i - 1], actions[i - 1]);
      SameCrew(states[i - 1], actions[i - 1]);
    }
  }

  lemma {:induction false} SameCrew(s: State, a: Action)
    requires Enabled(s, a)
    ensures |Do(s, a).procs| == |s.procs|
  {
    hide MayWake, SomeSleeps;
  }

  ghost predicate Idle(pc: Proc) { pc == Sleeping || Gone(pc) }

  lemma {:induction false} SleepingCounts(procs: seq<Proc>, p: nat)
    requires p < |procs| && procs[p] == Sleeping
    ensures CountSleeping(procs) > 0
  {
    CountUpdate(procs, p, Sleeping);
  }

  ghost function Underway(procs: seq<Proc>): set<nat> {
    set p: nat | p < |procs| && (procs[p] == Woken || procs[p] == CheckBlocking(true))
  }

  lemma {:induction false} UnderwayCount(procs: seq<Proc>)
    ensures |Underway(procs)| == CountWoken(procs)
  {
    if procs == [] {
    } else {
      var n := |procs| - 1;
      UnderwayCount(procs[..n]);
      var fewer := Underway(procs[..n]);
      assert Underway(procs) == if YetToCheck(procs[n]) then fewer + {n} else fewer;
    }
  }

  /** The main result about wake-ups: in every state of every run, if a processor sleeps then there is
      a woken processor under way for every queued connection (whose signal has been sent); so a queued
      connection never meets a pool in which everybody sleeps or has left. */
  lemma {:induction false} NoLostWakeUp(n: nat, actions: seq<Action>, states: seq<State>, i: nat)
    requires n > 0 && IsRun(n, actions, states) && i < |states|
    ensures var s := states[i];
      Sleeping in s.procs && s.main != EnqLinked ==>
        |s.queue| <= |set p: nat | p < |s.procs| && (s.procs[p] == Woken || s.procs[p] == CheckBlocking(true))|
    ensures var s := states[i];
      s.queue != [] && s.main != EnqLinked ==>
        exists p :: 0 <= p < |s.procs| && s.procs[p] != Sleeping && s.procs[p] != Leaving && s.procs[p] != Exited
  {
    RunKeeps(n, actions, states, i);
    var s := states[i];
    AwakeForQueue(s);
    if p :| 0 <= p < |s.procs| && s.procs[p] == Sleeping { SleepingCounts(s.procs, p); }
    UnderwayCount(s.procs);
    assert Underway(s.procs) == set p: nat | p < |s.procs| && (s.procs[p] == Woken || s.procs[p] == CheckBlocking(true));
  }

  lemma {:induction false} AwakeForQueue(s: State)
    requires WakeUpsOk(s) && ShutdownOk(s) && |s.procs| > 0
    ensures s.queue != [] && s.main != EnqLinked ==> exists p :: 0 <= p < |s.procs| && !Idle(s.procs[p])
  {
    if s.queue != [] && s.main != EnqLinked && s.procs[0] == Sleeping {
      SleepingCounts(s.procs, 0);
      NoneCounted(s.procs);
      var p :| 0 <= p < |s.procs| && YetToCheck(s.procs[p]);
      assert !Idle(s.procs[p]);
    }
    assert LeaverOk(s, s.procs[0]);
  }

  lemma {:induction false} AllExited(procs: seq<Proc>, c: Conn)
    requires forall p :: 0 <= p < |procs| ==> procs[p] == Exited
    ensures Held(procs, c) == 0 && Unclosed(procs, c) == 0
  {
    if procs == [] {
    } else {
      AllExited(procs[..|procs| - 1], c);
    }
  }

  lemma {:induction false} TimesIn(js: seq<Job>, c: Conn)
    ensures Times(Conns(js), c) > 0 <==> exists w :: Job(c, w) in js
  {
    if js == [] {
    } else {
      var rest, j := js[..|js| - 1], js[|js| - 1];
      TimesIn(rest, c);
      assert js == rest + [j];
      JobSnoc(rest, j, c);
      if w :| Job(c, w) in js { assert Job(c, w) in rest || j == Job(c, w); }
      if j.conn == c { assert Job(c, j.worker) in js; }
    }
  }

  lemma {:induction false} OneJob(js: seq<Job>, j: Job, k: Job)
    requires j in js && k in js && j.conn == k.conn && Times(Conns(js), j.conn) <= 1
    ensures j == k
  {
    var rest, l := js[..|js| - 1], js[|js| - 1];
    assert js == rest + [l];
    JobSnoc(rest, l, j.conn);
    if l.conn == j.conn {
      TimesIn(rest, j.conn);
      assert j == l && k == l by {
        assert j in rest ==> Job(j.conn, j.worker) in rest;
        assert k in rest ==> Job(j.conn, k.worker) in rest;
      }
    } else {
      OneJob(rest, j, k);
    }
  }

  /** When each connection is taken at most once, jobs that were taken agree with the taken ones as soon as the
      connections do. */
  lemma {:induction false} SameJobs(js: seq<Job>, taken: seq<Job>, j: Job)
    requires (forall k :: k in js ==> k in taken) && Times(Conns(js), j.conn) == Times(Conns(taken), j.conn) <= 1
    ensures j in js <==> j in taken
  {
    hide Times, Conns;
    if j in taken {
      assert Job(j.conn, j.worker) in taken;
      TimesIn(taken, j.conn);
      TimesIn(js, j.conn);
      var w :| Job(j.conn, w) in js;
      OneJob(taken, j, Job(j.conn, w));
    }
  }

  lemma {:induction false} JobTimes(js: seq<Job>, j: Job)
    ensures multiset(js)[j] <= Times(Conns(js), j.conn)
  {
    if js == [] {
    } else {
      var rest, l := js[..|js| - 1], js[|js| - 1];
      JobTimes(rest, j);
      assert js == rest + [l];
      JobSnoc(rest, l, j.conn);
    }
  }

  lemma {:induction false} TimesIs(q: seq<Conn>, c: Conn)
    ensures Times(q, c) == multiset(q)[c]
  {
    if q == [] {
    } else {
      var rest := q[..|q| - 1];
      TimesIs(rest, c);
      assert q == rest + [q[|q| - 1]];
    }
  }

  /** Jobs on the same connections as the taken ones, each connection once, are the taken ones. */
  lemma {:induction false} AsTaken(js: seq<Job>, taken: seq<Job>)
    requires forall k :: k in js ==> k in taken
    requires forall c: Conn :: Times(Conns(js), c) == Times(Conns(taken), c) <= 1
    ensures multiset(js) == multiset(taken)
  {
    hide Times, Conns;
    forall j: Job ensures multiset(js)[j] == multiset(taken)[j] {
      assert Times(Conns(js), j.conn) == Times(Conns(taken), j.conn) <= 1;
      SameJobs(js, taken, j);
      JobTimes(js, j);
      JobTimes(taken, j);
      assert j in js <==> j in multiset(js);
      assert j in taken <==> j in multiset(taken);
    }
  }

  /** The main result about shutdown: when the last worker has been joined, every connection that was
      queued has been processed exactly once and closed exactly once, both by the one worker that took it;
      every other accepted connection was closed exactly once by the dispatcher; and connections were
      taken in the order in which they were queued. */
  lemma {:induction false} DrainedWhenJoined(n: nat, actions: seq<Action>, states: seq<State>, i: nat, c: Conn)
    requires IsRun(n, actions, states) && i < |states| && states[i].main == Done
    ensures var s := states[i];
      && |s.taken| == |s.enqueued| && (forall k :: 0 <= k < |s.taken| ==> s.taken[k].conn == s.enqueued[k])
      && multiset(s.processed) == multiset(s.closed) == multiset(s.taken)
      && multiset(s.enqueued)[c] + multiset(s.refused)[c] == if c < s.accepted then 1 else 0
  {
    RunKeeps(n, actions, states, i);
    var s := states[i];
    assert CountsOk(s, c) && s.enqueued == Conns(s.taken) by { assert Conns(s.taken) + [] == Conns(s.taken); }
    TimesIs(s.enqueued, c);
    TimesIs(s.refused, c);
    forall d: Conn ensures Times(Conns(s.processed), d) == Times(Conns(s.closed), d) == Times(Conns(s.taken), d) <= 1 {
      AllExited(s.procs, d);
      assert CountsOk(s, d);
    }
    AsTaken(s.processed, s.taken);
    AsTaken(s.closed, s.taken);
  }

  // ---------- shutdown comes to an end ----------

  function Rank(pc: Proc): nat {
    match pc
    case Taken(_) => 12 case Signalled(_) => 9 case Serving(_) => 8 case Served(_) => 7 case Closed => 6
    case Top => 5 case LockBlocking => 4 case LockTry => 4 case Woken => 4
    case CheckBlocking(_) => 3 case CheckTry => 3 case Sleeping => 2 case Leaving => 1 case Exited => 0
  }

  function Ranks(procs: seq<Proc>): nat {
    if procs == [] then 0 else Ranks(procs[..|procs| - 1]) + Rank(procs[|procs| - 1])
  }

  ghost function MainRank(s: State): int {
    var n := |s.procs|;
    match s.main
    case Polling => 2 * n + 4
    case Cancelling(i) => 2 * n + 3 - i
    case Joining(i) => n + 1 - i
    case _ => 0
  }

  /** The work left once eof_worker_flag is set. */
  ghost function Work(s: State): int { 10 * |s.queue| + Ranks(s.procs) + MainRank(s) }

  lemma {:induction false} RankUpdate(procs: seq<Proc>, p: nat, x: Proc)
    requires p < |procs|
    ensures Ranks(procs[p := x]) == Ranks(procs) - Rank(procs[p]) + Rank(x)
  {
    hide Rank;
    var n := |procs| - 1;
    if p < n {
      RankUpdate(procs[..n], p, x);
      assert procs[p := x][..n] == procs[..n][p := x];
    } else {
      assert procs[p := x][..n] == procs[..n];
    }
  }

  /** A wake-up nobody sent, or a look at a queue that is not empty yet. */
  predicate NoWork(s: State, a: Action) { a.Spurious? || (a == Poll && s.queue != []) }

  lemma {:induction false} WorkMain(s: State, a: Action)
    requires ShutdownOk(s) && s.eofWorker && OfMain(a) && Enabled(s, a) && !NoWork(s, a)
    ensures 0 <= Work(Do(s, a)) < Work(s)
  {
    hide MayWake, SomeSleeps, Ranks, Wake;
  }

  lemma {:induction false} WorkProc(s: State, a: Action)
    requires ShutdownOk(s) && s.eofWorker && !OfMain(a) && Enabled(s, a) && !NoWork(s, a)
    ensures 0 <= Work(Do(s, a)) < Work(s)
  {
    hide Enabled, Do, Ranks, Rank, Wake, LeavingOk;
    var t := Do(s, a);
    ProcMoves(s, a);
    ProcsAfter(s, a);
    if a.SignalProc? { WakeRank(s.procs, a.w); }
    RankUpdate(ProcsBefore(s, a), a.p, t.procs[a.p]);
    assert LeaverOk(s, s.procs[a.p]) by { LeaversOk(s); }
    ActorWorks(s, a);
  }

  lemma {:induction false} LeaversOk(s: State)
    requires LeavingOk(s)
    ensures forall p :: 0 <= p < |s.procs| ==> LeaverOk(s, s.procs[p])
  {
  }

  /** The processor that acts gets nearer to its exit by more than the entries it takes from the queue
      and the processors it wakes cost. */
  lemma {:induction false} ActorWorks(s: State, a: Action)
    requires !OfMain(a) && Enabled(s, a) && !NoWork(s, a) && s.eofWorker
    ensures var t := Do(s, a);
      && |t.procs| == |s.procs|
      && 10 * |t.queue| + Rank(t.procs[a.p]) + (if a.SignalProc? then 2 else 0) < 10 * |s.queue| + Rank(s.procs[a.p])
  {
    hide MayWake, SomeSleeps;
  }

  lemma {:induction false} WakeRank(procs: seq<Proc>, w: nat)
    ensures Ranks(Wake(procs, w)) <= Ranks(procs) + 2
  {
    if w < |procs| && procs[w] == Sleeping { RankUpdate(procs, w, Woken); }
  }

  lemma {:induction false} ProcCanMove(s: State, p: nat) returns (a: Action)
    requires p < |s.procs| == |s.cancel| && (s.mutex == Free || (s.mutex == ByProc(p) && Holds(s.procs[p])))
    requires s.procs[p] != Exited && (s.procs[p] == Sleeping ==> s.cancel[p])
    ensures Enabled(s, a) && !NoWork(s, a) && !OfMain(a) && a.p == p
  {
    match s.procs[p] {
      case Top => a := ReadFlag(p);
      case LockBlocking => a := Lock(p);
      case LockTry => a := Lock(p);
      case Woken => a := Lock(p);
      case CheckBlocking(_) => a := Test(p);
      case CheckTry => a := Test(p);
      case Sleeping => a := CancelWait(p);
      case Taken(_) =>
        if SomeSleeps(s) {
          var w :| 0 <= w < |s.procs| && s.procs[w] == Sleeping;
          a := SignalProc(p, w);
        } else {
          a := SignalProc(p, 0);
        }
      case Signalled(_) => a := Unlock(p);
      case Serving(_) => a := Process(p);
      case Served(_) => a := Close(p);
      case Closed => a := TestCancel(p);
      case Leaving => a := Leave(p);
    }
  }

  /** The main result about progress: once eof_worker_flag is set, every step but a spurious wake-up or
      an idle poll uses up some of a bounded amount of work, and until the main thread is done there
      always is such a step to take: shutdown never gets stuck and, spurious wake-ups apart, comes to
      an end. */
  lemma {:induction false} ShutdownProgress(n: nat, actions: seq<Action>, states: seq<State>, i: nat)
    requires n > 0 && IsRun(n, actions, states) && i < |states| && states[i].eofWorker
    ensures var s := states[i];
      s.main != Done ==> exists a :: Enabled(s, a) && !a.Spurious? && (a == Poll ==> s.queue == [])
    ensures var s := states[i];
      forall a :: Enabled(s, a) && !a.Spurious? && (a == Poll ==> s.queue == []) ==> 0 <= Work(Do(s, a)) < Work(s)
  {
    RunKeeps(n, actions, states, i);
    var s := states[i];
    forall a | Enabled(s, a) && !NoWork(s, a) ensures 0 <= Work(Do(s, a)) < Work(s) {
      if OfMain(a) { WorkMain(s, a); } else { WorkProc(s, a); }
    }
    if s.main != Done { var a := SomeoneCanMove(s); }
  }

  lemma {:induction false} SomeoneCanMove(s: State) returns (a: Action)
    requires Inv(s) && s.eofWorker && s.main != Done && |s.procs| > 0
    ensures Enabled(s, a) && !NoWork(s, a)
  {
    if s.mutex.ByProc? {
      a := ProcCanMove(s, s.mutex.p);
    } else if s.main.Cancelling? {
      a := Cancel;
    } else if s.main == Polling {
      if s.queue == [] {
        a := Poll;
      } else {
        AwakeForQueue(s);
        var p :| 0 <= p < |s.procs| && !Idle(s.procs[p]);
        a := ProcCanMove(s, p);
      }
    } else if s.main.i < |s.procs| && s.procs[s.main.i] != Exited {
      a := ProcCanMove(s, s.main.i);
    } else {
      a := Join;
    }
  }

  // ---------- what a thread waits for ----------

  /** A processor can always take a step of its own, unless it has exited, sleeps without having been cancelled, or
      needs the mutex while somebody holds it. */
  lemma {:induction false} ProcWaits(s: State, p: nat)
    requires Inv(s) && p < |s.procs|
    ensures (forall a :: !OfMain(a) && a.p == p && Enabled(s, a) ==> a.Spurious?) <==>
      || s.procs[p] == Exited
      || (s.procs[p] == Sleeping && !s.cancel[p])
      || (s.mutex != Free && (s.procs[p] == LockBlocking || s.procs[p] == LockTry || s.procs[p] == Leaving))
      || (s.mutex != Free && s.procs[p] == Woken && !s.cancel[p])
  {
    hide WakeUpsOk, LeavingOk, AccountOk, WorkersOk;
    if s.procs[p] == Woken && s.cancel[p] {
      assert Enabled(s, CancelWait(p));
    } else if s.procs[p] != Exited && (s.procs[p] == Sleeping ==> s.cancel[p]) &&
        (s.mutex == Free || (s.mutex == ByProc(p) && Holds(s.procs[p]))) {
      var a := ProcCanMove(s, p);
      assert !OfMain(a) && a.p == p;
    } else if s.mutex != Free && !Holds(s.procs[p]) {
      match s.procs[p]
      case Top => assert Enabled(s, ReadFlag(p));
      case Serving(_) => assert Enabled(s, Process(p));
      case Served(_) => assert Enabled(s, Close(p));
      case Closed => assert Enabled(s, TestCancel(p));
      case Sleeping => if s.cancel[p] { assert Enabled(s, CancelWait(p)); }
      case _ =>
    }
  }

  /** So can the main thread, unless it is done, joins a worker that has not exited, or polls the queue while
      somebody holds the mutex. */
  lemma {:induction false} MainWaits(s: State)
    requires Inv(s)
    ensures (forall a :: OfMain(a) ==> !Enabled(s, a)) <==>
      || s.main == Done
      || (s.main.Joining? && s.main.i < |s.procs| && s.procs[s.main.i] != Exited)
      || (s.main == Polling && s.mutex != Free)
    ensures s.main == Accepting ==> Enabled(s, Accept) && Enabled(s, StopAccepting)
    ensures s.main.EnqLock? ==> Enabled(s, FailEnq) && (s.mutex == Free ==> Enabled(s, LockEnq))
  {
    hide WakeUpsOk, LeavingOk, AccountOk, WorkersOk, Inv;
    match s.main
    case Accepting => assert Enabled(s, Accept);
    case EnqLock(_) => assert Enabled(s, FailEnq);
    case EnqHeld(_) => assert Enabled(s, Link);
    case EnqLinked =>
      if SomeSleeps(s) {
        var w :| 0 <= w < |s.procs| && s.procs[w] == Sleeping;
        assert Enabled(s, SignalMain(w));
      } else {
        assert Enabled(s, SignalMain(0));
      }
    case EnqSignalled => assert Enabled(s, UnlockMain);
    case EnqFailed(_) => assert Enabled(s, CloseRefused);
    case Stopped => assert Enabled(s, SetEof);
    case Polling => if s.mutex == Free { assert Enabled(s, Poll); }
    case Cancelling(_) => assert Enabled(s, Cancel);
    case Joining(i) => if i < |s.procs| ==> s.procs[i] == Exited { assert Enabled(s, Join); }
    case Done =>
  }

  // ---------- which workers the shutdown loops reach ----------

  /** `launched_worker_nb` after the creation loop of `auksd_main_loop`; `created[i]` tells whether
      `pthread_create` succeeded for worker `i`. */
  method CountLaunched(created: seq<bool>) returns (launched: nat)
    ensures launched == Launched(created) == |set i: nat | i < |created| && created[i]|
  {
    launched := 0;
    for i := 0 to |created|
      invariant launched == Launched(created[..i]) <= i
    {
      assert created[..i + 1][..i] == created[..i];
      if created[i] {
        launched := launched + 1;
      }
    }
    assert created[..|created|] == created;
    LaunchedIs(created);
    assert Those(created) == set i: nat | i < |created| && created[i];
  }

  ghost function Those(created: seq<bool>): set<nat> { set i: nat | i < |created| && created[i] }

  lemma {:induction false} LaunchedIs(created: seq<bool>)
    ensures Launched(created) == |Those(created)|
  {
    if created == [] {
    } else {
      var n := |created| - 1;
      LaunchedIs(created[..n]);
      var fewer := Those(created[..n]);
      assert Those(created) == if created[n] then fewer + {n} else fewer;
    }
  }

  function Launched(created: seq<bool>): (n: nat)
    ensures n <= |created|
  {
    if created == [] then 0 else Launched(created[..|created| - 1]) + if created[|created| - 1] then 1 else 0
  }

  /** The cancel and join loops visit the workers with an index below `launched_worker_nb`.  They are
      the launched ones if and only if no worker was created after one that could not be; the state
      machine above is about that case. */
  lemma {:induction false} LoopsReachLaunched(created: seq<bool>)
    ensures (forall i :: 0 <= i < |created| ==> (i < Launched(created) <==> created[i])) <==>
            (forall i, j :: 0 <= i < j < |created| ==> (created[j] ==> created[i]))
  {
    if created == [] {
    } else {
      var n := |created| - 1;
      var rest := created[..n];
      LoopsReachLaunched(rest);
      assert forall i :: 0 <= i < n ==> rest[i] == created[i];
      if created[n] {
        if Launched(rest) < n {
          LaunchedGap(rest);
        } else {
          LaunchedAll(rest);
        }
      }
    }
  }

  lemma {:induction false} LaunchedGap(created: seq<bool>)
    requires Launched(created) < |created|
    ensures exists i :: 0 <= i < |created| && !created[i]
  {
    if !created[|created| - 1] {
    } else {
      LaunchedGap(created[..|created| - 1]);
      var i :| 0 <= i < |created| - 1 && !created[..|created| - 1][i];
      assert !created[i];
    }
  }

  lemma {:induction false} LaunchedAll(created: seq<bool>)
    requires Launched(created) == |created|
    ensures forall i :: 0 <= i < |created| ==> created[i]
  {
    if created == [] {
    } else {
      LaunchedAll(created[..|created| - 1]);
    }
  }
}
