/**
 The worker pool as a transition system: any number of workers and submitters and one closing thread,
 interleaved at every statement that touches shared state.  `lock` is the pool's mutex.  A thread inside
 `pthread_cond_wait` is asleep; a signal wakes at least one sleeper if there is one, and a sleeper may
 also wake by itself.
 */
module ThreadPool {
  import opened Common
  import opened JobRing

  datatype Worker =
    | WantLock            // at the top of the loop
    | Locked              // holds the mutex, about to test the wait condition
    | Asleep              // in the wait on queue_not_empty
    | Woken               // woken, waiting for the mutex
    | Taking              // left the wait loop with a job to take
    | Took(job: Job)      // job removed, queue_not_full not yet signalled
    | Leaving(job: Job)   // signalled, about to unlock
    | Handling(job: Job)
    | Exited

  datatype Submitter =
    | Idle
    | Wanting(job: Job)
    | Testing(job: Job)   // holds the mutex
    | Waiting(job: Job)   // in the wait on queue_not_full
    | Roused(job: Job)
    | Admitted(job: Job)  // left the wait loop, pool open
    | Stored(job: Job)    // job stored, queue_not_empty not yet signalled
    | Releasing(job: Job)

  /** The thread that shuts the pool down and destroys it. */
  datatype Closer = Running | Calling | Flagging | WakingWorkers | WakingSubmitters | Unlocking | Joining | Destroyed

  datatype Holder = Free | ByWorker(w: nat) | BySubmitter(i: nat) | ByCloser

  datatype State = State(
    ring: Ring,
    shuttingDown: bool,
    lock: Holder,
    workers: seq<Worker>,
    submitters: seq<Submitter>,
    closer: Closer,
    // history
    accepted: seq<Job>,
    refused: seq<Job>,
    dequeued: seq<Job>,
    handled: multiset<Job>,
    closed: seq<int>)

  datatype WorkerAct = Acquire | Test | Take | Signal(woken: set<nat>) | Unlock | Return | WakeUp

  datatype SubmitterAct = Call(job: Job) | Lock | Check | Store | Notify(woken: set<nat>) | Release | GetUp

  datatype CloserAct = Shutdown | Enter | Flag | WakeAllWorkers | WakeAllSubmitters | Leave | Join

  datatype Step = W(w: nat, wa: WorkerAct) | S(i: nat, sa: SubmitterAct) | C(ca: CloserAct)

  function Start(workers: nat, submitters: nat, capacity: nat): State {
    State(Empty(capacity), false, Free, seq(workers, _ => WantLock), seq(submitters, _ => Idle), Running,
          [], [], [], multiset{}, [])
  }

  /** Legal outcomes of one signal: only sleepers wake, and at least one if there is one. */
  predicate WakesWorkers(ws: seq<Worker>, woken: set<nat>) {
    && (forall k :: k in woken ==> k < |ws| && ws[k] == Asleep)
    && (woken == {} ==> forall k :: 0 <= k < |ws| ==> ws[k] != Asleep)
  }

  predicate WakesSubmitters(ss: seq<Submitter>, woken: set<nat>) {
    && (forall k :: k in woken ==> k < |ss| && ss[k].Waiting?)
    && (woken == {} ==> forall k :: 0 <= k < |ss| ==> !ss[k].Waiting?)
  }

  function WakeWorkers(ws: seq<Worker>, woken: set<nat>): (r: seq<Worker>)
    ensures |r| == |ws|
  {
    seq(|ws|, k requires 0 <= k < |ws| => if k in woken && ws[k] == Asleep then Woken else ws[k])
  }

  function WakeSubmitters(ss: seq<Submitter>, woken: set<nat>): (r: seq<Submitter>)
    ensures |r| == |ss|
  {
    seq(|ss|, k requires 0 <= k < |ss| => if k in woken && ss[k].Waiting? then Roused(ss[k].job) else ss[k])
  }

  function Everyone(n: nat): (r: set<nat>)
    ensures forall k: nat :: k in r <==> k < n
  {
    if n == 0 then {} else Everyone(n - 1) + {n - 1}
  }

  predicate WorkerEnabled(s: State, w: nat, act: WorkerAct) {
    w < |s.workers| &&
    var pc := s.workers[w];
    match act
    case Acquire => (pc == WantLock || pc == Woken) && s.lock == Free
    case Test => pc == Locked
    case Take => pc == Taking && s.ring.head < |s.ring.slots| && s.ring.size > 0
    case Signal(woken) => pc.Took? && WakesSubmitters(s.submitters, woken)
    case Unlock => pc.Leaving?
    case Return => pc.Handling?
    case WakeUp => pc == Asleep
  }

  predicate SubmitterEnabled(s: State, i: nat, act: SubmitterAct) {
    i < |s.submitters| &&
    var pc := s.submitters[i];
    match act
    case Call(job) => pc == Idle && job.socket != INVALID_SOCKET
    case Lock => (pc.Wanting? || pc.Roused?) && s.lock == Free
    case Check => pc.Testing?
    case Store => pc.Admitted? && s.ring.tail < |s.ring.slots|
    case Notify(woken) => pc.Stored? && WakesWorkers(s.workers, woken)
    case Release => pc.Releasing?
    case GetUp => pc.Waiting?
  }

  predicate CloserEnabled(s: State, act: CloserAct) {
    match act
    case Shutdown => s.closer == Running
    case Enter => s.closer == Calling && s.lock == Free
    case Flag => s.closer == Flagging
    case WakeAllWorkers => s.closer == WakingWorkers
    case WakeAllSubmitters => s.closer == WakingSubmitters
    case Leave => s.closer == Unlocking
    case Join => s.closer == Joining && forall w :: 0 <= w < |s.workers| ==> s.workers[w] == Exited
  }

  predicate Enabled(s: State, step: Step) {
    match step
    case W(w, act) => WorkerEnabled(s, w, act)
    case S(i, act) => SubmitterEnabled(s, i, act)
    case C(act) => CloserEnabled(s, act)
  }

  function SetWorker(s: State, w: nat, pc: Worker): State
    requires w < |s.workers|
  {
    s.(workers := s.workers[w := pc])
  }

  function SetSubmitter(s: State, i: nat, pc: Submitter): State
    requires i < |s.submitters|
  {
    s.(submitters := s.submitters[i := pc])
  }

  function DoWorker(s: State, w: nat, act: WorkerAct): State
    requires WorkerEnabled(s, w, act)
  {
    match act
    case Acquire => SetWorker(s, w, Locked).(lock := ByWorker(w))
    case Test =>
      if s.ring.size == 0 && !s.shuttingDown then SetWorker(s, w, Asleep).(lock := Free)
      else if s.ring.size == 0 then SetWorker(s, w, Exited).(lock := Free)
      else SetWorker(s, w, Taking)
    case Take =>
      var job := s.ring.slots[s.ring.head];
      SetWorker(s, w, Took(job)).(ring := Dequeue(s.ring), dequeued := s.dequeued + [job])
    case Signal(woken) =>
      SetWorker(s, w, Leaving(s.workers[w].job)).(submitters := WakeSubmitters(s.submitters, woken))
    case Unlock => SetWorker(s, w, Handling(s.workers[w].job)).(lock := Free)
    case Return => SetWorker(s, w, WantLock).(handled := s.handled + multiset{s.workers[w].job})
    case WakeUp => SetWorker(s, w, Woken)
  }

  function DoSubmitter(s: State, i: nat, act: SubmitterAct): State
    requires SubmitterEnabled(s, i, act)
  {
    match act
    case Call(job) => SetSubmitter(s, i, Wanting(job))
    case Lock => SetSubmitter(s, i, Testing(s.submitters[i].job)).(lock := BySubmitter(i))
    case Check =>
      var job := s.submitters[i].job;
      if s.ring.size == |s.ring.slots| && !s.shuttingDown then SetSubmitter(s, i, Waiting(job)).(lock := Free)
      else if s.shuttingDown then SetSubmitter(s, i, Idle).(lock := Free, refused := s.refused + [job])
      else SetSubmitter(s, i, Admitted(job))
    case Store =>
      var job := s.submitters[i].job;
      SetSubmitter(s, i, Stored(job)).(ring := Enqueue(s.ring, job), accepted := s.accepted + [job])
    case Notify(woken) =>
      SetSubmitter(s, i, Releasing(s.submitters[i].job)).(workers := WakeWorkers(s.workers, woken))
    case Release => SetSubmitter(s, i, Idle).(lock := Free)
    case GetUp => SetSubmitter(s, i, Roused(s.submitters[i].job))
  }

  function DoCloser(s: State, act: CloserAct): State
    requires CloserEnabled(s, act)
  {
    match act
    case Shutdown => s.(closer := Calling)
    case Enter => s.(closer := Flagging, lock := ByCloser)
    case Flag => s.(closer := WakingWorkers, shuttingDown := true)
    case WakeAllWorkers =>
      s.(closer := WakingSubmitters, workers := WakeWorkers(s.workers, Everyone(|s.workers|)))
    case WakeAllSubmitters =>
      s.(closer := Unlocking, submitters := WakeSubmitters(s.submitters, Everyone(|s.submitters|)))
    case Leave => s.(closer := Joining, lock := Free)
    case Join => s.(closer := Destroyed, closed := Leftover(s.ring.slots))
  }

  function Do(s: State, step: Step): State
    requires Enabled(s, step)
  {
    match step
    case W(w, act) => DoWorker(s, w, act)
    case S(i, act) => DoSubmitter(s, i, act)
    case C(act) => DoCloser(s, act)
  }

  /** The states reached by a run: every step enabled where it is taken. */
  ghost predicate IsRun(s: State, steps: seq<Step>)
    decreases |steps|
  {
    steps == [] || (Enabled(s, steps[0]) && IsRun(Do(s, steps[0]), steps[1..]))
  }

  function After(s: State, steps: seq<Step>): State
    requires IsRun(s, steps)
    decreases |steps|
  {
    if steps == [] then s else After(Do(s, steps[0]), steps[1..])
  }

  // ----- mutual exclusion

  predicate InWorker(pc: Worker) {
    pc == Locked || pc == Taking || pc.Took? || pc.Leaving?
  }

  predicate InSubmitter(pc: Submitter) {
    pc.Testing? || pc.Admitted? || pc.Stored? || pc.Releasing?
  }

  predicate InCloser(pc: Closer) {
    pc == Flagging || pc == WakingWorkers || pc == WakingSubmitters || pc == Unlocking
  }

  /** Exactly the holder of the mutex is inside a critical section. */
  ghost predicate Exclusive(s: State) {
    && (forall w :: 0 <= w < |s.workers| ==> (InWorker(s.workers[w]) <==> s.lock == ByWorker(w)))
    && (forall i :: 0 <= i < |s.submitters| ==> (InSubmitter(s.submitters[i]) <==> s.lock == BySubmitter(i)))
    && (InCloser(s.closer) <==> s.lock == ByCloser)
    && (s.lock.ByWorker? ==> s.lock.w < |s.workers|)
    && (s.lock.BySubmitter? ==> s.lock.i < |s.submitters|)
  }

  lemma WorkerKeepsExclusive(s: State, w: nat, act: WorkerAct)
    requires Exclusive(s) && WorkerEnabled(s, w, act)
    ensures Exclusive(DoWorker(s, w, act))
  {
  }

  lemma SubmitterKeepsExclusive(s: State, i: nat, act: SubmitterAct)
    requires Exclusive(s) && SubmitterEnabled(s, i, act)
    ensures Exclusive(DoSubmitter(s, i, act))
  {
  }

  lemma CloserKeepsExclusive(s: State, act: CloserAct)
    requires Exclusive(s) && CloserEnabled(s, act)
    ensures Exclusive(DoCloser(s, act))
  {
  }

  // ----- phases of the protocol

  predicate Flagged(pc: Closer) {
    pc == WakingWorkers || pc == WakingSubmitters || pc == Unlocking || pc == Joining || pc == Destroyed
  }

  ghost predicate Phases(s: State) {
    && s.ring.size <= |s.ring.slots|
    && (s.shuttingDown <==> Flagged(s.closer))
    && (forall w :: 0 <= w < |s.workers| && s.workers[w] == Taking ==> s.ring.size > 0)
    && (forall w :: 0 <= w < |s.workers| && s.workers[w] == Exited ==> s.shuttingDown && s.ring.size == 0)
    && (forall i :: 0 <= i < |s.submitters| && s.submitters[i].Admitted? ==>
          !s.shuttingDown && s.ring.size < |s.ring.slots|)
    && (forall i :: 0 <= i < |s.submitters| && !s.submitters[i].Idle? ==> s.submitters[i].job.socket != INVALID_SOCKET)
  }

  /** Once the broadcasts are out nobody sleeps, and nobody falls asleep again. */
  ghost predicate NoSleepers(s: State) {
    && (Flagged(s.closer) && s.closer != WakingWorkers ==>
          forall w :: 0 <= w < |s.workers| ==> s.workers[w] != Asleep)
    && (Flagged(s.closer) && s.closer != WakingWorkers && s.closer != WakingSubmitters ==>
          forall i :: 0 <= i < |s.submitters| ==> !s.submitters[i].Waiting?)
  }

  lemma WorkerKeepsPhases(s: State, w: nat, act: WorkerAct)
    requires Exclusive(s) && Phases(s) && WorkerEnabled(s, w, act)
    ensures Phases(DoWorker(s, w, act))
  {
  }

  lemma SubmitterKeepsPhases(s: State, i: nat, act: SubmitterAct)
    requires Exclusive(s) && Phases(s) && SubmitterEnabled(s, i, act)
    ensures Phases(DoSubmitter(s, i, act))
  {
  }

  lemma CloserKeepsPhases(s: State, act: CloserAct)
    requires Exclusive(s) && Phases(s) && CloserEnabled(s, act)
    ensures Phases(DoCloser(s, act))
  {
  }

  lemma WorkerKeepsNoSleepers(s: State, w: nat, act: WorkerAct)
    requires Phases(s) && NoSleepers(s) && WorkerEnabled(s, w, act)
    ensures NoSleepers(DoWorker(s, w, act))
  {
  }

  lemma SubmitterKeepsNoSleepers(s: State, i: nat, act: SubmitterAct)
    requires Phases(s) && NoSleepers(s) && SubmitterEnabled(s, i, act)
    ensures NoSleepers(DoSubmitter(s, i, act))
  {
  }

  lemma CloserKeepsNoSleepers(s: State, act: CloserAct)
    requires NoSleepers(s) && CloserEnabled(s, act)
    ensures NoSleepers(DoCloser(s, act))
  {
  }

  // ----- the queue is FIFO and loses nothing

  ghost predicate Fifo(s: State) {
    Valid(s.ring) && s.accepted == s.dequeued + Window(s.ring)
  }

  lemma WorkerKeepsFifo(s: State, w: nat, act: WorkerAct)
    requires Fifo(s) && WorkerEnabled(s, w, act)
    ensures Fifo(DoWorker(s, w, act)) && |DoWorker(s, w, act).ring.slots| == |s.ring.slots|
  {
    if act == Take {
      DequeueTakesOldest(s.ring);
      hide Valid, Window;
      var r := Dequeue(s.ring);
      assert s.dequeued + Window(s.ring) == s.dequeued + [s.ring.slots[s.ring.head]] + Window(r);
    }
  }

  lemma SubmitterKeepsFifo(s: State, i: nat, act: SubmitterAct)
    requires Phases(s) && Fifo(s) && SubmitterEnabled(s, i, act)
    ensures Fifo(DoSubmitter(s, i, act)) && |DoSubmitter(s, i, act).ring.slots| == |s.ring.slots|
  {
    if act == Store {
      EnqueueAppends(s.ring, s.submitters[i].job);
      hide Valid, Window, Phases;
      assert s.accepted + [s.submitters[i].job] == s.dequeued + Window(Enqueue(s.ring, s.submitters[i].job));
    }
  }

  lemma CloserKeepsFifo(s: State, act: CloserAct)
    requires Fifo(s) && CloserEnabled(s, act)
    ensures Fifo(DoCloser(s, act)) && DoCloser(s, act).ring == s.ring
  {
  }

  /** 1 for a worker that has taken `job` and not yet finished it. */
  function Carries(job: Job): Worker -> nat {
    (pc: Worker) => if (pc.Took? || pc.Leaving? || pc.Handling?) && pc.job == job then 1 else 0
  }

  function Carriers(ws: seq<Worker>, job: Job): nat {
    Weigh(ws, |ws|, Carries(job))
  }

  /** Every job taken off the queue has been handled or is in the hands of one worker. */
  ghost predicate HandOff(s: State) {
    forall job :: multiset(s.dequeued)[job] == s.handled[job] + Carriers(s.workers, job)
  }

  lemma WorkerKeepsCount(s: State, w: nat, act: WorkerAct, job: Job)
    requires WorkerEnabled(s, w, act)
    requires multiset(s.dequeued)[job] == s.handled[job] + Carriers(s.workers, job)
    ensures var s' := DoWorker(s, w, act);
            multiset(s'.dequeued)[job] == s'.handled[job] + Carriers(s'.workers, job)
  {
    hide Weigh, WakeWorkers, WakeSubmitters, Dequeue;
    WeighUpdate(s.workers, |s.workers|, Carries(job), w, DoWorker(s, w, act).workers[w]);
  }

  lemma WorkerKeepsHandOff(s: State, w: nat, act: WorkerAct)
    requires HandOff(s) && WorkerEnabled(s, w, act)
    ensures HandOff(DoWorker(s, w, act))
  {
    hide WorkerEnabled, DoWorker, Carriers;
    forall job
      ensures var s' := DoWorker(s, w, act);
              multiset(s'.dequeued)[job] == s'.handled[job] + Carriers(s'.workers, job)
    {
      WorkerKeepsCount(s, w, act, job);
    }
  }

  lemma WakingKeepsCarriers(ws: seq<Worker>, woken: set<nat>, job: Job)
    ensures Carriers(WakeWorkers(ws, woken), job) == Carriers(ws, job)
  {
    var ws' := WakeWorkers(ws, woken);
    WeighMonotone(ws, ws', |ws|, Carries(job));
    WeighMonotone(ws', ws, |ws|, Carries(job));
  }

  lemma OthersKeepHandOff(s: State, step: Step)
    requires HandOff(s) && Enabled(s, step) && !step.W?
    ensures HandOff(Do(s, step))
  {
    var s' := Do(s, step);
    forall job
      ensures multiset(s'.dequeued)[job] == s'.handled[job] + Carriers(s'.workers, job)
    {
      assert multiset(s.dequeued)[job] == s.handled[job] + Carriers(s.workers, job);
      match step
      case S(_, Notify(woken)) => WakingKeepsCarriers(s.workers, woken, job);
      case C(WakeAllWorkers) => WakingKeepsCarriers(s.workers, Everyone(|s.workers|), job);
      case _ =>
    }
  }

  // ----- no wake-up is lost

  /** 1 for a worker that will look at the queue without being signalled. */
  function Alert(pc: Worker): nat {
    if pc == WantLock || pc == Woken || pc == Locked || pc == Taking then 1 else 0
  }

  function Eager(pc: Submitter): nat {
    if pc.Wanting? || pc.Roused? || pc.Testing? || pc.Admitted? then 1 else 0
  }

  function AlertWorkers(s: State): nat {
    Weigh(s.workers, |s.workers|, Alert)
  }

  function EagerSubmitters(s: State): nat {
    Weigh(s.submitters, |s.submitters|, Eager)
  }

  /** 1 while a stored job has not been signalled yet. */
  function OwedToWorkers(s: State): nat {
    if s.lock.BySubmitter? && s.lock.i < |s.submitters| && s.submitters[s.lock.i].Stored? then 1 else 0
  }

  /** 1 while a freed slot has not been signalled yet. */
  function OwedToSubmitters(s: State): nat {
    if s.lock.ByWorker? && s.lock.w < |s.workers| && s.workers[s.lock.w].Took? then 1 else 0
  }

  /** While the pool is open and a worker sleeps, every waiting job has an alert worker or a signal coming. */
  ghost predicate JobsCovered(s: State) {
    !s.shuttingDown ==>
      forall w :: 0 <= w < |s.workers| && s.workers[w] == Asleep ==>
        s.ring.size <= AlertWorkers(s) + OwedToWorkers(s)
  }

  /** While the pool is open and a submitter waits, every free slot has an eager submitter or a signal coming. */
  ghost predicate SlotsCovered(s: State) {
    !s.shuttingDown ==>
      forall i :: 0 <= i < |s.submitters| && s.submitters[i].Waiting? ==>
        |s.ring.slots| - s.ring.size <= EagerSubmitters(s) + OwedToSubmitters(s)
  }

  lemma AlertAfterWake(ws: seq<Worker>, woken: set<nat>)
    requires WakesWorkers(ws, woken)
    ensures Weigh(WakeWorkers(ws, woken), |ws|, Alert) >= Weigh(ws, |ws|, Alert) + if woken == {} then 0 else 1
  {
    var ws' := WakeWorkers(ws, woken);
    WeighMonotone(ws, ws', |ws|, Alert);
    if woken != {} {
      var k :| k in woken;
      assert Alert(ws[k]) < Alert(ws'[k]);
    }
  }

  lemma EagerAfterWake(ss: seq<Submitter>, woken: set<nat>)
    requires WakesSubmitters(ss, woken)
    ensures Weigh(WakeSubmitters(ss, woken), |ss|, Eager) >= Weigh(ss, |ss|, Eager) + if woken == {} then 0 else 1
  {
    var ss' := WakeSubmitters(ss, woken);
    WeighMonotone(ss, ss', |ss|, Eager);
    if woken != {} {
      var k :| k in woken;
      assert Eager(ss[k]) < Eager(ss'[k]);
    }
  }

  lemma WorkerKeepsJobsCovered(s: State, w: nat, act: WorkerAct)
    requires Exclusive(s) && Phases(s) && JobsCovered(s) && WorkerEnabled(s, w, act)
    ensures JobsCovered(DoWorker(s, w, act))
  {
    WeighUpdate(s.workers, |s.workers|, Alert, w, DoWorker(s, w, act).workers[w]);
  }

  lemma WorkerKeepsSlotsCovered(s: State, w: nat, act: WorkerAct)
    requires Exclusive(s) && Phases(s) && SlotsCovered(s) && WorkerEnabled(s, w, act)
    ensures SlotsCovered(DoWorker(s, w, act))
  {
    if act.Signal? {
      EagerAfterWake(s.submitters, act.woken);
    }
  }

  lemma SubmitterKeepsJobsCovered(s: State, i: nat, act: SubmitterAct)
    requires Exclusive(s) && Phases(s) && JobsCovered(s) && SubmitterEnabled(s, i, act)
    ensures JobsCovered(DoSubmitter(s, i, act))
  {
    if act.Notify? {
      AlertAfterWake(s.workers, act.woken);
    }
  }

  lemma SubmitterKeepsSlotsCovered(s: State, i: nat, act: SubmitterAct)
    requires Exclusive(s) && Phases(s) && SlotsCovered(s) && SubmitterEnabled(s, i, act)
    ensures SlotsCovered(DoSubmitter(s, i, act))
  {
    WeighUpdate(s.submitters, |s.submitters|, Eager, i, DoSubmitter(s, i, act).submitters[i]);
  }

  lemma CloserKeepsCovered(s: State, act: CloserAct)
    requires Exclusive(s) && Phases(s) && JobsCovered(s) && SlotsCovered(s) && CloserEnabled(s, act)
    ensures JobsCovered(DoCloser(s, act)) && SlotsCovered(DoCloser(s, act))
  {
  }

  // ----- all runs

  /** The pool is destroyed only after every worker has been joined, and its slots were inspected then. */
  ghost predicate ClosedDown(s: State) {
    s.closer == Destroyed ==>
      && s.closed == Leftover(s.ring.slots)
      && forall w :: 0 <= w < |s.workers| ==> s.workers[w] == Exited
  }

  lemma StepKeepsClosedDown(s: State, step: Step)
    requires Phases(s) && ClosedDown(s) && Enabled(s, step)
    ensures ClosedDown(Do(s, step))
  {
    hide Leftover;
  }

  ghost predicate Inv(s: State) {
    && Exclusive(s) && Phases(s) && NoSleepers(s) && Fifo(s) && HandOff(s) && JobsCovered(s) && SlotsCovered(s)
    && ClosedDown(s)
  }

  lemma {:induction false} WeighNothing<T>(s: seq<T>, n: nat, f: T -> nat)
    requires n <= |s| && forall i :: 0 <= i < n ==> f(s[i]) == 0
    ensures Weigh(s, n, f) == 0
  {
    if n > 0 {
      WeighNothing(s, n - 1, f);
    }
  }

  lemma StartInv(workers: nat, submitters: nat, capacity: nat)
    requires capacity > 0
    ensures Inv(Start(workers, submitters, capacity))
  {
    EmptyValid(capacity);
    var s := Start(workers, submitters, capacity);
    forall job ensures multiset(s.dequeued)[job] == s.handled[job] + Carriers(s.workers, job) {
      WeighNothing(s.workers, workers, Carries(job));
    }
  }

  lemma StepKeepsInv(s: State, step: Step)
    requires Inv(s) && Enabled(s, step)
    ensures Inv(Do(s, step))
    ensures |Do(s, step).workers| == |s.workers| && |Do(s, step).ring.slots| == |s.ring.slots|
  {
    StepKeepsClosedDown(s, step);
    hide Exclusive, Phases, NoSleepers, Fifo, HandOff, JobsCovered, SlotsCovered, ClosedDown;
    match step
    case W(w, act) =>
      WorkerKeepsExclusive(s, w, act);
      WorkerKeepsPhases(s, w, act);
      WorkerKeepsNoSleepers(s, w, act);
      WorkerKeepsFifo(s, w, act);
      WorkerKeepsHandOff(s, w, act);
      WorkerKeepsJobsCovered(s, w, act);
      WorkerKeepsSlotsCovered(s, w, act);
    case S(i, act) =>
      SubmitterKeepsExclusive(s, i, act);
      SubmitterKeepsPhases(s, i, act);
      SubmitterKeepsNoSleepers(s, i, act);
      SubmitterKeepsFifo(s, i, act);
      OthersKeepHandOff(s, step);
      SubmitterKeepsJobsCovered(s, i, act);
      SubmitterKeepsSlotsCovered(s, i, act);
    case C(act) =>
      CloserKeepsExclusive(s, act);
      CloserKeepsPhases(s, act);
      CloserKeepsNoSleepers(s, act);
      CloserKeepsFifo(s, act);
      OthersKeepHandOff(s, step);
      CloserKeepsCovered(s, act);
  }

  lemma {:induction false} RunKeepsInv(s: State, steps: seq<Step>)
    requires Inv(s) && IsRun(s, steps)
    ensures Inv(After(s, steps)) && |After(s, steps).workers| == |s.workers|
    decreases |steps|
  {
    if steps != [] {
      StepKeepsInv(s, steps[0]);
      RunKeepsInv(Do(s, steps[0]), steps[1..]);
    }
  }

  /** In every reachable state of an open pool: if some worker sleeps, the waiting jobs do not outnumber the
      workers that will look at the queue (one more while the critical section still owes a signal), and so,
      between critical sections, a queued job and a sleeping worker mean that another worker is about to look.
      The same for free slots and waiting submitters. */
  lemma NoLostWakeUp(workers: nat, submitters: nat, capacity: nat, steps: seq<Step>)
    requires capacity > 0 && IsRun(Start(workers, submitters, capacity), steps)
    ensures var s := After(Start(workers, submitters, capacity), steps);
            && JobsCovered(s) && SlotsCovered(s)
            && (!s.shuttingDown && s.ring.size > 0 && OwedToWorkers(s) == 0 &&
                (exists w :: 0 <= w < |s.workers| && s.workers[w] == Asleep) ==>
                  exists v :: 0 <= v < |s.workers| && Alert(s.workers[v]) == 1)
            && (!s.shuttingDown && s.ring.size < |s.ring.slots| && OwedToSubmitters(s) == 0 &&
                (exists i :: 0 <= i < |s.submitters| && s.submitters[i].Waiting?) ==>
                  exists j :: 0 <= j < |s.submitters| && Eager(s.submitters[j]) == 1)
  {
    StartInv(workers, submitters, capacity);
    RunKeepsInv(Start(workers, submitters, capacity), steps);
    SomeoneIsAlert(After(Start(workers, submitters, capacity), steps));
  }

  lemma SomeoneIsAlert(s: State)
    ensures AlertWorkers(s) > 0 ==> exists v :: 0 <= v < |s.workers| && Alert(s.workers[v]) == 1
    ensures EagerSubmitters(s) > 0 ==> exists j :: 0 <= j < |s.submitters| && Eager(s.submitters[j]) == 1
  {
    if forall v :: 0 <= v < |s.workers| ==> Alert(s.workers[v]) == 0 {
      WeighNothing(s.workers, |s.workers|, Alert);
    }
    if forall j :: 0 <= j < |s.submitters| ==> Eager(s.submitters[j]) == 0 {
      WeighNothing(s.submitters, |s.submitters|, Eager);
    }
  }

  /** A step that only the threads already at work take: no new call and no wake-up without a signal. */
  predicate Ordinary(step: Step) {
    !NewCall(step) && !(step.W? && step.wa == WakeUp) && !(step.S? && step.sa == GetUp)
  }

  /** An open pool with work to do is never stuck: while a job is queued or a submit is under way, some thread can
      go on without a new call or a spurious wake-up, and without the closer unless the closer holds the mutex. */
  lemma OpenNeverStuck(s: State) returns (step: Step)
    requires Inv(s) && !s.shuttingDown && s.workers != []
    requires s.ring.size > 0 || exists i :: 0 <= i < |s.submitters| && s.submitters[i] != Idle
    ensures Enabled(s, step) && Ordinary(step) && (step.C? ==> s.lock == ByCloser)
  {
    hide HandOff, Window, ClosedDown, NoSleepers, AlertWorkers, EagerSubmitters;
    SomeoneIsAlert(s);
    if s.lock != Free {
      step := HolderCanStep(s);
    } else if v :| 0 <= v < |s.workers| && (s.workers[v] == WantLock || s.workers[v] == Woken) {
      step := W(v, Acquire);
    } else if v :| 0 <= v < |s.workers| && s.workers[v].Handling? {
      step := W(v, Return);
    } else {
      assert s.workers[0] == Asleep;
      assert AlertWorkers(s) == 0 && s.ring.size == 0;
      var i :| 0 <= i < |s.submitters| && (s.submitters[i].Wanting? || s.submitters[i].Roused?);
      step := S(i, Lock);
    }
  }

  // ----- an open pool gets its work done

  /** What a worker may still do on its own.  After a take it pays for the submitters its signal may wake. */
  function WorkerEffort(submitters: nat): Worker -> nat {
    (pc: Worker) =>
      match pc
      case Asleep => 0 case Exited => 0 case Taking => 1 case Locked => 2 case WantLock => 3 case Woken => 3
      case Handling(_) => 4 case Leaving(_) => 5 case Took(_) => 6 + 2 * submitters
  }

  /** What a submit under way may still cause: its own steps, the workers its signal may wake, and its job. */
  function SubmitterEffort(workers: nat, submitters: nat): Submitter -> nat {
    var admitted := 9 + 3 * workers + 2 * submitters;
    (pc: Submitter) =>
      match pc
      case Idle => 0 case Releasing(_) => 1 case Stored(_) => 2 + 3 * workers
      case Admitted(_) => admitted case Waiting(_) => admitted case Testing(_) => admitted + 1
      case Wanting(_) => admitted + 2 case Roused(_) => admitted + 2
  }

  function WorkersEffort(s: State): nat {
    Weigh(s.workers, |s.workers|, WorkerEffort(|s.submitters|))
  }

  function SubmittersEffort(s: State): nat {
    Weigh(s.submitters, |s.submitters|, SubmitterEffort(|s.workers|, |s.submitters|))
  }

  /** A bound on the steps an open pool can take without new calls and spurious wake-ups. */
  function Effort(s: State): nat {
    (6 + 2 * |s.submitters|) * s.ring.size + WorkersEffort(s) + SubmittersEffort(s)
  }

  lemma WakingWorkersEffort(ws: seq<Worker>, woken: set<nat>, submitters: nat)
    ensures Weigh(WakeWorkers(ws, woken), |ws|, WorkerEffort(submitters)) <=
            Weigh(ws, |ws|, WorkerEffort(submitters)) + 3 * |ws|
  {
    WeighWithin(WakeWorkers(ws, woken), ws, |ws|, WorkerEffort(submitters), 3);
  }

  lemma WakingSubmittersEffort(ss: seq<Submitter>, woken: set<nat>, workers: nat)
    ensures Weigh(WakeSubmitters(ss, woken), |ss|, SubmitterEffort(workers, |ss|)) <=
            Weigh(ss, |ss|, SubmitterEffort(workers, |ss|)) + 2 * |ss|
  {
    WeighWithin(WakeSubmitters(ss, woken), ss, |ss|, SubmitterEffort(workers, |ss|), 2);
  }

  lemma WorkerSpendsEffort(s: State, w: nat, act: WorkerAct)
    requires !s.shuttingDown && WorkerEnabled(s, w, act) && act != WakeUp
    ensures Effort(DoWorker(s, w, act)) < Effort(s) && !DoWorker(s, w, act).shuttingDown
  {
    hide Weigh, WakeWorkers, WakeSubmitters;
    WeighUpdate(s.workers, |s.workers|, WorkerEffort(|s.submitters|), w, DoWorker(s, w, act).workers[w]);
    if act.Signal? {
      WakingSubmittersEffort(s.submitters, act.woken, |s.workers|);
    }
  }

  lemma SubmitterSpendsEffort(s: State, i: nat, act: SubmitterAct)
    requires !s.shuttingDown && SubmitterEnabled(s, i, act) && !act.Call? && act != GetUp
    ensures Effort(DoSubmitter(s, i, act)) < Effort(s) && !DoSubmitter(s, i, act).shuttingDown
  {
    hide Weigh, WakeWorkers, WakeSubmitters;
    WeighUpdate(s.submitters, |s.submitters|, SubmitterEffort(|s.workers|, |s.submitters|), i,
                DoSubmitter(s, i, act).submitters[i]);
    if act.Notify? {
      WakingWorkersEffort(s.workers, act.woken, |s.submitters|);
    }
  }

  /** Steps of the workers and of submits already under way. */
  predicate AllOwn(steps: seq<Step>) {
    forall k :: 0 <= k < |steps| ==> Ordinary(steps[k]) && !steps[k].C?
  }

  /** Nothing is left to do without a new call, a spurious wake-up or the closer. */
  ghost predicate Quiet(s: State) {
    forall step :: Enabled(s, step) && Ordinary(step) ==> step.C?
  }

  /** An open pool makes progress: whatever the scheduler does, only so many steps are left without new calls and
      spurious wake-ups. */
  lemma {:induction false} OpenTerminates(s: State, steps: seq<Step>)
    requires !s.shuttingDown && IsRun(s, steps) && AllOwn(steps)
    ensures |steps| <= Effort(s) && !After(s, steps).shuttingDown
    decreases |steps|
  {
    if steps != [] {
      var step := steps[0];
      match step {
        case W(w, act) => WorkerSpendsEffort(s, w, act);
        case S(i, act) => SubmitterSpendsEffort(s, i, act);
      }
      hide Effort;
      OpenTerminates(Do(s, step), steps[1..]);
    }
  }

  /** 1 for a submitter whose submit of `job` is neither accepted nor refused yet. */
  function Seeks(job: Job): Submitter -> nat {
    (pc: Submitter) =>
      if (pc.Wanting? || pc.Testing? || pc.Waiting? || pc.Roused? || pc.Admitted?) && pc.job == job then 1 else 0
  }

  function Seekers(ss: seq<Submitter>, job: Job): nat {
    Weigh(ss, |ss|, Seeks(job))
  }

  lemma WorkerKeepsSeekers(s: State, w: nat, act: WorkerAct, job: Job)
    requires WorkerEnabled(s, w, act)
    ensures var s' := DoWorker(s, w, act);
            && Seekers(s'.submitters, job) == Seekers(s.submitters, job)
            && s'.accepted == s.accepted && s'.refused == s.refused
  {
    if act.Signal? {
      var ss' := WakeSubmitters(s.submitters, act.woken);
      WeighMonotone(s.submitters, ss', |ss'|, Seeks(job));
      WeighMonotone(ss', s.submitters, |ss'|, Seeks(job));
    }
  }

  lemma SubmitterKeepsSeekers(s: State, i: nat, act: SubmitterAct, job: Job)
    requires !s.shuttingDown && SubmitterEnabled(s, i, act) && !act.Call?
    ensures var s' := DoSubmitter(s, i, act);
            && multiset(s'.accepted)[job] + Seekers(s'.submitters, job) ==
               multiset(s.accepted)[job] + Seekers(s.submitters, job)
            && s'.refused == s.refused
  {
    hide Weigh, WakeWorkers, Enqueue;
    WeighUpdate(s.submitters, |s.submitters|, Seeks(job), i, DoSubmitter(s, i, act).submitters[i]);
  }

  /** An open pool refuses nothing and loses no submit under way. */
  lemma {:induction false} OpenKeepsSeekers(s: State, steps: seq<Step>, job: Job)
    requires !s.shuttingDown && IsRun(s, steps) && AllOwn(steps)
    ensures var s' := After(s, steps);
            && multiset(s'.accepted)[job] + Seekers(s'.submitters, job) ==
               multiset(s.accepted)[job] + Seekers(s.submitters, job)
            && s'.refused == s.refused
    decreases |steps|
  {
    if steps != [] {
      var step := steps[0];
      match step {
        case W(w, act) =>
          WorkerSpendsEffort(s, w, act);
          WorkerKeepsSeekers(s, w, act, job);
        case S(i, act) =>
          SubmitterSpendsEffort(s, i, act);
          SubmitterKeepsSeekers(s, i, act, job);
      }
      hide Effort, Seekers;
      OpenKeepsSeekers(Do(s, step), steps[1..], job);
    }
  }

  lemma QuietMeansIdle(s: State)
    requires Inv(s) && !s.shuttingDown && s.workers != [] && !InCloser(s.closer) && Quiet(s)
    ensures s.ring.size == 0 && s.lock == Free
    ensures forall i :: 0 <= i < |s.submitters| ==> s.submitters[i] == Idle
    ensures forall w :: 0 <= w < |s.workers| ==> s.workers[w] == Asleep
  {
    hide Effort, HandOff, Window, NoSleepers, ClosedDown;
    if s.ring.size > 0 || exists i :: 0 <= i < |s.submitters| && s.submitters[i] != Idle {
      var step := OpenNeverStuck(s);
    } else if s.lock != Free {
      var step := HolderCanStep(s);
    } else if w :| 0 <= w < |s.workers| && s.workers[w] != Asleep {
      var step := AwakeCanStep(s, w);
    }
  }

  lemma AwakeCanStep(s: State, w: nat) returns (step: Step)
    requires Exclusive(s) && Phases(s) && !s.shuttingDown && s.lock == Free
    requires w < |s.workers| && s.workers[w] != Asleep
    ensures Enabled(s, step) && Ordinary(step) && !step.C?
  {
    step := W(w, if s.workers[w].Handling? then Return else Acquire);
  }

  lemma QuietMeansHandled(s: State)
    requires Inv(s) && s.ring.size == 0 && forall w :: 0 <= w < |s.workers| ==> s.workers[w] == Asleep
    ensures multiset(s.accepted) == s.handled && s.dequeued == s.accepted
  {
    assert s.accepted == s.dequeued;
    forall job ensures multiset(s.dequeued)[job] == s.handled[job] {
      WeighNothing(s.workers, |s.workers|, Carries(job));
    }
  }

  /** A pool that stays open and gets no new calls takes a bounded number of steps, and where it comes to rest every
      submit that was under way has been accepted, none refused, and every accepted job handled. */
  lemma OpenPoolGetsWorkDone(s: State, steps: seq<Step>)
    requires Inv(s) && !s.shuttingDown && !InCloser(s.closer) && s.workers != []
    requires IsRun(s, steps) && AllOwn(steps)
    ensures |steps| <= Effort(s)
    ensures var s' := After(s, steps);
            Quiet(s') ==>
              && s'.ring.size == 0 && (forall i :: 0 <= i < |s'.submitters| ==> s'.submitters[i] == Idle)
              && (forall job :: multiset(s'.accepted)[job] == multiset(s.accepted)[job] + Seekers(s.submitters, job))
              && s'.refused == s.refused && s'.dequeued == s'.accepted && s'.handled == multiset(s'.accepted)
  {
    OpenTerminates(s, steps);
    RunKeepsInv(s, steps);
    OwnKeepsCloser(s, steps);
    var s' := After(s, steps);
    hide Inv, Effort, IsRun, Quiet;
    if Quiet(s') {
      QuietMeansIdle(s');
      QuietMeansHandled(s');
      forall job
        ensures multiset(s'.accepted)[job] == multiset(s.accepted)[job] + Seekers(s.submitters, job)
      {
        OpenKeepsSeekers(s, steps, job);
        WeighNothing(s'.submitters, |s'.submitters|, Seeks(job));
      }
      OpenKeepsSeekers(s, steps, NO_JOB);
    }
  }

  lemma {:induction false} OwnKeepsCloser(s: State, steps: seq<Step>)
    requires IsRun(s, steps) && AllOwn(steps)
    ensures After(s, steps).closer == s.closer
    decreases |steps|
  {
    if steps != [] {
      OwnKeepsCloser(Do(s, steps[0]), steps[1..]);
    }
  }

  // ----- shutdown drains the queue and terminates

  function WorkerWork(pc: Worker): nat {
    match pc
    case Exited => 0 case Taking => 1 case Locked => 2 case WantLock => 3 case Woken => 3
    case Handling(_) => 4 case Asleep => 4 case Leaving(_) => 5 case Took(_) => 6
  }

  function SubmitterWork(pc: Submitter): nat {
    match pc
    case Idle => 0 case Releasing(_) => 1 case Stored(_) => 2 case Admitted(_) => 3
    case Testing(_) => 4 case Wanting(_) => 5 case Roused(_) => 5 case Waiting(_) => 6
  }

  function CloserWork(pc: Closer): nat {
    match pc
    case Destroyed => 0 case Joining => 1 case Unlocking => 2 case WakingSubmitters => 3
    case WakingWorkers => 4 case Flagging => 5 case Calling => 6 case Running => 7
  }

  /** A bound on the steps left after shutdown has begun, if no new submit is called. */
  function Work(s: State): nat {
    6 * s.ring.size + Weigh(s.workers, |s.workers|, WorkerWork) + Weigh(s.submitters, |s.submitters|, SubmitterWork)
    + CloserWork(s.closer)
  }

  predicate NewCall(step: Step) {
    step.S? && step.sa.Call?
  }

  lemma WakingWorkersSaves(ws: seq<Worker>, woken: set<nat>)
    ensures Weigh(WakeWorkers(ws, woken), |ws|, WorkerWork) <= Weigh(ws, |ws|, WorkerWork)
  {
    var ws' := WakeWorkers(ws, woken);
    assert forall k :: 0 <= k < |ws| ==> WorkerWork(ws'[k]) <= WorkerWork(ws[k]);
    hide *;
    WeighMonotone(ws', ws, |ws|, WorkerWork);
  }

  lemma WakingSubmittersSaves(ss: seq<Submitter>, woken: set<nat>)
    ensures Weigh(WakeSubmitters(ss, woken), |ss|, SubmitterWork) <= Weigh(ss, |ss|, SubmitterWork)
  {
    var ss' := WakeSubmitters(ss, woken);
    assert forall k :: 0 <= k < |ss| ==> SubmitterWork(ss'[k]) <= SubmitterWork(ss[k]);
    hide *;
    WeighMonotone(ss', ss, |ss|, SubmitterWork);
  }

  lemma WorkerWorks(s: State, w: nat, act: WorkerAct)
    requires Phases(s) && s.shuttingDown && WorkerEnabled(s, w, act)
    ensures Work(DoWorker(s, w, act)) < Work(s)
  {
    hide Weigh, WakeWorkers, WakeSubmitters;
    WeighUpdate(s.workers, |s.workers|, WorkerWork, w, DoWorker(s, w, act).workers[w]);
    if act.Signal? {
      WakingSubmittersSaves(s.submitters, act.woken);
    }
  }

  lemma SubmitterWorks(s: State, i: nat, act: SubmitterAct)
    requires Phases(s) && s.shuttingDown && SubmitterEnabled(s, i, act) && !act.Call?
    ensures Work(DoSubmitter(s, i, act)) < Work(s)
  {
    hide Weigh, WakeWorkers, WakeSubmitters;
    WeighUpdate(s.submitters, |s.submitters|, SubmitterWork, i, DoSubmitter(s, i, act).submitters[i]);
    if act.Notify? {
      WakingWorkersSaves(s.workers, act.woken);
    }
  }

  lemma CloserWorks(s: State, act: CloserAct)
    requires CloserEnabled(s, act)
    ensures Work(DoCloser(s, act)) < Work(s)
  {
    hide WakeWorkers, WakeSubmitters, Weigh;
    if act == WakeAllWorkers {
      WakingWorkersSaves(s.workers, Everyone(|s.workers|));
    } else if act == WakeAllSubmitters {
      WakingSubmittersSaves(s.submitters, Everyone(|s.submitters|));
    }
  }

  ghost predicate StaysShut(s: State, s': State) {
    && s'.shuttingDown && s'.accepted == s.accepted && s'.ring.size <= s.ring.size
    && |s'.workers| == |s.workers| && |s'.submitters| == |s.submitters|
    && (forall w :: 0 <= w < |s.workers| && s'.workers[w] == Asleep ==> s.workers[w] == Asleep)
    && (forall i :: 0 <= i < |s.submitters| && s'.submitters[i].Waiting? ==> s.submitters[i].Waiting?)
  }

  lemma WorkerStaysShut(s: State, w: nat, act: WorkerAct)
    requires s.shuttingDown && WorkerEnabled(s, w, act)
    ensures StaysShut(s, DoWorker(s, w, act))
  {
  }

  lemma SubmitterStaysShut(s: State, i: nat, act: SubmitterAct)
    requires Phases(s) && s.shuttingDown && SubmitterEnabled(s, i, act)
    ensures StaysShut(s, DoSubmitter(s, i, act))
  {
  }

  /** After shutdown has begun no submit succeeds, nobody starts to wait, and the pool never opens again. */
  lemma ShutdownIsFinal(s: State, step: Step)
    requires Phases(s) && s.shuttingDown && Enabled(s, step)
    ensures StaysShut(s, Do(s, step))
  {
    match step
    case W(w, act) => WorkerStaysShut(s, w, act);
    case S(i, act) => SubmitterStaysShut(s, i, act);
    case C(_) =>
  }

  /** So it stays on every run. */
  lemma {:induction false} ShutdownStaysFinal(s: State, steps: seq<Step>)
    requires Inv(s) && s.shuttingDown && IsRun(s, steps)
    ensures StaysShut(s, After(s, steps))
    decreases |steps|
  {
    if steps != [] {
      ShutdownIsFinal(s, steps[0]);
      StepKeepsInv(s, steps[0]);
      hide Inv;
      ShutdownStaysFinal(Do(s, steps[0]), steps[1..]);
    }
  }

  /** After shutdown has begun every run without new submit calls ends, whatever the scheduler does. */
  lemma {:induction false} ShutdownTerminates(s: State, steps: seq<Step>)
    requires Inv(s) && s.shuttingDown && IsRun(s, steps)
    requires forall k :: 0 <= k < |steps| ==> !NewCall(steps[k])
    ensures |steps| <= Work(s)
    decreases |steps|
  {
    if steps != [] {
      var step := steps[0];
      match step {
        case W(w, act) => WorkerWorks(s, w, act);
        case S(i, act) => SubmitterWorks(s, i, act);
        case C(act) => CloserWorks(s, act);
      }
      StepKeepsInv(s, step);
      ShutdownTerminates(Do(s, step), steps[1..]);
    }
  }

  /** After shutdown has begun somebody can always take a step until the pool is destroyed. */
  lemma ShutdownNeverStuck(s: State) returns (step: Step)
    requires Inv(s) && s.shuttingDown && s.closer != Destroyed
    ensures Enabled(s, step) && !NewCall(step)
  {
    hide HandOff, JobsCovered, SlotsCovered, Window, ClosedDown;
    if s.lock != Free {
      step := HolderCanStep(s);
    } else if w :| 0 <= w < |s.workers| && s.workers[w] != Exited {
      step := W(w, if s.workers[w].Handling? then Return else Acquire);
    } else {
      step := C(Join);
    }
  }

  /** Whoever holds the mutex can go on. */
  lemma HolderCanStep(s: State) returns (step: Step)
    requires Exclusive(s) && Phases(s) && Fifo(s) && s.lock != Free
    ensures Enabled(s, step) && Ordinary(step) && (step.C? <==> s.lock == ByCloser)
  {
    match s.lock
    case ByWorker(w) =>
      match s.workers[w] {
        case Locked => step := W(w, Test);
        case Taking => step := W(w, Take);
        case Took(_) =>
          var woken := set k: nat | k < |s.submitters| && s.submitters[k].Waiting?;
          step := W(w, Signal(woken));
          assert forall k: nat :: k < |s.submitters| && s.submitters[k].Waiting? ==> k in woken;
        case _ => step := W(w, Unlock);
      }
    case BySubmitter(i) =>
      match s.submitters[i] {
        case Testing(_) => step := S(i, Check);
        case Admitted(_) => step := S(i, Store);
        case Stored(_) =>
          var woken := set k: nat | k < |s.workers| && s.workers[k] == Asleep;
          step := S(i, Notify(woken));
          assert forall k: nat :: k < |s.workers| && s.workers[k] == Asleep ==> k in woken;
        case _ => step := S(i, Release);
      }
    case ByCloser =>
      step := C(match s.closer case Flagging => Flag case WakingWorkers => WakeAllWorkers
                case WakingSubmitters => WakeAllSubmitters case _ => Leave);
  }

  lemma DrainedWhenDestroyed(s: State)
    requires Inv(s) && s.closer == Destroyed && |s.workers| > 0
    ensures multiset(s.accepted) == s.handled && s.dequeued == s.accepted && s.closed == []
  {
    assert s.workers[0] == Exited;
    DrainedLeavesNothing(s.ring);
    assert s.accepted == s.dequeued;
    forall job ensures multiset(s.dequeued)[job] == s.handled[job] {
      WeighNothing(s.workers, |s.workers|, Carries(job));
    }
  }

  /** When a pool with at least one worker has been destroyed, every accepted job has been handled, in total
      exactly as often as it was accepted, and the teardown loop closed no socket. */
  lemma DestroyedMeansDrained(workers: nat, submitters: nat, capacity: nat, steps: seq<Step>)
    requires capacity > 0 && workers > 0 && IsRun(Start(workers, submitters, capacity), steps)
    ensures var s := After(Start(workers, submitters, capacity), steps);
            s.closer == Destroyed ==>
              multiset(s.accepted) == s.handled && s.dequeued == s.accepted && s.closed == []
  {
    StartInv(workers, submitters, capacity);
    RunKeepsInv(Start(workers, submitters, capacity), steps);
    var s := After(Start(workers, submitters, capacity), steps);
    if s.closer == Destroyed {
      DrainedWhenDestroyed(s);
    }
  }
}
