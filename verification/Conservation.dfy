/**
 Conservation over whole runs of the server: client sockets, active connections, and cache look-ups.
 */
module Conservation {
  import opened Common
  import opened JobRing
  import opened Server
  import M = CacheModel
  import P = ThreadPool

  // ----- per-task weights

  /** 1 once the task has closed its client's socket. */
  function Closed(job: Job): Task -> nat {
    (t: Task) => if t.Running? && t.job == job && (t.pc == Leaving || t.pc == Returned) then 1 else 0
  }

  /** 1 between the increment and the decrement of the active-connections counter. */
  function IsActive(t: Task): nat {
    if t.Running? && t.pc != Entered && t.pc != Returned then 1 else 0
  }

  /** 1 while a parsed request has been counted neither as a hit nor as a miss. */
  function Uncounted(t: Task): nat {
    if t.Running? && (t.pc.Parsed? || t.pc.Found? || t.pc.Missed?) then 1 else 0
  }

  /** 1 for a hit that is counted and not yet written to the client. */
  function IsReplaying(t: Task): nat {
    if t.Running? && t.pc.Replaying? then 1 else 0
  }

  /** 1 for a miss that is counted and has neither been relayed nor counted as a failure. */
  function IsFetching(t: Task): nat {
    if t.Running? && (t.pc.Forwarding? || t.pc == Failing) then 1 else 0
  }

  function HasUnclosed(t: Task): nat {
    if Unclosed(t) then 1 else 0
  }

  // ----- invariants

  /** Only a worker inside its handler has a task, and it is the task of its job. */
  ghost predicate TasksMatch(s: State) {
    && |s.tasks| == |s.pool.workers|
    && forall w :: 0 <= w < |s.tasks| && s.tasks[w].Running? ==> s.pool.workers[w] == P.Handling(s.tasks[w].job)
  }

  /** Every job of the pool was handled and closed, or its task is past the close. */
  ghost predicate ClosesMatch(s: State) {
    forall job :: multiset(s.closed)[job] == s.pool.handled[job] + Weigh(s.tasks, |s.tasks|, Closed(job))
  }

  ghost predicate ActiveMatches(s: State) {
    s.metrics.active == Weigh(s.tasks, |s.tasks|, IsActive)
  }

  ghost predicate LookUpsMatch(s: State) {
    s.metrics.hits + s.metrics.misses + Weigh(s.tasks, |s.tasks|, Uncounted) == s.parsed
  }

  /** Every hit is replayed, every miss relayed or counted as a failure, every counted request closed, or on its
      way there. */
  ghost predicate CountsMatch(s: State) {
    && s.metrics.hits == |s.replays| + Weigh(s.tasks, |s.tasks|, IsReplaying)
    && s.metrics.misses == |s.relays| + s.metrics.failures + Weigh(s.tasks, |s.tasks|, IsFetching)
    && s.metrics.total == |s.closed| + Weigh(s.tasks, |s.tasks|, HasUnclosed)
  }

  /** The accepted job that has not reached the queue yet. */
  function Pending(s: State): seq<Job>
    requires |s.pool.submitters| == 1
  {
    match s.main
    case Holding(job) => [job]
    case Submitting(job) =>
      var pc := s.pool.submitters[0];
      if pc.Idle? || pc.Stored? || pc.Releasing? then [] else [job]
    case _ => []
  }

  /** The accept loop: the pool stays open while it runs, so no submit is refused, and every accepted socket
      is on its way to the queue or was accepted by it, in order. */
  ghost predicate MainMatches(s: State) {
    && |s.pool.submitters| == 1
    && (s.main != Stopping ==> s.pool.closer == P.Running)
    && s.pool.refused == [] && !s.main.Refused?
    && (s.main.Submitting? ==> s.pool.submitters[0].Idle? || s.pool.submitters[0].job == s.main.job)
    && (!s.main.Submitting? ==> s.pool.submitters[0].Idle?)
    && s.arrived == s.pool.accepted + Pending(s)
  }

  /** 1 for a connection on this descriptor. */
  function On(socket: int): Job -> nat {
    (job: Job) => if job.socket == socket then 1 else 0
  }

  /** A descriptor is open exactly when one more connection was accepted on it than was closed. */
  ghost predicate Balanced(arrived: seq<Job>, closed: seq<Job>, open: set<int>) {
    forall socket ::
      Weigh(arrived, |arrived|, On(socket)) == Weigh(closed, |closed|, On(socket)) + if socket in open then 1 else 0
  }

  ghost predicate OpenMatches(s: State) {
    Balanced(s.arrived, s.closed, s.open)
  }

  // ----- handler steps

  lemma HandlerKeepsTasks(s: State, w: nat, act: HandlerAct)
    requires TasksMatch(s) && HandlerEnabled(s, w, act)
    ensures TasksMatch(DoHandler(s, w, act))
  {
    hide AfterReceive, AfterEvent, Key;
  }

  /** What one handler step changes. */
  lemma HandlerEffect(s: State, w: nat, act: HandlerAct)
    requires HandlerEnabled(s, w, act)
    ensures var s' := DoHandler(s, w, act);
            && s'.pool == s.pool && s'.main == s.main && s'.arrived == s.arrived && |s'.tasks| == |s.tasks|
            && s'.tasks == s.tasks[w := s'.tasks[w]] && s'.tasks[w].Running?
            && (act != Enter ==> s.tasks[w].Running? && s'.tasks[w].job == s.tasks[w].job)
            && s'.closed == s.closed + (if act == Close then [s.tasks[w].job] else [])
            && s'.open == s.open - (if act == Close then {s.tasks[w].job.socket} else {})
  {
    hide AfterReceive, AfterEvent, Key, Captured, M.Put, M.Get;
  }

  /** Which weights the step's task moves between. */
  lemma WeightsEffect(s: State, w: nat, act: HandlerAct)
    requires HandlerEnabled(s, w, act)
    ensures var s', t, t' := DoHandler(s, w, act), s.tasks[w], DoHandler(s, w, act).tasks[w];
            && (act == Close ==> t.Running? && t.pc == Closing && t'.pc == Leaving)
            && (act == Deactivate ==> t.Running? && t.pc == Leaving && t'.pc == Returned)
            && (act != Close && act != Deactivate ==>
                  t'.pc != Leaving && t'.pc != Returned && (t.Running? ==> t.pc != Leaving && t.pc != Returned))
            && IsActive(t') == IsActive(t) + (if act == Activate then 1 else 0) - (if act == Deactivate then 1 else 0)
            && s'.metrics.active == (if act == Activate then s.metrics.active + 1
                                     else if act == Deactivate && s.metrics.active > 0 then s.metrics.active - 1
                                     else s.metrics.active)
            && s'.metrics.hits + s'.metrics.misses + Uncounted(t') - s'.parsed ==
               s.metrics.hits + s.metrics.misses + Uncounted(t) - s.parsed
  {
    hide AfterReceive, AfterEvent, Key, Captured, M.Put, M.Get;
  }

  lemma HandlerKeepsCloses(s: State, w: nat, act: HandlerAct)
    requires ClosesMatch(s) && HandlerEnabled(s, w, act)
    ensures ClosesMatch(DoHandler(s, w, act))
  {
    HandlerEffect(s, w, act);
    WeightsEffect(s, w, act);
    var s' := DoHandler(s, w, act);
    hide DoHandler, HandlerEnabled, IsActive, Uncounted;
    forall job
      ensures multiset(s'.closed)[job] == s'.pool.handled[job] + Weigh(s'.tasks, |s'.tasks|, Closed(job))
    {
      WeighUpdate(s.tasks, |s.tasks|, Closed(job), w, s'.tasks[w]);
    }
  }

  lemma HandlerKeepsCounters(s: State, w: nat, act: HandlerAct)
    requires ActiveMatches(s) && LookUpsMatch(s) && HandlerEnabled(s, w, act)
    ensures ActiveMatches(DoHandler(s, w, act)) && LookUpsMatch(DoHandler(s, w, act))
  {
    HandlerEffect(s, w, act);
    WeightsEffect(s, w, act);
    var s' := DoHandler(s, w, act);
    hide DoHandler, HandlerEnabled, IsActive, Uncounted;
    WeighUpdate(s.tasks, |s.tasks|, IsActive, w, s'.tasks[w]);
    WeighUpdate(s.tasks, |s.tasks|, Uncounted, w, s'.tasks[w]);
  }

  /** The guard of the decrement never acts: a task that is about to decrement is itself counted. */
  lemma ClampNeverActs(s: State, w: nat)
    requires ActiveMatches(s) && HandlerEnabled(s, w, Deactivate)
    ensures s.metrics.active > 0 && DoHandler(s, w, Deactivate).metrics.active == s.metrics.active - 1
  {
    WeighMonotone(s.tasks, s.tasks, |s.tasks|, IsActive);
    assert IsActive(s.tasks[w]) == 1;
  }

  lemma CountsEffect(s: State, w: nat, act: HandlerAct)
    requires HandlerEnabled(s, w, act)
    ensures var s', t, t' := DoHandler(s, w, act), s.tasks[w], DoHandler(s, w, act).tasks[w];
            && s'.metrics.hits - |s'.replays| - IsReplaying(t') == s.metrics.hits - |s.replays| - IsReplaying(t)
            && s'.metrics.misses - |s'.relays| - s'.metrics.failures - IsFetching(t') ==
               s.metrics.misses - |s.relays| - s.metrics.failures - IsFetching(t)
            && s'.metrics.total - |s'.closed| - HasUnclosed(t') == s.metrics.total - |s.closed| - HasUnclosed(t)
  {
    hide AfterReceive, AfterEvent, Key, Captured, M.Put, M.Get;
  }

  lemma HandlerKeepsCounts(s: State, w: nat, act: HandlerAct)
    requires CountsMatch(s) && HandlerEnabled(s, w, act)
    ensures CountsMatch(DoHandler(s, w, act))
  {
    HandlerEffect(s, w, act);
    CountsEffect(s, w, act);
    var s' := DoHandler(s, w, act);
    hide DoHandler, PcAllows, IsReplaying, IsFetching, HasUnclosed;
    WeighUpdate(s.tasks, |s.tasks|, IsReplaying, w, s'.tasks[w]);
    WeighUpdate(s.tasks, |s.tasks|, IsFetching, w, s'.tasks[w]);
    WeighUpdate(s.tasks, |s.tasks|, HasUnclosed, w, s'.tasks[w]);
  }

  // ----- descriptors

  predicate Unclosed(t: Task) {
    t.Running? && t.pc != Leaving && t.pc != Returned
  }

  lemma ClosedWereDequeued(s: State, job: Job)
    requires P.HandOff(s.pool) && TasksMatch(s) && ClosesMatch(s)
    ensures multiset(s.closed)[job] <= multiset(s.pool.dequeued)[job]
  {
    WeighBelow(s.tasks, Closed(job), s.pool.workers, P.Carries(job), |s.tasks|);
    assert multiset(s.closed)[job] == s.pool.handled[job] + Weigh(s.tasks, |s.tasks|, Closed(job));
  }

  lemma ClosedWereAccepted(s: State)
    requires P.HandOff(s.pool) && P.Fifo(s.pool) && TasksMatch(s) && ClosesMatch(s) && MainMatches(s)
    ensures multiset(s.closed) <= multiset(s.arrived)
  {
    forall job ensures multiset(s.closed)[job] <= multiset(s.arrived)[job] {
      ClosedWereDequeued(s, job);
      assert s.arrived == s.pool.dequeued + (Window(s.pool.ring) + Pending(s));
    }
  }

  /** The state in which the task of worker `w` has closed its socket. */
  function CloseTask(s: State, w: nat): State
    requires w < |s.tasks| && s.tasks[w].Running?
  {
    var job := s.tasks[w].job;
    s.(tasks := s.tasks[w := s.tasks[w].(pc := Leaving)], closed := s.closed + [job])
  }

  lemma CloseTaskMatches(s: State, w: nat)
    requires TasksMatch(s) && ClosesMatch(s) && MainMatches(s) && w < |s.tasks| && Unclosed(s.tasks[w])
    ensures TasksMatch(CloseTask(s, w)) && ClosesMatch(CloseTask(s, w)) && MainMatches(CloseTask(s, w))
  {
    var s' := CloseTask(s, w);
    forall job ensures multiset(s'.closed)[job] == s'.pool.handled[job] + Weigh(s'.tasks, |s'.tasks|, Closed(job)) {
      WeighUpdate(s.tasks, |s.tasks|, Closed(job), w, s'.tasks[w]);
      assert multiset(s.closed)[job] == s.pool.handled[job] + Weigh(s.tasks, |s.tasks|, Closed(job));
    }
  }

  /** A handler that has not closed its socket works on an open descriptor. */
  lemma UnclosedIsOpen(s: State, w: nat)
    requires P.HandOff(s.pool) && P.Fifo(s.pool) && TasksMatch(s) && ClosesMatch(s) && MainMatches(s) && OpenMatches(s)
    requires w < |s.tasks| && Unclosed(s.tasks[w])
    ensures s.tasks[w].job.socket in s.open
  {
    hide P.HandOff, P.Fifo, TasksMatch, ClosesMatch, MainMatches;
    var job := s.tasks[w].job;
    CloseTaskMatches(s, w);
    ClosedWereAccepted(CloseTask(s, w));
    WeighContained(s.closed + [job], s.arrived, On(job.socket));
    WeighAppend(s.closed, job, On(job.socket));
  }

  /** No two handlers that have not closed their sockets work on the same descriptor. */
  lemma UnclosedHaveOwnSockets(s: State, v: nat, w: nat)
    requires P.HandOff(s.pool) && P.Fifo(s.pool) && TasksMatch(s) && ClosesMatch(s) && MainMatches(s) && OpenMatches(s)
    requires v < |s.tasks| && w < |s.tasks| && v != w && Unclosed(s.tasks[v]) && Unclosed(s.tasks[w])
    ensures s.tasks[v].job.socket != s.tasks[w].job.socket
  {
    hide P.HandOff, P.Fifo, TasksMatch, ClosesMatch, MainMatches;
    var socket := s.tasks[v].job.socket;
    var s' := CloseTask(s, v);
    CloseTaskMatches(s, v);
    CloseTaskMatches(s', w);
    ClosedWereAccepted(CloseTask(s', w));
    WeighContained(s'.closed + [s.tasks[w].job], s.arrived, On(socket));
    WeighAppend(s'.closed, s.tasks[w].job, On(socket));
    WeighAppend(s.closed, s.tasks[v].job, On(socket));
  }

  lemma HandlerKeepsOpen(s: State, w: nat, act: HandlerAct)
    requires P.Inv(s.pool) && TasksMatch(s) && ClosesMatch(s) && MainMatches(s) && OpenMatches(s)
    requires HandlerEnabled(s, w, act)
    ensures OpenMatches(DoHandler(s, w, act))
  {
    hide P.Inv, TasksMatch, ClosesMatch, MainMatches, DoHandler, Balanced, PcAllows;
    HandlerEffect(s, w, act);
    WeightsEffect(s, w, act);
    if act == Close {
      PoolInvMeans(s.pool);
      UnclosedIsOpen(s, w);
      CloseBalances(s.arrived, s.closed, s.open, s.tasks[w].job);
    } else {
      assert s.closed + [] == s.closed && s.open - {} == s.open;
    }
  }

  lemma PoolInvMeans(p: P.State)
    requires P.Inv(p)
    ensures P.HandOff(p) && P.Fifo(p)
  {
  }

  lemma CloseBalances(arrived: seq<Job>, closed: seq<Job>, open: set<int>, job: Job)
    requires Balanced(arrived, closed, open) && job.socket in open
    ensures Balanced(arrived, closed + [job], open - {job.socket})
  {
    forall socket
      ensures Weigh(arrived, |arrived|, On(socket)) ==
              Weigh(closed + [job], |closed| + 1, On(socket)) + if socket in open - {job.socket} then 1 else 0
    {
      WeighAppend(closed, job, On(socket));
    }
  }

  lemma AcceptBalances(arrived: seq<Job>, closed: seq<Job>, open: set<int>, job: Job)
    requires Balanced(arrived, closed, open) && job.socket !in open
    ensures Balanced(arrived + [job], closed, open + {job.socket})
  {
    forall socket
      ensures Weigh(arrived + [job], |arrived| + 1, On(socket)) ==
              Weigh(closed, |closed|, On(socket)) + if socket in open + {job.socket} then 1 else 0
    {
      WeighAppend(arrived, job, On(socket));
    }
  }

  // ----- pool steps

  lemma WorkerKeepsHandler(p: P.State, w: nat, act: P.WorkerAct, v: nat)
    requires P.WorkerEnabled(p, w, act) && v < |p.workers| && p.workers[v].Handling? && !(w == v && act == P.Return)
    ensures P.DoWorker(p, w, act).workers[v] == p.workers[v]
  {
  }

  /** A pool step leaves a handler alone until it returns. */
  lemma PoolKeepsHandlers(p: P.State, step: P.Step, v: nat)
    requires P.Enabled(p, step) && v < |p.workers| && p.workers[v].Handling? && step != P.W(v, P.Return)
    ensures |P.Do(p, step).workers| == |p.workers| && P.Do(p, step).workers[v] == p.workers[v]
  {
    match step
    case W(w, act) => WorkerKeepsHandler(p, w, act, v);
    case S(i, act) =>
    case C(act) =>
  }

  lemma WorkerHandled(p: P.State, w: nat, act: P.WorkerAct)
    requires P.WorkerEnabled(p, w, act)
    ensures var p' := P.DoWorker(p, w, act);
            && p'.handled == p.handled + (if act == P.Return then multiset{p.workers[w].job} else multiset{})
            && |p'.workers| == |p.workers| && |p'.submitters| == |p.submitters|
  {
  }

  lemma PoolHandled(p: P.State, step: P.Step)
    requires P.Enabled(p, step)
    ensures P.Do(p, step).handled ==
            p.handled + if step.W? && step.wa == P.Return then multiset{p.workers[step.w].job} else multiset{}
    ensures |P.Do(p, step).workers| == |p.workers| && |P.Do(p, step).submitters| == |p.submitters|
  {
    match step
    case W(w, act) => WorkerHandled(p, w, act);
    case S(i, act) =>
    case C(act) =>
  }

  predicate IsPending(pc: P.Submitter) {
    !pc.Idle? && !pc.Stored? && !pc.Releasing?
  }

  /** What a pool step other than a call does to the only submitter. */
  ghost predicate SubmitterEffect(p: P.State, p': P.State, step: P.Step)
    requires |p.submitters| == 1
  {
    && |p'.submitters| == 1
    && var pc, pc' := p.submitters[0], p'.submitters[0];
       && (step.S? ==> !pc.Idle?)
       && (pc.Idle? ==> pc'.Idle? && p'.accepted == p.accepted)
       && (!pc.Idle? && !pc'.Idle? ==> pc'.job == pc.job)
       && (!step.C? ==> p'.closer == p.closer)
       && (!step.S? || !p.shuttingDown ==> p'.refused == p.refused)
       && (!p.shuttingDown && !pc.Idle? ==>
             if IsPending(pc) && !IsPending(pc') then p'.accepted == p.accepted + [pc.job]
             else p'.accepted == p.accepted && (IsPending(pc') <==> IsPending(pc)))
  }

  lemma WorkerToSubmitter(p: P.State, w: nat, act: P.WorkerAct)
    requires P.WorkerEnabled(p, w, act) && |p.submitters| == 1
    ensures SubmitterEffect(p, P.DoWorker(p, w, act), P.W(w, act))
  {
  }

  lemma SubmitterToItself(p: P.State, i: nat, act: P.SubmitterAct)
    requires P.SubmitterEnabled(p, i, act) && |p.submitters| == 1 && !act.Call?
    ensures SubmitterEffect(p, P.DoSubmitter(p, i, act), P.S(i, act))
  {
  }

  lemma CloserToSubmitter(p: P.State, act: P.CloserAct)
    requires P.CloserEnabled(p, act) && |p.submitters| == 1
    ensures SubmitterEffect(p, P.DoCloser(p, act), P.C(act))
  {
  }

  lemma PoolSubmitter(p: P.State, step: P.Step)
    requires P.Enabled(p, step) && |p.submitters| == 1 && (step.S? ==> !step.sa.Call?)
    ensures SubmitterEffect(p, P.Do(p, step), step)
  {
    match step
    case W(w, act) => WorkerToSubmitter(p, w, act);
    case S(i, act) => SubmitterToItself(p, i, act);
    case C(act) => CloserToSubmitter(p, act);
  }

  lemma PoolKeepsTasks(s: State, step: P.Step)
    requires TasksMatch(s) && PoolEnabled(s, step)
    ensures TasksMatch(Do(s, Pool(step)))
  {
    var s' := Do(s, Pool(step));
    PoolHandled(s.pool, step);
    hide P.Do, P.Enabled;
    forall w | 0 <= w < |s'.tasks| && s'.tasks[w].Running?
      ensures s'.pool.workers[w] == P.Handling(s'.tasks[w].job)
    {
      assert s.tasks[w] == s'.tasks[w];
      PoolKeepsHandlers(s.pool, step, w);
    }
  }

  lemma ReturnKeepsWeights(s: State, w: nat, job: Job)
    requires w < |s.tasks| && s.tasks[w].Running? && s.tasks[w].pc == Returned
    ensures var tasks := s.tasks[w := NotStarted];
            && Weigh(tasks, |tasks|, IsActive) == Weigh(s.tasks, |s.tasks|, IsActive)
            && Weigh(tasks, |tasks|, Uncounted) == Weigh(s.tasks, |s.tasks|, Uncounted)
            && Weigh(tasks, |tasks|, IsReplaying) == Weigh(s.tasks, |s.tasks|, IsReplaying)
            && Weigh(tasks, |tasks|, IsFetching) == Weigh(s.tasks, |s.tasks|, IsFetching)
            && Weigh(tasks, |tasks|, HasUnclosed) == Weigh(s.tasks, |s.tasks|, HasUnclosed)
            && Weigh(tasks, |tasks|, Closed(job)) + (if s.tasks[w].job == job then 1 else 0) ==
               Weigh(s.tasks, |s.tasks|, Closed(job))
  {
    WeighUpdate(s.tasks, |s.tasks|, IsActive, w, NotStarted);
    WeighUpdate(s.tasks, |s.tasks|, Uncounted, w, NotStarted);
    WeighUpdate(s.tasks, |s.tasks|, IsReplaying, w, NotStarted);
    WeighUpdate(s.tasks, |s.tasks|, IsFetching, w, NotStarted);
    WeighUpdate(s.tasks, |s.tasks|, HasUnclosed, w, NotStarted);
    WeighUpdate(s.tasks, |s.tasks|, Closed(job), w, NotStarted);
  }

  lemma PoolKeepsWeights(s: State, step: P.Step)
    requires TasksMatch(s) && ClosesMatch(s) && ActiveMatches(s) && LookUpsMatch(s) && CountsMatch(s)
    requires PoolEnabled(s, step)
    ensures var s' := Do(s, Pool(step)); ClosesMatch(s') && ActiveMatches(s') && LookUpsMatch(s') && CountsMatch(s')
  {
    var s' := Do(s, Pool(step));
    PoolHandled(s.pool, step);
    hide P.Do, P.Enabled, IsActive, Uncounted, Closed, IsReplaying, IsFetching, HasUnclosed;
    if step.W? && step.wa == P.Return {
      ReturnKeepsWeights(s, step.w, s.tasks[step.w].job);
    }
    forall job
      ensures multiset(s'.closed)[job] == s'.pool.handled[job] + Weigh(s'.tasks, |s'.tasks|, Closed(job))
    {
      if step.W? && step.wa == P.Return {
        ReturnKeepsWeights(s, step.w, job);
      }
    }
  }

  lemma PoolKeepsMain(s: State, step: P.Step)
    requires P.Phases(s.pool) && MainMatches(s) && PoolEnabled(s, step)
    ensures MainMatches(Do(s, Pool(step)))
  {
    PoolSubmitter(s.pool, step);
    hide P.Do, P.Enabled;
  }

  // ----- all runs

  ghost predicate Inv(s: State) {
    && P.Inv(s.pool) && TasksMatch(s) && ClosesMatch(s) && ActiveMatches(s) && LookUpsMatch(s) && CountsMatch(s)
    && MainMatches(s) && OpenMatches(s)
  }

  lemma StartInv(workers: nat, capacity: nat, cacheSize: word)
    requires capacity > 0
    ensures Inv(Start(workers, capacity, cacheSize))
  {
    var s := Start(workers, capacity, cacheSize);
    P.StartInv(workers, 1, capacity);
    P.WeighNothing(s.tasks, workers, IsActive);
    P.WeighNothing(s.tasks, workers, Uncounted);
    P.WeighNothing(s.tasks, workers, IsReplaying);
    P.WeighNothing(s.tasks, workers, IsFetching);
    P.WeighNothing(s.tasks, workers, HasUnclosed);
    forall job ensures multiset(s.closed)[job] == s.pool.handled[job] + Weigh(s.tasks, |s.tasks|, Closed(job)) {
      P.WeighNothing(s.tasks, workers, Closed(job));
    }
  }

  lemma MainStepKeepsInv(s: State, act: Act)
    requires Inv(s) && Enabled(s, act) && !act.Pool? && !act.Handle?
    ensures Inv(Do(s, act))
  {
    hide P.Inv, P.Do, Weigh;
    if act == BeginSubmit {
      P.StepKeepsInv(s.pool, P.S(0, P.Call(s.main.job)));
      CallIsStep(s.pool, s.main.job);
    } else if act.Accept? {
      AcceptBalances(s.arrived, s.closed, s.open, act.job);
    }
  }

  lemma CallIsStep(p: P.State, job: Job)
    requires P.SubmitterEnabled(p, 0, P.Call(job))
    ensures P.Enabled(p, P.S(0, P.Call(job))) && P.Do(p, P.S(0, P.Call(job))) == P.DoSubmitter(p, 0, P.Call(job))
  {
  }

  lemma StepKeepsInv(s: State, act: Act)
    requires Inv(s) && Enabled(s, act)
    ensures Inv(Do(s, act))
  {
    hide TasksMatch, ClosesMatch, ActiveMatches, LookUpsMatch, CountsMatch, MainMatches, P.Inv;
    match act
    case Pool(step) =>
      PoolInv(s.pool, step);
      PoolKeepsTasks(s, step);
      PoolKeepsWeights(s, step);
      PoolKeepsMain(s, step);
    case Handle(w, h) =>
      HandlerKeepsTasks(s, w, h);
      HandlerKeepsCloses(s, w, h);
      HandlerKeepsCounters(s, w, h);
      HandlerKeepsCounts(s, w, h);
      HandlerKeepsMain(s, w, h);
      HandlerKeepsOpen(s, w, h);
    case _ => MainStepKeepsInv(s, act);
  }

  lemma PoolInv(p: P.State, step: P.Step)
    requires P.Inv(p) && P.Enabled(p, step)
    ensures P.Inv(P.Do(p, step)) && P.Phases(p)
  {
    P.StepKeepsInv(p, step);
  }

  lemma HandlerKeepsMain(s: State, w: nat, act: HandlerAct)
    requires MainMatches(s) && HandlerEnabled(s, w, act)
    ensures MainMatches(DoHandler(s, w, act)) && DoHandler(s, w, act).pool == s.pool
  {
    HandlerEffect(s, w, act);
    hide DoHandler, HandlerEnabled;
  }

  lemma {:induction false} RunKeepsInv(s: State, acts: seq<Act>)
    requires Inv(s) && IsRun(s, acts)
    ensures Inv(After(s, acts)) && |After(s, acts).pool.workers| == |s.pool.workers|
    decreases |acts|
  {
    hide Inv;
    if acts != [] {
      StepKeepsInv(s, acts[0]);
      SameWorkers(s, acts[0]);
      RunKeepsInv(Do(s, acts[0]), acts[1..]);
    }
  }

  lemma SameWorkers(s: State, act: Act)
    requires Enabled(s, act)
    ensures |Do(s, act).pool.workers| == |s.pool.workers|
  {
    match act
    case Pool(step) => PoolHandled(s.pool, step);
    case Handle(w, h) => HandlerEffect(s, w, h);
    case _ =>
  }

  // ----- what conservation means

  /** In every reachable state of the server, also when the operating system hands out closed descriptors again: no
      connection has been closed more often than it was accepted, no submit of the accept loop has been refused,
      the open descriptors are those with one more accept than close, every handler that has yet to close its
      socket works on an open descriptor, and no two of them on the same one. */
  lemma NeverClosedTwice(workers: nat, capacity: nat, cacheSize: word, acts: seq<Act>)
    requires capacity > 0 && IsRun(Start(workers, capacity, cacheSize), acts)
    ensures var s := After(Start(workers, capacity, cacheSize), acts);
            && multiset(s.closed) <= multiset(s.arrived) && s.pool.refused == [] && OpenMatches(s)
            && (forall w :: 0 <= w < |s.tasks| && Unclosed(s.tasks[w]) ==> s.tasks[w].job.socket in s.open)
            && (forall v, w :: 0 <= v < w < |s.tasks| && Unclosed(s.tasks[v]) && Unclosed(s.tasks[w]) ==>
                  s.tasks[v].job.socket != s.tasks[w].job.socket)
  {
    hide Inv;
    StartInv(workers, capacity, cacheSize);
    RunKeepsInv(Start(workers, capacity, cacheSize), acts);
    var s := After(Start(workers, capacity, cacheSize), acts);
    InvMeans(s);
    ClosedWereAccepted(s);
    forall w | 0 <= w < |s.tasks| && Unclosed(s.tasks[w]) ensures s.tasks[w].job.socket in s.open {
      UnclosedIsOpen(s, w);
    }
    forall v, w | 0 <= v < w < |s.tasks| && Unclosed(s.tasks[v]) && Unclosed(s.tasks[w])
      ensures s.tasks[v].job.socket != s.tasks[w].job.socket
    {
      UnclosedHaveOwnSockets(s, v, w);
    }
  }

  /** After every submit the accept loop goes on. */
  lemma SubmitReturnsToPolling(workers: nat, capacity: nat, cacheSize: word, acts: seq<Act>)
    requires capacity > 0 && IsRun(Start(workers, capacity, cacheSize), acts)
    requires Enabled(After(Start(workers, capacity, cacheSize), acts), EndSubmit)
    ensures Do(After(Start(workers, capacity, cacheSize), acts), EndSubmit).main == Polling
  {
    hide Inv;
    StartInv(workers, capacity, cacheSize);
    RunKeepsInv(Start(workers, capacity, cacheSize), acts);
    InvMeans(After(Start(workers, capacity, cacheSize), acts));
  }

  lemma InvMeans(s: State)
    requires Inv(s)
    ensures P.HandOff(s.pool) && P.Fifo(s.pool) && TasksMatch(s) && ClosesMatch(s) && MainMatches(s) && OpenMatches(s)
  {
  }

  lemma NothingRunning(s: State, job: Job)
    requires forall w :: 0 <= w < |s.tasks| ==> s.tasks[w] == NotStarted
    ensures Weigh(s.tasks, |s.tasks|, IsActive) == 0 && Weigh(s.tasks, |s.tasks|, Uncounted) == 0
    ensures Weigh(s.tasks, |s.tasks|, IsReplaying) == 0 && Weigh(s.tasks, |s.tasks|, IsFetching) == 0
    ensures Weigh(s.tasks, |s.tasks|, HasUnclosed) == 0 && Weigh(s.tasks, |s.tasks|, Closed(job)) == 0
  {
    P.WeighNothing(s.tasks, |s.tasks|, IsActive);
    P.WeighNothing(s.tasks, |s.tasks|, Uncounted);
    P.WeighNothing(s.tasks, |s.tasks|, IsReplaying);
    P.WeighNothing(s.tasks, |s.tasks|, IsFetching);
    P.WeighNothing(s.tasks, |s.tasks|, HasUnclosed);
    P.WeighNothing(s.tasks, |s.tasks|, Closed(job));
  }

  lemma DestroyedIsQuiet(s: State)
    requires Inv(s) && s.pool.closer == P.Destroyed
    ensures s.arrived == s.pool.accepted && forall w :: 0 <= w < |s.tasks| ==> s.tasks[w] == NotStarted
  {
  }

  lemma Settled(s: State, job: Job)
    requires Inv(s) && s.pool.closer == P.Destroyed && |s.pool.workers| > 0
    ensures multiset(s.closed)[job] == multiset(s.arrived)[job]
    ensures s.metrics.active == 0 && s.metrics.hits + s.metrics.misses == s.parsed && s.pool.closed == []
    ensures s.metrics.hits == |s.replays| && s.metrics.misses == |s.relays| + s.metrics.failures
    ensures s.metrics.total == |s.closed|
  {
    P.DrainedWhenDestroyed(s.pool);
    DestroyedIsQuiet(s);
    NothingRunning(s, job);
    hide P.Inv, TasksMatch;
    assert multiset(s.closed)[job] == s.pool.handled[job] + Weigh(s.tasks, |s.tasks|, Closed(job));
  }

  /** Once the pool of at least one worker is destroyed, every accepted connection has been closed exactly as often
      as it was accepted, no descriptor is open, no connection is counted as active, every parsed request was
      counted as a hit or a miss, every hit was replayed, every miss was relayed or counted as a failure, every
      connection was counted, and the teardown loop found nothing to close. */
  lemma AllSettledAtTheEnd(workers: nat, capacity: nat, cacheSize: word, acts: seq<Act>)
    requires capacity > 0 && workers > 0 && IsRun(Start(workers, capacity, cacheSize), acts)
    ensures var s := After(Start(workers, capacity, cacheSize), acts);
            s.pool.closer == P.Destroyed ==>
              && multiset(s.closed) == multiset(s.arrived) && s.open == {}
              && s.metrics.active == 0 && s.metrics.hits + s.metrics.misses == s.parsed
              && s.metrics.hits == |s.replays| && s.metrics.misses == |s.relays| + s.metrics.failures
              && s.metrics.total == |s.arrived| && s.pool.closed == []
  {
    hide Inv;
    StartInv(workers, capacity, cacheSize);
    RunKeepsInv(Start(workers, capacity, cacheSize), acts);
    var s := After(Start(workers, capacity, cacheSize), acts);
    if s.pool.closer == P.Destroyed {
      Settled(s, NO_JOB);
      forall job ensures multiset(s.closed)[job] == multiset(s.arrived)[job] {
        Settled(s, job);
      }
      InvMeans(s);
      NothingOpen(s);
      assert |multiset(s.closed)| == |multiset(s.arrived)|;
    }
  }

  lemma NothingOpen(s: State)
    requires OpenMatches(s) && multiset(s.closed) == multiset(s.arrived)
    ensures s.open == {}
  {
    forall socket ensures socket !in s.open {
      WeighContained(s.arrived, s.closed, On(socket));
    }
  }
}
