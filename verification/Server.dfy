/**
 The whole server: the accept loop, the worker pool, and in each worker the handling of one connection as a
 sequence of atomic effects on the socket, the metrics and the shared cache, interleaved in any order.
 */
module Server {
  import opened Common
  import opened RequestParser
  import opened JobRing
  import CacheKey
  import CacheRuns
  import F = Forwarder
  import I = Intake
  import M = CacheModel
  import P = ThreadPool

  const MAX_CAPTURE := 262144

  /** Where a worker is inside `process_client_connection`. */
  datatype Pc =
    | Entered                                   // request counted
    | Activated                                 // active connection counted
    | Reading                                   // time-out set
    | Parsed(r: Request)
    | Found(r: Request, bytes: seq<byte>)       // hit not yet counted
    | Missed(r: Request)                        // miss not yet counted
    | Replaying(r: Request, bytes: seq<byte>)
    | Forwarding(r: Request, relayed: seq<byte>, capture: F.Capture)
    | Fetched(r: Request, captured: Option<seq<byte>>)
    | Failing                                   // failed fetch not yet counted
    | Closing                                   // client socket still open
    | Leaving                                   // client socket closed
    | Returned                                  // active connection discounted

  /** `events` is history: what the network did while the response was relayed. */
  datatype Task = NotStarted | Running(job: Job, pc: Pc, events: seq<F.Event>)

  datatype Main = Polling | Holding(job: Job) | Submitting(job: Job) | Refused(job: Job) | Stopping

  /** A forward that returned 0. */
  datatype Relay = Relay(r: Request, bytes: seq<byte>, events: seq<F.Event>)

  /** A hit written to its client. */
  datatype Replay = Replay(r: Request, bytes: seq<byte>)

  datatype Metrics = Metrics(total: nat, active: nat, hits: nat, misses: nat, failures: nat, evictions: nat)

  datatype State = State(
    pool: P.State,
    tasks: seq<Task>,
    main: Main,
    cache: M.State,
    metrics: Metrics,
    open: set<int>,     // client sockets the operating system has handed out and not got back
    // history
    arrived: seq<Job>,
    closed: seq<Job>,
    relays: seq<Relay>,
    replays: seq<Replay>,
    parsed: nat)

  datatype HandlerAct =
    | Enter | Activate | SetTimeout(ok: bool) | Receive(script: seq<I.Read>) | LookUp(gotMemory: bool)
    | CountHit | CountMiss | Replay | GiveUp | FromOrigin(event: F.Event) | OriginEnds | CountFailure
    | Store(alloc: M.Allocation) | Close | Deactivate

  datatype Act =
    | Pool(step: P.Step)
    | Handle(w: nat, act: HandlerAct)
    | Accept(job: Job) | BeginSubmit | EndSubmit | CloseRefused | StopAccepting

  function Start(workers: nat, capacity: nat, cacheSize: word): State {
    State(P.Start(workers, 1, capacity), seq(workers, _ => NotStarted), Polling,
          CacheRuns.Empty(cacheSize, if cacheSize < MAX_CAPTURE then cacheSize else MAX_CAPTURE),
          Metrics(0, 0, 0, 0, 0, 0), {}, [], [], [], [], 0)
  }

  // ----- one connection

  predicate HandlerEnabled(s: State, w: nat, act: HandlerAct) {
    && w < |s.tasks| && w < |s.pool.workers|
    && (if act == Enter then s.tasks[w] == NotStarted && s.pool.workers[w].Handling?
        else s.tasks[w].Running? && PcAllows(s.tasks[w].pc, act) && (act == GiveUp ==> s.tasks[w].events == []))
  }

  predicate PcAllows(pc: Pc, act: HandlerAct) {
    match act
    case Enter => false
    case Activate => pc == Entered
    case SetTimeout(_) => pc == Activated
    case Receive(_) => pc == Reading
    case LookUp(_) => pc.Parsed?
    case CountHit => pc.Found?
    case CountMiss => pc.Missed?
    case Replay => pc.Replaying?
    case GiveUp => pc.Forwarding?
    case FromOrigin(event) => pc.Forwarding? && (event.Chunk? ==> 0 < |event.bytes| <= F.RESPONSE_BUFFER_SIZE)
    case OriginEnds => pc.Forwarding?
    case CountFailure => pc == Failing
    case Store(_) => pc.Fetched?
    case Close => pc == Closing
    case Deactivate => pc == Leaving
  }

  function SetPc(s: State, w: nat, pc: Pc): State
    requires w < |s.tasks| && s.tasks[w].Running?
  {
    s.(tasks := s.tasks[w := s.tasks[w].(pc := pc)])
  }

  /** The parser's verdict on what was read. */
  function AfterReceive(script: seq<I.Read>): (pc: Pc)
    ensures pc == Closing || pc.Parsed?
  {
    match I.Accepted(script)
    case None => Closing
    case Some(r) => Parsed(r)
  }

  /** The forward after one event from the origin. */
  function AfterEvent(pc: Pc, event: F.Event): (next: Pc)
    requires pc.Forwarding? && (event.Chunk? ==> event.bytes != [])
    ensures next == Failing || next.Forwarding?
  {
    if event == F.ReadError || !event.written then Failing
    else Forwarding(pc.r, pc.relayed + event.bytes, F.Absorb(pc.capture, event.bytes, event.gotMemory, MAX_CAPTURE))
  }

  /** What `cache_put` is called with after a complete relay. */
  function Captured(pc: Pc): Option<seq<byte>>
    requires pc.Forwarding?
  {
    if pc.capture.enabled && pc.capture.held then Some(pc.capture.bytes) else None
  }

  function Key(r: Request): string {
    if r.port >= 0 then CacheKey.Key(r) else ""
  }

  function DoHandler(s: State, w: nat, act: HandlerAct): State
    requires HandlerEnabled(s, w, act)
  {
    match act
    case Enter =>
      s.(tasks := s.tasks[w := Running(s.pool.workers[w].job, Entered, [])],
         metrics := s.metrics.(total := s.metrics.total + 1))
    case Activate => SetPc(s, w, Activated).(metrics := s.metrics.(active := s.metrics.active + 1))
    case SetTimeout(ok) => SetPc(s, w, if ok then Reading else Closing)
    case Receive(script) =>
      var pc := AfterReceive(script);
      SetPc(s, w, pc).(parsed := s.parsed + if pc.Parsed? then 1 else 0)
    case LookUp(gotMemory) =>
      var r := s.tasks[w].pc.r;
      var got := M.Get(s.cache, Key(r), gotMemory);
      SetPc(s, w, if got.value.None? then Missed(r) else Found(r, got.value.value)).(cache := got.state)
    case CountHit =>
      SetPc(s, w, Replaying(s.tasks[w].pc.r, s.tasks[w].pc.bytes)).(metrics := s.metrics.(hits := s.metrics.hits + 1))
    case CountMiss =>
      SetPc(s, w, Forwarding(s.tasks[w].pc.r, [], F.Start(true, MAX_CAPTURE)))
        .(metrics := s.metrics.(misses := s.metrics.misses + 1))
    case Replay =>
      var pc := s.tasks[w].pc;
      SetPc(s, w, Closing).(replays := s.replays + [Replay.Replay(pc.r, pc.bytes)])
    case GiveUp => SetPc(s, w, Failing)
    case FromOrigin(event) =>
      var t := s.tasks[w];
      s.(tasks := s.tasks[w := t.(pc := AfterEvent(t.pc, event), events := t.events + [event])])
    case OriginEnds =>
      var pc := s.tasks[w].pc;
      SetPc(s, w, Fetched(pc.r, Captured(pc))).(relays := s.relays + [Relay(pc.r, pc.relayed, s.tasks[w].events)])
    case CountFailure => SetPc(s, w, Closing).(metrics := s.metrics.(failures := s.metrics.failures + 1))
    case Store(alloc) =>
      var pc := s.tasks[w].pc;
      if pc.captured.None? || pc.captured.value == [] then SetPc(s, w, Closing)
      else
        var put := M.Put(s.cache, Key(pc.r), pc.captured.value, alloc, false);
        var counted := if put.ok && put.evicted then 1 else 0;
        SetPc(s, w, Closing).(cache := put.state, metrics := s.metrics.(evictions := s.metrics.evictions + counted))
    case Close =>
      var job := s.tasks[w].job;
      SetPc(s, w, Leaving).(open := s.open - {job.socket}, closed := s.closed + [job])
    case Deactivate =>
      SetPc(s, w, Returned).(metrics := s.metrics.(active := if s.metrics.active > 0 then s.metrics.active - 1 else 0))
  }

  // ----- the accept loop and the pool.  `accept` returns a descriptor that is not open, possibly one that was
  // open before.

  predicate PoolEnabled(s: State, step: P.Step) {
    && P.Enabled(s.pool, step)
    && (step.S? ==> !step.sa.Call?)
    && (step.C? ==> s.main == Stopping)
    && (step.W? && step.wa == P.Return ==>
          step.w < |s.tasks| && s.tasks[step.w].Running? && s.tasks[step.w].pc == Returned)
  }

  predicate Enabled(s: State, act: Act) {
    match act
    case Pool(step) => PoolEnabled(s, step)
    case Handle(w, h) => HandlerEnabled(s, w, h)
    case Accept(job) => s.main == Polling && job.socket != INVALID_SOCKET && job.socket !in s.open
    case BeginSubmit => s.main.Holding? && P.SubmitterEnabled(s.pool, 0, P.Call(s.main.job))
    case EndSubmit => s.main.Submitting? && |s.pool.submitters| > 0 && s.pool.submitters[0] == P.Idle
    case CloseRefused => s.main.Refused?
    case StopAccepting => s.main == Polling
  }

  function Do(s: State, act: Act): State
    requires Enabled(s, act)
  {
    match act
    case Pool(step) =>
      s.(pool := P.Do(s.pool, step),
         tasks := if step.W? && step.wa == P.Return then s.tasks[step.w := NotStarted] else s.tasks)
    case Handle(w, h) => DoHandler(s, w, h)
    case Accept(job) =>
      s.(main := Holding(job), open := s.open + {job.socket}, arrived := s.arrived + [job])
    case BeginSubmit => s.(main := Submitting(s.main.job), pool := P.DoSubmitter(s.pool, 0, P.Call(s.main.job)))
    case EndSubmit => s.(main := if s.main.job in s.pool.refused then Refused(s.main.job) else Polling)
    case CloseRefused =>
      s.(main := Stopping, open := s.open - {s.main.job.socket}, closed := s.closed + [s.main.job])
    case StopAccepting => s.(main := Stopping)
  }

  ghost predicate IsRun(s: State, acts: seq<Act>)
    decreases |acts|
  {
    acts == [] || (Enabled(s, acts[0]) && IsRun(Do(s, acts[0]), acts[1..]))
  }

  function After(s: State, acts: seq<Act>): State
    requires IsRun(s, acts)
    decreases |acts|
  {
    if acts == [] then s else After(Do(s, acts[0]), acts[1..])
  }

  // ----- the cache of the server

  /** At no point of the run does the stored payload exceed an address space, as in every run that can happen. */
  ghost predicate CacheStaysStorable(s: State, acts: seq<Act>)
    requires IsRun(s, acts)
    decreases |acts|
  {
    M.Storable(s.cache) && (acts != [] ==> CacheStaysStorable(Do(s, acts[0]), acts[1..]))
  }

  predicate SameLimits(a: M.State, b: M.State) {
    a.maxTotal == b.maxTotal && a.maxObject == b.maxObject
  }

  lemma HandlerKeepsCacheValid(s: State, w: nat, act: HandlerAct)
    requires M.Valid(s.cache) && HandlerEnabled(s, w, act)
    ensures var cache := DoHandler(s, w, act).cache;
            (M.Valid(cache) <==> M.Storable(cache)) && SameLimits(cache, s.cache)
  {
    match act
    case LookUp(gotMemory) => M.GetValid(s.cache, Key(s.tasks[w].pc.r), gotMemory);
    case Store(alloc) =>
      var pc := s.tasks[w].pc;
      if pc.captured.Some? {
        M.PutValid(s.cache, Key(pc.r), pc.captured.value, alloc, false);
      }
    case _ =>
  }

  lemma {:induction false} RunKeepsCacheValid(s: State, acts: seq<Act>)
    requires M.Valid(s.cache) && IsRun(s, acts) && CacheStaysStorable(s, acts)
    ensures M.Valid(After(s, acts).cache) && SameLimits(After(s, acts).cache, s.cache)
    decreases |acts|
  {
    hide M.Valid;
    if acts != [] {
      if acts[0].Handle? {
        HandlerKeepsCacheValid(s, acts[0].w, acts[0].act);
      }
      RunKeepsCacheValid(Do(s, acts[0]), acts[1..]);
    }
  }

  /** The server accepts every cache size that is a non-zero `size_t`.  Whatever its workers interleave, its cache
      stays well formed and within that budget. */
  lemma ServerBudget(workers: nat, capacity: nat, cacheSize: word, acts: seq<Act>)
    requires cacheSize > 0 && IsRun(Start(workers, capacity, cacheSize), acts)
    requires CacheStaysStorable(Start(workers, capacity, cacheSize), acts)
    ensures var cache := After(Start(workers, capacity, cacheSize), acts).cache;
            && M.Valid(cache) && CacheRuns.WithinBudget(cache)
            && cache.maxTotal == cacheSize && cache.maxObject == if cacheSize < 262144 then cacheSize else 262144
  {
    RunKeepsCacheValid(Start(workers, capacity, cacheSize), acts);
  }
}
