/**
 Cache transparency of the server: whatever the workers interleave, a hit replays byte for byte what an
 earlier complete relay delivered for the same method, host, port and path.
 */
module Transparency {
  import opened Common
  import opened RequestParser
  import opened Server
  import CacheKey
  import CacheRuns
  import F = Forwarder
  import I = Intake
  import M = CacheModel
  import Text

  ghost predicate SameTarget(q: Request, r: Request) {
    q.verb == r.verb && q.host == r.host && q.port == r.port && q.path == r.path
  }

  /** Everything that was read from the origin was written to the client, up to the end of the stream. */
  ghost predicate RelaySound(x: Relay) {
    Legal(x.r) && F.Readable(x.events) && F.Relay(x.events, []) == F.Relayed(true, x.bytes, x.bytes)
  }

  /** Some completed relay for the same target delivered exactly these bytes. */
  ghost predicate Replayable(relays: seq<Relay>, r: Request, bytes: seq<byte>) {
    && 0 < |bytes| <= 262144
    && exists x :: x in relays && RelaySound(x) && x.bytes == bytes && SameTarget(x.r, r)
  }

  /** An entry of the cache goes back to a completed relay under its key. */
  ghost predicate Backed(relays: seq<Relay>, item: M.Item) {
    && 0 < |item.data| <= 262144
    && exists x :: x in relays && RelaySound(x) && x.bytes == item.data && Key(x.r) == item.key
  }

  /** What the capture loop holds after these events. */
  function CaptureOf(events: seq<F.Event>): F.Capture
    requires F.Readable(events)
  {
    F.CaptureAfter(events, F.Start(true, 262144), 262144)
  }

  /** A task relays and captures what its events say; it has fetched a response only if they all went well, and
      has failed only before the first of them or because one went wrong. */
  ghost predicate TaskSound(relays: seq<Relay>, t: Task)
    requires t.Running?
  {
    match t.pc
    case Parsed(r) => Legal(r) && t.events == []
    case Found(r, bytes) => Legal(r) && Replayable(relays, r, bytes)
    case Missed(r) => Legal(r) && t.events == []
    case Replaying(r, bytes) => Legal(r) && Replayable(relays, r, bytes)
    case Forwarding(r, relayed, capture) =>
      && Legal(r) && F.Readable(t.events) && F.Relay(t.events, []) == F.Relayed(true, relayed, relayed)
      && capture == CaptureOf(t.events)
    case Fetched(r, captured) =>
      && Legal(r) && F.Readable(t.events) && F.Relay(t.events, []).ok
      && Relay(r, F.Relay(t.events, []).delivered, t.events) in relays
      && captured == if CaptureOf(t.events).held then Some(F.Relay(t.events, []).delivered) else None
    case Failing => t.events == [] || !F.Relay(t.events, []).ok
    case Closing => true case Leaving => true case Returned => true
    case _ => t.events == []
  }

  ghost predicate TasksSound(s: State) {
    forall w :: 0 <= w < |s.tasks| && s.tasks[w].Running? ==> TaskSound(s.relays, s.tasks[w])
  }

  ghost predicate HistorySound(s: State) {
    && (forall x :: x in s.relays ==> RelaySound(x))
    && (forall x :: x in s.replays ==> Replayable(s.relays, x.r, x.bytes))
  }

  ghost predicate CacheBacked(s: State) {
    forall i :: 0 <= i < |s.cache.items| ==> Backed(s.relays, s.cache.items[i])
  }

  // ----- the cache never invents an entry

  lemma OthersFrom(items: seq<M.Item>, key: string)
    ensures forall x :: x in M.Others(items, key) ==> x in items
  {
  }

  lemma PutItems(s: M.State, key: string, data: seq<byte>, alloc: M.Allocation)
    ensures forall x :: x in M.Put(s, key, data, alloc, false).state.items ==> x in s.items || x == M.Item(key, data)
  {
    var n := CacheRuns.PutShape(s, key, data, alloc);
    OthersFrom(s.items, key);
    hide M.Put, CacheRuns.Touches, M.Others;
  }

  lemma GetItems(s: M.State, key: string, gotMemory: bool)
    ensures var got := M.Get(s, key, gotMemory);
            && (forall x :: x in got.state.items ==> x in s.items)
            && (got.value.Some? ==> M.Item(key, got.value.value) in s.items)
  {
  }

  // ----- keys

  /** An entry found under the key of a parsed request was relayed for the same target. */
  lemma BackedIsReplayable(relays: seq<Relay>, r: Request, bytes: seq<byte>)
    requires Legal(r) && Backed(relays, M.Item(Key(r), bytes))
    ensures Replayable(relays, r, bytes)
  {
    var x :| x in relays && RelaySound(x) && x.bytes == bytes && Key(x.r) == Key(r);
    CacheKey.KeyInjective(x.r, r);
  }

  // ----- the steps

  lemma MoreRelays(relays: seq<Relay>, more: seq<Relay>)
    requires relays <= more
    ensures forall x :: x in relays ==> x in more
    ensures forall r, bytes :: Replayable(relays, r, bytes) ==> Replayable(more, r, bytes)
    ensures forall t: Task :: t.Running? && TaskSound(relays, t) ==> TaskSound(more, t)
  {
    forall r, bytes | Replayable(relays, r, bytes) ensures Replayable(more, r, bytes) {
      var x :| x in relays && RelaySound(x) && x.bytes == bytes && SameTarget(x.r, r);
      assert x in more;
    }
  }

  /** The step changes at most task `w`, the cache and the histories, all soundly. */
  lemma SoundStep(s: State, s': State, w: nat)
    requires TasksSound(s) && HistorySound(s) && w < |s.tasks| && |s'.tasks| == |s.tasks| && s.relays <= s'.relays
    requires forall v :: 0 <= v < |s.tasks| && v != w ==> s'.tasks[v] == s.tasks[v]
    requires s'.tasks[w].Running? ==> TaskSound(s'.relays, s'.tasks[w])
    requires forall x :: x in s'.relays ==> x in s.relays || RelaySound(x)
    requires forall x :: x in s'.replays ==> x in s.replays || Replayable(s'.relays, x.r, x.bytes)
    ensures TasksSound(s') && HistorySound(s')
  {
    MoreRelays(s.relays, s'.relays);
    hide TaskSound, RelaySound, Replayable;
  }

  lemma ItemsStayBacked(s: State, s': State)
    requires CacheBacked(s) && s.relays <= s'.relays
    requires forall x :: x in s'.cache.items ==> x in s.cache.items || Backed(s'.relays, x)
    ensures CacheBacked(s')
  {
    forall i | 0 <= i < |s'.cache.items| ensures Backed(s'.relays, s'.cache.items[i]) {
      var item := s'.cache.items[i];
      if item in s.cache.items {
        var x :| x in s.relays && RelaySound(x) && x.bytes == item.data && Key(x.r) == item.key;
        assert x in s'.relays;
      }
    }
  }

  lemma ReceiveIsLegal(script: seq<I.Read>)
    ensures AfterReceive(script).Parsed? ==> Legal(AfterReceive(script).r)
    ensures AfterReceive(script) == Closing || AfterReceive(script).Parsed?
  {
    match I.Receive(script, "", I.BUFFER_SIZE)
    case Received(bytes) =>
      if Parse(Text.CString(bytes)).Some? {
        ParsedIsLegal(Text.CString(bytes));
      }
    case _ =>
  }

  /** An event keeps the task's relay and capture those of its events, and a bad one ends the relay. */
  lemma EventIsSound(relays: seq<Relay>, t: Task, event: F.Event)
    requires t.Running? && t.pc.Forwarding? && TaskSound(relays, t)
    requires event.Chunk? ==> 0 < |event.bytes| <= F.RESPONSE_BUFFER_SIZE
    ensures TaskSound(relays, t.(pc := AfterEvent(t.pc, event), events := t.events + [event]))
    ensures AfterEvent(t.pc, event).Forwarding? <==> F.Good(event)
  {
    F.RelayAppend(t.events, [], event);
    F.CaptureAppend(t.events, [], F.Start(true, 262144), 262144, event);
    hide F.Relay, F.CaptureAfter, F.Absorb, Legal;
  }

  /** What a complete relay leaves in the capture variables. */
  lemma EndIsSound(relays: seq<Relay>, t: Task)
    requires t.Running? && t.pc.Forwarding? && TaskSound(relays, t)
    ensures var x := Relay(t.pc.r, t.pc.relayed, t.events);
            RelaySound(x) && TaskSound(relays + [x], t.(pc := Fetched(t.pc.r, Captured(t.pc))))
  {
    F.WholeCapture(t.events, true, 262144);
    hide F.Relay, F.CaptureAfter, Legal, F.Readable;
  }

  /** A look-up that hits finds bytes that an earlier relay delivered for the same target. */
  lemma LookUpIsReplay(s: State, w: nat, gotMemory: bool)
    requires TasksSound(s) && CacheBacked(s) && HandlerEnabled(s, w, LookUp(gotMemory))
    ensures var r := s.tasks[w].pc.r;
            var got := M.Get(s.cache, Key(r), gotMemory);
            Legal(r) && (got.value.Some? ==> Replayable(s.relays, r, got.value.value))
  {
    var r := s.tasks[w].pc.r;
    var got := M.Get(s.cache, Key(r), gotMemory);
    assert TaskSound(s.relays, s.tasks[w]);
    if got.value.Some? {
      GetItems(s.cache, Key(r), gotMemory);
      var item := M.Item(Key(r), got.value.value);
      assert Backed(s.relays, item);
      BackedIsReplayable(s.relays, r, got.value.value);
    }
  }

  /** Every task, every relay, every replay and every entry of the cache goes back to what the events say. */
  ghost predicate Sound(s: State) {
    TasksSound(s) && HistorySound(s) && CacheBacked(s)
  }

  lemma LookUpKeepsSound(s: State, w: nat, gotMemory: bool)
    requires Sound(s) && HandlerEnabled(s, w, LookUp(gotMemory))
    ensures Sound(DoHandler(s, w, LookUp(gotMemory)))
  {
    assert TaskSound(s.relays, s.tasks[w]);
    LookUpIsReplay(s, w, gotMemory);
    GetItems(s.cache, Key(s.tasks[w].pc.r), gotMemory);
    hide M.Get, Key, Legal, Replayable, Backed;
    SoundStep(s, DoHandler(s, w, LookUp(gotMemory)), w);
    ItemsStayBacked(s, DoHandler(s, w, LookUp(gotMemory)));
  }

  /** A captured response is backed by the relay it was captured from. */
  lemma CapturedIsBacked(relays: seq<Relay>, t: Task)
    requires t.Running? && t.pc.Fetched? && TaskSound(relays, t) && (forall x :: x in relays ==> RelaySound(x))
    ensures t.pc.captured.Some? ==> Backed(relays, M.Item(Key(t.pc.r), t.pc.captured.value))
  {
    F.WholeCapture(t.events, true, 262144);
    hide F.Relay, F.CaptureAfter, Legal, F.Readable;
    var x := Relay(t.pc.r, F.Relay(t.events, []).delivered, t.events);
    assert x in relays;
    assert RelaySound(x) && Key(x.r) == Key(t.pc.r);
  }

  lemma StoreKeepsSound(s: State, w: nat, alloc: M.Allocation)
    requires Sound(s) && HandlerEnabled(s, w, Store(alloc))
    ensures Sound(DoHandler(s, w, Store(alloc)))
  {
    hide M.Put, Key, Legal, Backed, RelaySound, Replayable, F.Relay, F.CaptureAfter, F.Readable;
    var t := s.tasks[w];
    assert TaskSound(s.relays, t);
    if t.pc.captured.Some? {
      PutItems(s.cache, Key(t.pc.r), t.pc.captured.value, alloc);
      CapturedIsBacked(s.relays, t);
    }
    SoundStep(s, DoHandler(s, w, Store(alloc)), w);
    ItemsStayBacked(s, DoHandler(s, w, Store(alloc)));
  }

  lemma OriginEndsKeepsSound(s: State, w: nat)
    requires Sound(s) && HandlerEnabled(s, w, OriginEnds)
    ensures Sound(DoHandler(s, w, OriginEnds))
  {
    var s' := DoHandler(s, w, OriginEnds);
    assert TaskSound(s.relays, s.tasks[w]);
    EndIsSound(s.relays, s.tasks[w]);
    hide Legal, Backed, TaskSound, RelaySound, Replayable, Captured;
    MoreRelays(s.relays, s'.relays);
    SoundStep(s, s', w);
    ItemsStayBacked(s, s');
  }

  lemma FromOriginKeepsSound(s: State, w: nat, event: F.Event)
    requires Sound(s) && HandlerEnabled(s, w, FromOrigin(event))
    ensures Sound(DoHandler(s, w, FromOrigin(event)))
  {
    assert TaskSound(s.relays, s.tasks[w]);
    EventIsSound(s.relays, s.tasks[w], event);
    hide AfterEvent, TaskSound, Replayable, Backed, RelaySound;
    SoundStep(s, DoHandler(s, w, FromOrigin(event)), w);
    ItemsStayBacked(s, DoHandler(s, w, FromOrigin(event)));
  }

  lemma OtherActsKeepSound(s: State, w: nat, act: HandlerAct)
    requires Sound(s) && HandlerEnabled(s, w, act)
    requires !act.LookUp? && !act.Store? && !act.FromOrigin? && act != OriginEnds
    ensures Sound(DoHandler(s, w, act))
  {
    if act.Receive? {
      ReceiveIsLegal(act.script);
    }
    assert act != Enter ==> TaskSound(s.relays, s.tasks[w]);
    OtherActIsSound(s.relays, s, w, act);
    hide AfterReceive, Legal, Replayable, Backed, RelaySound, TaskSound;
    SoundStep(s, DoHandler(s, w, act), w);
    ItemsStayBacked(s, DoHandler(s, w, act));
  }

  lemma OtherActIsSound(relays: seq<Relay>, s: State, w: nat, act: HandlerAct)
    requires HandlerEnabled(s, w, act) && (act != Enter ==> TaskSound(relays, s.tasks[w]))
    requires !act.LookUp? && !act.Store? && !act.FromOrigin? && act != OriginEnds
    ensures TaskSound(relays, DoHandler(s, w, act).tasks[w])
    ensures act == HandlerAct.Replay ==>
              var pc := s.tasks[w].pc;
              pc.Replaying? && Replayable(relays, pc.r, pc.bytes)
  {
    hide AfterReceive, Legal, Replayable, Key, F.Relay, F.CaptureAfter, F.Readable, M.Put, M.Get, Captured, AfterEvent;
    if act.Receive? {
      ReceiveIsLegal(act.script);
    } else if act == CountMiss {
      NothingRelayed();
    }
  }

  lemma NothingRelayed()
    ensures F.Readable([]) && F.Relay([], []) == F.Relayed(true, [], [])
    ensures CaptureOf([]) == F.Start(true, MAX_CAPTURE)
  {
  }

  lemma StepKeepsSound(s: State, act: Act)
    requires Sound(s) && Enabled(s, act)
    ensures Sound(Do(s, act))
  {
    hide Sound, DoHandler;
    match act
    case Handle(w, LookUp(gotMemory)) => LookUpKeepsSound(s, w, gotMemory);
    case Handle(w, Store(alloc)) => StoreKeepsSound(s, w, alloc);
    case Handle(w, OriginEnds) => OriginEndsKeepsSound(s, w);
    case Handle(w, FromOrigin(event)) => FromOriginKeepsSound(s, w, event);
    case Handle(w, h) => OtherActsKeepSound(s, w, h);
    case _ => UntouchedStaysSound(s, Do(s, act));
  }

  lemma UntouchedStaysSound(s: State, s': State)
    requires Sound(s) && s'.relays == s.relays && s'.replays == s.replays && s'.cache == s.cache
    requires |s'.tasks| == |s.tasks|
    requires forall v :: 0 <= v < |s.tasks| ==> s'.tasks[v] == s.tasks[v] || s'.tasks[v] == NotStarted
    ensures Sound(s')
  {
  }

  lemma {:induction false} RunKeepsSound(s: State, acts: seq<Act>)
    requires Sound(s) && IsRun(s, acts)
    ensures Sound(After(s, acts))
    decreases |acts|
  {
    hide Sound;
    if acts != [] {
      StepKeepsSound(s, acts[0]);
      RunKeepsSound(Do(s, acts[0]), acts[1..]);
    }
  }

  /** In every reachable state of the server, over any interleaving of workers: when a look-up hits, its bytes
      are the whole of what an earlier successful forward read from the origin and wrote to its client, for a
      request with the same method, host, port and path, and they number between 1 and 262144. */
  lemma HitsReplayRelays(workers: nat, capacity: nat, cacheSize: word, acts: seq<Act>, w: nat, gotMemory: bool)
    requires IsRun(Start(workers, capacity, cacheSize), acts)
    requires HandlerEnabled(After(Start(workers, capacity, cacheSize), acts), w, LookUp(gotMemory))
    ensures var s := After(Start(workers, capacity, cacheSize), acts);
            var r := s.tasks[w].pc.r;
            var got := M.Get(s.cache, Key(r), gotMemory);
            got.value.Some? ==> Replayable(s.relays, r, got.value.value)
  {
    RunKeepsSound(Start(workers, capacity, cacheSize), acts);
    LookUpIsReplay(After(Start(workers, capacity, cacheSize), acts), w, gotMemory);
  }

  /** So is everything that was ever written to a client as a hit, and every relay on record went well from its
      first event to its last. */
  lemma HistoryIsSound(workers: nat, capacity: nat, cacheSize: word, acts: seq<Act>)
    requires IsRun(Start(workers, capacity, cacheSize), acts)
    ensures var s := After(Start(workers, capacity, cacheSize), acts);
            && (forall x :: x in s.relays ==>
                  && Legal(x.r) && F.Readable(x.events) && F.Relay(x.events, []) == F.Relayed(true, x.bytes, x.bytes))
            && (forall x :: x in s.replays ==> Replayable(s.relays, x.r, x.bytes))
  {
    RunKeepsSound(Start(workers, capacity, cacheSize), acts);
  }

  /** In every reachable state a worker that relays has delivered exactly what it read, and captured what the
      capture loop captures from it; one that has fetched a response has seen no event go wrong; and one that has
      failed has seen one go wrong, or has not got as far as the first. */
  lemma RelaysFollowEvents(workers: nat, capacity: nat, cacheSize: word, acts: seq<Act>, w: nat)
    requires IsRun(Start(workers, capacity, cacheSize), acts)
    requires w < |After(Start(workers, capacity, cacheSize), acts).tasks|
    ensures var t := After(Start(workers, capacity, cacheSize), acts).tasks[w];
            && (t.Running? && t.pc.Forwarding? ==>
                  && F.Readable(t.events) && F.Relay(t.events, []) == F.Relayed(true, t.pc.relayed, t.pc.relayed)
                  && t.pc.capture == F.CaptureAfter(t.events, F.Start(true, 262144), 262144))
            && (t.Running? && t.pc.Fetched? ==> F.Relay(t.events, []).ok)
            && (t.Running? && t.pc == Failing ==> t.events == [] || !F.Relay(t.events, []).ok)
  {
    RunKeepsSound(Start(workers, capacity, cacheSize), acts);
    var s := After(Start(workers, capacity, cacheSize), acts);
    assert s.tasks[w].Running? ==> TaskSound(s.relays, s.tasks[w]);
  }

  // ----- what each look-up, receive and store does

  /** A worker goes on with a request exactly when the bytes it read are a text of the grammar. */
  lemma ReceiveAcceptsGrammar(script: seq<I.Read>, r: Request)
    ensures AfterReceive(script) == Parsed(r) <==>
            exists bytes :: I.Receive(script, "", 8192) == I.Received(bytes) && IsRequest(Text.CString(bytes), r)
  {
    match I.Receive(script, "", 8192)
    case Received(bytes) =>
      ParserAcceptsGrammar(Text.CString(bytes), r);
      hide Parse;
      assert bytes == "" ==> Text.CString(bytes) == "";
      ParserAcceptsGrammar("", r);
      EmptyIsRejected();
    case _ =>
  }

  lemma EmptyIsRejected()
    ensures Parse("").None?
  {
  }

  /** A look-up hits exactly when its key is stored and memory is there for the copy, and it hits with the value
      stored. */
  lemma LookUpMeans(s: State, w: nat, gotMemory: bool)
    requires HandlerEnabled(s, w, LookUp(gotMemory))
    ensures var r := s.tasks[w].pc.r;
            var i := M.Find(s.cache.items, Key(r));
            DoHandler(s, w, LookUp(gotMemory)).tasks[w].pc ==
            if i < |s.cache.items| && gotMemory then Found(r, s.cache.items[i].data) else Missed(r)
  {
    hide Key;
  }

  /** A put is counted as an eviction exactly when it succeeded and dropped an entry. */
  lemma EvictionsAreCounted(s: State, w: nat, alloc: M.Allocation)
    requires HandlerEnabled(s, w, Store(alloc)) && s.tasks[w].pc.captured.Some? && M.Accounted(s.cache)
    requires var pc := s.tasks[w].pc;
             M.Admissible(s.cache, pc.captured.value) && M.Addressable(s.cache, Key(pc.r), pc.captured.value)
    ensures var key, data := Key(s.tasks[w].pc.r), s.tasks[w].pc.captured.value;
            var dropped := M.Kept(s.cache, key, data) < |M.Others(s.cache.items, key)|;
            DoHandler(s, w, Store(alloc)).metrics.evictions ==
            s.metrics.evictions + if M.Allocated(s.cache, key, alloc) && dropped then 1 else 0
  {
    var key, data := Key(s.tasks[w].pc.r), s.tasks[w].pc.captured.value;
    M.PutContract(s.cache, key, data, alloc, false);
    hide M.Put, M.Kept, M.Others, Key, M.Addressable;
  }

  /** What has been relayed completely is found under the key of its request from then on, if the capture and the
      put got their memory and it is not larger than an entry may be: between 1 byte and the smaller of 262144 and
      the size of the cache. */
  lemma RelayedIsStored(workers: nat, capacity: nat, cacheSize: word, acts: seq<Act>, w: nat, alloc: M.Allocation)
    requires cacheSize > 0 && IsRun(Start(workers, capacity, cacheSize), acts)
    requires CacheStaysStorable(Start(workers, capacity, cacheSize), acts)
    requires HandlerEnabled(After(Start(workers, capacity, cacheSize), acts), w, Store(alloc))
    requires alloc.entry && alloc.key && alloc.data
    requires var t := After(Start(workers, capacity, cacheSize), acts).tasks[w];
             && F.EveryRealloc(t.events) && 0 < |F.Relay(t.events, []).delivered| <= 262144
             && |F.Relay(t.events, []).delivered| <= cacheSize
    ensures var s := After(Start(workers, capacity, cacheSize), acts);
            var t, cache := s.tasks[w], DoHandler(s, w, Store(alloc)).cache;
            M.Get(cache, Key(t.pc.r), true).value == Some(F.Relay(t.events, []).delivered)
  {
    var s := After(Start(workers, capacity, cacheSize), acts);
    var t := s.tasks[w];
    ServerBudget(workers, capacity, cacheSize, acts);
    RunKeepsSound(Start(workers, capacity, cacheSize), acts);
    assert TaskSound(s.relays, t);
    F.WholeCapture(t.events, true, 262144);
    hide F.Relay, F.CaptureAfter, IsRun, After, Sound, F.EveryRealloc, F.Readable;
    StoredIsFound(s.cache, Key(t.pc.r), F.Relay(t.events, []).delivered, alloc);
  }

  lemma StoredIsFound(cache: M.State, key: string, data: seq<byte>, alloc: M.Allocation)
    requires M.Valid(cache) && 0 < |data| <= cache.maxObject && alloc.entry && alloc.key && alloc.data
    ensures var put := M.Put(cache, key, data, alloc, false);
            put.ok && M.Get(put.state, key, true).value == Some(data)
  {
    M.PutContract(cache, key, data, alloc, false);
    var n := CacheRuns.PutShape(cache, key, data, alloc);
    var put := M.Put(cache, key, data, alloc, false);
    hide M.Put;
    assert put.state.items[0] == M.Item(key, data);
  }
}
