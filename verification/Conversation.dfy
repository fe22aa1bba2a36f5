/**
 Whole conversations of one worker with its client: what a hit and a miss do from the first statement of
 `process_client_connection` to the last, when no other thread comes in between.
 */
module Conversation {
  import opened Common
  import opened RequestParser
  import opened Server
  import F = Forwarder
  import I = Intake
  import M = CacheModel

  /** The state after these statements of worker `w`, if each of them is the next one where it is taken. */
  function Alone(s: State, w: nat, acts: seq<HandlerAct>): Option<State>
    decreases |acts|
  {
    if acts == [] then Some(s)
    else if HandlerEnabled(s, w, acts[0]) then Alone(DoHandler(s, w, acts[0]), w, acts[1..])
    else None
  }

  lemma AloneNext(s: State, w: nat, act: HandlerAct, acts: seq<HandlerAct>)
    requires HandlerEnabled(s, w, act)
    ensures Alone(s, w, [act] + acts) == Alone(DoHandler(s, w, act), w, acts)
    ensures Alone(s, w, [act]) == Some(DoHandler(s, w, act))
  {
    hide HandlerEnabled, DoHandler;
    assert ([act] + acts)[1..] == acts;
  }

  lemma {:induction false} AloneConcat(s: State, w: nat, before: seq<HandlerAct>, after: seq<HandlerAct>)
    requires Alone(s, w, before).Some?
    ensures Alone(s, w, before + after) == Alone(Alone(s, w, before).value, w, after)
    decreases |before|
  {
    hide HandlerEnabled, DoHandler;
    if before == [] {
      assert before + after == after;
    } else {
      assert (before + after)[1..] == before[1..] + after;
      AloneConcat(DoHandler(s, w, before[0]), w, before[1..], after);
    }
  }

  /** `s` with the task of worker `w` replaced. */
  function With(s: State, w: nat, t: Task): State
    requires w < |s.tasks|
  {
    s.(tasks := s.tasks[w := t])
  }

  /** Worker `w` is at `pc` of its handler. */
  predicate At(s: State, w: nat, pc: Pc) {
    w < |s.tasks| && w < |s.pool.workers| && s.tasks[w].Running? && s.tasks[w].pc == pc
  }

  function Goto(s: State, w: nat, pc: Pc): State
    requires w < |s.tasks| && s.tasks[w].Running?
  {
    With(s, w, s.tasks[w].(pc := pc))
  }

  lemma WithTwice(s: State, w: nat, t: Task, t': Task)
    requires w < |s.tasks|
    ensures With(With(s, w, t), w, t') == With(s, w, t')
  {
  }

  // ----- single statements

  lemma AtLookUp(s: State, w: nat, r: Request)
    requires At(s, w, Parsed(r))
    ensures HandlerEnabled(s, w, LookUp(true))
    ensures var i := M.Find(s.cache.items, Key(r));
            DoHandler(s, w, LookUp(true)) ==
            if i == |s.cache.items| then Goto(s, w, Missed(r))
            else
              var item := s.cache.items[i];
              Goto(s, w, Found(r, item.data)).(
                cache := s.cache.(items := [item] + RemoveAt(s.cache.items, i)))
  {
    hide Key, M.Find;
  }

  lemma AtCountHit(s: State, w: nat, r: Request, bytes: seq<byte>)
    requires At(s, w, Found(r, bytes))
    ensures HandlerEnabled(s, w, CountHit)
    ensures DoHandler(s, w, CountHit) ==
            Goto(s, w, Replaying(r, bytes)).(metrics := s.metrics.(hits := s.metrics.hits + 1))
  {
  }

  lemma AtReplay(s: State, w: nat, r: Request, bytes: seq<byte>)
    requires At(s, w, Replaying(r, bytes))
    ensures HandlerEnabled(s, w, HandlerAct.Replay)
    ensures DoHandler(s, w, HandlerAct.Replay) ==
            Goto(s, w, Closing).(replays := s.replays + [Replay.Replay(r, bytes)])
  {
  }

  lemma AtCountMiss(s: State, w: nat, r: Request)
    requires At(s, w, Missed(r))
    ensures HandlerEnabled(s, w, CountMiss)
    ensures DoHandler(s, w, CountMiss) ==
            Goto(s, w, Forwarding(r, [], F.Start(true, 262144))).(
              metrics := s.metrics.(misses := s.metrics.misses + 1))
  {
  }

  lemma AtFromOrigin(s: State, w: nat, event: F.Event)
    requires w < |s.tasks| && w < |s.pool.workers| && s.tasks[w].Running? && s.tasks[w].pc.Forwarding?
    requires F.Good(event) && 0 < |event.bytes| <= F.RESPONSE_BUFFER_SIZE
    ensures HandlerEnabled(s, w, FromOrigin(event))
    ensures var t := s.tasks[w];
            var capture := F.Absorb(t.pc.capture, event.bytes, event.gotMemory, 262144);
            DoHandler(s, w, FromOrigin(event)) ==
            With(s, w, t.(pc := Forwarding(t.pc.r, t.pc.relayed + event.bytes, capture), events := t.events + [event]))
  {
    hide F.Absorb;
  }

  lemma AtOriginEnds(s: State, w: nat)
    requires w < |s.tasks| && w < |s.pool.workers| && s.tasks[w].Running? && s.tasks[w].pc.Forwarding?
    requires F.Exact(s.tasks[w].pc.capture, s.tasks[w].pc.relayed, 262144)
    ensures HandlerEnabled(s, w, OriginEnds)
    ensures var t := s.tasks[w];
            DoHandler(s, w, OriginEnds) ==
            Goto(s, w, Fetched(t.pc.r, if t.pc.capture.held then Some(t.pc.relayed) else None)).(
              relays := s.relays + [Relay(t.pc.r, t.pc.relayed, t.events)])
  {
  }

  lemma AtStore(s: State, w: nat, r: Request, captured: Option<seq<byte>>, alloc: M.Allocation)
    requires At(s, w, Fetched(r, captured)) && captured != Some([])
    ensures HandlerEnabled(s, w, Store(alloc))
    ensures DoHandler(s, w, Store(alloc)) ==
            if captured.None? then Goto(s, w, Closing)
            else
              var put := M.Put(s.cache, Key(r), captured.value, alloc, false);
              Goto(s, w, Closing).(
                cache := put.state,
                metrics := s.metrics.(
                  evictions := s.metrics.evictions + if put.ok && put.evicted then 1 else 0))
  {
    hide M.Put, Key;
  }

  const FAREWELL: seq<HandlerAct> := [Close, Deactivate]

  lemma AtFarewell(s: State, w: nat)
    requires At(s, w, Closing) && s.metrics.active > 0
    ensures Alone(s, w, FAREWELL) ==
            Some(Goto(s, w, Returned).(
                   metrics := s.metrics.(active := s.metrics.active - 1),
                   open := s.open - {s.tasks[w].job.socket}, closed := s.closed + [s.tasks[w].job]))
  {
    var s1 := DoHandler(s, w, Close);
    var s2 := DoHandler(s1, w, Deactivate);
    assert s2.tasks == s.tasks[w := s.tasks[w].(pc := Returned)];
    hide DoHandler;
    AloneNext(s, w, Close, [Deactivate]);
    AloneNext(s1, w, Deactivate, []);
    assert [Close] + [Deactivate] == FAREWELL;
  }

  // ----- up to the look-up

  function Opening(script: seq<I.Read>): seq<HandlerAct> {
    [Enter] + ([Activate] + ([SetTimeout(true)] + [Receive(script)]))
  }

  /** A request that is read and accepted is counted, and the worker is about to look it up. */
  lemma OpeningParses(s: State, w: nat, script: seq<I.Read>, r: Request)
    requires HandlerEnabled(s, w, Enter) && I.Accepted(script) == Some(r)
    ensures Alone(s, w, Opening(script)) ==
            Some(With(s, w, Running(s.pool.workers[w].job, Parsed(r), [])).(
                   metrics := s.metrics.(total := s.metrics.total + 1, active := s.metrics.active + 1),
                   parsed := s.parsed + 1))
  {
    hide I.Accepted;
    var s1 := DoHandler(s, w, Enter);
    var s2 := DoHandler(s1, w, Activate);
    var s3 := DoHandler(s2, w, SetTimeout(true));
    var s4 := DoHandler(s3, w, Receive(script));
    assert s4.tasks == s.tasks[w := Running(s.pool.workers[w].job, Parsed(r), [])];
    hide DoHandler, Alone;
    AloneNext(s, w, Enter, [Activate] + ([SetTimeout(true)] + [Receive(script)]));
    AloneNext(s1, w, Activate, [SetTimeout(true)] + [Receive(script)]);
    AloneNext(s2, w, SetTimeout(true), [Receive(script)]);
    AloneNext(s3, w, Receive(script), []);
  }

  // ----- a hit

  const HIT: seq<HandlerAct> := [LookUp(true)] + ([CountHit] + ([HandlerAct.Replay] + FAREWELL))

  /** What is stored under the key goes to the client; the hit is counted, the socket closed, the entry the most
      recent one, and nothing else has changed. */
  lemma HitReplays(s: State, w: nat, r: Request)
    requires At(s, w, Parsed(r)) && M.Find(s.cache.items, Key(r)) < |s.cache.items| && s.metrics.active > 0
    ensures var t, i := s.tasks[w], M.Find(s.cache.items, Key(r));
            var item := s.cache.items[i];
            Alone(s, w, HIT) ==
            Some(Goto(s, w, Returned).(
                   cache := s.cache.(items := [item] + RemoveAt(s.cache.items, i)),
                   metrics := s.metrics.(hits := s.metrics.hits + 1, active := s.metrics.active - 1),
                   replays := s.replays + [Replay.Replay(r, item.data)],
                   open := s.open - {t.job.socket}, closed := s.closed + [t.job]))
  {
    hide Key, M.Find, DoHandler, HandlerEnabled, Alone, FAREWELL;
    var bytes := s.cache.items[M.Find(s.cache.items, Key(r))].data;
    AtLookUp(s, w, r);
    var s1 := DoHandler(s, w, LookUp(true));
    AtCountHit(s1, w, r, bytes);
    var s2 := DoHandler(s1, w, CountHit);
    AtReplay(s2, w, r, bytes);
    var s3 := DoHandler(s2, w, HandlerAct.Replay);
    AtFarewell(s3, w);
    AloneNext(s, w, LookUp(true), [CountHit] + ([HandlerAct.Replay] + FAREWELL));
    AloneNext(s1, w, CountHit, [HandlerAct.Replay] + FAREWELL);
    AloneNext(s2, w, HandlerAct.Replay, FAREWELL);
    assert s3.tasks[w := s.tasks[w].(pc := Returned)] == s.tasks[w := s.tasks[w].(pc := Returned)];
  }

  // ----- a miss

  const MISS: seq<HandlerAct> := [LookUp(true)] + [CountMiss]

  lemma MissForwards(s: State, w: nat, r: Request)
    requires At(s, w, Parsed(r)) && M.Find(s.cache.items, Key(r)) == |s.cache.items|
    ensures Alone(s, w, MISS) ==
            Some(Goto(s, w, Forwarding(r, [], F.Start(true, 262144))).(
                   metrics := s.metrics.(misses := s.metrics.misses + 1)))
  {
    hide Key, M.Find, DoHandler, HandlerEnabled, Alone, F.Start;
    AtLookUp(s, w, r);
    var s1 := DoHandler(s, w, LookUp(true));
    AtCountMiss(s1, w, r);
    AloneNext(s, w, LookUp(true), [CountMiss]);
    AloneNext(s1, w, CountMiss, []);
    var pc := Forwarding(r, [], F.Start(true, 262144));
    assert s1.tasks[w := s.tasks[w].(pc := pc)] == s.tasks[w := s.tasks[w].(pc := pc)];
  }

  function Events(events: seq<F.Event>): (acts: seq<HandlerAct>)
    ensures |acts| == |events|
  {
    seq(|events|, i requires 0 <= i < |events| => FromOrigin(events[i]))
  }

  /** While all goes well the worker relays and captures one chunk after the other. */
  lemma {:induction false} EventsAreRelayed(s: State, w: nat, events: seq<F.Event>)
    requires w < |s.tasks| && w < |s.pool.workers| && s.tasks[w].Running? && s.tasks[w].pc.Forwarding?
    requires F.Readable(events) && forall i :: 0 <= i < |events| ==> F.Good(events[i])
    ensures var t := s.tasks[w];
            Alone(s, w, Events(events)) ==
            Some(With(s, w, t.(pc := Forwarding(t.pc.r, F.Relay(events, t.pc.relayed).delivered,
                                                F.CaptureAfter(events, t.pc.capture, 262144)),
                               events := t.events + events)))
    decreases |events|
  {
    hide F.Absorb, DoHandler, HandlerEnabled;
    var t := s.tasks[w];
    if events == [] {
      assert s.tasks[w := t] == s.tasks && t.events + events == t.events;
    } else {
      AtFromOrigin(s, w, events[0]);
      var s1 := DoHandler(s, w, FromOrigin(events[0]));
      EventsAreRelayed(s1, w, events[1..]);
      assert Events(events) == [FromOrigin(events[0])] + Events(events[1..]);
      AloneNext(s, w, FromOrigin(events[0]), Events(events[1..]));
      F.Unfold(events, t.pc.relayed, t.pc.capture, 262144);
      hide F.Relay, F.CaptureAfter, Alone;
      assert t.events + [events[0]] + events[1..] == t.events + events;
      WithTwice(s, w, s1.tasks[w], Alone(s, w, Events(events)).value.tasks[w]);
    }
  }

  function Ending(alloc: M.Allocation): seq<HandlerAct> {
    [OriginEnds] + ([Store(alloc)] + FAREWELL)
  }

  /** At the end of the stream the relay is recorded, what was captured is put into the cache under the key, and
      the socket is closed. */
  lemma EndingStores(s: State, w: nat, alloc: M.Allocation)
    requires w < |s.tasks| && w < |s.pool.workers| && s.tasks[w].Running? && s.tasks[w].pc.Forwarding?
    requires s.metrics.active > 0 && F.Exact(s.tasks[w].pc.capture, s.tasks[w].pc.relayed, 262144)
    ensures var t := s.tasks[w];
            var put := M.Put(s.cache, Key(t.pc.r), t.pc.relayed, alloc, false);
            var stores := t.pc.capture.held;
            Alone(s, w, Ending(alloc)) ==
            Some(Goto(s, w, Returned).(
                   cache := if stores then put.state else s.cache,
                   metrics := s.metrics.(
                     active := s.metrics.active - 1,
                     evictions := s.metrics.evictions + if stores && put.ok && put.evicted then 1 else 0),
                   relays := s.relays + [Relay(t.pc.r, t.pc.relayed, t.events)],
                   open := s.open - {t.job.socket}, closed := s.closed + [t.job]))
  {
    hide Key, M.Put, DoHandler, HandlerEnabled, Alone, FAREWELL;
    var t := s.tasks[w];
    AtOriginEnds(s, w);
    var s1 := DoHandler(s, w, OriginEnds);
    AtStore(s1, w, t.pc.r, s1.tasks[w].pc.captured, alloc);
    var s2 := DoHandler(s1, w, Store(alloc));
    AtFarewell(s2, w);
    AloneNext(s, w, OriginEnds, [Store(alloc)] + FAREWELL);
    AloneNext(s1, w, Store(alloc), FAREWELL);
    assert s2.tasks[w := t.(pc := Returned)] == s.tasks[w := t.(pc := Returned)];
  }

  // ----- from end to end

  /** A request whose key is stored: the client gets what is stored, and the next look-up finds it in front. */
  lemma HitConversation(s: State, w: nat, script: seq<I.Read>, r: Request)
    requires HandlerEnabled(s, w, Enter) && I.Accepted(script) == Some(r)
    requires M.Find(s.cache.items, Key(r)) < |s.cache.items|
    ensures var s' := Alone(s, w, Opening(script) + HIT);
            var i := M.Find(s.cache.items, Key(r));
            && s'.Some? && s'.value.replays == s.replays + [Replay.Replay(r, s.cache.items[i].data)]
            && s'.value.relays == s.relays && s'.value.closed == s.closed + [s.pool.workers[w].job]
            && s'.value.cache.items == [s.cache.items[i]] + RemoveAt(s.cache.items, i)
            && s'.value.metrics ==
               s.metrics.(total := s.metrics.total + 1, hits := s.metrics.hits + 1)
  {
    OpeningParses(s, w, script, r);
    var s1 := Alone(s, w, Opening(script)).value;
    hide Alone, Key, M.Find, I.Accepted, Opening, HIT;
    HitReplays(s1, w, r);
    AloneConcat(s, w, Opening(script), HIT);
  }

  /** The miss up to the end of the origin's stream. */
  lemma MissRelays(s: State, w: nat, r: Request, events: seq<F.Event>)
    requires At(s, w, Parsed(r)) && s.tasks[w].events == [] && M.Find(s.cache.items, Key(r)) == |s.cache.items|
    requires F.Readable(events) && forall i :: 0 <= i < |events| ==> F.Good(events[i])
    ensures var capture := F.CaptureAfter(events, F.Start(true, 262144), 262144);
            && F.Exact(capture, F.Concat(events), 262144)
            && Alone(s, w, MISS + Events(events)) ==
               Some(With(s, w, Running(s.tasks[w].job, Forwarding(r, F.Concat(events), capture), events)).(
                      metrics := s.metrics.(misses := s.metrics.misses + 1)))
  {
    F.GoodRelay(events);
    F.WholeCapture(events, true, 262144);
    F.CaptureExact(events, [], F.Start(true, 262144), 262144);
    hide Alone, Key, M.Find, MISS, Events, F.Relay, F.CaptureAfter, F.Concat, F.Exact, F.Start, F.Readable;
    MissForwards(s, w, r);
    AloneConcat(s, w, MISS, Events(events));
    var s1 := Alone(s, w, MISS).value;
    EventsAreRelayed(s1, w, events);
    assert [] + events == events;
    WithTwice(s, w, s1.tasks[w], Alone(s1, w, Events(events)).value.tasks[w]);
  }

  /** A request whose key is not stored and whose origin answers without a fault: the client gets exactly the
      bytes of the answer, and the cache is offered them if the capture holds them. */
  lemma MissConversation(s: State, w: nat, script: seq<I.Read>, r: Request, events: seq<F.Event>, alloc: M.Allocation)
    requires HandlerEnabled(s, w, Enter) && I.Accepted(script) == Some(r)
    requires M.Find(s.cache.items, Key(r)) == |s.cache.items|
    requires F.Readable(events) && forall i :: 0 <= i < |events| ==> F.Good(events[i])
    ensures var s' := Alone(s, w, Opening(script) + (MISS + Events(events)) + Ending(alloc));
            var bytes := F.Concat(events);
            var put := M.Put(s.cache, Key(r), bytes, alloc, false);
            var stores := F.CaptureAfter(events, F.Start(true, 262144), 262144).held;
            && s'.Some? && s'.value.relays == s.relays + [Relay(r, bytes, events)]
            && s'.value.replays == s.replays && s'.value.closed == s.closed + [s.pool.workers[w].job]
            && s'.value.cache == (if stores then put.state else s.cache)
            && s'.value.metrics.misses == s.metrics.misses + 1 && s'.value.metrics.hits == s.metrics.hits
            && s'.value.metrics.failures == s.metrics.failures && s'.value.metrics.active == s.metrics.active
  {
    hide Alone, Key, M.Find, M.Put, I.Accepted, Opening, MISS, Ending, Events;
    hide F.Relay, F.CaptureAfter, F.Concat, F.Exact, F.Start, F.Readable;
    OpeningParses(s, w, script, r);
    var s1 := Alone(s, w, Opening(script)).value;
    MissRelays(s1, w, r, events);
    AloneConcat(s, w, Opening(script), MISS + Events(events));
    var s2 := Alone(s1, w, MISS + Events(events)).value;
    EndingStores(s2, w, alloc);
    AloneConcat(s, w, Opening(script) + (MISS + Events(events)), Ending(alloc));
  }
}
