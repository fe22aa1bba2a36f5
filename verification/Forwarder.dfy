/**
 Relaying the origin's response to the client while capturing a copy for the cache in a buffer that grows
 by doubling and gives up for good when the response is too large or memory runs out.
 */
module Forwarder {
  import opened Common

  const RESPONSE_BUFFER_SIZE := 8192

  /** One read from the origin: an error, or a chunk together with the outcomes of the `realloc` it may need
      and of passing it on to the client.  After the last event the origin has closed the connection. */
  datatype Event = ReadError | Chunk(bytes: seq<byte>, gotMemory: bool, written: bool)

  /** `recv` returns at least one byte and at most a buffer full. */
  ghost predicate Readable(events: seq<Event>) {
    forall i :: 0 <= i < |events| && events[i].Chunk? ==> 0 < |events[i].bytes| <= RESPONSE_BUFFER_SIZE
  }

  // ----- what is relayed

  /** How the relay ends: all bytes read from the origin and all bytes passed on to the client. */
  datatype Relayed = Relayed(ok: bool, read: seq<byte>, delivered: seq<byte>)

  function Relay(events: seq<Event>, soFar: seq<byte>): Relayed {
    if events == [] then Relayed(true, soFar, soFar)
    else
      match events[0]
      case ReadError => Relayed(false, soFar, soFar)
      case Chunk(bytes, _, written) =>
        if written then Relay(events[1..], soFar + bytes) else Relayed(false, soFar + bytes, soFar)
  }

  /** The event neither is a read error nor fails to reach the client. */
  predicate Good(e: Event) {
    e.Chunk? && e.written
  }

  /** The bytes of all chunks, put together. */
  function Concat(events: seq<Event>): seq<byte> {
    if events == [] then []
    else
      var last := events[|events| - 1];
      Concat(events[..|events| - 1]) + if last.Chunk? then last.bytes else []
  }

  lemma {:induction false} RelayAppend(events: seq<Event>, soFar: seq<byte>, e: Event)
    requires Relay(events, soFar).ok
    ensures var bytes := Relay(events, soFar).read;
            Relay(events + [e], soFar) ==
            if e == ReadError then Relayed(false, bytes, bytes)
            else Relayed(e.written, bytes + e.bytes, if e.written then bytes + e.bytes else bytes)
  {
    if events == [] {
      assert (events + [e])[1..] == [];
    } else {
      assert (events + [e])[1..] == events[1..] + [e];
      RelayAppend(events[1..], soFar + events[0].bytes, e);
    }
  }

  lemma {:induction false} RelayFailed(events: seq<Event>, soFar: seq<byte>, later: seq<Event>)
    requires !Relay(events, soFar).ok
    ensures Relay(events + later, soFar) == Relay(events, soFar)
  {
    assert (events + later)[1..] == events[1..] + later;
    if events[0].Chunk? && events[0].written {
      RelayFailed(events[1..], soFar + events[0].bytes, later);
    }
  }

  lemma {:induction false} GoodRelay(events: seq<Event>)
    requires forall i :: 0 <= i < |events| ==> Good(events[i])
    ensures Relay(events, []) == Relayed(true, Concat(events), Concat(events))
  {
    if events != [] {
      GoodRelay(events[..|events| - 1]);
      RelayAppend(events[..|events| - 1], [], events[|events| - 1]);
      assert events == events[..|events| - 1] + [events[|events| - 1]];
    }
  }

  /** The relay passes on the chunks before the first event that goes wrong, and ends there.  It has also read the
      chunk that could not be written. */
  lemma RelayMeans(events: seq<Event>, n: nat)
    requires n <= |events| && (forall i :: 0 <= i < n ==> Good(events[i])) && (n < |events| ==> !Good(events[n]))
    ensures var sent := Concat(events[..n]);
            Relay(events, []) ==
            Relayed(n == |events|, if n < |events| && events[n].Chunk? then sent + events[n].bytes else sent, sent)
  {
    hide Relay, Concat, Good;
    if n == |events| {
      assert events[..n] == events;
      GoodRelay(events);
    } else {
      assert events == events[..n] + [events[n]] + events[n + 1..];
      BadEndsRelay(events[..n], events[n], events[n + 1..]);
    }
  }

  lemma BadEndsRelay(before: seq<Event>, e: Event, later: seq<Event>)
    requires (forall i :: 0 <= i < |before| ==> Good(before[i])) && !Good(e)
    ensures var sent := Concat(before);
            Relay(before + [e] + later, []) == Relayed(false, if e.Chunk? then sent + e.bytes else sent, sent)
  {
    GoodRelay(before);
    hide Relay, Concat;
    RelayAppend(before, [], e);
    RelayFailed(before + [e], [], later);
  }

  // ----- what is captured

  /** The capture variables: `held` tells whether the buffer is allocated. */
  datatype Capture = Capture(enabled: bool, held: bool, bytes: seq<byte>, capacity: nat)

  const DISABLED := Capture(false, false, [], 0)

  function Doubled(capacity: nat, needed: nat): (r: nat)
    requires capacity > 0
    ensures r >= needed && r >= capacity
    ensures capacity < 2 * needed ==> r < 2 * needed
    decreases needed - capacity
  {
    if capacity >= needed then capacity else Doubled(capacity * 2, needed)
  }

  function Absorb(c: Capture, bytes: seq<byte>, gotMemory: bool, max: nat): Capture
    requires bytes != []
  {
    var needed := |c.bytes| + |bytes|;
    if !c.enabled then c
    else if needed > max then DISABLED
    else if needed <= c.capacity then c.(bytes := c.bytes + bytes)
    else if !gotMemory then DISABLED
    else Capture(true, true, c.bytes + bytes, Doubled(if c.capacity == 0 then |bytes| else c.capacity * 2, needed))
  }

  /** The capture after all chunks that were read. */
  function CaptureAfter(events: seq<Event>, c: Capture, max: nat): Capture
    requires Readable(events)
  {
    if events == [] || events[0] == ReadError then c
    else
      var c' := Absorb(c, events[0].bytes, events[0].gotMemory, max);
      if events[0].written then CaptureAfter(events[1..], c', max) else c'
  }

  /** Enabled, it is the exact copy of what was read; otherwise it is off and holds nothing. */
  ghost predicate Exact(c: Capture, read: seq<byte>, max: nat) {
    if c.enabled then
      c.bytes == read && |c.bytes| <= c.capacity && (c.held <==> read != []) && (c.held <==> c.capacity > 0)
      && (max > 0 ==> c.capacity < 2 * max) && |c.bytes| <= max
    else c == DISABLED
  }

  lemma AbsorbExact(c: Capture, read: seq<byte>, bytes: seq<byte>, gotMemory: bool, max: nat)
    requires Exact(c, read, max) && bytes != []
    ensures Exact(Absorb(c, bytes, gotMemory, max), read + bytes, max)
  {
  }

  lemma {:induction false} CaptureExact(events: seq<Event>, soFar: seq<byte>, c: Capture, max: nat)
    requires Readable(events) && Exact(c, soFar, max)
    ensures Exact(CaptureAfter(events, c, max), Relay(events, soFar).read, max)
    ensures !c.enabled ==> !CaptureAfter(events, c, max).enabled
  {
    if events != [] && events[0].Chunk? {
      AbsorbExact(c, soFar, events[0].bytes, events[0].gotMemory, max);
      if events[0].written {
        CaptureExact(events[1..], soFar + events[0].bytes,
                     Absorb(c, events[0].bytes, events[0].gotMemory, max), max);
      }
    }
  }

  /** One more event of a relay that has gone well so far. */
  lemma {:induction false} CaptureAppend(events: seq<Event>, soFar: seq<byte>, c: Capture, max: nat, e: Event)
    requires Readable(events) && (e.Chunk? ==> 0 < |e.bytes| <= RESPONSE_BUFFER_SIZE) && Relay(events, soFar).ok
    ensures Readable(events + [e])
    ensures CaptureAfter(events + [e], c, max) ==
            var before := CaptureAfter(events, c, max);
            if !e.Chunk? then before else Absorb(before, e.bytes, e.gotMemory, max)
  {
    hide Absorb;
    if events == [] {
      assert (events + [e])[1..] == [];
    } else {
      assert (events + [e])[1..] == events[1..] + [e];
      var bytes := events[0].bytes;
      CaptureAppend(events[1..], soFar + bytes, Absorb(c, bytes, events[0].gotMemory, max), max, e);
    }
  }

  lemma {:induction false} ReadGrows(events: seq<Event>, soFar: seq<byte>)
    ensures soFar <= Relay(events, soFar).read && Relay(events, soFar).delivered <= Relay(events, soFar).read
    ensures Relay(events, soFar).ok ==> Relay(events, soFar).delivered == Relay(events, soFar).read
  {
    if events != [] && events[0].Chunk? {
      ReadGrows(events[1..], soFar + events[0].bytes);
    }
  }

  /** With enough memory the capture survives exactly when everything read fits the limit. */
  lemma {:induction false} CaptureSurvives(events: seq<Event>, soFar: seq<byte>, c: Capture, max: nat)
    requires Readable(events) && Exact(c, soFar, max) && c.enabled
    requires EveryRealloc(events)
    ensures CaptureAfter(events, c, max).enabled <==> |Relay(events, soFar).read| <= max
  {
    if events != [] && events[0].Chunk? {
      var bytes := events[0].bytes;
      var c' := Absorb(c, bytes, true, max);
      AbsorbExact(c, soFar, bytes, true, max);
      ReadGrows(events[1..], soFar + bytes);
      if events[0].written {
        if c'.enabled {
          CaptureSurvives(events[1..], soFar + bytes, c', max);
        } else {
          CaptureExact(events[1..], soFar + bytes, c', max);
        }
      }
    }
  }

  // ----- the loop

  class Buffer {
    var data: array?<byte>
    var size: nat
    var enabled: bool

    ghost predicate Valid()
      reads this, data
    {
      if data == null then size == 0 else size <= data.Length && data.Length > 0
    }

    ghost function Value(): Capture
      requires Valid()
      reads this, data
    {
      if data == null then Capture(enabled, false, [], 0) else Capture(enabled, true, data[..size], data.Length)
    }

    constructor (enabled: bool)
      ensures Valid() && Value() == Capture(enabled, false, [], 0) && data == null
    {
      data, size, this.enabled := null, 0, enabled;
    }

    /** What the loop does with one chunk before passing it on. */
    method Add(bytes: seq<byte>, gotMemory: bool, max: nat)
      requires Valid() && bytes != [] && (!enabled ==> Value() == DISABLED)
      modifies this, data
      ensures Valid() && Value() == Absorb(old(Value()), bytes, gotMemory, max)
      ensures data != old(data) && data != null ==> fresh(data)
    {
      if !enabled {
        return;
      }
      if size + |bytes| > max {
        data, size, enabled := null, 0, false;
        return;
      }
      if data == null || size + |bytes| > data.Length {
        var capacity := if data == null then |bytes| else data.Length * 2;
        ghost var first := capacity;
        while capacity < size + |bytes|
          invariant capacity > 0 && Doubled(capacity, size + |bytes|) == Doubled(first, size + |bytes|)
          decreases size + |bytes| - capacity
        {
          capacity := capacity * 2;
        }
        if !gotMemory {
          data, size, enabled := null, 0, false;
          return;
        }
        Resize(capacity);
      }
      Copy(bytes);
    }

    /** `realloc`: a larger block with the same contents. */
    method Resize(capacity: nat)
      requires Valid() && size <= capacity && capacity > 0
      modifies this`data
      ensures Valid() && fresh(data) && data != null && data.Length == capacity && size == old(size)
      ensures data[..size] == old(Value().bytes)
    {
      var block := new byte[capacity];
      if data != null {
        forall i | 0 <= i < size {
          block[i] := data[i];
        }
      }
      data := block;
    }

    /** `memcpy` behind the bytes already captured. */
    method Copy(bytes: seq<byte>)
      requires Valid() && data != null && size + |bytes| <= data.Length
      modifies this`size, data
      ensures Valid() && size == old(size) + |bytes| && data[..size] == old(data[..size]) + bytes
    {
      forall i | 0 <= i < |bytes| {
        data[size + i] := bytes[i];
      }
      size := size + |bytes|;
    }
  }

  // ----- the whole forward

  /** What the network does during one forward. */
  datatype Origin = Origin(connected: bool, timeoutSet: bool, built: bool, sent: bool, events: seq<Event>)

  predicate Reached(o: Origin) {
    o.connected && o.timeoutSet && o.built && o.sent
  }

  /** The relay ends in a read error. */
  predicate ReadFails(events: seq<Event>) {
    events != [] && (events[0] == ReadError || (events[0].written && ReadFails(events[1..])))
  }

  function Start(wanted: bool, max: nat): Capture {
    Capture(wanted && max > 0, false, [], 0)
  }

  datatype Forwarded = Forwarded(
    ok: bool, captured: Option<seq<byte>>, originBytes: nat, delivered: seq<byte>, closes: nat, leaked: bool)

  /** `response_forwarder_forward`.  `closes` counts how often the origin socket was closed, and `leaked` tells
      whether a capture buffer was left neither freed nor handed to the caller. */
  method Forward(origin: Origin, wanted: bool, max: nat) returns (r: Forwarded)
    requires Readable(origin.events)
    ensures r.closes == if origin.connected then 1 else 0
    ensures r.ok <==> Reached(origin) && Relay(origin.events, []).ok
    ensures var relayed := if Reached(origin) then Relay(origin.events, []) else Relayed(false, [], []);
            r.originBytes == |relayed.read| && r.delivered == relayed.delivered
    ensures var c := CaptureAfter(origin.events, Start(wanted, max), max);
            && (r.captured.Some? <==> r.ok && c.enabled && r.delivered != [])
            && (r.leaked <==> Reached(origin) && ReadFails(origin.events) && c.held)
    ensures EveryRealloc(origin.events) ==>
              && (r.captured.Some? <==> r.ok && wanted && 0 < r.originBytes <= max)
              && (r.leaked <==> Reached(origin) && ReadFails(origin.events) && wanted && 0 < r.originBytes <= max)
    ensures r.captured.Some? ==> wanted && r.captured.value == r.delivered && 0 < |r.delivered| <= max
  {
    r := Forwarded(false, None, 0, [], 0, false);
    if !origin.connected {
      return;
    }
    if !origin.timeoutSet || !origin.built || !origin.sent {
      r := r.(closes := 1);
      return;
    }
    hide CaptureAfter, Relay, ReadFails, Absorb, EveryRealloc, Readable, Exact;
    WholeCapture(origin.events, wanted, max);
    var relayed, buffer, readFailed := RelayLoop(origin.events, wanted, max);
    r := Forwarded(relayed.ok, None, |relayed.read|, relayed.delivered, 1, readFailed && buffer.data != null);
    if relayed.ok && buffer.enabled && buffer.data != null {
      r := r.(captured := Some(buffer.data[..buffer.size]));
    }
  }

  /** The loop: how the relay went, the buffer it leaves, and whether a failed read ended it. */
  method RelayLoop(events: seq<Event>, wanted: bool, max: nat)
    returns (relayed: Relayed, buffer: Buffer, readFailed: bool)
    requires Readable(events)
    ensures relayed == Relay(events, []) && readFailed == ReadFails(events) && (readFailed ==> !relayed.ok)
    ensures buffer.Valid() && buffer.Value() == CaptureAfter(events, Start(wanted, max), max)
  {
    hide CaptureAfter, Relay, ReadFails, Absorb, Readable, Exact;
    buffer := new Buffer(wanted && max > 0);
    WholeCapture(events, wanted, max);
    var next, delivered: seq<byte> := 0, [];
    assert events[0..] == events;
    while next < |events|
      invariant next <= |events| && buffer.Valid() && fresh(buffer) && (buffer.data != null ==> fresh(buffer.data))
      invariant Exact(buffer.Value(), delivered, max) && Readable(events[next..])
      invariant Relay(events, []) == Relay(events[next..], delivered)
      invariant CaptureAfter(events, Start(wanted, max), max) == CaptureAfter(events[next..], buffer.Value(), max)
      invariant ReadFails(events) == ReadFails(events[next..])
      decreases |events| - next
    {
      Unfold(events[next..], delivered, buffer.Value(), max);
      if events[next] == ReadError {
        return Relayed(false, delivered, delivered), buffer, true;
      }
      var bytes := events[next].bytes;
      OffIsDisabled(buffer.Value(), delivered, max);
      AbsorbExact(buffer.Value(), delivered, bytes, events[next].gotMemory, max);
      buffer.Add(bytes, events[next].gotMemory, max);
      if !events[next].written {
        return Relayed(false, delivered + bytes, delivered), buffer, false;
      }
      delivered := delivered + bytes;
      assert events[next..][1..] == events[next + 1..];
      next := next + 1;
    }
    assert events[next..] == [];
    UnfoldEnd(delivered, buffer.Value(), max);
    return Relayed(true, delivered, delivered), buffer, false;
  }

  lemma Unfold(events: seq<Event>, soFar: seq<byte>, c: Capture, max: nat)
    requires Readable(events) && events != []
    ensures Readable(events[1..]) && (events[0].Chunk? ==> events[0].bytes != [])
    ensures events[0] == ReadError ==>
              && Relay(events, soFar) == Relayed(false, soFar, soFar)
              && CaptureAfter(events, c, max) == c && ReadFails(events)
    ensures events[0].Chunk? ==>
              var bytes := events[0].bytes;
              var c' := Absorb(c, bytes, events[0].gotMemory, max);
              if events[0].written then
                && Relay(events, soFar) == Relay(events[1..], soFar + bytes)
                && CaptureAfter(events, c, max) == CaptureAfter(events[1..], c', max)
                && ReadFails(events) == ReadFails(events[1..])
              else
                && Relay(events, soFar) == Relayed(false, soFar + bytes, soFar)
                && CaptureAfter(events, c, max) == c' && !ReadFails(events)
  {
  }

  lemma UnfoldEnd(soFar: seq<byte>, c: Capture, max: nat)
    ensures Relay([], soFar) == Relayed(true, soFar, soFar) && CaptureAfter([], c, max) == c && !ReadFails([])
  {
  }

  lemma OffIsDisabled(c: Capture, read: seq<byte>, max: nat)
    requires Exact(c, read, max)
    ensures !c.enabled ==> c == DISABLED
  {
  }

  /** What is left in the capture variables when the loop has ended. */
  lemma WholeCapture(events: seq<Event>, wanted: bool, max: nat)
    requires Readable(events)
    ensures Exact(Start(wanted, max), [], max)
    ensures var c, r := CaptureAfter(events, Start(wanted, max), max), Relay(events, []);
            && (r.ok ==> r.delivered == r.read)
            && (if c.enabled then wanted && c.bytes == r.read && |r.read| <= max && (c.held <==> r.read != [])
                else !c.held)
            && (EveryRealloc(events) ==> (c.held <==> wanted && 0 < |r.read| <= max))
  {
    if EveryRealloc(events) {
      HeldIffFits(events, wanted, max);
    }
    ReadGrows(events, []);
    CaptureExact(events, [], Start(wanted, max), max);
  }

  predicate EveryRealloc(events: seq<Event>) {
    forall i :: 0 <= i < |events| && events[i].Chunk? ==> events[i].gotMemory
  }

  /** With enough memory the buffer is held after the loop, however that ends, exactly when what was read is not
      empty and not longer than the limit. */
  lemma HeldIffFits(events: seq<Event>, wanted: bool, max: nat)
    requires Readable(events) && EveryRealloc(events)
    ensures CaptureAfter(events, Start(wanted, max), max).held <==> wanted && 0 < |Relay(events, []).read| <= max
  {
    ReadGrows(events, []);
    CaptureExact(events, [], Start(wanted, max), max);
    if wanted && max > 0 {
      CaptureSurvives(events, [], Start(true, max), max);
    }
  }

  /** One byte arrives, the next read fails: the buffer is lost. */
  lemma OneByteLeaks(max: nat)
    requires max > 0
    ensures var events := [Chunk([0], true, true), ReadError];
            && Readable(events) && ReadFails(events) && Relay(events, []) == Relayed(false, [0], [0])
            && CaptureAfter(events, Start(true, max), max) == Capture(true, true, [0], 1)
  {
    var events := [Chunk([0], true, true), ReadError];
    assert events[1..] == [ReadError];
    assert [] + [0 as byte] == [0];
  }
}
