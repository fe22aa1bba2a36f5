/**
 Reading a request from the client socket until its header block is complete, and what the way the network
 splits the bytes can and cannot change.
 */
module Intake {
  import opened Common
  import opened Text
  import opened RequestParser
  import opened OriginRequest
  import opened CacheKey

  const BUFFER_SIZE := 8192

  /** What one `recv` returns: an error, the end of the stream, or some bytes. */
  datatype Read = Error | End | Chunk(bytes: string)

  datatype Outcome = Failed | TooLarge | Received(bytes: string)

  /** `recv` never returns more than it was asked for, and no empty chunk. */
  ghost predicate Fits(script: seq<Read>, space: nat)
    decreases |script|
  {
    space == 0 || script == [] || !script[0].Chunk? ||
    (0 < |script[0].bytes| <= space && Fits(script[1..], space - |script[0].bytes|))
  }

  /** The intake loop on a buffer of `size` characters that already holds `got`.  A stream whose reads are
      used up has ended. */
  function Receive(script: seq<Read>, got: string, size: nat): Outcome
    decreases |script|
  {
    if |got| + 1 >= size then TooLarge
    else if script == [] || script[0] == End then Received(got)
    else if script[0] == Error then Failed
    else
      var more := got + script[0].bytes;
      if HasTerminator(CString(more)) then Received(more) else Receive(script[1..], more, size)
  }

  lemma ReceiveChunk(script: seq<Read>, got: string, size: nat)
    requires |got| + 1 < size && script != [] && script[0].Chunk?
    ensures var more := got + script[0].bytes;
            Receive(script, got, size) ==
            if HasTerminator(CString(more)) then Received(more) else Receive(script[1..], more, size)
  {
  }

  lemma ReceiveStops(script: seq<Read>, got: string, size: nat)
    ensures |got| + 1 >= size ==> Receive(script, got, size) == TooLarge
    ensures |got| + 1 < size && (script == [] || script[0] == End) ==> Receive(script, got, size) == Received(got)
    ensures |got| + 1 < size && script != [] && script[0] == Error ==> Receive(script, got, size) == Failed
  {
  }

  /** A read stores its bytes behind those already there, and a NUL behind them. */
  method Store(buffer: array<char>, total: nat, bytes: string)
    requires total + |bytes| < buffer.Length
    modifies buffer
    ensures buffer[..total + |bytes|] == old(buffer[..total]) + bytes && buffer[total + |bytes|] == '\0'
  {
    forall i | 0 <= i < |bytes| {
      buffer[total + i] := bytes[i];
    }
    buffer[total + |bytes|] := '\0';
  }

  method ReadRequestBytes(script: seq<Read>, buffer: array<char>) returns (outcome: Outcome)
    requires buffer.Length >= 2 ==> Fits(script, buffer.Length - 1)
    modifies buffer
    ensures buffer.Length < 2 ==> outcome == Failed
    ensures buffer.Length >= 2 ==> outcome == Receive(script, "", buffer.Length)
    ensures outcome.Received? ==>
              var total := |outcome.bytes|;
              total < buffer.Length && buffer[..total] == outcome.bytes && buffer[total] == '\0'
  {
    if buffer.Length < 2 {
      return Failed;
    }
    hide HasTerminator, CString, Receive;
    var total, next := 0, 0;
    buffer[0] := '\0';
    assert script[0..] == script;
    while total < buffer.Length - 1
      invariant total <= buffer.Length - 1 && next <= |script| && buffer[total] == '\0'
      invariant Fits(script[next..], buffer.Length - 1 - total)
      invariant Receive(script, "", buffer.Length) == Receive(script[next..], buffer[..total], buffer.Length)
      decreases |script| - next
    {
      ghost var rest := script[next..];
      ReceiveStops(rest, buffer[..total], buffer.Length);
      if next == |script| || script[next] == End {
        break;
      }
      if script[next] == Error {
        return Failed;
      }
      ReceiveChunk(rest, buffer[..total], buffer.Length);
      var bytes := script[next].bytes;
      Store(buffer, total, bytes);
      total := total + |bytes|;
      next := next + 1;
      assert rest[1..] == script[next..];
      if HasTerminator(CString(buffer[..total])) {
        return Received(buffer[..total]);
      }
    }
    ReceiveStops(script[next..], buffer[..total], buffer.Length);
    if total >= buffer.Length - 1 {
      return TooLarge;
    }
    return Received(buffer[..total]);
  }

  // ----- what the intake returns

  /** The bytes of all chunks, put together. */
  function Concat(script: seq<Read>): string {
    if script == [] then ""
    else
      var last := script[|script| - 1];
      Concat(script[..|script| - 1]) + if last.Chunk? then last.bytes else ""
  }

  /** The first `n` reads all bring bytes, and before the last of them neither is the buffer full nor has a blank
      line arrived. */
  ghost predicate GoesOn(script: seq<Read>, n: nat, size: nat)
    requires n <= |script|
  {
    && (forall i :: 0 <= i < n ==> script[i].Chunk?)
    && (forall m :: 0 <= m < n ==> |Concat(script[..m])| + 1 < size)
    && (forall m :: 0 < m < n ==> !HasBlankLine(CString(Concat(script[..m]))))
  }

  lemma ConcatStep(script: seq<Read>, n: nat)
    requires n < |script| && script[n].Chunk?
    ensures Concat(script[..n + 1]) == Concat(script[..n]) + script[n].bytes
  {
    assert script[..n + 1][..n] == script[..n];
  }

  lemma {:induction false} ReceiveGoesOn(script: seq<Read>, n: nat, size: nat)
    requires n <= |script| && GoesOn(script, n, size)
    ensures var got := Concat(script[..n]);
            Receive(script, "", size) ==
            if n > 0 && HasBlankLine(CString(got)) then Received(got) else Receive(script[n..], got, size)
  {
    hide CString, HasBlankLine, HasTerminator, Receive, GoesOn;
    if n == 0 {
      assert script[0..] == script;
    } else {
      GoesOnStep(script, n, size);
      ReceiveGoesOn(script, n - 1, size);
      var got, rest := Concat(script[..n - 1]), script[n - 1..];
      assert rest[0] == script[n - 1] && rest[1..] == script[n..];
      ReceiveChunk(rest, got, size);
    }
  }

  lemma GoesOnStep(script: seq<Read>, n: nat, size: nat)
    requires 0 < n <= |script| && GoesOn(script, n, size)
    ensures GoesOn(script, n - 1, size) && script[n - 1].Chunk?
    ensures var got := Concat(script[..n - 1]);
            && |got| + 1 < size && (n > 1 ==> !HasBlankLine(CString(got)))
            && Concat(script[..n]) == got + script[n - 1].bytes
  {
    hide CString, HasBlankLine;
    ConcatStep(script, n - 1);
  }

  /** The outcome, by the first read that ends the loop: the buffer is full, a blank line has arrived, the stream
      has ended, or the read fails. */
  lemma ReceiveMeans(script: seq<Read>, n: nat, size: nat)
    requires n <= |script| && GoesOn(script, n, size)
    ensures var got := Concat(script[..n]);
            && (n > 0 && HasBlankLine(CString(got)) ==> Receive(script, "", size) == Received(got))
            && (n == 0 || !HasBlankLine(CString(got)) ==>
                  && (|got| + 1 >= size ==> Receive(script, "", size) == TooLarge)
                  && (|got| + 1 < size && (n == |script| || script[n] == End) ==>
                        Receive(script, "", size) == Received(got))
                  && (|got| + 1 < size && n < |script| && script[n] == Error ==> Receive(script, "", size) == Failed))
  {
    hide CString, HasBlankLine;
    ReceiveGoesOn(script, n, size);
    ReceiveStops(script[n..], Concat(script[..n]), size);
  }

  /** A stream in which no blank line has arrived is never returned before its end. */
  lemma {:induction false} NoEarlyReturn(script: seq<Read>, got: string, size: nat) returns (n: nat)
    requires Receive(script, got, size).Received?
    requires !HasBlankLine(CString(Receive(script, got, size).bytes))
    ensures n <= |script| && (n == |script| || script[n] == End) && forall i :: 0 <= i < n ==> script[i].Chunk?
    ensures Receive(script, got, size).bytes == got + Concat(script[..n])
    decreases |script|
  {
    hide CString, HasBlankLine, HasTerminator;
    n := 0;
    if script != [] && script[0].Chunk? {
      var more := got + script[0].bytes;
      ReceiveChunk(script, got, size);
      var k := NoEarlyReturn(script[1..], more, size);
      n := k + 1;
      ConcatFirst(script[..n]);
      assert script[..n][1..] == script[1..][..k];
    }
  }

  lemma {:induction false} ConcatFirst(script: seq<Read>)
    requires script != [] && script[0].Chunk?
    ensures Concat(script) == script[0].bytes + Concat(script[1..])
  {
    if |script| == 1 {
      assert script[..0] == [] && script[1..] == [];
    } else {
      ConcatFirst(script[..|script| - 1]);
      assert script[1..][..|script| - 2] == script[..|script| - 1][1..];
    }
  }

  /** The request a worker goes on with, if any. */
  function Accepted(script: seq<Read>): Option<Request> {
    match Receive(script, "", BUFFER_SIZE)
    case Received(bytes) => if bytes == "" then None else Parse(CString(bytes))
    case _ => None
  }

  // ----- independence from the splitting

  predicate NulFree(s: string) {
    '\0' !in s
  }

  lemma CStringOfNulFree(s: string)
    requires NulFree(s)
    ensures CString(s) == s
  {
  }

  lemma FindInLonger(s: string, t: string, pattern: string)
    requires s <= t && Find(s, pattern).Some?
    ensures Find(t, pattern).Some?
  {
    OccursInPrefix(s, t, pattern, Find(s, pattern).value);
  }

  lemma TerminatorInLonger(s: string, t: string)
    requires s <= t && HasTerminator(s)
    ensures HasTerminator(t)
  {
    if Find(s, "\r\n\r\n").Some? {
      FindInLonger(s, t, "\r\n\r\n");
    } else {
      FindInLonger(s, t, "\n\n");
    }
  }

  /** `s` ends with CR LF CR LF or with LF LF. */
  predicate EndsInBlankLine(s: string) {
    var n := |s|;
    || (n >= 4 && s[n - 4] == '\r' && s[n - 3] == '\n' && s[n - 2] == '\r' && s[n - 1] == '\n')
    || (n >= 2 && s[n - 2] == '\n' && s[n - 1] == '\n')
  }

  /** `head` is the shortest prefix of the stream that ends with a blank line. */
  ghost predicate IsHead(head: string) {
    EndsInBlankLine(head) && forall n :: 0 <= n < |head| ==> !EndsInBlankLine(head[..n])
  }

  /** A text has a blank line exactly when some prefix ends with one. */
  lemma BlankLineEndsPrefix(s: string)
    ensures HasBlankLine(s) <==> exists n :: 0 <= n <= |s| && EndsInBlankLine(s[..n])
  {
    if i: nat :| BlankLineAt(s, i) {
      var n := if s[i] == '\r' then i + 4 else i + 2;
      assert EndsInBlankLine(s[..n]);
    }
    if n :| 0 <= n <= |s| && EndsInBlankLine(s[..n]) {
      assert BlankLineAt(s, if s[n - 2] == '\n' then n - 2 else n - 4);
    }
  }

  lemma HeadIsFirstTerminator(head: string)
    requires IsHead(head)
    ensures head != "" && HasTerminator(head) && !HasTerminator(head[..|head| - 1])
  {
    assert head[..|head|] == head;
    BlankLineEndsPrefix(head);
    var before := head[..|head| - 1];
    BlankLineEndsPrefix(before);
    forall n | 0 <= n <= |before| ensures !EndsInBlankLine(before[..n]) {
      assert before[..n] == head[..n];
    }
  }

  /** The reads hand over successive pieces of `stream` until at least `need` characters have arrived. */
  ghost predicate Delivers(script: seq<Read>, got: string, stream: string, need: nat)
    decreases |script|
  {
    |got| >= need ||
    (script != [] && script[0].Chunk? &&
     var more := got + script[0].bytes;
     more <= stream && Delivers(script[1..], more, stream, need))
  }

  /** Whatever the splitting, the intake stops with the whole head and some of what follows it. */
  lemma {:induction false} IntakeStopsAfterHead(script: seq<Read>, got: string, stream: string, head: string)
    returns (n: nat)
    requires IsHead(head) && head <= stream && NulFree(stream) && |head| < BUFFER_SIZE
    requires got <= stream && |got| < |head|
    requires Delivers(script, got, stream, |head|) && Fits(script, BUFFER_SIZE - 1 - |got|)
    ensures |head| <= n <= |stream| && n < BUFFER_SIZE
    ensures Receive(script, got, BUFFER_SIZE) == Received(stream[..n])
    decreases |script|
  {
    hide HasTerminator, HasBlankLine, CString, IsHead;
    HeadIsFirstTerminator(head);
    var more := got + script[0].bytes;
    CStringOfNulFree(more);
    if |more| >= |head| {
      TerminatorInLonger(head, more);
      n := |more|;
    } else {
      if HasTerminator(more) {
        TerminatorInLonger(more, head[..|head| - 1]);
      }
      n := IntakeStopsAfterHead(script[1..], more, stream, head);
    }
  }

  /** Start of the header block. */
  function HeadersStart(text: string): nat {
    SkipLineBreak(text, LineEnd(text))
  }

  lemma LineEndInLonger(s: string, t: string)
    requires s <= t && LineEnd(s) < |s|
    ensures LineEnd(t) == LineEnd(s)
  {
  }

  /** A blank CRLF line inside the header block fixes everything but the bytes behind it. */
  lemma ParseOfLonger(head: string, text: string, i: nat)
    requires head <= text && |text| < BUFFER_SIZE
    requires HeadersStart(head) <= i && OccursAt(head, "\r\n\r\n", i)
    ensures Parse(text) ==
            match Parse(head)
            case None => None
            case Some(r) => Some(r.(rawHeaders := r.rawHeaders + text[|head|..]))
    ensures Parse(head).Some? ==> Closed(Parse(head).value.rawHeaders)
  {
    hide ParseRequestLine, ParseTarget, HasTerminator, Closed, LineEnd;
    var end, h := LineEnd(head), HeadersStart(head);
    LineEndInLonger(head, text);
    assert text[..end] == head[..end];
    assert HeadersStart(text) == h;
    assert text[h..] == head[h..] + text[|head|..];
    OccursInSuffix(head, "\r\n\r\n", h, i - h);
    BlankLineCloses(head[h..], i - h);
    BlankLineTerminates(head[h..], i - h);
    TerminatorInLonger(head[h..], text[h..]);
  }

  lemma BlankLineTerminates(s: string, i: nat)
    requires OccursAt(s, "\r\n\r\n", i)
    ensures HasTerminator(s)
  {
  }

  /** What the rest of the server sees of a request: the parsed fields, the cache key and the origin request. */
  ghost predicate SameRequest(a: Option<Request>, b: Option<Request>) {
    match (a, b)
    case (None, None) => true
    case (Some(r), Some(q)) =>
      && r.(rawHeaders := "") == q.(rawHeaders := "")
      && r.port >= 0 && Key(r) == Key(q) && OriginText(r) == OriginText(q)
    case _ => false
  }

  lemma SameAsHead(head: string, text: string, i: nat)
    requires head <= text && |text| < BUFFER_SIZE
    requires HeadersStart(head) <= i && OccursAt(head, "\r\n\r\n", i)
    ensures SameRequest(Parse(head), Parse(text))
  {
    ParseOfLonger(head, text, i);
    if Parse(head).Some? {
      ParsedIsLegal(head);
      hide Parse, Legal, HeaderLines, Closed, Join, RequestLines;
      ClosedIgnoresTail(Parse(head).value.rawHeaders, text[|head|..]);
    }
  }

  /** The reads are a way of splitting `stream` that hands over at least its head. */
  ghost predicate Splits(script: seq<Read>, stream: string, head: string) {
    head <= stream && NulFree(stream) && Delivers(script, "", stream, |head|) && Fits(script, BUFFER_SIZE - 1)
  }

  lemma SplitIsParsed(script: seq<Read>, stream: string, head: string) returns (tail: string)
    requires IsHead(head) && |head| < BUFFER_SIZE && Splits(script, stream, head)
    ensures Accepted(script) == Parse(head + tail) && NulFree(tail) && |head + tail| < BUFFER_SIZE
  {
    var n := IntakeStopsAfterHead(script, "", stream, head);
    CStringOfNulFree(stream[..n]);
    tail := stream[|head|..n];
    assert stream[..n] == head + tail;
  }

  lemma SameTransitive(a: Option<Request>, b: Option<Request>, c: Option<Request>)
    requires SameRequest(a, b) && SameRequest(a, c)
    ensures SameRequest(b, c)
  {
    hide Key, OriginText;
  }

  /** Every way of splitting a stream into reads gives the same request, whatever arrives behind the head,
      when the first header terminator is a blank CRLF line inside the header block. */
  lemma SplittingIndependence(stream: string, head: string, i: nat, script: seq<Read>, script': seq<Read>)
    requires IsHead(head) && |head| < BUFFER_SIZE && Splits(script, stream, head) && Splits(script', stream, head)
    requires HeadersStart(head) <= i && OccursAt(head, "\r\n\r\n", i)
    ensures SameRequest(Accepted(script), Accepted(script'))
  {
    hide Parse, OccursAt, IsHead, Splits, SameRequest, Accepted;
    var tail := SplitIsParsed(script, stream, head);
    var tail' := SplitIsParsed(script', stream, head);
    SameAsHead(head, head + tail, i);
    SameAsHead(head, head + tail', i);
    SameTransitive(Parse(head), Parse(head + tail), Parse(head + tail'));
  }

  /** A printed request that arrives in one piece is accepted as it is, whatever comes later. */
  lemma AcceptedAtOnce(r: Request, later: seq<Read>)
    requires Legal(r) && NulFree(Print(r)) && |Print(r)| < BUFFER_SIZE
    ensures Accepted([Chunk(Print(r))] + later) == Some(r)
  {
    RoundTrip(r);
    CStringOfNulFree(Print(r));
    PrintedTerminates(r);
    hide Parse, Legal, Print, CString, HasTerminator, Find;
    ReceiveChunk([Chunk(Print(r))] + later, "", BUFFER_SIZE);
    assert "" + Print(r) == Print(r);
  }

  /** Bytes behind an accepted request only lengthen its header block. */
  lemma ParseExtends(head: string, tail: string)
    requires Parse(head).Some? && |head + tail| < BUFFER_SIZE
    ensures var r := Parse(head).value;
            Parse(head + tail) == Some(r.(rawHeaders := r.rawHeaders + tail))
  {
    hide ParseRequestLine, ParseTarget, HasTerminator, LineEnd;
    var text, end, h := head + tail, LineEnd(head), HeadersStart(head);
    TerminatedIsNotEmpty(head[h..]);
    LineEndInLonger(head, text);
    assert text[..end] == head[..end];
    assert HeadersStart(text) == h;
    assert text[h..] == head[h..] + tail;
    TerminatorInLonger(head[h..], text[h..]);
  }

  lemma TerminatedIsNotEmpty(s: string)
    ensures HasTerminator(s) ==> s != ""
  {
  }

  /** The request line and its URL are acceptable. */
  predicate LineOk(text: string) {
    var end := LineEnd(text);
    && 0 < end < |text| && ParseRequestLine(text[..end]).Some?
    && ParseTarget(ParseRequestLine(text[..end]).value.0).Some?
  }

  /** No bytes behind the head can change what becomes of it: its header block is closed, or its first line alone
      gets it rejected. */
  predicate Settled(head: string) {
    if Parse(head).Some? then Closed(Parse(head).value.rawHeaders) else !LineOk(head)
  }

  lemma TerminatorIsBehindLine(text: string)
    requires HasTerminator(text)
    ensures LineEnd(text) + 1 < |text|
  {
    if Find(text, "\r\n\r\n").Some? {
      var i := Find(text, "\r\n\r\n").value;
      assert text[i] == text[i..i + 4][0] == '\r';
    } else {
      var i := Find(text, "\n\n").value;
      assert text[i] == text[i..i + 2][0] == '\n';
    }
  }

  lemma RejectedLineStays(head: string, tail: string)
    requires HasTerminator(head) && !LineOk(head)
    ensures Parse(head).None? && Parse(head + tail).None?
  {
    TerminatorIsBehindLine(head);
    hide ParseRequestLine, ParseTarget, HasTerminator, LineEnd;
    LineEndInLonger(head, head + tail);
    assert (head + tail)[..LineEnd(head)] == head[..LineEnd(head)];
  }

  /** A head that was rejected only for the lack of a terminator behind its first line break. */
  lemma RejectedBlockFlips(head: string)
    requires HasTerminator(head) && LineOk(head) && Parse(head).None? && |head| + 2 < BUFFER_SIZE
    ensures Parse(head + "\n\n").Some?
  {
    hide ParseRequestLine, ParseTarget, LineEnd, HasTerminator;
    TerminatorIsBehindLine(head);
    var text, end, h := head + "\n\n", LineEnd(head), HeadersStart(head);
    LineEndInLonger(head, text);
    assert text[..end] == head[..end];
    assert HeadersStart(text) == h;
    assert text[h..] == head[h..] + "\n\n";
    assert BlankLineAt(text[h..], |head| - h);
  }

  /** Bytes behind the head, when they arrive with it, leave the request as it is exactly when the head is
      settled. */
  lemma IndependenceIffSettled(head: string)
    requires IsHead(head) && NulFree(head) && |head| + 3 < BUFFER_SIZE
    ensures (forall tail :: NulFree(tail) && |head + tail| < BUFFER_SIZE ==>
               SameRequest(Parse(head), Parse(head + tail)))
            <==> Settled(head)
  {
    HeadIsFirstTerminator(head);
    if Parse(head).Some? {
      AcceptedIffClosed(head);
    } else if LineOk(head) {
      var tail := "\n\n";
      RejectedBlockFlips(head);
      assert NulFree(tail) && |head + tail| < BUFFER_SIZE;
    } else {
      forall tail ensures SameRequest(Parse(head), Parse(head + tail)) {
        RejectedLineStays(head, tail);
      }
    }
  }

  lemma AcceptedIffClosed(head: string)
    requires Parse(head).Some? && NulFree(head) && |head| + 3 < BUFFER_SIZE
    ensures (forall tail :: NulFree(tail) && |head + tail| < BUFFER_SIZE ==>
               SameRequest(Parse(head), Parse(head + tail)))
            <==> Closed(Parse(head).value.rawHeaders)
  {
    var r := Parse(head).value;
    ParsedIsLegal(head);
    if Closed(r.rawHeaders) {
      forall tail | NulFree(tail) && |head + tail| < BUFFER_SIZE
        ensures SameRequest(Parse(head), Parse(head + tail))
      {
        ParseExtends(head, tail);
        ClosedIgnoresTail(r.rawHeaders, tail);
      }
    } else {
      var tail := OpenBlockExtends(r.rawHeaders);
      ParseExtends(head, tail);
      OpenBlockChangesText(r, tail);
      assert NulFree(tail) && |head + tail| < BUFFER_SIZE;
    }
  }

  lemma OnePiece(text: string, stream: string, need: nat)
    requires need <= |text| && text <= stream && 0 < |text| < BUFFER_SIZE
    ensures Delivers([Chunk(text)], "", stream, need) && Fits([Chunk(text)], BUFFER_SIZE - 1)
  {
    assert "" + text == text;
  }

  lemma OnePieceIsParsed(text: string)
    requires HasTerminator(text) && NulFree(text) && 0 < |text| < BUFFER_SIZE
    ensures Accepted([Chunk(text)]) == Parse(text)
  {
    CStringOfNulFree(text);
    hide Parse, HasTerminator, CString;
    assert "" + text == text;
    ReceiveChunk([Chunk(text)], "", BUFFER_SIZE);
  }

  /** The head alone first, or the head and what is behind it at once. */
  lemma TwoSplits(head: string, tail: string)
    requires IsHead(head) && NulFree(head) && NulFree(tail) && |head + tail| < BUFFER_SIZE
    ensures Splits([Chunk(head)], head + tail, head) && Splits([Chunk(head + tail)], head + tail, head)
    ensures Accepted([Chunk(head)]) == Parse(head) && Accepted([Chunk(head + tail)]) == Parse(head + tail)
  {
    HeadIsFirstTerminator(head);
    TerminatorInLonger(head, head + tail);
    hide Parse, HasTerminator, Accepted, Delivers, Fits, IsHead;
    OnePiece(head, head + tail, |head|);
    OnePiece(head + tail, head + tail, |head|);
    OnePieceIsParsed(head);
    OnePieceIsParsed(head + tail);
  }

  ghost predicate SplittingIrrelevant(head: string) {
    forall stream, script, script' :: Splits(script, stream, head) && Splits(script', stream, head) ==>
      SameRequest(Accepted(script), Accepted(script'))
  }

  lemma SettledIsIrrelevant(head: string, stream: string, script: seq<Read>, script': seq<Read>)
    requires IsHead(head) && NulFree(head) && |head| + 3 < BUFFER_SIZE && Settled(head)
    requires Splits(script, stream, head) && Splits(script', stream, head)
    ensures SameRequest(Accepted(script), Accepted(script'))
  {
    hide Parse, IsHead, Splits, SameRequest, Accepted, Settled;
    IndependenceIffSettled(head);
    var tail := SplitIsParsed(script, stream, head);
    var tail' := SplitIsParsed(script', stream, head);
    SameTransitive(Parse(head), Parse(head + tail), Parse(head + tail'));
  }

  /** Every way of splitting every stream with this head gives the same request exactly when the head is settled. */
  lemma SplittingIrrelevantIffSettled(head: string)
    requires IsHead(head) && NulFree(head) && |head| + 3 < BUFFER_SIZE
    ensures SplittingIrrelevant(head) <==> Settled(head)
  {
    hide Parse, IsHead, NulFree, Splits, SameRequest, Accepted, Settled;
    if Settled(head) {
      forall stream, script, script' | Splits(script, stream, head) && Splits(script', stream, head)
        ensures SameRequest(Accepted(script), Accepted(script'))
      {
        SettledIsIrrelevant(head, stream, script, script');
      }
    } else {
      IndependenceIffSettled(head);
      var tail :| NulFree(tail) && |head + tail| < BUFFER_SIZE && !SameRequest(Parse(head), Parse(head + tail));
      TwoSplits(head, tail);
    }
  }

  /** A request without any header line is rejected when its head is read alone, and accepted when one more empty
      line arrives in the same read: the parser looks for the terminator only behind the first line break. */
  lemma HeaderlessSplittingMatters(r: Request)
    requires Legal(r) && r.rawHeaders == CRLF + CRLF && NulFree(Print(r)) && |Print(r)| < BUFFER_SIZE
    ensures var head := Print(r.(rawHeaders := CRLF));
            && Print(r) == head + CRLF && HasTerminator(head)
            && Accepted([Chunk(head), Chunk(CRLF)]) == None
            && Accepted([Chunk(head + CRLF)]) == Some(r)
  {
    var head := Print(r.(rawHeaders := CRLF));
    AcceptedAtOnce(r, []);
    assert [Chunk(Print(r))] + [] == [Chunk(Print(r))];
    assert Print(r) == head + CRLF && head == Print(r)[..|head|];
    HeadOfHeaderless(r);
    RoundTrip(r);
    CStringOfNulFree(head);
    NoBlockIsRejected(head, r);
    hide Parse, Legal, Print, CString, HasTerminator;
    ReceiveChunk([Chunk(head), Chunk(CRLF)], "", BUFFER_SIZE);
    assert "" + head == head;
  }

  /** A record whose block is two empty lines does not come from a text with only one of them. */
  lemma NoBlockIsRejected(head: string, r: Request)
    requires Parse(head + CRLF) == Some(r) && r.rawHeaders == CRLF + CRLF && |head| + 2 < BUFFER_SIZE
    ensures Parse(head).None?
  {
    hide Parse, HasTerminator;
    if Parse(head).Some? {
      ParseExtends(head, CRLF);
      BeforeCrlf(Parse(head).value.rawHeaders);
      CrlfHasNoTerminator();
      ParsedIsLegal(head);
    }
  }

  lemma BeforeCrlf(s: string)
    requires s + CRLF == CRLF + CRLF
    ensures s == CRLF
  {
    assert s == (s + CRLF)[..2] == CRLF;
  }

  lemma CrlfHasNoTerminator()
    ensures !HasTerminator(CRLF)
  {
    var two := "\n\n";
    assert CRLF[0] != two[0] && CRLF[0..2] == CRLF;
    assert !OccursAt(CRLF, two, 0);
  }

  lemma HeadOfHeaderless(r: Request)
    requires r.port >= 0
    ensures HasTerminator(Print(r.(rawHeaders := CRLF)))
  {
    var line := r.verb + " " + PrintUrl(r) + " " + r.version;
    var head := Print(r.(rawHeaders := CRLF));
    assert head == line + CRLF + CRLF;
    assert head[|line|..|line| + 4] == "\r\n\r\n";
    assert OccursAt(head, "\r\n\r\n", |line|);
  }

  lemma OpenBlockChangesText(r: Request, tail: string)
    requires r.port >= 0 && HeaderLines(r.rawHeaders + tail) == HeaderLines(r.rawHeaders) + ["Z"]
    ensures OriginText(r.(rawHeaders := r.rawHeaders + tail)) != OriginText(r)
  {
    ZIsKept(HeaderLines(r.rawHeaders));
    JoinAppend(Kept(HeaderLines(r.rawHeaders)), ["Z"]);
    JoinCons("Z", []);
    hide HeaderLines, Kept, Join;
    assert ["Z"] + [] == ["Z"];
    assert |OriginText(r.(rawHeaders := r.rawHeaders + tail))| > |OriginText(r)|;
  }

  /** With a bare-LF terminator the splitting does matter: the same bytes, read up to the terminator first or
      all at once, give two different origin requests. */
  lemma BareLfSplittingMatters(r: Request)
    requires Legal(r) && NulFree(Print(r)) && |Print(r)| + 1 < BUFFER_SIZE && |r.rawHeaders| + 1 < HEADERS_SIZE
    requires Find(r.rawHeaders + "Z", CRLF).None? && !IsHop(r.rawHeaders) && !IsHop(r.rawHeaders + "Z")
    ensures var q := r.(rawHeaders := r.rawHeaders + "Z");
            && Accepted([Chunk(Print(r)), Chunk("Z")]) == Some(r)
            && Accepted([Chunk(Print(r) + "Z")]) == Some(q)
            && OriginText(r) != OriginText(q)
  {
    var q := r.(rawHeaders := r.rawHeaders + "Z");
    TerminatorInLonger(r.rawHeaders, q.rawHeaders);
    assert r.rawHeaders != "" && Legal(q);
    assert Find(r.rawHeaders, CRLF).None? by {
      if Find(r.rawHeaders, CRLF).Some? {
        FindInLonger(r.rawHeaders, r.rawHeaders + "Z", CRLF);
      }
    }
    hide Legal, Accepted, HasTerminator, Find;
    assert Print(q) == Print(r) + "Z";
    AcceptedAtOnce(r, [Chunk("Z")]);
    AcceptedAtOnce(q, []);
    assert [Chunk(Print(r))] + [Chunk("Z")] == [Chunk(Print(r)), Chunk("Z")];
    assert [Chunk(Print(q))] + [] == [Chunk(Print(q))];
    OpenBlockText(r);
    OpenBlockText(q);
    assert |OriginText(q)| == |OriginText(r)| + 1;
  }

  lemma PrintedTerminates(r: Request)
    requires Legal(r)
    ensures HasTerminator(Print(r)) && Print(r) != ""
  {
    var line := r.verb + " " + PrintUrl(r) + " " + r.version + CRLF;
    var i: nat :| BlankLineAt(r.rawHeaders, i);
    assert BlankLineAt(line + r.rawHeaders, |line| + i);
  }

  lemma OpenBlockText(r: Request)
    requires r.port >= 0 && r.rawHeaders != "" && Find(r.rawHeaders, CRLF).None? && !IsHop(r.rawHeaders)
    ensures OriginText(r) == Join(RequestLines(r)) + (r.rawHeaders + CRLF) + CRLF
  {
    assert HeaderLines(r.rawHeaders) == [r.rawHeaders] + [];
    KeptCons(r.rawHeaders, []);
    JoinCons(r.rawHeaders, []);
  }

  // ----- the limits are reached

  function Repeat(c: char, n: nat): string {
    seq(n, _ => c)
  }

  /** A record with the longest host, port, path and header block. */
  function Largest(): Request {
    Request("GET", Repeat('h', 255), 65535, "/" + Repeat('p', 2046), "HTTP/1.1", Repeat('x', 8189) + "\n\n")
  }

  lemma FiveDigits()
    ensures |Decimal(65535)| == 5
  {
    assert |Decimal(65)| == 2 && |Decimal(655)| == 3 && |Decimal(6553)| == 4;
  }

  lemma LargestIsLegal()
    ensures Legal(Largest()) && |Key(Largest())| == 2313
  {
    var r := Largest();
    FiveDigits();
    hide Decimal;
    assert HasBlankLine(r.rawHeaders) by {
      assert BlankLineAt(r.rawHeaders, 8189);
    }
    hide HasBlankLine;
  }

  lemma LargestBlockIsOneLine()
    ensures var raw := Largest().rawHeaders;
            |raw| == 8191 && Find(raw, CRLF).None? && !IsHop(raw)
  {
    var raw := Largest().rawHeaders;
    assert '\r' !in raw && ':' !in raw;
    hide Find, IsHop, Largest;
    forall i: nat ensures !OccursAt(raw, CRLF, i) {
      assert i + 2 <= |raw| ==> raw[i] == raw[i..i + 2][0];
    }
    ColonlessIsKept(raw);
    assert Find(raw, CRLF).None?;
  }

  /** It is legal, its key has 2313 and its origin request 10545 characters: no bound is better than these. */
  lemma LimitsAreReached()
    ensures var r := Largest();
            Legal(r) && |Key(r)| == 2313 && |OriginText(r)| == 10545
  {
    hide Join, RequestLines, OriginText, Find, IsHop, Legal, Decimal;
    var r := Largest();
    FiveDigits();
    LargestIsLegal();
    LargestBlockIsOneLine();
    RequestLinesLength(r);
    OpenBlockText(r);
  }
}
