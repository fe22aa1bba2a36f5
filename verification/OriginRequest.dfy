/**
 The request sent to the origin: origin form (section 5.3.1 of RFC 7230), a generated Host field
 (section 5.4 of RFC 7230), and the client's header lines without the hop-by-hop ones.
 */
module OriginRequest {
  import opened Common
  import opened Text
  import opened RequestParser

  const REQUEST_BUFFER_SIZE := 12288

  // ----- lines

  /** The CRLF-separated lines before the first empty one. */
  function HeaderLines(raw: string): seq<string>
    decreases |raw|
  {
    if raw == "" then []
    else
      match Find(raw, CRLF)
      case None => [raw]
      case Some(end) => if end == 0 then [] else [raw[..end]] + HeaderLines(raw[end + 2..])
  }

  function Lower(c: char): char {
    if 'A' <= c <= 'Z' then c - 'A' + 'a' else c
  }

  predicate SameName(a: string, b: string) {
    |a| == |b| && forall i :: 0 <= i < |a| ==> Lower(a[i]) == Lower(b[i])
  }

  const HOP_NAMES: seq<string> := ["host", "connection", "proxy-connection"]

  predicate IsHop(line: string) {
    var colon := IndexOf(line, ':');
    colon < |line| && exists k :: 0 <= k < |HOP_NAMES| && SameName(line[..colon], HOP_NAMES[k])
  }

  function Kept(lines: seq<string>): seq<string> {
    if lines == [] then []
    else (if IsHop(lines[0]) then [] else [lines[0]]) + Kept(lines[1..])
  }

  function Join(lines: seq<string>): string {
    if lines == [] then "" else lines[0] + CRLF + Join(lines[1..])
  }

  function Filtered(raw: string): string {
    Join(Kept(HeaderLines(raw)))
  }

  function RequestLines(r: Request): seq<string>
    requires r.port >= 0
  {
    [r.verb + " " + r.path + " " + r.version, "Host: " + r.host + ":" + Decimal(r.port), "Connection: close"]
  }

  /** What is sent to the origin. */
  function OriginText(r: Request): string
    requires r.port >= 0
  {
    Join(RequestLines(r)) + Filtered(r.rawHeaders) + CRLF
  }

  // ----- what the lines are

  predicate IsLine(line: string) {
    line != "" && Find(line, CRLF).None?
  }

  ghost predicate AllLines(lines: seq<string>) {
    forall k :: 0 <= k < |lines| ==> IsLine(lines[k])
  }

  /** A CRLF-free text followed by CRLF is cut exactly there, even if it ends in a CR. */
  lemma FirstBreak(line: string, rest: string)
    requires Find(line, CRLF).None?
    ensures Find(line + CRLF + rest, CRLF) == Some(|line|)
    ensures (line + CRLF + rest)[..|line|] == line && (line + CRLF + rest)[|line| + 2..] == rest
  {
    var s := line + CRLF + rest;
    assert s[|line|..|line| + 2] == CRLF;
    forall j: nat | j < |line|
      ensures !OccursAt(s, CRLF, j)
    {
      OccursInPrefix(line, s, CRLF, j);
      if j + 2 > |line| {
        assert s[j..j + 2][1] == s[|line|] == '\r';
      }
    }
    FindUnique(s, CRLF, |line|);
  }

  lemma {:induction false} HeaderLinesAreLines(raw: string)
    ensures AllLines(HeaderLines(raw))
    decreases |raw|
  {
    if raw != "" {
      match Find(raw, CRLF)
      case None =>
      case Some(end) =>
        if end > 0 {
          HeaderLinesAreLines(raw[end + 2..]);
          PrefixHasNoBreak(raw, end);
        }
    }
  }

  lemma PrefixHasNoBreak(raw: string, end: nat)
    requires Find(raw, CRLF) == Some(end)
    ensures Find(raw[..end], CRLF).None?
  {
    forall j: nat
      ensures !OccursAt(raw[..end], CRLF, j)
    {
      OccursInPrefix(raw[..end], raw, CRLF, j);
    }
  }

  /** Lines joined and closed by an empty line are read back, whatever follows. */
  lemma {:induction false} JoinedLinesReadBack(lines: seq<string>, tail: string)
    requires AllLines(lines)
    ensures HeaderLines(Join(lines) + CRLF + tail) == lines
  {
    if lines == [] {
      FirstBreak("", tail);
      assert Join(lines) + CRLF + tail == "" + CRLF + tail;
    } else {
      JoinedLinesReadBack(lines[1..], tail);
      var rest := Join(lines[1..]) + CRLF + tail;
      assert Join(lines) + CRLF + tail == lines[0] + CRLF + rest;
      FirstBreak(lines[0], rest);
      assert lines == [lines[0]] + lines[1..];
    }
  }

  // ----- which lines are dropped

  predicate IsLetter(c: char) {
    'A' <= c <= 'Z' || 'a' <= c <= 'z'
  }

  /** The same character, or the two cases of one ASCII letter. */
  predicate SameLetter(a: char, b: char) {
    a == b || (IsLetter(a) && IsLetter(b) && (a as int == b as int + 32 || b as int == a as int + 32))
  }

  predicate SameIgnoringCase(a: string, b: string) {
    |a| == |b| && forall i :: 0 <= i < |a| ==> SameLetter(a[i], b[i])
  }

  lemma SameNameMeans(a: string, b: string)
    ensures SameName(a, b) <==> SameIgnoringCase(a, b)
  {
  }

  /** A field line is dropped exactly when its name is one of the three, in any mix of cases. */
  lemma HopMeans(name: string, value: string)
    requires ':' !in name
    ensures IsHop(name + ":" + value) <==>
            || SameIgnoringCase(name, "host") || SameIgnoringCase(name, "connection")
            || SameIgnoringCase(name, "proxy-connection")
  {
    var line := name + ":" + value;
    assert line[..|name|] == name;
    IndexOfUnique(line, ':', |name|);
    SameNameMeans(name, "host");
    SameNameMeans(name, "connection");
    SameNameMeans(name, "proxy-connection");
    assert HOP_NAMES[0] == "host" && HOP_NAMES[1] == "connection" && HOP_NAMES[2] == "proxy-connection";
    hide SameName, SameIgnoringCase, IndexOf;
  }

  /** A line without a colon is kept, whatever it says. */
  lemma ColonlessIsKept(line: string)
    requires ':' !in line
    ensures !IsHop(line)
  {
  }

  lemma HostIsDropped()
    ensures IsHop("Host: h")
  {
    hide IsHop, SameName;
    HopMeans("Host", " h");
    assert "Host" + ":" + " h" == "Host: h";
    assert SameIgnoringCase("Host", "host");
  }

  lemma ConnectionIsDropped()
    ensures IsHop("CONNECTION: x")
  {
    hide IsHop, SameName;
    HopMeans("CONNECTION", " x");
    assert "CONNECTION" + ":" + " x" == "CONNECTION: x";
    assert SameIgnoringCase("CONNECTION", "connection");
  }

  lemma HostsIsKept()
    ensures !IsHop("Hosts: h")
  {
    hide IsHop, SameName;
    HopMeans("Hosts", " h");
    assert "Hosts" + ":" + " h" == "Hosts: h";
  }

  // ----- what the rewrite keeps

  lemma {:induction false} KeptAreLines(lines: seq<string>)
    requires AllLines(lines)
    ensures AllLines(Kept(lines)) && forall k :: 0 <= k < |Kept(lines)| ==> !IsHop(Kept(lines)[k])
  {
    hide IsHop, IsLine;
    if lines != [] {
      KeptAreLines(lines[1..]);
    }
  }

  /** Every line that is not hop-by-hop is kept as often as it occurs, and no other line is. */
  lemma {:induction false} KeptCount(lines: seq<string>, line: string)
    ensures multiset(Kept(lines))[line] == if IsHop(line) then 0 else multiset(lines)[line]
  {
    hide IsHop;
    if lines != [] {
      KeptCount(lines[1..], line);
      assert lines == [lines[0]] + lines[1..];
    }
  }

  lemma KeptCons(line: string, lines: seq<string>)
    ensures Kept([line] + lines) == (if IsHop(line) then [] else [line]) + Kept(lines)
  {
  }

  lemma HeadAndTail<T>(a: seq<T>, b: seq<T>)
    requires a != []
    ensures a == [a[0]] + a[1..] && a + b == [a[0]] + (a[1..] + b)
  {
  }

  lemma Associative<T>(a: seq<T>, b: seq<T>, c: seq<T>)
    ensures (a + b) + c == a + (b + c)
  {
  }

  /** Lines are kept or dropped independently of their neighbours, so their order is kept too. */
  lemma {:induction false} KeptConcat(a: seq<string>, b: seq<string>)
    ensures Kept(a + b) == Kept(a) + Kept(b)
  {
    if a == [] {
      assert a + b == b;
    } else {
      KeptConcat(a[1..], b);
      KeptCons(a[0], a[1..] + b);
      KeptCons(a[0], a[1..]);
      hide Kept, IsHop;
      HeadAndTail(a, b);
    }
  }

  lemma {:induction false} KeptIdempotent(lines: seq<string>)
    requires forall k :: 0 <= k < |lines| ==> !IsHop(lines[k])
    ensures Kept(lines) == lines
  {
    if lines != [] {
      KeptIdempotent(lines[1..]);
    }
  }

  lemma JoinCons(line: string, lines: seq<string>)
    ensures Join([line] + lines) == line + CRLF + Join(lines)
  {
  }

  lemma {:induction false} JoinAppend(a: seq<string>, b: seq<string>)
    ensures Join(a + b) == Join(a) + Join(b)
  {
    if a == [] {
      assert a + b == b;
    } else {
      JoinAppend(a[1..], b);
      JoinCons(a[0], a[1..] + b);
      JoinCons(a[0], a[1..]);
      hide Join;
      HeadAndTail(a, b);
      Associative(a[0] + CRLF, Join(a[1..]), Join(b));
    }
  }

  /** Rewriting the header block twice changes nothing more. */
  lemma FilterIdempotent(raw: string)
    ensures Filtered(Filtered(raw) + CRLF) == Filtered(raw)
  {
    HeaderLinesAreLines(raw);
    var kept := Kept(HeaderLines(raw));
    KeptAreLines(HeaderLines(raw));
    hide HeaderLines, IsHop, IsLine;
    JoinedLinesReadBack(kept, "");
    assert Join(kept) + CRLF + "" == Join(kept) + CRLF;
    KeptIdempotent(kept);
  }

  lemma NoCrNoBreak(line: string)
    requires Unbroken(line)
    ensures Find(line, CRLF).None?
  {
    forall i: nat ensures !OccursAt(line, CRLF, i) {
      assert i + 2 <= |line| ==> line[i] == line[i..i + 2][0];
    }
  }

  ghost predicate Unbroken(s: string) {
    forall i :: 0 <= i < |s| ==> !IsBreak(s[i])
  }

  lemma UnbrokenJoin(a: string, b: string, c: string, d: string, e: string)
    requires Unbroken(a) && Unbroken(b) && Unbroken(c) && Unbroken(d) && Unbroken(e)
    ensures Unbroken(a + b + c + d + e)
  {
  }

  lemma LegalIsUnbroken(r: Request)
    requires Legal(r)
    ensures Unbroken(r.verb) && Unbroken(r.path) && Unbroken(r.version) && Unbroken(r.host) && Unbroken(Decimal(r.port))
    ensures Unbroken(" ") && Unbroken(":") && Unbroken("Host: ") && Unbroken("Connection: close") && Unbroken("")
  {
    DigitsArePlain(Decimal(r.port));
    hide Decimal, HasTerminator;
  }

  lemma RequestLinesAreLines(r: Request)
    requires Legal(r)
    ensures AllLines(RequestLines(r))
  {
    var lines := RequestLines(r);
    LegalIsUnbroken(r);
    UnbrokenJoin(r.verb, " ", r.path, " ", r.version);
    UnbrokenJoin("Host: ", r.host, ":", Decimal(r.port), "");
    assert "Host: " + r.host + ":" + Decimal(r.port) + "" == "Host: " + r.host + ":" + Decimal(r.port);
    assert r.verb != "";
    hide Legal, Find, Unbroken, Decimal;
    NoCrNoBreak(lines[0]);
    NoCrNoBreak(lines[1]);
    NoCrNoBreak(lines[2]);
  }

  /** The request that goes out, read as a sequence of CRLF lines up to the first empty one: the origin-form
      request line, one generated Host, one generated Connection: close, then exactly the client's lines that
      are not hop-by-hop, in order; and nothing follows the empty line. */
  lemma OriginRequestLines(r: Request)
    requires Legal(r)
    ensures var lines := RequestLines(r) + Kept(HeaderLines(r.rawHeaders));
            HeaderLines(OriginText(r)) == lines && OriginText(r) == Join(lines) + CRLF
    ensures Kept(Kept(HeaderLines(r.rawHeaders))) == Kept(HeaderLines(r.rawHeaders))
  {
    var kept := Kept(HeaderLines(r.rawHeaders));
    RequestLinesAreLines(r);
    HeaderLinesAreLines(r.rawHeaders);
    KeptAreLines(HeaderLines(r.rawHeaders));
    hide HeaderLines, IsHop, IsLine, RequestLines, Legal;
    JoinAppend(RequestLines(r), kept);
    var lines := RequestLines(r) + kept;
    JoinedLinesReadBack(lines, "");
    assert Join(lines) + CRLF + "" == Join(lines) + CRLF;
    KeptIdempotent(kept);
  }

  /** What the origin gets begins with the method, the path and the version, in this order. */
  lemma OriginTextBegins(r: Request)
    requires Legal(r)
    ensures "GET " + r.path + " " + r.version + "\r\n" + "Host: " + r.host + ":" + Decimal(r.port) + "\r\n"
            + "Connection: close" + "\r\n" <= OriginText(r)
  {
    hide Decimal, Filtered, HasBlankLine;
    var lines := RequestLines(r);
    JoinCons(lines[0], lines[1..]);
    JoinCons(lines[1], lines[2..]);
    JoinCons(lines[2], []);
    assert lines == [lines[0]] + lines[1..] && lines[1..] == [lines[1]] + lines[2..] && lines[2..] == [lines[2]] + [];
    assert Join([]) == "";
    hide Join;
    assert Join(lines) == lines[0] + CRLF + lines[1] + CRLF + lines[2] + CRLF;
    assert "GET" + " " == "GET ";
  }

  /** The three words of a request line. */
  function Words(line: string): (string, string, string) {
    var first := IndexOf(line, ' ');
    var rest := if first < |line| then line[first + 1..] else "";
    var second := IndexOf(rest, ' ');
    (line[..first], rest[..second], if second < |rest| then rest[second + 1..] else "")
  }

  lemma WordsOf(a: string, b: string, c: string)
    requires ' ' !in a && ' ' !in b
    ensures Words(a + " " + b + " " + c) == (a, b, c)
  {
    var line, rest := a + " " + b + " " + c, b + " " + c;
    assert line[..|a|] == a && line[|a| + 1..] == rest;
    IndexOfUnique(line, ' ', |a|);
    assert rest[..|b|] == b && rest[|b| + 1..] == c;
    IndexOfUnique(rest, ' ', |b|);
  }

  lemma PrintedHostReadsBack(r: Request)
    requires Legal(r)
    ensures ParseAuthority(r.host + ":" + Decimal(r.port)) == Some((r.host, r.port))
  {
    hide Decimal, HasBlankLine;
    PrintedPort(r.port);
    WithPort(r.host, Decimal(r.port), r.port);
    AuthorityComplete(r.host + ":" + Decimal(r.port), r.host, r.port);
  }

  lemma RequestLinesReadBack(r: Request)
    requires Legal(r)
    ensures var lines := RequestLines(r);
            && |lines| == 3 && Words(lines[0]) == (r.verb, r.path, r.version)
            && |lines[1]| >= 6 && lines[1][..6] == "Host: " && ParseAuthority(lines[1][6..]) == Some((r.host, r.port))
            && lines[2] == "Connection: close"
  {
    assert ' ' !in r.verb && ' ' !in r.path;
    hide Words, ParseAuthority, Legal, Decimal;
    PrintedHostReadsBack(r);
    WordsOf(r.verb, r.path, r.version);
    HostLine(r.host, Decimal(r.port));
  }

  lemma HostLine(host: string, port: string)
    ensures var line := "Host: " + host + ":" + port;
            |line| >= 6 && line[..6] == "Host: " && line[6..] == host + ":" + port
  {
  }

  /** A reader on the origin's side gets the method, path, version, host and port of the request back, one
      Connection: close, and the client's lines but the hop-by-hop ones. */
  lemma OriginReadsBack(r: Request)
    requires Legal(r)
    ensures var lines := HeaderLines(OriginText(r));
            && |lines| >= 3 && Words(lines[0]) == (r.verb, r.path, r.version)
            && |lines[1]| >= 6 && lines[1][..6] == "Host: " && ParseAuthority(lines[1][6..]) == Some((r.host, r.port))
            && lines[2] == "Connection: close" && lines[3..] == Kept(HeaderLines(r.rawHeaders))
  {
    OriginRequestLines(r);
    RequestLinesReadBack(r);
    hide *;
  }

  // ----- sizes

  lemma {:induction false} JoinedHeadersLength(raw: string)
    ensures |Join(HeaderLines(raw))| <= |raw| + 2
    decreases |raw|
  {
    if raw != "" {
      match Find(raw, CRLF)
      case None => assert Join([raw]) == raw + CRLF;
      case Some(end) =>
        if end > 0 {
          JoinedHeadersLength(raw[end + 2..]);
          assert ([raw[..end]] + HeaderLines(raw[end + 2..]))[1..] == HeaderLines(raw[end + 2..]);
        }
    }
  }

  lemma {:induction false} KeptLength(lines: seq<string>)
    ensures |Join(Kept(lines))| <= |Join(lines)|
  {
    hide IsHop;
    if lines != [] {
      KeptLength(lines[1..]);
      JoinAppend(if IsHop(lines[0]) then [] else [lines[0]], Kept(lines[1..]));
      assert Join([lines[0]]) == lines[0] + CRLF;
    }
  }

  /** The rewritten request of every legal record fits its buffer. */
  lemma OriginTextFits(r: Request)
    requires Legal(r)
    ensures |OriginText(r)| <= 10545 < REQUEST_BUFFER_SIZE
  {
    DecimalLength(r.port);
    JoinedHeadersLength(r.rawHeaders);
    KeptLength(HeaderLines(r.rawHeaders));
    RequestLinesLength(r);
  }

  lemma RequestLinesLength(r: Request)
    requires r.port >= 0
    ensures |Join(RequestLines(r))| == |r.verb| + |r.path| + |r.version| + |r.host| + |Decimal(r.port)| + 32
  {
    hide Decimal;
    var lines := RequestLines(r);
    assert Join(lines[3..]) == "";
    assert Join(lines[2..]) == lines[2] + CRLF + Join(lines[2..][1..]) && lines[2..][1..] == lines[3..];
    assert Join(lines[1..]) == lines[1] + CRLF + Join(lines[1..][1..]) && lines[1..][1..] == lines[2..];
  }

  // ----- which trailing bytes matter

  /** The header block ends with an empty CRLF line. */
  predicate Closed(raw: string)
    decreases |raw|
  {
    raw != "" &&
    match Find(raw, CRLF)
    case None => false
    case Some(end) => end == 0 || Closed(raw[end + 2..])
  }

  lemma FindInExtension(raw: string, tail: string)
    requires Find(raw, CRLF).Some?
    ensures Find(raw + tail, CRLF) == Find(raw, CRLF)
  {
    var end := Find(raw, CRLF).value;
    OccursInPrefix(raw, raw + tail, CRLF, end);
    forall j: nat | j < end ensures !OccursAt(raw + tail, CRLF, j) {
      OccursInPrefix(raw, raw + tail, CRLF, j);
    }
    FindUnique(raw + tail, CRLF, end);
  }

  /** After a closed header block no further bytes are read. */
  lemma {:induction false} ClosedIgnoresTail(raw: string, tail: string)
    requires Closed(raw)
    ensures HeaderLines(raw + tail) == HeaderLines(raw) && Closed(raw + tail)
    decreases |raw|
  {
    FindInExtension(raw, tail);
    var end := Find(raw, CRLF).value;
    if end > 0 {
      ClosedIgnoresTail(raw[end + 2..], tail);
      assert (raw + tail)[end + 2..] == raw[end + 2..] + tail;
      assert (raw + tail)[..end] == raw[..end];
    }
  }

  /** A blank CRLF line anywhere in the block closes it. */
  lemma {:induction false} BlankLineCloses(raw: string, i: nat)
    requires OccursAt(raw, "\r\n\r\n", i)
    ensures Closed(raw)
    decreases |raw|
  {
    assert raw[i..i + 2] == raw[i..i + 4][..2] == CRLF;
    assert OccursAt(raw, CRLF, i);
    var end := Find(raw, CRLF).value;
    if end > 0 {
      var rest := raw[end + 2..];
      if end == i {
        assert rest[..2] == raw[i..i + 4][2..] == CRLF;
        assert OccursAt(rest, CRLF, 0);
      } else {
        assert raw[end + 1] == raw[end..end + 2][1] == '\n' && raw[i] == raw[i..i + 2][0] == '\r';
        OccursInSuffix(raw, "\r\n\r\n", end + 2, i - end - 2);
        BlankLineCloses(rest, i - end - 2);
      }
    }
  }

  lemma BlockEnds(raw: string)
    requires raw == "" || Find(raw, CRLF).None? || Find(raw, CRLF) == Some(0)
    ensures Join(HeaderLines(raw)) == if raw == "" || Find(raw, CRLF).Some? then "" else raw + CRLF
    ensures Closed(raw) <==> raw != "" && Find(raw, CRLF).Some?
    ensures Closed(raw) ==> CRLF <= raw
  {
    if raw != "" && Find(raw, CRLF).None? {
      JoinCons(raw, []);
    }
  }

  lemma BlockGoesOn(raw: string, end: nat)
    requires Find(raw, CRLF) == Some(end) && end > 0
    ensures raw == raw[..end] + CRLF + raw[end + 2..] && Closed(raw) == Closed(raw[end + 2..])
    ensures Join(HeaderLines(raw)) == raw[..end] + CRLF + Join(HeaderLines(raw[end + 2..]))
  {
    assert raw[end..end + 2] == CRLF;
    HeaderLinesStep(raw, end);
    JoinCons(raw[..end], HeaderLines(raw[end + 2..]));
  }

  /** Joining the lines gives the block back: a closed block up to its empty line, an open one as a whole, with a
      CRLF added if its last line has none. */
  lemma {:induction false} JoinedLinesAreTheBlock(raw: string)
    ensures var text := Join(HeaderLines(raw));
            if Closed(raw) then text + CRLF <= raw else raw == text || raw + CRLF == text
    decreases |raw|
  {
    hide HeaderLines, Join, Find, Closed;
    if raw == "" || Find(raw, CRLF).None? || Find(raw, CRLF) == Some(0) {
      BlockEnds(raw);
    } else {
      var end := Find(raw, CRLF).value;
      BlockGoesOn(raw, end);
      JoinedLinesAreTheBlock(raw[end + 2..]);
      PutBefore(raw[..end] + CRLF, Join(HeaderLines(raw[end + 2..])), raw[end + 2..], Closed(raw));
    }
  }

  lemma PutBefore(line: string, text: string, rest: string, closed: bool)
    requires if closed then text + CRLF <= rest else rest == text || rest + CRLF == text
    ensures if closed then line + text + CRLF <= line + rest
            else line + rest == line + text || line + rest + CRLF == line + text
  {
    if closed {
      assert line + text + CRLF == line + (text + CRLF);
    } else if rest != text {
      assert line + rest + CRLF == line + (rest + CRLF);
    }
  }

  lemma LastLineExtends(raw: string)
    requires Find(raw, CRLF).None? && raw != ""
    ensures HeaderLines(raw + (CRLF + "Z")) == HeaderLines(raw) + ["Z"]
  {
    FirstBreak(raw, "Z");
    assert raw + (CRLF + "Z") == raw + CRLF + "Z";
    NoCrNoBreak("Z");
  }

  lemma ZIsKept(lines: seq<string>)
    ensures Kept(lines + ["Z"]) == Kept(lines) + ["Z"]
  {
    KeptConcat(lines, ["Z"]);
    assert !IsHop("Z");
    KeptCons("Z", []);
    assert ["Z"] + [] == ["Z"];
  }

  lemma HeaderLinesStep(raw: string, end: nat)
    requires Find(raw, CRLF) == Some(end) && end > 0
    ensures HeaderLines(raw) == [raw[..end]] + HeaderLines(raw[end + 2..])
  {
  }

  lemma TailAfterFirstLine(raw: string, end: nat, tail: string)
    requires Find(raw, CRLF) == Some(end) && end > 0
    ensures HeaderLines(raw + tail) == [raw[..end]] + HeaderLines(raw[end + 2..] + tail)
  {
    FindInExtension(raw, tail);
    HeaderLinesStep(raw + tail, end);
    hide HeaderLines;
    assert (raw + tail)[end + 2..] == raw[end + 2..] + tail;
    assert (raw + tail)[..end] == raw[..end];
  }

  lemma ZLine()
    ensures HeaderLines("Z") == ["Z"] && HeaderLines("") == []
  {
  }

  /** An open block can be extended so that one more line goes to the origin. */
  lemma {:induction false} OpenBlockExtends(raw: string) returns (tail: string)
    requires !Closed(raw)
    ensures HeaderLines(raw + tail) == HeaderLines(raw) + ["Z"]
    ensures tail == "Z" || tail == CRLF + "Z"
    decreases |raw|
  {
    hide HeaderLines, Find;
    if raw == "" {
      tail := "Z";
      ZLine();
      assert raw + tail == tail;
    } else {
      match Find(raw, CRLF)
      case None =>
        tail := CRLF + "Z";
        LastLineExtends(raw);
      case Some(end) =>
        tail := OpenBlockExtends(raw[end + 2..]);
        TailAfterFirstLine(raw, end, tail);
        HeaderLinesStep(raw, end);
    }
  }

  /** The forwarded header lines do not depend on what follows the block exactly when it is closed. */
  lemma TailIgnoredIffClosed(raw: string)
    ensures (forall tail :: Kept(HeaderLines(raw + tail)) == Kept(HeaderLines(raw))) <==> Closed(raw)
  {
    if Closed(raw) {
      forall tail ensures Kept(HeaderLines(raw + tail)) == Kept(HeaderLines(raw)) {
        ClosedIgnoresTail(raw, tail);
      }
    } else {
      var tail := OpenBlockExtends(raw);
      ZIsKept(HeaderLines(raw));
      assert |Kept(HeaderLines(raw + tail))| == |Kept(HeaderLines(raw))| + 1;
    }
  }
}
