/**
 The parser for absolute-form requests (section 5.3.2 of RFC 7230): the parse as the C code computes it,
 the grammar it accepts, and the record it fills in place.
 */
module RequestParser {
  import opened Common
  import opened Text

  const METHOD_SIZE := 8
  const HOST_SIZE := 256
  const PATH_SIZE := 2048
  const VERSION_SIZE := 16
  const HEADERS_SIZE := 8192
  const PORT_SIZE := 16

  const SCHEME: string := "http://"

  /** `verb` is the field named `method` in the C code. */
  datatype Request = Request(verb: string, host: string, port: int, path: string, version: string, rawHeaders: string)

  datatype Target = Target(host: string, port: int, path: string)

  // ----- the parse

  predicate IsBreak(c: char) {
    c == '\r' || c == '\n'
  }

  /** Index of the first line-break character, or |text|. */
  function LineEnd(text: string): (i: nat)
    ensures i <= |text|
    ensures i < |text| ==> text[i] == '\r' || text[i] == '\n'
    ensures forall j :: 0 <= j < i ==> text[j] != '\r' && text[j] != '\n'
  {
    if text == "" || IsBreak(text[0]) then 0 else 1 + LineEnd(text[1..])
  }

  function SkipLineBreak(text: string, i: nat): (h: nat)
    requires i <= |text|
    ensures i <= h <= |text|
  {
    if i + 1 < |text| && text[i] == '\r' && text[i + 1] == '\n' then i + 2
    else if i < |text| && IsBreak(text[i]) then i + 1
    else i
  }

  /** `strtol` of a port text accepts white space, then one sign, then digits. */
  predicate IsSpace(c: char) {
    c == ' ' || '\t' <= c <= '\r'
  }

  function CountSpaces(s: string): (n: nat)
    ensures n <= |s| && forall i :: 0 <= i < n ==> IsSpace(s[i])
    ensures n < |s| ==> !IsSpace(s[n])
  {
    if s == "" || !IsSpace(s[0]) then 0 else 1 + CountSpaces(s[1..])
  }

  function CountDigits(s: string): (n: nat)
    ensures n <= |s| && AllDigits(s[..n])
    ensures n < |s| ==> !IsDigit(s[n])
  {
    if s == "" || !IsDigit(s[0]) then 0
    else
      var n := 1 + CountDigits(s[1..]);
      assert s[..n] == [s[0]] + s[1..][..n - 1];
      n
  }

  /** The number `strtol` reads in base ten and how many characters it consumes (0 without digits). */
  function Strtol(s: string): (r: (int, nat)) {
    var i := CountSpaces(s);
    var sign := i < |s| && (s[i] == '+' || s[i] == '-');
    var start := if sign then i + 1 else i;
    var digits := s[start..][..CountDigits(s[start..])];
    if digits == "" then (0, 0)
    else
      var value: int := Value(digits);
      (if sign && s[i] == '-' then -value else value, start + |digits|)
  }

  function ParsePort(text: string): Option<int> {
    if |text| >= PORT_SIZE then None
    else
      var (value, end) := Strtol(text);
      if end == 0 || end != |text| || value < 1 || value > 65535 then None else Some(value)
  }

  function ParseAuthority(authority: string): Option<(string, int)> {
    var colon := IndexOf(authority, ':');
    var host := authority[..colon];
    var port := if colon == |authority| then Some(80) else ParsePort(authority[colon + 1..]);
    if port.None? || host == "" || |host| >= HOST_SIZE then None else Some((host, port.value))
  }

  /** The part of the URL after the scheme. */
  function ParseRest(rest: string): Option<Target> {
    var slash := IndexOf(rest, '/');
    var path := if slash == |rest| then "/" else rest[slash..];
    if |path| >= PATH_SIZE || slash == 0 then None
    else
      var authority := ParseAuthority(rest[..slash]);
      if authority.None? then None else Some(Target(authority.value.0, authority.value.1, path))
  }

  function ParseTarget(url: string): Option<Target> {
    if |url| <= |SCHEME| || url[..|SCHEME|] != SCHEME then None else ParseRest(url[|SCHEME|..])
  }

  /** The URL and version of a request line whose method is GET. */
  function ParseRequestLine(line: string): Option<(string, string)> {
    var first := IndexOf(line, ' ');
    if first == |line| then None
    else
      var rest := line[first + 1..];
      var second := IndexOf(rest, ' ');
      if second == |rest| || first >= METHOD_SIZE || line[..first] != "GET" || second == 0 then None
      else
        var version := rest[second + 1..];
        if |version| >= VERSION_SIZE || (version != "HTTP/1.0" && version != "HTTP/1.1") then None
        else Some((rest[..second], version))
  }

  function Parse(text: string): Option<Request> {
    var end := LineEnd(text);
    if end == |text| || end == 0 then None
    else
      var line := ParseRequestLine(text[..end]);
      if line.None? then None
      else
        var target := ParseTarget(line.value.0);
        var rawHeaders := text[SkipLineBreak(text, end)..];
        if target.None? || !HasTerminator(rawHeaders) || |rawHeaders| >= HEADERS_SIZE then None
        else Some(Request("GET", target.value.host, target.value.port, target.value.path, line.value.1, rawHeaders))
  }

  // ----- the grammar

  ghost predicate PortText(text: string, port: int, spaces: string, sign: string, digits: string) {
    && text == spaces + sign + digits
    && (forall i :: 0 <= i < |spaces| ==> spaces[i] == ' ' || 9 <= spaces[i] as int <= 13)
    && (sign == "" || sign == "+")
    && digits != "" && AllDigits(digits) && Value(digits) == port
  }

  ghost predicate IsPort(text: string, port: int) {
    && |text| < 16 && 1 <= port <= 65535
    && exists spaces, sign, digits :: PortText(text, port, spaces, sign, digits)
  }

  ghost predicate IsAuthority(authority: string, host: string, port: int) {
    && 0 < |host| < 256 && ':' !in host
    && (|| (authority == host && port == 80)
        || exists portText :: authority == host + ":" + portText && IsPort(portText, port))
  }

  ghost predicate RestText(rest: string, t: Target, authority: string, tail: string) {
    && rest == authority + tail
    && '/' !in authority && IsAuthority(authority, t.host, t.port)
    && (if tail == "" then t.path == "/" else tail[0] == '/' && t.path == tail)
    && |t.path| < 2048
  }

  ghost predicate IsUrl(url: string, t: Target) {
    exists authority, tail ::
      RestText(authority + tail, t, authority, tail) && url == "http://" + (authority + tail)
  }

  /** CRLF, a lone LF, or a CR that no LF follows. */
  predicate IsLineBreak(lineBreak: string, next: string) {
    lineBreak == "\r\n" || lineBreak == "\n" || (lineBreak == "\r" && (next == "" || next[0] != '\n'))
  }

  ghost predicate RequestText(text: string, r: Request, url: string, lineBreak: string) {
    && text == r.verb + " " + url + " " + r.version + lineBreak + r.rawHeaders
    && r.verb == "GET" && (r.version == "HTTP/1.0" || r.version == "HTTP/1.1")
    && (forall i :: 0 <= i < |url| ==> url[i] !in " \r\n")
    && IsUrl(url, Target(r.host, r.port, r.path))
    && IsLineBreak(lineBreak, r.rawHeaders)
    && HasBlankLine(r.rawHeaders) && |r.rawHeaders| < 8192
  }

  ghost predicate IsRequest(text: string, r: Request) {
    exists url, lineBreak :: RequestText(text, r, url, lineBreak)
  }

  // ----- the parser accepts exactly the grammar

  lemma PortSound(text: string)
    requires ParsePort(text).Some?
    ensures IsPort(text, ParsePort(text).value)
  {
    hide Value, CountSpaces, CountDigits;
    var i := CountSpaces(text);
    var start := if i < |text| && text[i] == '+' then i + 1 else i;
    assert text[start..][..|text| - start] == text[start..];
    assert text == text[..i] + text[i..start] + text[start..];
    assert PortText(text, ParsePort(text).value, text[..i], text[i..start], text[start..]);
  }

  lemma PortComplete(text: string, port: int)
    requires IsPort(text, port)
    ensures ParsePort(text) == Some(port)
  {
    hide Value, CountSpaces, CountDigits;
    var spaces, sign, digits :| PortText(text, port, spaces, sign, digits);
    var i := CountSpaces(text);
    assert forall k :: 0 <= k < |spaces| ==> text[k] == spaces[k];
    assert text[|spaces|] == if sign == "" then digits[0] else '+';
    assert IsDigit(digits[0]);
    assert i == |spaces|;
    var start := |spaces| + |sign|;
    assert text[start..] == digits;
    assert CountDigits(digits) == |digits|;
    assert digits[..|digits|] == digits;
  }

  lemma AuthoritySound(authority: string)
    requires ParseAuthority(authority).Some?
    ensures IsAuthority(authority, ParseAuthority(authority).value.0, ParseAuthority(authority).value.1)
  {
    hide ParsePort, IsPort;
    var colon := IndexOf(authority, ':');
    if colon < |authority| {
      PortSound(authority[colon + 1..]);
      assert authority == authority[..colon] + ":" + authority[colon + 1..];
    } else {
      assert authority[..colon] == authority;
    }
  }

  lemma AuthorityComplete(authority: string, host: string, port: int)
    requires IsAuthority(authority, host, port)
    ensures ParseAuthority(authority) == Some((host, port))
  {
    hide ParsePort, IsPort;
    IndexOfUnique(authority, ':', |host|) by { assert authority[..|host|] == host; }
    if authority == host && port == 80 {
      assert authority[..|host|] == host;
    } else {
      var portText :| authority == host + ":" + portText && IsPort(portText, port);
      PortComplete(portText, port);
      assert authority[..|host|] == host && authority[|host| + 1..] == portText;
    }
  }

  lemma RestSound(rest: string)
    requires ParseRest(rest).Some?
    ensures var slash := IndexOf(rest, '/');
            RestText(rest, ParseRest(rest).value, rest[..slash], rest[slash..])
  {
    hide ParseAuthority, IsAuthority;
    AuthoritySound(rest[..IndexOf(rest, '/')]);
  }

  lemma RestComplete(rest: string, t: Target, authority: string, tail: string)
    requires RestText(rest, t, authority, tail)
    ensures ParseRest(rest) == Some(t)
  {
    assert authority != "";
    AuthorityComplete(authority, t.host, t.port);
    hide ParseAuthority, IsAuthority;
    assert rest[..|authority|] == authority && rest[|authority|..] == tail;
    IndexOfUnique(rest, '/', |authority|);
  }

  lemma TargetSound(url: string)
    requires ParseTarget(url).Some?
    ensures IsUrl(url, ParseTarget(url).value)
  {
    hide ParseRest, RestText, IndexOf;
    var rest := url[|SCHEME|..];
    var slash := IndexOf(rest, '/');
    RestSound(rest);
    assert rest == rest[..slash] + rest[slash..];
    assert url == SCHEME + rest;
  }

  lemma TargetComplete(url: string, t: Target)
    requires IsUrl(url, t)
    ensures ParseTarget(url) == Some(t)
  {
    var authority, tail :| RestText(authority + tail, t, authority, tail) && url == SCHEME + (authority + tail);
    assert authority != "";
    hide ParseRest, RestText;
    RestComplete(authority + tail, t, authority, tail);
    assert url[..|SCHEME|] == SCHEME && url[|SCHEME|..] == authority + tail;
  }

  lemma LineSound(line: string)
    requires ParseRequestLine(line).Some?
    ensures var (url, version) := ParseRequestLine(line).value;
            && line == "GET" + " " + (url + " " + version)
            && (version == "HTTP/1.0" || version == "HTTP/1.1") && ' ' !in url
  {
  }

  lemma LineComplete(line: string, url: string, version: string)
    requires line == "GET" + " " + (url + " " + version) && (version == "HTTP/1.0" || version == "HTTP/1.1")
    requires url != "" && ' ' !in url
    ensures ParseRequestLine(line) == Some((url, version))
  {
    hide IndexOf;
    assert line[..3] == "GET";
    IndexOfUnique(line, ' ', 3);
    var rest := line[4..];
    assert rest == url + " " + version && rest[..|url|] == url && rest[|url| + 1..] == version;
    IndexOfUnique(rest, ' ', |url|);
  }

  lemma LineEndUnique(text: string, i: nat)
    requires i < |text| && IsBreak(text[i]) && forall j :: 0 <= j < i ==> !IsBreak(text[j])
    ensures LineEnd(text) == i
  {
  }

  lemma PartOf(a: string, b: string, c: string)
    ensures forall i :: 0 <= i < |b| ==> b[i] == (a + (b + c))[|a| + i]
  {
  }

  lemma Flatten(url: string, version: string, lineBreak: string, rest: string)
    ensures ("GET" + " " + (url + " " + version)) + lineBreak + rest ==
            "GET" + " " + url + " " + version + lineBreak + rest
  {
  }

  lemma RequestSound(text: string)
    requires Parse(text).Some?
    ensures IsRequest(text, Parse(text).value)
  {
    hide ParseRequestLine, ParseTarget, IsUrl, HasTerminator, HasBlankLine, LineEnd;
    var r, end := Parse(text).value, LineEnd(text);
    var line, h := text[..end], SkipLineBreak(text, end);
    var url := ParseRequestLine(line).value.0;
    LineSound(line);
    TargetSound(url);
    PartOf("GET" + " ", url, " " + r.version);
    assert line == "GET" + " " + (url + (" " + r.version));
    assert text == line + text[end..h] + text[h..];
    Flatten(url, r.version, text[end..h], text[h..]);
    assert RequestText(text, r, url, text[end..h]);
  }

  lemma RequestComplete(text: string, r: Request)
    requires IsRequest(text, r)
    ensures Parse(text) == Some(r)
  {
    hide ParseRequestLine, ParseTarget, IsUrl, HasTerminator, HasBlankLine, LineEnd, SkipLineBreak;
    var url, lineBreak :| RequestText(text, r, url, lineBreak);
    var line := "GET" + " " + (url + " " + r.version);
    Flatten(url, r.version, lineBreak, r.rawHeaders);
    assert url != "" by { TargetComplete(url, Target(r.host, r.port, r.path)); UrlNotEmpty(url); }
    LineComplete(line, url, r.version);
    TargetComplete(url, Target(r.host, r.port, r.path));
    assert text == line + lineBreak + r.rawHeaders;
    LineIsUnbroken(url, r.version);
    Cut(text, line, lineBreak, r.rawHeaders);
    LineEndUnique(text, |line|);
    SkipExactly(text, |line|, lineBreak);
  }

  lemma LineIsUnbroken(url: string, version: string)
    requires forall i :: 0 <= i < |url| ==> url[i] !in " \r\n"
    requires version == "HTTP/1.0" || version == "HTTP/1.1"
    ensures var line := "GET" + " " + (url + " " + version);
            forall j :: 0 <= j < |line| ==> !IsBreak(line[j])
  {
  }

  lemma Cut(text: string, a: string, b: string, c: string)
    requires text == a + b + c
    ensures text[..|a|] == a && text[|a|..|a| + |b|] == b && text[|a| + |b|..] == c
    ensures forall j :: 0 <= j < |a| ==> text[j] == a[j]
  {
  }

  lemma UrlNotEmpty(url: string)
    ensures ParseTarget(url).Some? ==> url != ""
  {
  }

  lemma SkipExactly(text: string, i: nat, lineBreak: string)
    requires i + |lineBreak| <= |text| && text[i..i + |lineBreak|] == lineBreak
    requires IsLineBreak(lineBreak, text[i + |lineBreak|..])
    ensures SkipLineBreak(text, i) == i + |lineBreak|
  {
    var next := text[i + |lineBreak|..];
    assert forall j :: 0 <= j < |lineBreak| ==> text[i + j] == text[i..i + |lineBreak|][j] == lineBreak[j];
    assert next != "" ==> text[i + |lineBreak|] == next[0];
    assert text[i] == lineBreak[0];
  }

  /** The parser accepts exactly the texts of the grammar, and returns the record the grammar gives them. */
  lemma ParserAcceptsGrammar(text: string, r: Request)
    ensures Parse(text) == Some(r) <==> IsRequest(text, r)
  {
    if Parse(text) == Some(r) {
      RequestSound(text);
    }
    if IsRequest(text, r) {
      RequestComplete(text, r);
    }
  }

  // ----- round trip

  /** The records a parse can produce. */
  ghost predicate Legal(r: Request) {
    && r.verb == "GET" && (r.version == "HTTP/1.0" || r.version == "HTTP/1.1")
    && 0 < |r.host| < 256 && 1 <= r.port <= 65535
    && (forall i :: 0 <= i < |r.host| ==> r.host[i] !in " :/\r\n")
    && 0 < |r.path| < 2048 && r.path[0] == '/'
    && (forall i :: 0 <= i < |r.path| ==> r.path[i] !in " \r\n")
    && HasBlankLine(r.rawHeaders) && |r.rawHeaders| < 8192
  }

  /** The absolute form of a request. */
  function PrintUrl(r: Request): string
    requires 0 <= r.port
  {
    SCHEME + ((r.host + ":" + Decimal(r.port)) + r.path)
  }

  function Print(r: Request): string
    requires 0 <= r.port
  {
    r.verb + " " + PrintUrl(r) + " " + r.version + CRLF + r.rawHeaders
  }

  /** Characters a request line's URL may contain. */
  ghost predicate Printable(s: string) {
    forall i :: 0 <= i < |s| ==> s[i] != ' ' && !IsBreak(s[i])
  }

  lemma PrintableConcat(a: string, b: string)
    ensures Printable(a + b) <==> Printable(a) && Printable(b)
  {
    assert forall i :: 0 <= i < |a| ==> (a + b)[i] == a[i];
    assert forall i :: 0 <= i < |b| ==> (a + b)[|a| + i] == b[i];
  }

  lemma DigitsArePlain(digits: string)
    requires AllDigits(digits)
    ensures Printable(digits) && '/' !in digits && ':' !in digits && '|' !in digits
  {
  }

  lemma PrintedPort(port: int)
    requires 1 <= port <= 65535
    ensures IsPort(Decimal(port), port)
  {
    DecimalLength(port);
    hide Value, Decimal;
    assert PortText(Decimal(port), port, "", "", Decimal(port));
  }

  lemma PrintedAuthority(host: string, port: int)
    requires 0 < |host| < HOST_SIZE && 1 <= port <= 65535 && Printable(host) && ':' !in host && '/' !in host
    ensures var authority := host + ":" + Decimal(port);
            IsAuthority(authority, host, port) && '/' !in authority && Printable(authority)
  {
    var digits := Decimal(port);
    PrintedPort(port);
    DigitsArePlain(digits);
    hide Decimal, IsPort, Printable;
    assert Printable(":") by { ColonIsPrintable(); }
    PrintableConcat(host, ":");
    PrintableConcat(host + ":", digits);
    WithPort(host, digits, port);
    hide IsAuthority;
  }

  lemma WithPort(host: string, portText: string, port: int)
    requires 0 < |host| < 256 && ':' !in host && IsPort(portText, port)
    ensures IsAuthority(host + ":" + portText, host, port)
  {
    hide IsPort;
  }

  lemma ColonIsPrintable()
    ensures Printable(":")
  {
  }

  lemma PrintedUrl(r: Request)
    requires Legal(r)
    ensures IsUrl(PrintUrl(r), Target(r.host, r.port, r.path)) && Printable(PrintUrl(r))
  {
    hide Decimal, HasTerminator, IsAuthority;
    assert Printable(r.host) && Printable(r.path) && ':' !in r.host && '/' !in r.host;
    PrintedAuthority(r.host, r.port);
    var authority := r.host + ":" + Decimal(r.port);
    PrintableConcat(authority, r.path);
    PrintableConcat(SCHEME, authority + r.path);
    assert RestText(authority + r.path, Target(r.host, r.port, r.path), authority, r.path);
  }

  /** Parsing the printed absolute form of a legal record gives the record back. */
  lemma RoundTrip(r: Request)
    requires Legal(r)
    ensures Parse(Print(r)) == Some(r)
  {
    PrintedUrl(r);
    hide PrintUrl, IsUrl, HasTerminator;
    assert RequestText(Print(r), r, PrintUrl(r), CRLF);
    RequestComplete(Print(r), r);
  }

  lemma AuthorityCharacters(authority: string, host: string, port: int)
    requires IsAuthority(authority, host, port)
    ensures 1 <= port <= 65535 && |host| <= |authority| && host == authority[..|host|]
  {
  }

  lemma TargetCharacters(url: string, t: Target)
    requires IsUrl(url, t) && Printable(url)
    ensures 0 < |t.host| < HOST_SIZE && 1 <= t.port <= 65535 && Printable(t.host) && ':' !in t.host && '/' !in t.host
    ensures 0 < |t.path| < PATH_SIZE && t.path[0] == '/' && Printable(t.path)
  {
    var authority, tail :| RestText(authority + tail, t, authority, tail) && url == SCHEME + (authority + tail);
    PrintableConcat(SCHEME, authority + tail);
    PrintableConcat(authority, tail);
    AuthorityCharacters(authority, t.host, t.port);
    assert authority == t.host + authority[|t.host|..];
    PrintableConcat(t.host, authority[|t.host|..]);
  }

  lemma ParsedIsLegal(text: string)
    requires Parse(text).Some?
    ensures Legal(Parse(text).value)
  {
    RequestSound(text);
    var r := Parse(text).value;
    hide Parse;
    var url, lineBreak :| RequestText(text, r, url, lineBreak);
    GrammarIsLegal(text, r, url, lineBreak);
  }

  lemma GrammarIsLegal(text: string, r: Request, url: string, lineBreak: string)
    requires RequestText(text, r, url, lineBreak)
    ensures Legal(r)
  {
    hide HasBlankLine, IsUrl;
    TargetCharacters(url, Target(r.host, r.port, r.path));
  }

  /** The legal records are exactly the results of a parse. */
  lemma LegalIffParsed(r: Request)
    ensures Legal(r) <==> exists text :: Parse(text) == Some(r)
  {
    if Legal(r) {
      RoundTrip(r);
    }
    if text :| Parse(text) == Some(r) {
      ParsedIsLegal(text);
    }
  }
}
