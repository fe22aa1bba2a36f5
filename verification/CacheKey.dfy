/**
 The cache key METHOD|HOST|PORT|PATH of a request.
 */
module CacheKey {
  import opened Common
  import opened Text
  import opened RequestParser

  const KEY_SIZE := 4096

  /** Everything before the path. */
  function Prefix(r: Request): string
    requires r.port >= 0
  {
    r.verb + "|" + r.host + "|" + Decimal(r.port) + "|"
  }

  function Key(r: Request): string
    requires r.port >= 0
  {
    Prefix(r) + r.path
  }

  /** `build_cache_key`: `snprintf` into a buffer of this size. */
  function BuildCacheKey(r: Request, size: nat): Option<string>
    requires r.port >= 0
  {
    if |Key(r)| >= size then None else Some(Key(r))
  }

  /** The key of a parsed request always fits, and a request with a key never gets the empty one. */
  lemma KeyAlwaysFits(r: Request)
    requires Legal(r)
    ensures |Key(r)| <= 2313 && BuildCacheKey(r, KEY_SIZE) == Some(Key(r)) && Key(r) != ""
  {
    DecimalLength(r.port);
  }

  /** The key is method, host, port and path with bars between, the port as a numeral that parses to it. */
  lemma KeyLayout(r: Request)
    requires Legal(r)
    ensures Key(r) == "GET|" + r.host + "|" + Decimal(r.port) + "|" + r.path
    ensures ParsePort(Decimal(r.port)) == Some(r.port)
  {
    hide Decimal, ParsePort, IsPort, HasBlankLine;
    PrintedPort(r.port);
    PortComplete(Decimal(r.port), r.port);
    BarBehind(r.verb);
  }

  lemma BarBehind(verb: string)
    requires verb == "GET"
    ensures verb + "|" == "GET|"
  {
  }

  lemma PrefixHasNoSlash(r: Request)
    requires Legal(r)
    ensures '/' !in Prefix(r)
  {
  }

  /** Two texts that end in a `|`-free part after a `|` split there. */
  lemma {:induction false} SplitAtLastBar(a: string, x: string, b: string, y: string)
    requires a + "|" + x == b + "|" + y && '|' !in x && '|' !in y
    ensures a == b && x == y
    decreases |x|
  {
    var s := a + "|" + x;
    var last := |s| - 1;
    assert s[last] == if x == "" then '|' else x[|x| - 1];
    assert s[last] == if y == "" then '|' else y[|y| - 1];
    assert x == "" <==> y == "";
    assert s[..last] == if x == "" then a else a + "|" + x[..|x| - 1];
    assert s[..last] == if y == "" then b else b + "|" + y[..|y| - 1];
    if x != "" {
      SplitAtLastBar(a, x[..|x| - 1], b, y[..|y| - 1]);
    }
  }

  /** On parsed requests equal keys mean equal method, host, port and path, even when a host contains `|`. */
  lemma KeyInjective(a: Request, b: Request)
    requires Legal(a) && Legal(b)
    ensures Key(a) == Key(b) <==> a.verb == b.verb && a.host == b.host && a.port == b.port && a.path == b.path
  {
    if Key(a) == Key(b) {
      PrefixHasNoSlash(a);
      PrefixHasNoSlash(b);
      SplitAtSlash(Prefix(a), a.path, Prefix(b), b.path);
      PrefixInjective(a, b);
    }
  }

  lemma SplitAtSlash(p: string, x: string, q: string, y: string)
    requires p + x == q + y && '/' !in p && '/' !in q && x != "" && x[0] == '/' && y != "" && y[0] == '/'
    ensures p == q && x == y
  {
    var s := p + x;
    assert s[..|p|] == p && s[..|q|] == q && s[|p|] == '/' && s[|q|] == '/';
    IndexOfUnique(s, '/', |p|);
    IndexOfUnique(s, '/', |q|);
    assert s[|p|..] == x && s[|q|..] == y;
  }

  lemma PrefixInjective(a: Request, b: Request)
    requires a.port >= 0 && b.port >= 0 && a.verb == b.verb == "GET" && Prefix(a) == Prefix(b)
    ensures a.host == b.host && a.port == b.port
  {
    DigitsArePlain(Decimal(a.port));
    DigitsArePlain(Decimal(b.port));
    SplitAtLastBar(a.verb + "|" + a.host + "|" + Decimal(a.port), "",
                   b.verb + "|" + b.host + "|" + Decimal(b.port), "");
    SplitAtLastBar(a.verb + "|" + a.host, Decimal(a.port), b.verb + "|" + b.host, Decimal(b.port));
    DecimalInjective(a.port, b.port);
    assert (a.verb + "|" + a.host)[4..] == a.host && (b.verb + "|" + b.host)[4..] == b.host;
  }

  /** Two accepted requests have the same key exactly when their URLs name the same target. */
  lemma KeyNamesTarget(text: string, r: Request, url: string, lineBreak: string,
                       text': string, r': Request, url': string, lineBreak': string)
    requires RequestText(text, r, url, lineBreak) && RequestText(text', r', url', lineBreak')
    ensures r.port >= 0 && r'.port >= 0 && ParseTarget(url).Some?
    ensures Key(r) == Key(r') <==> ParseTarget(url) == ParseTarget(url')
  {
    hide Parse, RequestText, Key;
    AcceptedText(text, r, url, lineBreak);
    AcceptedText(text', r', url', lineBreak');
    hide Legal;
    KeyInjective(r, r');
  }

  lemma AcceptedText(text: string, r: Request, url: string, lineBreak: string)
    requires RequestText(text, r, url, lineBreak)
    ensures Legal(r) && r.verb == "GET" && r.port >= 0 && ParseTarget(url) == Some(Target(r.host, r.port, r.path))
  {
    ParserAcceptsGrammar(text, r);
    ParsedIsLegal(text);
    hide Parse, ParseTarget;
    TargetComplete(url, Target(r.host, r.port, r.path));
  }

  /** The parse of a URL whose authority ends where its path, if any, begins. */
  lemma ParseAuthorityAndPath(authority: string, path: string)
    requires '/' !in authority && (path == "" || path[0] == '/')
    ensures ParseTarget(SCHEME + (authority + path)) == ParseRest(authority + path)
    ensures ParseRest(authority + path) ==
            var full := if path == "" then "/" else path;
            if |full| >= PATH_SIZE || authority == "" || ParseAuthority(authority).None? then None
            else Some(Target(ParseAuthority(authority).value.0, ParseAuthority(authority).value.1, full))
  {
    var rest := authority + path;
    assert (SCHEME + rest)[|SCHEME|..] == rest && (SCHEME + rest)[..|SCHEME|] == SCHEME;
    assert rest[..|authority|] == authority && rest[|authority|..] == path;
    IndexOfUnique(rest, '/', |authority|);
    hide ParseAuthority, IndexOf;
  }

  lemma Port80()
    ensures ParsePort("80") == Some(80)
  {
    assert Value("8") == 8 by { assert "8"[..0] == ""; }
    assert Value("80") == 80 by { assert "80"[..1] == "8"; }
    assert PortText("80", 80, "", "", "80");
    PortComplete("80", 80);
  }

  lemma HostAlone(host: string)
    requires ':' !in host
    ensures ParseAuthority(host) == ParseAuthority(host + ":80") ==
            if 0 < |host| < HOST_SIZE then Some((host, 80)) else None
  {
    hide ParsePort;
    Port80();
    IndexOfUnique(host, ':', |host|);
    var authority := host + ":80";
    IndexOfUnique(authority, ':', |host|) by { assert authority[..|host|] == host; }
    assert host[..|host|] == host && authority[..|host|] == host && authority[|host| + 1..] == "80";
  }

  /** Whatever the path, an absent port means the same as port 80. */
  lemma AbsentPortIs80(host: string, path: string)
    requires ':' !in host && '/' !in host && (path == "" || path[0] == '/')
    ensures ParseTarget(SCHEME + (host + path)) == ParseTarget(SCHEME + ((host + ":80") + path))
    ensures 0 < |host| < HOST_SIZE && 0 < |path| < PATH_SIZE ==>
              ParseTarget(SCHEME + (host + path)) == Some(Target(host, 80, path))
  {
    hide ParseTarget, ParseRest, ParseAuthority;
    HostAlone(host);
    ParseAuthorityAndPath(host, path);
    ParseAuthorityAndPath(host + ":80", path);
  }

  /** Whatever the host and the port, an absent path means the same as `/`. */
  lemma AbsentPathIsRoot(authority: string)
    requires '/' !in authority
    ensures ParseTarget(SCHEME + (authority + "")) == ParseTarget(SCHEME + (authority + "/"))
  {
    hide ParseTarget, ParseRest, ParseAuthority;
    ParseAuthorityAndPath(authority, "");
    ParseAuthorityAndPath(authority, "/");
  }

  /** The second URL spells out the port 80 that the first one leaves out, before a path or none. */
  ghost predicate AddsPort80(url: string, url': string, host: string, path: string) {
    && ':' !in host && '/' !in host && (path == "" || path[0] == '/')
    && url == SCHEME + (host + path) && url' == SCHEME + ((host + ":80") + path)
  }

  /** The second URL spells out the path `/` that the first one leaves out. */
  ghost predicate AddsRoot(url: string, url': string, authority: string) {
    '/' !in authority && url == SCHEME + (authority + "") && url' == SCHEME + (authority + "/")
  }

  ghost predicate DifferInDefaults(url: string, url': string) {
    (exists host, path :: AddsPort80(url, url', host, path)) || (exists authority :: AddsRoot(url, url', authority))
  }

  lemma DefaultsShareTarget(url: string, url': string)
    requires DifferInDefaults(url, url')
    ensures ParseTarget(url) == ParseTarget(url')
  {
    hide ParseTarget;
    if host, path :| AddsPort80(url, url', host, path) {
      AbsentPortIs80(host, path);
    } else {
      var authority :| AddsRoot(url, url', authority);
      AbsentPathIsRoot(authority);
    }
  }

  /** Two requests whose URLs differ only in that have the same key. */
  lemma DefaultsShareKey(text: string, r: Request, url: string, lineBreak: string,
                         text': string, r': Request, url': string, lineBreak': string)
    requires RequestText(text, r, url, lineBreak) && RequestText(text', r', url', lineBreak')
    requires DifferInDefaults(url, url')
    ensures r.port >= 0 && r'.port >= 0 && Key(r) == Key(r')
  {
    hide RequestText, Key, ParseTarget, DifferInDefaults;
    KeyNamesTarget(text, r, url, lineBreak, text', r', url', lineBreak');
    DefaultsShareTarget(url, url');
  }
}
