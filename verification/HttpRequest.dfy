/**
 The request record that the parser fills field by field.  A failed parse leaves it partly filled.
 */
module HttpRequest {
  import opened Common
  import opened Text
  import opened RequestParser

  method FindLineEnd(text: string) returns (end: Option<nat>)
    ensures end == if LineEnd(text) == |text| then None else Some(LineEnd(text))
  {
    var cursor := 0;
    while cursor < |text|
      invariant cursor <= |text| && forall j :: 0 <= j < cursor ==> !IsBreak(text[j])
    {
      if text[cursor] == '\r' || text[cursor] == '\n' {
        LineEndUnique(text, cursor);
        return Some(cursor);
      }
      cursor := cursor + 1;
    }
    return None;
  }

  class HttpRequest {
    var verb: string
    var host: string
    var port: int
    var path: string
    var version: string
    var rawHeaders: string

    ghost function Value(): Request
      reads this
    {
      Request(verb, host, port, path, version, rawHeaders)
    }

    constructor ()
    {
      verb, host, port, path, version, rawHeaders := "", "", 0, "", "", "";
    }

    method FillRequestLine(line: string) returns (url: Option<string>)
      modifies this`verb, this`version
      ensures match ParseRequestLine(line)
              case None => url == None
              case Some((u, v)) => url == Some(u) && verb == "GET" && version == v
    {
      var firstSpace := IndexOf(line, ' ');
      if firstSpace == |line| {
        return None;
      }
      var rest := line[firstSpace + 1..];
      var secondSpace := IndexOf(rest, ' ');
      if secondSpace == |rest| {
        return None;
      }
      if firstSpace >= METHOD_SIZE {
        return None;
      }
      verb := line[..firstSpace];
      if verb != "GET" {
        return None;
      }
      if secondSpace == 0 {
        return None;
      }
      if |rest| - secondSpace - 1 >= VERSION_SIZE {
        return None;
      }
      version := rest[secondSpace + 1..];
      if version != "HTTP/1.0" && version != "HTTP/1.1" {
        return None;
      }
      return Some(rest[..secondSpace]);
    }

    method FillAuthority(authority: string) returns (ok: bool)
      modifies this`host, this`port
      ensures ok <==> ParseAuthority(authority).Some?
      ensures ok ==> ParseAuthority(authority) == Some((host, port))
    {
      var colon := IndexOf(authority, ':');
      if colon == |authority| {
        port := 80;
      } else {
        var parsed := ParsePort(authority[colon + 1..]);
        if parsed.None? {
          return false;
        }
        port := parsed.value;
      }
      if colon == 0 {
        return false;
      }
      if colon >= HOST_SIZE {
        return false;
      }
      host := authority[..colon];
      return true;
    }

    method FillTarget(url: string) returns (ok: bool)
      modifies this`host, this`port, this`path
      ensures ok <==> ParseTarget(url).Some?
      ensures ok ==> ParseTarget(url) == Some(Target(host, port, path))
    {
      if |url| <= |SCHEME| || url[..|SCHEME|] != SCHEME {
        return false;
      }
      var rest := url[|SCHEME|..];
      var slash := IndexOf(rest, '/');
      if slash == |rest| {
        path := "/";
      } else {
        if |rest| - slash >= PATH_SIZE {
          return false;
        }
        path := rest[slash..];
      }
      if slash == 0 {
        return false;
      }
      ok := FillAuthority(rest[..slash]);
    }

    /** `request_parser_parse`: the grammar decides, and an accepted text fills every field. */
    method ParseFrom(text: string) returns (ok: bool)
      modifies this
      ensures ok <==> Parse(text).Some?
      ensures ok ==> Parse(text) == Some(Value()) && IsRequest(text, Value())
    {
      hide ParseRequestLine, ParseTarget, IsRequest, HasTerminator;
      verb, host, port, path, version, rawHeaders := "", "", 0, "", "", "";
      var end := FindLineEnd(text);
      if end.None? || end.value == 0 {
        return false;
      }
      var url := FillRequestLine(text[..end.value]);
      if url.None? {
        return false;
      }
      ok := FillTarget(url.value);
      if !ok {
        return;
      }
      var headers := text[SkipLineBreak(text, end.value)..];
      if !HasTerminator(headers) {
        return false;
      }
      if |headers| >= HEADERS_SIZE {
        return false;
      }
      rawHeaders := headers;
      RequestSound(text);
    }
  }
}
