/**
 Writing the origin request into a fixed-size character buffer, piece by piece at a moving offset.
 */
module OriginBuffer {
  import opened Common
  import opened Text
  import opened RequestParser
  import opened OriginRequest

  /** `snprintf` at `offset`: as much of `text` as fits before a NUL, and the length it wanted to write. */
  method Print(buffer: array<char>, offset: nat, text: string) returns (written: nat)
    requires offset < buffer.Length
    modifies buffer
    ensures written == |text|
    ensures written < buffer.Length - offset ==> buffer[..offset + written] == old(buffer[..offset]) + text
  {
    var room := buffer.Length - offset - 1;
    var n := if |text| < room then |text| else room;
    forall i | 0 <= i < n {
      buffer[offset + i] := text[i];
    }
    buffer[offset + n] := '\0';
    written := |text|;
  }

  method HeaderNameEquals(line: string, nameLength: nat, expected: string) returns (equal: bool)
    requires nameLength <= |line|
    ensures equal == SameName(line[..nameLength], expected)
    ensures equal <==>
            nameLength == |expected| && forall i :: 0 <= i < nameLength ==> SameLetter(line[i], expected[i])
  {
    if |expected| != nameLength {
      return false;
    }
    var index := 0;
    while index < nameLength
      invariant index <= nameLength && forall i :: 0 <= i < index ==> Lower(line[i]) == Lower(expected[i])
    {
      var left, right := line[index], expected[index];
      if 'A' <= left <= 'Z' {
        left := left - 'A' + 'a';
      }
      if 'A' <= right <= 'Z' {
        right := right - 'A' + 'a';
      }
      if left != right {
        return false;
      }
      index := index + 1;
    }
    return true;
  }

  method ShouldSkip(line: string) returns (skip: bool)
    ensures skip == IsHop(line)
    ensures skip <==>
            var colon := IndexOf(line, ':');
            colon < |line| && var name := line[..colon];
            || SameIgnoringCase(name, "host") || SameIgnoringCase(name, "connection")
            || SameIgnoringCase(name, "proxy-connection")
  {
    skip := false;
    var colon := IndexOf(line, ':');
    if colon < |line| {
      var host := HeaderNameEquals(line, colon, "host");
      var connection := HeaderNameEquals(line, colon, "connection");
      var proxyConnection := HeaderNameEquals(line, colon, "proxy-connection");
      assert HOP_NAMES[0] == "host" && HOP_NAMES[1] == "connection" && HOP_NAMES[2] == "proxy-connection";
      SameNameMeans(line[..colon], "host");
      SameNameMeans(line[..colon], "connection");
      SameNameMeans(line[..colon], "proxy-connection");
      hide SameName, SameIgnoringCase;
      skip := host || connection || proxyConnection;
    }
  }

  /** What the loop of `append_filtered_headers` writes for one line. */
  function Piece(line: string): string {
    if IsHop(line) then "" else line + CRLF
  }

  /** What is left to filter after the first line. */
  function AfterFirst(raw: string, end: Option<nat>): string
    requires end.Some? ==> end.value + 2 <= |raw|
  {
    if end.None? then "" else raw[end.value + 2..]
  }

  lemma FilteredStep(raw: string)
    requires raw != ""
    ensures var end := Find(raw, CRLF);
            if end == Some(0) then Filtered(raw) == ""
            else Filtered(raw) == Piece(if end.None? then raw else raw[..end.value]) + Filtered(AfterFirst(raw, end))
  {
    var end := Find(raw, CRLF);
    if end.Some? && end.value > 0 {
      HeaderLinesStep(raw, end.value);
      var line, rest := raw[..end.value], HeaderLines(raw[end.value + 2..]);
      KeptCons(line, rest);
      JoinCons(line, Kept(rest));
      hide *;
      assert [] + Kept(rest) == Kept(rest);
    } else if end.None? {
      assert [raw] == [raw] + [];
      KeptCons(raw, []);
      JoinCons(raw, []);
    }
  }

  /** One line: nothing for a hop-by-hop field, otherwise the line and CRLF. */
  method AppendLine(buffer: array<char>, start: nat, line: string) returns (ok: bool, offset: nat)
    requires start < buffer.Length
    modifies buffer
    ensures ok <==> start + |Piece(line)| < buffer.Length
    ensures ok ==> offset == start + |Piece(line)| && buffer[..offset] == old(buffer[..start]) + Piece(line)
  {
    hide IsHop;
    var skip := ShouldSkip(line);
    if skip {
      return true, start;
    }
    var written := Print(buffer, start, line + CRLF);
    if written >= buffer.Length - start {
      return false, start;
    }
    return true, start + written;
  }

  method AppendFilteredHeaders(buffer: array<char>, start: nat, raw: string) returns (ok: bool, offset: nat)
    requires start < buffer.Length
    modifies buffer
    ensures ok <==> start + |Filtered(raw)| < buffer.Length
    ensures ok ==> offset == start + |Filtered(raw)| && buffer[..offset] == old(buffer[..start]) + Filtered(raw)
  {
    hide Filtered, Find, Piece;
    offset, ok := start, true;
    var lineStart := 0;
    ghost var done := "";
    assert raw[0..] == raw;
    EmptyFiltered();
    while lineStart < |raw|
      invariant lineStart <= |raw| && start <= offset < buffer.Length && ok
      invariant offset == start + |done| && buffer[..offset] == old(buffer[..start]) + done
      invariant Filtered(raw) == done + Filtered(raw[lineStart..])
      decreases |raw| - lineStart
    {
      var rest := raw[lineStart..];
      FilteredStep(rest);
      var end := Find(rest, CRLF);
      if end == Some(0) {
        return;
      }
      var line := if end.None? then rest else rest[..end.value];
      Associative(done, Piece(line), Filtered(AfterFirst(rest, end)));
      ok, offset := AppendLine(buffer, offset, line);
      if !ok {
        return;
      }
      done := done + Piece(line);
      lineStart := if end.None? then |raw| else lineStart + end.value + 2;
      assert raw[lineStart..] == AfterFirst(rest, end);
    }
    assert raw[lineStart..] == "";
  }

  lemma EmptyFiltered()
    ensures Filtered("") == ""
  {
  }

  /** `build_origin_request`: the size written, or -1 when the buffer is too small. */
  method BuildOriginRequest(r: Request, buffer: array<char>) returns (size: int)
    requires r.port >= 0 && buffer.Length > 0
    modifies buffer
    ensures size == if |OriginText(r)| < buffer.Length then |OriginText(r)| else -1
    ensures size >= 0 ==> buffer[..size] == OriginText(r)
    ensures Legal(r) && buffer.Length == REQUEST_BUFFER_SIZE ==> size >= 0
  {
    hide Filtered, Join, RequestLines;
    if Legal(r) {
      OriginTextFits(r);
    }
    hide Legal;
    var written := Print(buffer, 0, Join(RequestLines(r)));
    if written >= buffer.Length {
      return -1;
    }
    var ok, offset := AppendFilteredHeaders(buffer, written, r.rawHeaders);
    if !ok {
      return -1;
    }
    written := Print(buffer, offset, CRLF);
    if written >= buffer.Length - offset {
      return -1;
    }
    size := offset + written;
  }
}
