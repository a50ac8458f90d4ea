/** Reading a provider's answer into raw items: one address per line, or values picked out of JSON by dotted path. */
module ProviderAnswer {
  import opened Wrappers
  import opened Text
  import opened ExitExtraction
  import opened EvidenceWalk
  import SseChunks

  // ------------------------------------------------------------- one address per line

  predicate IsHexOrColon(c: char) {
    ('0' <= c <= '9') || ('a' <= c <= 'f') || ('A' <= c <= 'F') || c == ':'
  }

  predicate AllDigits(s: string) {
    s != "" && forall i :: 0 <= i < |s| ==> '0' <= s[i] <= '9'
  }

  function IndexOf(s: string, c: char): (i: nat)
    ensures i <= |s|
    ensures i < |s| ==> s[i] == c
    ensures forall j :: 0 <= j < i ==> s[j] != c
  {
    if s == "" || s[0] == c then 0 else 1 + IndexOf(s[1..], c)
  }

  datatype Address = Address(host: string, port: string)

  /** `[address]:port` with an address of hexadecimal digits and colons. */
  function BracketedAddress(line: string): Option<Address> {
    var close := IndexOf(line, ']');
    if StartsWith(line, "[") && 2 <= close < |line| - 1 && line[close + 1] == ':'
       && (forall i :: 1 <= i < close ==> IsHexOrColon(line[i])) && AllDigits(line[close + 2..])
    then Some(Address(line[1..close], line[close + 2..])) else None
  }

  /** The address of a line; `None` for a line that leaves a choice of layouts. */
  function LineAddress(line: string): Option<Address> {
    var bracketed := BracketedAddress(line);
    if bracketed.Some? then bracketed
    else
      var parts := Split(line, ':');
      if |parts| == 2 then Some(Address(Trim(parts[0]), parts[1])) else None
  }

  /** The trimmed lines that are neither blank nor comments. */
  function ContentLines(lines: seq<string>): seq<string> {
    if lines == [] then []
    else
      var line, rest := Trim(lines[0]), ContentLines(lines[1..]);
      if line != "" && !StartsWith(line, "#") then [line] + rest else rest
  }

  predicate AllAddresses(lines: seq<string>) {
    forall i :: 0 <= i < |lines| ==> LineAddress(lines[i]).Some?
  }

  predicate FirstRefused(lines: seq<string>, k: int, line: string) {
    0 <= k < |lines| && lines[k] == line && LineAddress(line).None? && AllAddresses(lines[..k])
  }

  function ItemOf(number: string -> Option<int>, scheme: string, a: Address): RawItem {
    RawItem(None, Some(a.host), number(a.port), Some(scheme), None, None, None)
  }

  /** `number` is the reader of numbers, `None` for what is not an integer. The error is the first line it refuses. */
  method ParseTextLines(
    number: string -> Option<int>, text: string, scheme: string) returns (r: Result<seq<RawItem>, string>)
    ensures r.Ok? ==>
      var lines := ContentLines(SseChunks.Lines(text));
      && AllAddresses(lines) && |r.value| == |lines|
      && forall i :: 0 <= i < |lines| ==> r.value[i] == ItemOf(number, scheme, LineAddress(lines[i]).value)
    ensures r.Err? ==> exists k :: FirstRefused(ContentLines(SseChunks.Lines(text)), k, r.error)
  {
    r := ParseLines(number, ContentLines(SseChunks.Lines(text)), scheme);
  }

  method ParseLines(
    number: string -> Option<int>, lines: seq<string>, scheme: string) returns (r: Result<seq<RawItem>, string>)
    ensures r.Ok? ==>
      && AllAddresses(lines) && |r.value| == |lines|
      && forall i :: 0 <= i < |lines| ==> r.value[i] == ItemOf(number, scheme, LineAddress(lines[i]).value)
    ensures r.Err? ==> exists k :: FirstRefused(lines, k, r.error)
  {
    var items: seq<RawItem> := [];
    for i := 0 to |lines|
      invariant AllAddresses(lines[..i]) && |items| == i
      invariant forall k :: 0 <= k < i ==> items[k] == ItemOf(number, scheme, LineAddress(lines[k]).value)
    {
      var item := ParseLine(number, lines[i], scheme);
      if item.None? {
        assert FirstRefused(lines, i, lines[i]);
        return Err(lines[i]);
      }
      items := items + [item.value];
    }
    assert lines[..|lines|] == lines;
    r := Ok(items);
  }

  method ParseLine(number: string -> Option<int>, line: string, scheme: string) returns (item: Option<RawItem>)
    ensures item == match LineAddress(line) case None => None case Some(a) => Some(ItemOf(number, scheme, a))
  {
    var bracketed := BracketedAddress(line);
    if bracketed.Some? {
      return Some(ItemOf(number, scheme, bracketed.value));
    }
    var parts := Split(line, ':');
    if |parts| == 2 {
      return Some(ItemOf(number, scheme, Address(Trim(parts[0]), parts[1])));
    }
    return None;
  }

  // ------------------------------------------------------------------- printed lists

  /** An endpoint as a list prints it; `bracketed` for an IPv6 address. */
  datatype Endpoint = Endpoint(host: string, port: nat, bracketed: bool)

  function PrintEndpoint(e: Endpoint): string {
    (if e.bracketed then "[" + e.host + "]" else e.host) + ":" + Decimal(e.port)
  }

  /** A list of endpoints, each behind a line that carries none. */
  function PrintList(endpoints: seq<Endpoint>, comments: nat -> string): string {
    if endpoints == [] then ""
    else
      comments(|endpoints|) + "\n" + PrintEndpoint(endpoints[0]) + "\n" + PrintList(endpoints[1..], comments)
  }

  predicate Printable(e: Endpoint) {
    if e.bracketed then e.host != "" && forall i :: 0 <= i < |e.host| ==> IsHexOrColon(e.host[i])
    else
      && Trim(e.host) == e.host && ':' !in e.host && '\n' !in e.host
      && !StartsWith(e.host, "#") && !StartsWith(e.host, "[")
  }

  /** A blank line or a comment. */
  predicate CarriesNothing(line: string) {
    '\n' !in line && (Trim(line) == "" || StartsWith(Trim(line), "#"))
  }

  lemma {:induction false} SplitOnce(a: string, b: string, c: char)
    requires c !in a && c !in b
    ensures Split(a + [c] + b, c) == [a, b]
  {
    var s := a + [c] + b;
    if a == "" {
      assert s[1..] == b;
      SplitNone(b, c);
    } else {
      assert forall x :: x in a[1..] ==> x in a;
      assert a[0] in a;
      SplitOnce(a[1..], b, c);
      assert s[1..] == a[1..] + [c] + b;
      assert a == [a[0]] + a[1..];
    }
  }

  lemma NumberOfPort(n: nat)
    ensures AllDigits(Decimal(n)) && forall c :: c in Decimal(n) ==> '0' <= c <= '9'
  {
    DecimalDigits(n);
  }

  lemma PrintedAddress(e: Endpoint)
    requires Printable(e)
    ensures LineAddress(PrintEndpoint(e)) == Some(Address(e.host, Decimal(e.port)))
  {
    var port := Decimal(e.port);
    var line := PrintEndpoint(e);
    NumberOfPort(e.port);
    if e.bracketed {
      BracketsFound(e.host, port);
    } else {
      assert line == e.host + [':'] + port;
      SplitOnce(e.host, port, ':');
      assert !StartsWith(line, "[") by {
        assert e.host != "" ==> line[0] == e.host[0] && e.host[..1] == [e.host[0]];
        assert line[..1] == [line[0]];
      }
    }
  }

  lemma BracketsFound(host: string, port: string)
    requires host != "" && AllDigits(port) && forall i :: 0 <= i < |host| ==> IsHexOrColon(host[i])
    ensures BracketedAddress("[" + host + "]" + ":" + port) == Some(Address(host, port))
  {
    var line := "[" + host + "]" + ":" + port;
    var close := |host| + 1;
    assert line[close] == ']' && line[close + 1] == ':' && line[close + 2..] == port && line[1..close] == host;
    assert forall i :: 1 <= i < close ==> line[i] == host[i - 1];
    assert IndexOf(line, ']') == close;
    assert line[..1] == "[";
  }

  lemma TrimmedStart(s: string)
    requires Trim(s) == s && s != ""
    ensures !IsSpace(s[0])
  {
    TrimStartShorter(s);
    TrimEndShorter(TrimStart(s));
    if IsSpace(s[0]) {
      TrimStartShorter(s[1..]);
    }
  }

  lemma {:induction false} TrimStartShorter(s: string)
    ensures |TrimStart(s)| <= |s|
  {
    if s != "" && IsSpace(s[0]) {
      TrimStartShorter(s[1..]);
    }
  }

  lemma {:induction false} TrimEndShorter(s: string)
    ensures |TrimEnd(s)| <= |s|
  {
    if s != "" && IsSpace(s[|s| - 1]) {
      TrimEndShorter(s[..|s| - 1]);
    }
  }

  lemma PrintedLine(e: Endpoint)
    requires Printable(e)
    ensures var line := PrintEndpoint(e);
      && '\n' !in line && SseChunks.StripCr(line) == line && Trim(line) == line && line != "" && !StartsWith(line, "#")
  {
    var line, port := PrintEndpoint(e), Decimal(e.port);
    NumberOfPort(e.port);
    assert line[|line| - 1] == port[|port| - 1] && port[|port| - 1] in port;
    if !e.bracketed && e.host != "" {
      TrimmedStart(e.host);
      assert e.host[..1] == [e.host[0]];
      assert line[0] == e.host[0];
    }
    assert line[..1] == [line[0]];
    TrimsToItself(line);
  }

  lemma ListStep(e: Endpoint, noise: string, rest: string)
    requires Printable(e) && CarriesNothing(noise)
    ensures ContentLines(SseChunks.Lines(noise + "\n" + PrintEndpoint(e) + "\n" + rest))
            == [PrintEndpoint(e)] + ContentLines(SseChunks.Lines(rest))
  {
    var line := PrintEndpoint(e);
    PrintedLine(e);
    var tail := line + "\n" + rest;
    SseChunks.FirstLine(line, rest);
    SseChunks.FirstLine(noise, tail);
    assert noise + "\n" + line + "\n" + rest == noise + "\n" + tail;
    NothingCarried(noise);
    var inner := [line] + SseChunks.Lines(rest);
    assert inner[1..] == SseChunks.Lines(rest);
    var all := [SseChunks.StripCr(noise)] + inner;
    assert all[1..] == inner;
  }

  lemma NothingCarried(noise: string)
    requires CarriesNothing(noise)
    ensures var line := Trim(SseChunks.StripCr(noise)); line == "" || StartsWith(line, "#")
  {
    if noise != "" && noise[|noise| - 1] == '\r' {
      TrimDropsLast(noise);
    }
  }

  lemma {:induction false} TrimDropsLast(s: string)
    requires s != "" && IsSpace(s[|s| - 1])
    ensures Trim(s[..|s| - 1]) == Trim(s)
  {
    var front := s[..|s| - 1];
    if !IsSpace(s[0]) {
      assert front[0] == s[0];
      assert TrimStart(front) == front && TrimStart(s) == s;
    } else if |s| > 1 {
      TrimDropsLast(s[1..]);
      assert s[1..][..|s| - 2] == front[1..] && front[0] == s[0];
    } else {
      assert front == "" && TrimStart(s) == TrimStart(s[1..]) == "";
    }
  }

  function PrintedLines(endpoints: seq<Endpoint>): seq<string> {
    seq(|endpoints|, i requires 0 <= i < |endpoints| => PrintEndpoint(endpoints[i]))
  }

  lemma {:induction false} ListLines(endpoints: seq<Endpoint>, comments: nat -> string)
    requires forall e :: e in endpoints ==> Printable(e)
    requires forall n: nat :: CarriesNothing(comments(n))
    ensures ContentLines(SseChunks.Lines(PrintList(endpoints, comments))) == PrintedLines(endpoints)
  {
    if endpoints == [] {
      var lines := SseChunks.Lines("");
      assert lines[1..] == [];
    } else {
      var rest := endpoints[1..];
      assert forall e :: e in rest ==> e in endpoints;
      ListLines(rest, comments);
      assert endpoints[0] in endpoints;
      ListStep(endpoints[0], comments(|endpoints|), PrintList(rest, comments));
      assert PrintedLines(endpoints) == [PrintEndpoint(endpoints[0])] + PrintedLines(rest);
    }
  }

  /**
   * Reading a printed list gives the endpoints back, in order, whatever comments and blank lines stand between them,
   * for every reader of numbers that reads decimals.
   */
  lemma ListRoundTrip(number: string -> Option<int>, endpoints: seq<Endpoint>, comments: nat -> string)
    requires forall e :: e in endpoints ==> Printable(e)
    requires forall n: nat :: CarriesNothing(comments(n))
    requires forall n: nat :: number(Decimal(n)) == Some(n)
    ensures var lines := ContentLines(SseChunks.Lines(PrintList(endpoints, comments)));
      && AllAddresses(lines) && |lines| == |endpoints|
      && forall i :: 0 <= i < |lines| ==>
           var item := ItemOf(number, "http", LineAddress(lines[i]).value);
           item.host == Some(endpoints[i].host) && item.port == Some(endpoints[i].port)
  {
    ListLines(endpoints, comments);
    forall i | 0 <= i < |endpoints|
      ensures LineAddress(PrintedLines(endpoints)[i]) == Some(Address(endpoints[i].host, Decimal(endpoints[i].port)))
    {
      assert endpoints[i] in endpoints;
      PrintedAddress(endpoints[i]);
    }
  }

  // ------------------------------------------------------------------- dotted paths

  /** One segment down; `None` where there is no such value. */
  function Down(number: string -> Option<int>, v: Option<Json>, segment: string): Option<Json> {
    match v
    case None => None
    case Some(Arr(items)) =>
      var index := number(segment);
      if index.Some? && 0 <= index.value < |items| then Some(items[index.value]) else None
    case Some(Obj(fields)) => if HasField(fields, segment) then Some(EvidenceWalk.Get(fields, segment)) else None
    case _ => None
  }

  function Along(number: string -> Option<int>, v: Option<Json>, segments: seq<string>): Option<Json>
    decreases |segments|
  {
    if segments == [] then v else Along(number, Down(number, v, segments[0]), segments[1..])
  }

  /** The value at a dotted path; the empty path is the value itself. */
  function ByPath(number: string -> Option<int>, v: Option<Json>, path: string): Option<Json> {
    if path == "" then v else Along(number, v, Split(path, '.'))
  }

  method GetByPath(number: string -> Option<int>, value: Json, path: string) returns (result: Option<Json>)
    ensures result == ByPath(number, Some(value), path)
  {
    if path == "" {
      return Some(value);
    }
    var segments := Split(path, '.');
    var current := Some(value);
    assert segments[0..] == segments;
    for i := 0 to |segments|
      invariant Along(number, current, segments[i..]) == Along(number, Some(value), segments)
    {
      assert segments[i..][0] == segments[i] && segments[i..][1..] == segments[i + 1..];
      if current.None? || current.value.Null? {
        NothingBelow(number, Down(number, current, segments[i]), segments[i + 1..]);
        return None;
      }
      current := Down(number, current, segments[i]);
    }
    assert segments[|segments|..] == [];
    result := current;
  }

  lemma {:induction false} NothingBelow(number: string -> Option<int>, v: Option<Json>, segments: seq<string>)
    requires v.None?
    ensures Along(number, v, segments) == None
    decreases |segments|
  {
    if segments != [] {
      NothingBelow(number, Down(number, v, segments[0]), segments[1..]);
    }
  }

  lemma {:induction false} AlongBoth(number: string -> Option<int>, v: Option<Json>, p: seq<string>, q: seq<string>)
    ensures Along(number, v, p + q) == Along(number, Along(number, v, p), q)
    decreases |p|
  {
    if p == [] {
      assert p + q == q;
    } else {
      assert (p + q)[1..] == p[1..] + q && (p + q)[0] == p[0];
      AlongBoth(number, Down(number, v, p[0]), p[1..], q);
    }
  }

  /** Looking up a joined path is looking up its parts one after the other. */
  lemma PathsCompose(number: string -> Option<int>, v: Json, a: string, b: string)
    requires a != "" && b != ""
    ensures ByPath(number, Some(v), a + "." + b) == ByPath(number, ByPath(number, Some(v), a), b)
  {
    SplitJoined(a, b, '.');
    AlongBoth(number, Some(v), Split(a, '.'), Split(b, '.'));
  }
}
