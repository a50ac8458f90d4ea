/** Splitting a server-sent event stream into the payloads of its data lines. */
module SseChunks {
  import opened Text

  /** `text.split(/\r?\n/)` */
  function Lines(text: string): (lines: seq<string>)
    ensures lines != []
    decreases |text|
  {
    if text == "" then [""]
    else if OpensCrLf(text) then [""] + Lines(text[2..])
    else
      var rest := Lines(text[1..]);
      if text[0] == '\n' then [""] + rest else Longer(text[0], rest)
  }

  predicate OpensCrLf(text: string) {
    |text| >= 2 && text[0] == '\r' && text[1] == '\n'
  }

  /** The lines when `c` stands in front of the first one. */
  function Longer(c: char, lines: seq<string>): (longer: seq<string>)
    requires lines != []
    ensures longer != []
  {
    [[c] + lines[0]] + lines[1..]
  }

  function Payload(line: string): string
    requires StartsWith(line, "data:")
  {
    TrimStart(line[5..])
  }

  function Flush(current: seq<string>): seq<string> {
    if current == [] then [] else [Join(current, '\n')]
  }

  /** The chunks of the remaining lines, given the data lines collected since the last blank line. */
  function Dispatch(lines: seq<string>, current: seq<string>): seq<string> {
    if lines == [] then Flush(current)
    else if lines[0] == "" then Flush(current) + Dispatch(lines[1..], [])
    else if StartsWith(lines[0], "data:") then Dispatch(lines[1..], current + [Payload(lines[0])])
    else Dispatch(lines[1..], current)
  }

  predicate IsMeaningful(chunk: string) {
    chunk != "" && chunk != "[DONE]"
  }

  function Meaningful(chunks: seq<string>): seq<string> {
    if chunks == [] then []
    else if IsMeaningful(chunks[0]) then [chunks[0]] + Meaningful(chunks[1..])
    else Meaningful(chunks[1..])
  }

  function ChunksOf(text: string): seq<string> {
    Meaningful(Dispatch(Lines(text), []))
  }

  method SseDataChunks(text: string) returns (result: seq<string>)
    ensures result == ChunksOf(text)
  {
    var lines := Lines(text);
    var chunks: seq<string> := [];
    var current: seq<string> := [];
    assert lines[0..] == lines;
    for i := 0 to |lines|
      invariant Dispatch(lines, []) == chunks + Dispatch(lines[i..], current)
    {
      var line := lines[i];
      assert lines[i..][0] == line && lines[i..][1..] == lines[i + 1..];
      if line == "" {
        if |current| > 0 {
          chunks := chunks + [Join(current, '\n')];
        }
        current := [];
        continue;
      }
      if StartsWith(line, "data:") {
        current := current + [Payload(line)];
      }
    }
    assert lines[|lines|..] == [];
    ghost var before := chunks;
    if |current| > 0 {
      chunks := chunks + [Join(current, '\n')];
    }
    assert chunks == before + Flush(current);
    result := Meaningful(chunks);
  }

  // ------------------------------------------------------------------------ printing

  function PrintLines(lines: seq<string>): string {
    if lines == [] then "" else "data: " + lines[0] + "\n" + PrintLines(lines[1..])
  }

  /** One event: a data line for every line of the payload, then a blank line. */
  function PrintEvent(payload: string): string {
    PrintLines(Split(payload, '\n')) + "\n"
  }

  function Print(payloads: seq<string>): string {
    if payloads == [] then "" else PrintEvent(payloads[0]) + Print(payloads[1..])
  }

  function StripCr(line: string): string {
    if line != "" && line[|line| - 1] == '\r' then line[..|line| - 1] else line
  }

  function CleanLines(lines: seq<string>): seq<string> {
    seq(|lines|, i requires 0 <= i < |lines| => TrimStart(StripCr(lines[i])))
  }

  /** What the splitter makes of a payload: leading white space and one trailing carriage return go, line by line. */
  function Clean(payload: string): string {
    Join(CleanLines(Split(payload, '\n')), '\n')
  }

  function CleanAll(payloads: seq<string>): seq<string> {
    seq(|payloads|, i requires 0 <= i < |payloads| => Clean(payloads[i]))
  }

  lemma LinesAfterCharacter(c: char, rest: string)
    requires c != '\n' && !(c == '\r' && rest != "" && rest[0] == '\n')
    ensures Lines([c] + rest) == Longer(c, Lines(rest))
  {
    var text := [c] + rest;
    assert text[1..] == rest;
    assert |text| > 1 ==> text[1] == rest[0];
  }

  lemma LinesAfterCrLf(rest: string)
    ensures Lines("\r\n" + rest) == [""] + Lines(rest)
  {
    var text := "\r\n" + rest;
    assert text[2..] == rest;
  }

  lemma StripCrTail(line: string)
    requires line != "" && line != "\r"
    ensures StripCr(line) == [line[0]] + StripCr(line[1..])
  {
    assert |line| == 1 ==> line == [line[0]];
  }

  lemma {:induction false} FirstLine(line: string, rest: string)
    requires '\n' !in line
    ensures Lines(line + "\n" + rest) == [StripCr(line)] + Lines(rest)
    decreases |line|
  {
    var text := line + "\n" + rest;
    if line == "" {
      LinesAfterBreak(rest);
      assert text == ['\n'] + rest;
    } else if line == "\r" {
      BlankLine(rest);
    } else {
      var tail := line[1..];
      assert line[0] in line;
      assert forall c :: c in tail ==> c in line;
      FirstLine(tail, rest);
      assert text == [line[0]] + (tail + "\n" + rest);
      assert tail != "" ==> tail[0] in line;
      LinesAfterCharacter(line[0], tail + "\n" + rest);
      StripCrTail(line);
      var later := [StripCr(tail)] + Lines(rest);
      assert later[0] == StripCr(tail) && later[1..] == Lines(rest);
    }
  }

  lemma BlankLine(rest: string)
    ensures Lines("\r" + "\n" + rest) == [StripCr("\r")] + Lines(rest)
  {
    LinesAfterCrLf(rest);
    assert "\r" + "\n" + rest == "\r\n" + rest;
  }

  lemma {:induction false} SplitHasNoSeparator(s: string, c: char)
    ensures forall part :: part in Split(s, c) ==> c !in part
  {
    if s != "" {
      SplitHasNoSeparator(s[1..], c);
      var rest := Split(s[1..], c);
      assert rest[0] in rest;
      forall part | part in Split(s, c) ensures c !in part {
        if part !in rest {
          assert s[0] != c ==> part == [s[0]] + rest[0];
        }
      }
    }
  }

  lemma TrimSpace(s: string)
    ensures TrimStart(" " + s) == TrimStart(s)
  {
    assert (" " + s)[1..] == s;
  }

  lemma DataLine(line: string)
    ensures var printed := StripCr("data: " + line);
      && printed != "" && StartsWith(printed, "data:")
      && Payload(printed) == TrimStart(StripCr(line))
  {
    var printed := StripCr("data: " + line);
    assert printed == "data: " + StripCr(line);
    assert printed[5..] == " " + StripCr(line);
    TrimSpace(StripCr(line));
  }

  lemma {:induction false} DispatchPrinted(lines: seq<string>, rest: string, current: seq<string>)
    requires forall line :: line in lines ==> '\n' !in line
    ensures Dispatch(Lines(PrintLines(lines) + rest), current) == Dispatch(Lines(rest), current + CleanLines(lines))
    decreases |lines|
  {
    if lines == [] {
      assert PrintLines(lines) + rest == rest;
      assert current + CleanLines(lines) == current;
    } else {
      var line, more := lines[0], lines[1..];
      assert line in lines;
      PrintLinesNext(lines, rest);
      DispatchDataLine(line, PrintLines(more) + rest, current);
      DispatchPrinted(more, rest, current + [TrimStart(StripCr(line))]);
      CleanLinesNext(lines, current);
    }
  }

  lemma PrintLinesNext(lines: seq<string>, rest: string)
    requires lines != []
    ensures PrintLines(lines) + rest == "data: " + lines[0] + "\n" + (PrintLines(lines[1..]) + rest)
  {
  }

  lemma CleanLinesNext(lines: seq<string>, current: seq<string>)
    requires lines != []
    ensures current + [TrimStart(StripCr(lines[0]))] + CleanLines(lines[1..]) == current + CleanLines(lines)
  {
  }

  lemma DispatchDataLine(line: string, tail: string, current: seq<string>)
    requires '\n' !in line
    ensures Dispatch(Lines("data: " + line + "\n" + tail), current)
      == Dispatch(Lines(tail), current + [TrimStart(StripCr(line))])
  {
    FirstLine("data: " + line, tail);
    DataLine(line);
    var all := Lines("data: " + line + "\n" + tail);
    assert all == [StripCr("data: " + line)] + Lines(tail);
    assert all[1..] == Lines(tail);
  }

  lemma DispatchEvent(payload: string, rest: string)
    ensures Dispatch(Lines(PrintEvent(payload) + rest), []) == [Clean(payload)] + Dispatch(Lines(rest), [])
  {
    var lines := Split(payload, '\n');
    SplitHasNoSeparator(payload, '\n');
    assert PrintEvent(payload) + rest == PrintLines(lines) + ("\n" + rest);
    DispatchPrinted(lines, "\n" + rest, []);
    assert [] + CleanLines(lines) == CleanLines(lines);
    FirstLine("", rest);
    assert "" + "\n" + rest == "\n" + rest;
    assert Lines("\n" + rest)[1..] == Lines(rest);
  }

  lemma {:induction false} DispatchPrint(payloads: seq<string>)
    ensures Dispatch(Lines(Print(payloads)), []) == CleanAll(payloads)
  {
    if payloads != [] {
      DispatchEvent(payloads[0], Print(payloads[1..]));
      DispatchPrint(payloads[1..]);
      assert CleanAll(payloads) == [Clean(payloads[0])] + CleanAll(payloads[1..]);
    } else {
      assert Lines("")[1..] == [];
    }
  }

  /** Printing any payloads and splitting gives their cleaned forms, without the empty ones and the end marker. */
  lemma SplitOfPrint(payloads: seq<string>)
    ensures ChunksOf(Print(payloads)) == Meaningful(CleanAll(payloads))
  {
    DispatchPrint(payloads);
  }

  lemma {:induction false} MeaningfulShorter(chunks: seq<string>)
    ensures |Meaningful(chunks)| <= |chunks|
    ensures |Meaningful(chunks)| == |chunks| <==> forall c :: c in chunks ==> IsMeaningful(c)
    ensures |Meaningful(chunks)| == |chunks| ==> Meaningful(chunks) == chunks
  {
    if chunks != [] {
      MeaningfulShorter(chunks[1..]);
      assert chunks == [chunks[0]] + chunks[1..];
    }
  }

  lemma {:induction false} JoinOfSplit(s: string, c: char)
    ensures Join(Split(s, c), c) == s
  {
    if s != "" {
      JoinOfSplit(s[1..], c);
      var rest := Split(s[1..], c);
      if s[0] == c {
        assert ([""] + rest)[1..] == rest;
      } else if |rest| > 1 {
        assert Split(s, c)[1..] == rest[1..];
      }
    }
  }

  /** No line of the payload starts with white space or ends in a carriage return. */
  predicate IsClean(payload: string) {
    forall i :: 0 <= i < |Split(payload, '\n')| ==> IsCleanLine(Split(payload, '\n')[i])
  }

  predicate IsCleanLine(line: string) {
    (line != "" ==> !IsSpace(line[0])) && !EndsWith(line, "\r")
  }

  lemma {:induction false} TrimStartStops(s: string)
    ensures |TrimStart(s)| <= |s|
    ensures TrimStart(s) != "" ==> !IsSpace(TrimStart(s)[0])
    ensures forall c :: c in TrimStart(s) ==> c in s
  {
    if s != "" && IsSpace(s[0]) {
      TrimStartStops(s[1..]);
    }
  }

  /** A line is left as it is exactly when it is clean. */
  lemma CleanLineStays(line: string)
    ensures TrimStart(StripCr(line)) == line <==> IsCleanLine(line)
    ensures forall c :: c in TrimStart(StripCr(line)) ==> c in line
  {
    TrimStartStops(StripCr(line));
    assert line != "" ==> line[|line| - 1..] == [line[|line| - 1]];
  }

  /** The splitter leaves a payload as it is exactly when it is clean. */
  lemma CleanIff(payload: string)
    ensures Clean(payload) == payload <==> IsClean(payload)
  {
    var lines := Split(payload, '\n');
    JoinOfSplit(payload, '\n');
    SplitHasNoSeparator(payload, '\n');
    forall i | 0 <= i < |lines|
      ensures CleanLines(lines)[i] == lines[i] <==> IsCleanLine(lines[i])
      ensures '\n' !in CleanLines(lines)[i]
    {
      assert lines[i] in lines;
      CleanLineStays(lines[i]);
    }
    SplitOfJoin(CleanLines(lines), '\n');
    if Clean(payload) == payload {
      assert CleanLines(lines) == lines;
    }
    if IsClean(payload) {
      assert CleanLines(lines) == lines;
    }
  }

  /** The round trip is exact if and only if every payload is clean, not empty and not the end marker. */
  lemma RoundTripIff(payloads: seq<string>)
    ensures ChunksOf(Print(payloads)) == payloads <==>
            forall p :: p in payloads ==> IsClean(p) && IsMeaningful(p)
  {
    SplitOfPrint(payloads);
    var cleaned := CleanAll(payloads);
    MeaningfulShorter(cleaned);
    forall p | p in payloads ensures Clean(p) == p <==> IsClean(p) {
      CleanIff(p);
    }
    if ChunksOf(Print(payloads)) == payloads {
      forall p | p in payloads ensures IsClean(p) && IsMeaningful(p) {
        var i :| 0 <= i < |payloads| && payloads[i] == p;
        assert cleaned[i] == p && cleaned[i] in cleaned;
      }
    }
    if forall p :: p in payloads ==> IsClean(p) && IsMeaningful(p) {
      assert forall i :: 0 <= i < |payloads| ==> payloads[i] in payloads;
      assert cleaned == payloads;
    }
  }

  // --------------------------------------------------------------------- other lines

  /** A comment, event, id or any other line that is neither blank nor data. */
  predicate IsNoise(line: string) {
    StripCr(line) != "" && !StartsWith(StripCr(line), "data:")
  }

  lemma {:induction false} DispatchSkips(before: seq<string>, noise: string, after: seq<string>, current: seq<string>)
    requires noise != "" && !StartsWith(noise, "data:")
    ensures Dispatch(before + [noise] + after, current) == Dispatch(before + after, current)
    decreases |before|
  {
    var with, without := before + [noise] + after, before + after;
    if before == [] {
      assert with[1..] == after && without == after;
    } else {
      assert with[1..] == before[1..] + [noise] + after && without[1..] == before[1..] + after;
      var current' := if before[0] == "" then []
                      else if StartsWith(before[0], "data:") then current + [Payload(before[0])] else current;
      DispatchSkips(before[1..], noise, after, current');
    }
  }

  ghost predicate SplitsBehind(first: string, rest: string) {
    Lines(first + rest) == Front(Lines(first)) + Lines(rest)
  }

  lemma SplitsBehindCrLf(tail: string, rest: string)
    requires tail == "" || SplitsBehind(tail, rest)
    ensures SplitsBehind("\r\n" + tail, rest)
  {
    assert "\r\n" + tail + rest == "\r\n" + (tail + rest);
    LinesAfterCrLf(tail);
    LinesAfterCrLf(tail + rest);
    assert tail == "" ==> tail + rest == rest;
  }

  lemma SplitsBehindBreak(tail: string, rest: string)
    requires tail == "" || SplitsBehind(tail, rest)
    ensures SplitsBehind(['\n'] + tail, rest)
  {
    assert ['\n'] + tail + rest == ['\n'] + (tail + rest);
    LinesAfterBreak(tail);
    LinesAfterBreak(tail + rest);
    assert tail == "" ==> tail + rest == rest;
  }

  lemma SplitsBehindCharacter(c: char, tail: string, rest: string)
    requires tail != "" && c != '\n' && !(c == '\r' && tail[0] == '\n')
    requires |Lines(tail)| > 1 && SplitsBehind(tail, rest)
    ensures SplitsBehind([c] + tail, rest)
  {
    var text := tail + rest;
    assert [c] + tail + rest == [c] + text;
    assert text[0] == tail[0];
    LinesAfterCharacter(c, tail);
    LinesAfterCharacter(c, text);
    FirstLineLonger(c, Lines(tail), Lines(rest));
  }

  lemma FirstLineLonger(c: char, lines: seq<string>, rest: seq<string>)
    requires |lines| > 1
    ensures Longer(c, Front(lines) + rest) == Front(Longer(c, lines)) + rest
  {
  }

  /** Splitting a text that is cut right behind a line break. */
  lemma {:induction false} LinesOfParts(first: string, rest: string)
    requires first != "" && first[|first| - 1] == '\n'
    ensures SplitsBehind(first, rest)
    decreases |first|
  {
    if OpensCrLf(first) {
      var tail := first[2..];
      assert first == "\r\n" + tail;
      if tail != "" {
        LinesOfParts(tail, rest);
      }
      SplitsBehindCrLf(tail, rest);
    } else {
      var tail := first[1..];
      assert first == [first[0]] + tail;
      if tail != "" {
        LinesOfParts(tail, rest);
      }
      if first[0] == '\n' {
        SplitsBehindBreak(tail, rest);
      } else {
        MoreThanOneLine(tail);
        SplitsBehindCharacter(first[0], tail, rest);
      }
    }
  }

  lemma LinesAfterBreak(rest: string)
    ensures Lines(['\n'] + rest) == [""] + Lines(rest)
  {
    assert (['\n'] + rest)[1..] == rest;
  }

  lemma {:induction false} MoreThanOneLine(text: string)
    requires text != "" && text[|text| - 1] == '\n'
    ensures |Lines(text)| > 1
    decreases |text|
  {
    if !OpensCrLf(text) && text[0] != '\n' {
      MoreThanOneLine(text[1..]);
    }
  }

  /** The lines that a text up to a line boundary has completed. */
  function HeadOf(before: string): seq<string> {
    if before == "" then [] else Front(Lines(before))
  }

  lemma LinesBehind(before: string, rest: string)
    requires before == "" || before[|before| - 1] == '\n'
    ensures Lines(before + rest) == HeadOf(before) + Lines(rest)
  {
    if before == "" {
      assert before + rest == rest;
    } else {
      LinesOfParts(before, rest);
    }
  }

  lemma Regrouped<T>(a: seq<T>, b: seq<T>, c: seq<T>, d: seq<T>)
    ensures a + b + c + d == a + (b + c + d) && a + (b + d) == a + b + d
  {
  }

  lemma NoiseLines(before: string, noise: string, after: string)
    requires before == "" || before[|before| - 1] == '\n'
    requires '\n' !in noise
    ensures Lines(before + noise + "\n" + after) == HeadOf(before) + [StripCr(noise)] + Lines(after)
  {
    FirstLine(noise, after);
    LinesBehind(before, noise + "\n" + after);
    Regrouped(before, noise, "\n", after);
    Regrouped(HeadOf(before), [StripCr(noise)], [], Lines(after));
  }

  /** A comment, event or id line inserted at any line boundary of any stream changes no chunk. */
  lemma NoiseIsInvisible(before: string, noise: string, after: string)
    requires before == "" || before[|before| - 1] == '\n'
    requires '\n' !in noise && IsNoise(noise)
    ensures ChunksOf(before + noise + "\n" + after) == ChunksOf(before + after)
  {
    NoiseLines(before, noise, after);
    LinesBehind(before, after);
    DispatchSkips(HeadOf(before), StripCr(noise), Lines(after), []);
  }

  // ------------------------------------------------- against the event stream format

  /** Lines as the format ends them: by a line feed, a carriage return, or both. */
  function FormatLines(text: string): (lines: seq<string>)
    ensures lines != []
    decreases |text|
  {
    if text == "" then [""]
    else if OpensCrLf(text) then [""] + FormatLines(text[2..])
    else
      var rest := FormatLines(text[1..]);
      if text[0] == '\n' || text[0] == '\r' then [""] + rest else Longer(text[0], rest)
  }

  /** The data a line adds to its event: one leading space is dropped, a bare `data` adds an empty line. */
  function FormatData(line: string): seq<string> {
    if StartsWith(line, "data:") then [if StartsWith(line[5..], " ") then line[6..] else line[5..]]
    else if line == "data" then [""] else []
  }

  /** The data of every event that is ended by a blank line and has any. */
  function Events(lines: seq<string>, data: seq<string>): seq<seq<string>> {
    if lines == [] then []
    else if lines[0] == "" then (if data == [] then [] else [data]) + Events(lines[1..], [])
    else Events(lines[1..], data + FormatData(lines[0]))
  }

  /** The data of an event that no blank line ends; the format discards it. */
  function Unended(lines: seq<string>, data: seq<string>): seq<string> {
    if lines == [] then data
    else if lines[0] == "" then Unended(lines[1..], [])
    else Unended(lines[1..], data + FormatData(lines[0]))
  }

  function JoinAll(events: seq<seq<string>>): seq<string> {
    seq(|events|, i requires 0 <= i < |events| => Join(events[i], '\n'))
  }

  function Front(lines: seq<string>): seq<string>
    requires lines != []
  {
    lines[..|lines| - 1]
  }

  /** What the format dispatches, without the payloads that mean nothing here. */
  function FormatChunks(text: string): seq<string> {
    Meaningful(JoinAll(Events(Front(FormatLines(text)), [])))
  }

  /** Every carriage return is followed by a line feed. */
  predicate NoLoneCr(text: string) {
    forall i :: 0 <= i < |text| && text[i] == '\r' ==> i + 1 < |text| && text[i + 1] == '\n'
  }

  function TrimAll(data: seq<string>): seq<string> {
    seq(|data|, i requires 0 <= i < |data| => TrimStart(data[i]))
  }

  function TrimEvents(events: seq<seq<string>>): seq<seq<string>> {
    seq(|events|, i requires 0 <= i < |events| => TrimAll(events[i]))
  }

  lemma PayloadOfData(line: string)
    requires StartsWith(line, "data:")
    ensures FormatData(line) != [] && TrimAll(FormatData(line)) == [Payload(line)]
  {
    if StartsWith(line[5..], " ") {
      assert line[5..][..1] == " " && line[5..][0] == ' ';
      assert line[5..] == " " + line[6..];
      TrimSpace(line[6..]);
    }
  }

  /** The splitter gives the trimmed data of the events, and of the unended one as well. */
  lemma {:induction false} DispatchEvents(lines: seq<string>, last: string, data: seq<string>)
    requires "data" !in lines && last != "data"
    ensures Dispatch(lines + [last], TrimAll(data))
            == JoinAll(TrimEvents(Events(lines, data))) + Flush(TrimAll(Unended(lines, data) + FormatData(last)))
    decreases |lines|
  {
    var all := lines + [last];
    if lines == [] {
      assert all == [last] && all[1..] == [];
      DispatchLast(last, data);
    } else {
      assert all[1..] == lines[1..] + [last] && all[0] == lines[0] && lines[0] in lines;
      if lines[0] == "" {
        DispatchEvents(lines[1..], last, []);
        assert TrimAll([]) == [];
        EventsNext(data, Events(lines[1..], []));
      } else {
        DispatchEvents(lines[1..], last, data + FormatData(lines[0]));
        if StartsWith(lines[0], "data:") {
          PayloadOfData(lines[0]);
        }
        assert TrimAll(data + FormatData(lines[0])) == TrimAll(data) + TrimAll(FormatData(lines[0]));
        assert TrimAll(data) + [] == TrimAll(data);
      }
    }
  }

  lemma DispatchLast(last: string, data: seq<string>)
    requires last != "data"
    ensures Dispatch([last], TrimAll(data)) == Flush(TrimAll(data + FormatData(last)))
  {
    var one := [last];
    assert one[1..] == [];
    if StartsWith(last, "data:") {
      PayloadOfData(last);
      assert TrimAll(data + FormatData(last)) == TrimAll(data) + TrimAll(FormatData(last));
    } else {
      assert data + FormatData(last) == data;
    }
  }

  lemma EventsNext(data: seq<string>, events: seq<seq<string>>)
    ensures var all := (if data == [] then [] else [data]) + events;
      JoinAll(TrimEvents(all)) == Flush(TrimAll(data)) + JoinAll(TrimEvents(events))
  {
  }

  /** No value starts with white space. */
  ghost predicate Unspaced(data: seq<string>) {
    forall v :: v in data && v != "" ==> !IsSpace(v[0])
  }

  lemma TrimUnspaced(data: seq<string>)
    ensures Unspaced(data) <==> TrimAll(data) == data
  {
    assert forall i :: 0 <= i < |data| ==> data[i] in data;
    if TrimAll(data) == data {
      forall v | v in data && v != "" ensures !IsSpace(v[0]) {
        var i :| 0 <= i < |data| && data[i] == v;
        TrimStartStops(v);
      }
    }
  }

  ghost predicate OneLined(data: seq<string>) {
    data != [] && forall v :: v in data ==> '\n' !in v
  }

  lemma TrimStaysOneLined(data: seq<string>)
    requires OneLined(data)
    ensures OneLined(TrimAll(data)) && Unspaced(TrimAll(data))
  {
    forall v | v in TrimAll(data) ensures '\n' !in v && (v != "" ==> !IsSpace(v[0])) {
      var i :| 0 <= i < |data| && TrimAll(data)[i] == v;
      assert data[i] in data;
      TrimStartStops(data[i]);
    }
  }

  /** A payload that means nothing is a single value without leading white space. */
  lemma MeaninglessIsUnspaced(data: seq<string>)
    requires OneLined(data) && !IsMeaningful(Join(data, '\n'))
    ensures Unspaced(data)
  {
    JoinBreaks(data);
    assert forall v :: v in data ==> v == data[0];
  }

  lemma JoinBreaks(data: seq<string>)
    ensures |data| > 1 ==> '\n' in Join(data, '\n')
  {
    assert |data| > 1 ==> Join(data, '\n')[|data[0]|] == '\n';
  }

  lemma {:induction false} MeaningfulConcat(a: seq<string>, b: seq<string>)
    ensures Meaningful(a + b) == Meaningful(a) + Meaningful(b)
    ensures forall c :: c in Meaningful(a) ==> c in a
  {
    if a == [] {
      assert a + b == b;
    } else {
      assert (a + b)[1..] == a[1..] + b;
      MeaningfulConcat(a[1..], b);
    }
  }

  /** A payload with leading white space in some value is never the joined form of trimmed values. */
  lemma SpacedIsLost(data: seq<string>, events: seq<seq<string>>, rest: seq<string>)
    requires OneLined(data) && !Unspaced(data)
    requires (forall e :: e in events ==> OneLined(e)) && (rest != [] ==> OneLined(rest))
    ensures Join(data, '\n') !in Delivered(events, rest)
  {
    var chunks := Delivered(events, rest);
    if i :| 0 <= i < |chunks| && chunks[i] == Join(data, '\n') {
      var source := if i < |events| then events[i] else rest;
      assert i < |events| ==> events[i] in events;
      assert chunks[i] == Join(TrimAll(source), '\n');
      TrimStaysOneLined(source);
      SplitOfJoin(data, '\n');
      SplitOfJoin(TrimAll(source), '\n');
    }
  }

  /** What the splitter makes of events and of data left over. */
  function Delivered(events: seq<seq<string>>, rest: seq<string>): seq<string> {
    JoinAll(TrimEvents(events)) + Flush(TrimAll(rest))
  }

  lemma SplitterNext(e: seq<string>, later: seq<seq<string>>, rest: seq<string>)
    requires e != []
    ensures Delivered([e] + later, rest) == [Join(TrimAll(e), '\n')] + Delivered(later, rest)
    ensures JoinAll([e] + later) == [Join(e, '\n')] + JoinAll(later)
  {
    EventsNext(e, later);
  }

  lemma {:induction false} TrimmedEventsSame(events: seq<seq<string>>, rest: seq<string>)
    requires (forall e :: e in events ==> OneLined(e)) && (rest != [] ==> OneLined(rest))
    ensures Meaningful(Delivered(events, rest)) == Meaningful(JoinAll(events))
            <==> (forall e :: e in events ==> Unspaced(e)) && Meaningful(Flush(TrimAll(rest))) == []
  {
    if events == [] {
      assert Delivered(events, rest) == Flush(TrimAll(rest));
    } else {
      var e, later := events[0], events[1..];
      assert e in events && events == [e] + later;
      TrimmedEventsSame(later, rest);
      SplitterNext(e, later, rest);
      if Unspaced(e) {
        TrimUnspaced(e);
        SameHead(Join(e, '\n'), Delivered(later, rest), JoinAll(later));
      } else {
        SpacedIsLost(e, events, rest);
        SpacedMeansSomething(e);
        LostHead(Join(e, '\n'), Delivered(events, rest), JoinAll(later));
      }
    }
  }

  lemma SameHead(head: string, ours: seq<string>, theirs: seq<string>)
    ensures Meaningful([head] + ours) == Meaningful([head] + theirs) <==> Meaningful(ours) == Meaningful(theirs)
  {
    MeaningfulConcat([head], ours);
    MeaningfulConcat([head], theirs);
    SingleMeaning(head);
    if Meaningful([head] + ours) == Meaningful([head] + theirs) && IsMeaningful(head) {
      assert ([head] + Meaningful(ours))[1..] == Meaningful(ours);
      assert ([head] + Meaningful(theirs))[1..] == Meaningful(theirs);
    }
  }

  lemma LostHead(head: string, ours: seq<string>, theirs: seq<string>)
    requires head !in ours && IsMeaningful(head)
    ensures Meaningful(ours) != Meaningful([head] + theirs)
  {
    MeaningfulConcat(ours, []);
    MeaningfulConcat([head], theirs);
    SingleMeaning(head);
    assert head in Meaningful([head] + theirs);
  }

  lemma SpacedMeansSomething(data: seq<string>)
    requires OneLined(data) && !Unspaced(data)
    ensures IsMeaningful(Join(data, '\n'))
  {
    if !IsMeaningful(Join(data, '\n')) {
      MeaninglessIsUnspaced(data);
    }
  }

  lemma SingleMeaning(chunk: string)
    ensures Meaningful([chunk]) == if IsMeaningful(chunk) then [chunk] else []
  {
    var one := [chunk];
    assert one[1..] == [] && Meaningful(one[1..]) == [];
  }

  lemma {:induction false} LinesHaveNoBreak(text: string)
    ensures forall line :: line in Lines(text) ==> '\n' !in line
    decreases |text|
  {
    if OpensCrLf(text) {
      LinesHaveNoBreak(text[2..]);
    } else if text != "" {
      LinesHaveNoBreak(text[1..]);
      var rest := Lines(text[1..]);
      assert rest[0] in rest;
    }
  }

  ghost predicate OneLinedOrNone(data: seq<string>) {
    forall v :: v in data ==> '\n' !in v
  }

  lemma {:induction false} EventsOneLined(lines: seq<string>, data: seq<string>)
    requires (forall line :: line in lines ==> '\n' !in line) && OneLinedOrNone(data)
    ensures (forall e :: e in Events(lines, data) ==> OneLined(e)) && OneLinedOrNone(Unended(lines, data))
    decreases |lines|
  {
    if lines != [] {
      assert lines[0] in lines && forall line :: line in lines[1..] ==> line in lines;
      if lines[0] == "" {
        EventsOneLined(lines[1..], []);
      } else {
        EventsOneLined(lines[1..], data + FormatData(lines[0]));
      }
    }
  }

  /** The data left over at the end of the stream. */
  function LeftOver(text: string): seq<string> {
    Unended(Front(Lines(text)), []) + FormatData(Lines(text)[|Lines(text)| - 1])
  }

  /** The data of the events the stream ends properly. */
  function Ended(text: string): seq<seq<string>> {
    Events(Front(Lines(text)), [])
  }

  lemma LinesAsEvents(lines: seq<string>, front: seq<string>, last: string)
    requires lines == front + [last] && "data" !in front && last != "data"
    ensures Dispatch(lines, []) == Delivered(Events(front, []), Unended(front, []) + FormatData(last))
  {
    NothingToTrim();
    DispatchEvents(front, last, []);
  }

  lemma NothingToTrim()
    ensures TrimAll([]) == []
  {
  }

  lemma EventsOfText(text: string)
    ensures (forall e :: e in Ended(text) ==> OneLined(e)) && OneLinedOrNone(LeftOver(text))
  {
    var lines := Lines(text);
    LinesHaveNoBreak(text);
    assert lines[|lines| - 1] in lines;
    EventsOneLined(Front(lines), []);
  }

  // Lone carriage returns: the format ends lines at them, the splitter does not.

  /** The lines as the format cuts them further, at carriage returns. */
  function Pieces(lines: seq<string>): seq<string> {
    if lines == [] then [] else Split(lines[0], '\r') + Pieces(lines[1..])
  }

  lemma PiecesLonger(c: char, lines: seq<string>)
    requires lines != [] && c != '\r'
    ensures Pieces(lines) != [] && Pieces(Longer(c, lines)) == Longer(c, Pieces(lines))
  {
    var line, longer := lines[0], [c] + lines[0];
    assert longer[1..] == line;
    assert Longer(c, lines)[1..] == lines[1..];
    assert Split(longer, '\r') == Longer(c, Split(line, '\r'));
  }

  lemma PiecesCut(lines: seq<string>)
    requires lines != []
    ensures Pieces(Longer('\r', lines)) == [""] + Pieces(lines)
  {
    var all := Longer('\r', lines);
    assert all[0] == ['\r'] + lines[0] && all[1..] == lines[1..];
    CutFirst(lines[0]);
    assert [""] + Split(lines[0], '\r') + Pieces(lines[1..]) == [""] + (Split(lines[0], '\r') + Pieces(lines[1..]));
  }

  lemma CutFirst(line: string)
    ensures Split(['\r'] + line, '\r') == [""] + Split(line, '\r')
  {
    assert (['\r'] + line)[1..] == line;
  }

  lemma PiecesBlank(lines: seq<string>)
    ensures Pieces([""] + lines) == [""] + Pieces(lines)
  {
    assert ([""] + lines)[1..] == lines;
  }

  lemma {:induction false} FormatLinesArePieces(text: string)
    ensures FormatLines(text) == Pieces(Lines(text))
    decreases |text|
  {
    if text == "" {
      assert Pieces([""]) == [""] + Pieces([]);
    } else if OpensCrLf(text) {
      FormatLinesArePieces(text[2..]);
      PiecesBlank(Lines(text[2..]));
    } else {
      FormatLinesArePieces(text[1..]);
      if text[0] == '\n' {
        PiecesBlank(Lines(text[1..]));
      } else if text[0] == '\r' {
        PiecesCut(Lines(text[1..]));
      } else {
        PiecesLonger(text[0], Lines(text[1..]));
      }
    }
  }

  /** A line that means nothing to the format: not blank, no data. */
  predicate IsSilent(line: string) {
    line != "" && line != "data" && !StartsWith(line, "data:")
  }

  /** Carriage returns occur only in lines all of whose pieces mean nothing. */
  predicate CrOnlyInNoise(lines: seq<string>) {
    forall line :: line in lines && '\r' in line ==> forall piece :: piece in Split(line, '\r') ==> IsSilent(piece)
  }

  lemma {:induction false} SplitWithout(s: string, c: char)
    requires c !in s
    ensures Split(s, c) == [s]
  {
    if s != "" {
      SplitWithout(s[1..], c);
      assert [s[0]] + s[1..] == s;
    }
  }

  lemma {:induction false} NoCrInLines(text: string)
    requires NoLoneCr(text)
    ensures forall line :: line in Lines(text) ==> '\r' !in line
    decreases |text|
  {
    if OpensCrLf(text) {
      assert forall i :: 0 <= i < |text| - 2 ==> text[2..][i] == text[i + 2];
      NoCrInLines(text[2..]);
    } else if text != "" {
      assert text[0] != '\r';
      assert forall i :: 0 <= i < |text| - 1 ==> text[1..][i] == text[i + 1];
      NoCrInLines(text[1..]);
    }
  }

  lemma {:induction false} WholePieces(lines: seq<string>)
    requires forall line :: line in lines ==> '\r' !in line
    ensures Pieces(lines) == lines
  {
    if lines != [] {
      assert lines[0] in lines && forall line :: line in lines[1..] ==> line in lines;
      SplitWithout(lines[0], '\r');
      WholePieces(lines[1..]);
    }
  }

  /** Without a lone carriage return the lines are the same. */
  lemma SameLines(text: string)
    requires NoLoneCr(text)
    ensures FormatLines(text) == Lines(text) && CrOnlyInNoise(Lines(text))
  {
    FormatLinesArePieces(text);
    NoCrInLines(text);
    WholePieces(Lines(text));
  }

  lemma {:induction false} FirstPiece(line: string, prefix: string, c: char)
    requires StartsWith(line, prefix) && c !in prefix
    ensures StartsWith(Split(line, c)[0], prefix)
    decreases |prefix|
  {
    if prefix != "" {
      assert line[0] == prefix[0] && prefix[0] in prefix;
      assert line[1..][..|prefix| - 1] == prefix[1..];
      FirstPiece(line[1..], prefix[1..], c);
      var rest := Split(line[1..], c);
      assert ([line[0]] + rest[0])[..|prefix|] == [line[0]] + rest[0][..|prefix| - 1];
    }
  }

  lemma SilentAsAWhole(line: string)
    requires '\r' in line && forall piece :: piece in Split(line, '\r') ==> IsSilent(piece)
    ensures IsSilent(line)
  {
    assert Split(line, '\r')[0] in Split(line, '\r');
    if StartsWith(line, "data:") {
      FirstPiece(line, "data:", '\r');
    }
  }

  lemma {:induction false} EventsSkip(silent: seq<string>, rest: seq<string>, data: seq<string>)
    requires forall line :: line in silent ==> IsSilent(line)
    ensures Events(silent + rest, data) == Events(rest, data)
    decreases |silent|
  {
    if silent == [] {
      assert silent + rest == rest;
    } else {
      assert silent[0] in silent && (silent + rest)[1..] == silent[1..] + rest;
      EventsSkip(silent[1..], rest, data);
      assert data + [] == data;
    }
  }

  lemma {:induction false} EventsOfPieces(lines: seq<string>, tail: seq<string>, data: seq<string>)
    requires CrOnlyInNoise(lines) && forall line :: line in tail ==> IsSilent(line)
    ensures Events(Pieces(lines) + tail, data) == Events(lines, data)
    decreases |lines|
  {
    if lines == [] {
      assert Pieces(lines) + tail == tail + [];
      EventsSkip(tail, [], data);
    } else {
      var line, more := lines[0], lines[1..];
      assert CrOnlyInNoise(more);
      assert Pieces(lines) + tail == Split(line, '\r') + (Pieces(more) + tail);
      if '\r' in line {
        EventsSkip(Split(line, '\r'), Pieces(more) + tail, data);
        SilentAsAWhole(line);
        assert data + [] == data;
        EventsOfPieces(more, tail, data);
      } else {
        SplitWithout(line, '\r');
        assert ([line] + (Pieces(more) + tail))[1..] == Pieces(more) + tail;
        EventsOfPieces(more, tail, if line == "" then [] else data + FormatData(line));
      }
    }
  }

  lemma {:induction false} PiecesNext(lines: seq<string>, last: string)
    ensures Pieces(lines + [last]) == Pieces(lines) + Split(last, '\r')
    decreases |lines|
  {
    var all := lines + [last];
    if lines == [] {
      assert all[1..] == [];
    } else {
      PiecesNext(lines[1..], last);
      assert all[0] == lines[0] && all[1..] == lines[1..] + [last];
    }
  }

  /** Where carriage returns occur in noise only, the format sees the events of the splitter's lines. */
  lemma SameEvents(text: string)
    requires CrOnlyInNoise(Lines(text))
    ensures Events(Front(FormatLines(text)), []) == Ended(text)
  {
    var lines := Lines(text);
    FormatLinesArePieces(text);
    EventsOfAllPieces(lines, Front(lines), lines[|lines| - 1]);
  }

  lemma EventsOfAllPieces(lines: seq<string>, front: seq<string>, last: string)
    requires lines == front + [last] && CrOnlyInNoise(lines)
    ensures Pieces(lines) != [] && Events(Front(Pieces(lines)), []) == Events(front, [])
  {
    PiecesNext(front, last);
    FrontOf(Pieces(front), Split(last, '\r'));
    assert last in lines && forall line :: line in front ==> line in lines;
    SilentFront(last);
    EventsOfPieces(front, Front(Split(last, '\r')), []);
  }

  lemma FrontOf(a: seq<string>, b: seq<string>)
    requires b != []
    ensures Front(a + b) == a + Front(b)
  {
  }

  lemma SilentFront(last: string)
    requires '\r' in last ==> forall piece :: piece in Split(last, '\r') ==> IsSilent(piece)
    ensures forall piece :: piece in Front(Split(last, '\r')) ==> IsSilent(piece)
  {
    if '\r' !in last {
      SplitWithout(last, '\r');
    }
  }

  // Bare `data` lines: they add an empty line to the format's data, nothing to the splitter's.

  /** Every bare `data` line is the only data of its event; `some` and `bare`: what the event has had so far. */
  predicate BareAlone(lines: seq<string>, some: bool, bare: bool) {
    if lines == [] then true
    else if lines[0] == "" then BareAlone(lines[1..], false, false)
    else if lines[0] == "data" then !some && BareAlone(lines[1..], true, true)
    else if StartsWith(lines[0], "data:") then !bare && BareAlone(lines[1..], true, false)
    else BareAlone(lines[1..], some, bare)
  }

  /** Bare `data` lines written out. */
  function Spelled(line: string): string {
    if line == "data" then "data:" else line
  }

  function SpelledAll(lines: seq<string>): seq<string> {
    seq(|lines|, i requires 0 <= i < |lines| => Spelled(lines[i]))
  }

  lemma SpelledData(line: string)
    ensures FormatData(Spelled(line)) == FormatData(line) && (Spelled(line) == "" <==> line == "")
    ensures Spelled(line) != "data"
  {
  }

  lemma {:induction false} SpelledEvents(lines: seq<string>, data: seq<string>)
    ensures Events(SpelledAll(lines), data) == Events(lines, data)
    ensures Unended(SpelledAll(lines), data) == Unended(lines, data)
    decreases |lines|
  {
    if lines != [] {
      SpelledData(lines[0]);
      assert SpelledAll(lines)[1..] == SpelledAll(lines[1..]);
      SpelledEvents(lines[1..], if lines[0] == "" then [] else data + FormatData(lines[0]));
    }
  }

  /** The data lines collected by the splitter, without and with bare lines written out. */
  predicate Corresponds(current: seq<string>, spelled: seq<string>, some: bool, bare: bool) {
    && (some <==> spelled != [])
    && (if bare then current == [] && spelled == [""] else spelled == current)
  }

  lemma FlushedAlike(current: seq<string>, spelled: seq<string>, some: bool, bare: bool)
    requires Corresponds(current, spelled, some, bare)
    ensures Meaningful(Flush(current)) == Meaningful(Flush(spelled))
  {
    if bare {
      assert Flush(spelled) == [""] && [""][1..] == [];
      SingleMeaning("");
    }
  }

  /** Writing a lone bare `data` line out adds at most a chunk that means nothing. */
  lemma {:induction false} SpellingIsInvisible(
    lines: seq<string>, current: seq<string>, spelled: seq<string>, some: bool, bare: bool)
    requires BareAlone(lines, some, bare) && Corresponds(current, spelled, some, bare)
    ensures Meaningful(Dispatch(lines, current)) == Meaningful(Dispatch(SpelledAll(lines), spelled))
    decreases |lines|
  {
    if lines == [] {
      FlushedAlike(current, spelled, some, bare);
    } else {
      var line, more := lines[0], lines[1..];
      assert SpelledAll(lines)[1..] == SpelledAll(more);
      if line == "" {
        SpellingIsInvisible(more, [], [], false, false);
        FlushedAlike(current, spelled, some, bare);
        MeaningfulConcat(Flush(current), Dispatch(more, []));
        MeaningfulConcat(Flush(spelled), Dispatch(SpelledAll(more), []));
      } else if line == "data" {
        BarePayload();
        assert current == [] && spelled + [Payload(Spelled(line))] == [""];
        SpellingIsInvisible(more, [], [""], true, true);
      } else if StartsWith(line, "data:") {
        SpellingIsInvisible(more, current + [Payload(line)], spelled + [Payload(line)], true, false);
      } else {
        SpellingIsInvisible(more, current, spelled, some, bare);
      }
    }
  }

  lemma BarePayload()
    ensures !StartsWith("data", "data:") && StartsWith(Spelled("data"), "data:") && Payload(Spelled("data")) == ""
  {
  }

  lemma SpelledOut(lines: seq<string>)
    requires lines != []
    ensures SpelledAll(lines) == SpelledAll(Front(lines)) + [Spelled(lines[|lines| - 1])]
    ensures "data" !in SpelledAll(Front(lines)) && Spelled(lines[|lines| - 1]) != "data"
  {
  }

  lemma DispatchOfText(text: string)
    requires BareAlone(Lines(text), false, false)
    ensures ChunksOf(text) == Meaningful(Delivered(Ended(text), LeftOver(text)))
  {
    var lines := Lines(text);
    var front, last := Front(lines), lines[|lines| - 1];
    SpellingIsInvisible(lines, [], [], false, false);
    SpelledOut(lines);
    LinesAsEvents(SpelledAll(lines), SpelledAll(front), Spelled(last));
    SpelledEvents(front, []);
    SpelledData(last);
  }

  /**
   * When the splitter agrees with the format, on every stream whose carriage returns occur in line ends and in noise
   * only and whose bare `data` lines are the only data of their events: exactly when no ended event has a value that
   * still starts with white space after the one space the format drops, and the data left over at the end of the
   * stream means nothing. The conditions together suffice on all streams.
   */
  lemma AgreesWithFormatIff(text: string)
    requires CrOnlyInNoise(Lines(text)) && BareAlone(Lines(text), false, false)
    ensures ChunksOf(text) == FormatChunks(text) <==>
            (forall e :: e in Ended(text) ==> Unspaced(e)) && Meaningful(Flush(TrimAll(LeftOver(text)))) == []
  {
    SameEvents(text);
    DispatchOfText(text);
    EventsOfText(text);
    TrimmedEventsSame(Ended(text), LeftOver(text));
  }

  /**
   * Where a bare `data` line is not alone, the two may agree by chance: from these lines both make a line feed, the
   * format out of the event that the stream ends, the splitter out of the one that the format discards.
   */
  lemma AgreeByChance(lines: seq<string>)
    requires lines == ["data", "data", "", "data:", "data:"]
    ensures JoinAll(Events(Front(lines), [])) == ["\n"] == Dispatch(lines, [])
  {
    var blank, last := lines[2..], lines[4..];
    assert lines[1..][1..] == blank && blank[1..] == lines[3..] && lines[3..][1..] == last && last[1..] == [];
    BarePayload();
    assert Dispatch(blank, []) == Dispatch(lines[3..], []);
    assert [] + [""] == [""] && [""] + [""] == ["", ""];
    assert Dispatch(lines[3..], []) == Dispatch(last, [""]) == Flush(["", ""]);
    var front := Front(lines);
    var ended := front[2..];
    assert front[1..][1..] == ended && ended[1..] == ["data:"] && ["data:"][1..] == [];
    assert Events(["data:"], []) == [];
    assert Events(ended, ["", ""]) == [["", ""]];
    assert ["", ""][1..] == [""];
    assert Join(["", ""], '\n') == "" + ['\n'] + "" == "\n";
    assert JoinAll([["", ""]]) == ["\n"];
  }

  // -------------------------------------------------------------- unterminated events

  function Payloads(lines: seq<string>): seq<string> {
    if lines == [] then []
    else (if StartsWith(lines[0], "data:") then [Payload(lines[0])] else []) + Payloads(lines[1..])
  }

  /** The text is empty or ends in a blank line. */
  predicate EndsBlank(text: string) {
    text == "" || (text[|text| - 1] == '\n' && |Lines(text)| >= 2 && Lines(text)[|Lines(text)| - 2] == "")
  }

  predicate NoneBlank(lines: seq<string>) {
    forall i :: 0 <= i < |lines| ==> lines[i] != ""
  }

  lemma {:induction false} DispatchAfterBlank(head: seq<string>, lines: seq<string>, current: seq<string>)
    requires if head == [] then current == [] else head[|head| - 1] == ""
    ensures Dispatch(head + lines, current) == Dispatch(head, current) + Dispatch(lines, [])
    decreases |head|
  {
    if head == [] {
      assert head + lines == lines;
    } else {
      assert (head + lines)[1..] == head[1..] + lines;
      DispatchNext(head, current);
      DispatchNext(head + lines, current);
      DispatchAfterBlank(head[1..], lines, Collected(head[0], current));
    }
  }

  /** The data lines collected after one more line. */
  function Collected(line: string, current: seq<string>): seq<string> {
    if line == "" then [] else if StartsWith(line, "data:") then current + [Payload(line)] else current
  }

  lemma DispatchNext(lines: seq<string>, current: seq<string>)
    requires lines != []
    ensures Dispatch(lines, current)
            == (if lines[0] == "" then Flush(current) else []) + Dispatch(lines[1..], Collected(lines[0], current))
  {
  }

  lemma DispatchAlone(last: string, current: seq<string>)
    ensures Dispatch([last], current) == Flush(current + Payloads([last]))
  {
    var one := [last];
    assert one[1..] == [] && Payloads(one[1..]) == [];
    if StartsWith(last, "data:") {
      assert Dispatch(one, current) == Dispatch(one[1..], current + [Payload(last)]);
      assert Payloads(one) == [Payload(last)];
    } else {
      assert Payloads(one) == [] && current + [] == current;
      assert Dispatch(one[1..], []) == [] && Dispatch(one[1..], current) == Flush(current);
      assert Flush(current) + [] == Flush(current);
    }
  }

  lemma {:induction false} DispatchUnended(lines: seq<string>, last: string, current: seq<string>)
    requires NoneBlank(lines)
    ensures Dispatch(lines + [last], current) == Flush(current + Payloads(lines + [last]))
    decreases |lines|
  {
    var all := lines + [last];
    if lines == [] {
      assert all == [last];
      DispatchAlone(last, current);
    } else {
      assert all[1..] == lines[1..] + [last];
      if StartsWith(lines[0], "data:") {
        DispatchUnended(lines[1..], last, current + [Payload(lines[0])]);
        assert current + [Payload(lines[0])] + Payloads(all[1..]) == current + Payloads(all);
      } else {
        DispatchUnended(lines[1..], last, current);
        assert [] + Payloads(all[1..]) == Payloads(all[1..]);
      }
    }
  }

  lemma {:induction false} EventsAfterBlank(head: seq<string>, lines: seq<string>, data: seq<string>)
    requires if head == [] then data == [] else head[|head| - 1] == ""
    ensures Events(head + lines, data) == Events(head, data) + Events(lines, [])
    decreases |head|
  {
    if head == [] {
      assert head + lines == lines;
    } else {
      assert (head + lines)[1..] == head[1..] + lines;
      EventsAfterBlank(head[1..], lines, if head[0] == "" then [] else data + FormatData(head[0]));
    }
  }

  lemma {:induction false} NoBlankNoEvents(lines: seq<string>, data: seq<string>)
    requires NoneBlank(lines)
    ensures Events(lines, data) == []
    decreases |lines|
  {
    if lines != [] {
      NoBlankNoEvents(lines[1..], data + FormatData(lines[0]));
    }
  }

  lemma LinesBehindBlank(before: string, event: string) returns (head: seq<string>)
    requires EndsBlank(before)
    ensures head == [] || head[|head| - 1] == ""
    ensures Lines(before) == head + [""] && Lines(before + event) == head + Lines(event)
  {
    head := Front(Lines(before));
    if before == "" {
      assert before + event == event;
    } else {
      LinesOfParts(before, event);
      LinesOfParts(before, "");
      assert before + "" == before;
    }
  }

  /**
   * The event a stream ends in without a blank line is delivered, whatever comes before it; the format discards it.
   */
  lemma UnterminatedEventDelivered(before: string, event: string)
    requires EndsBlank(before) && NoneBlank(Front(Lines(event)))
    ensures ChunksOf(before + event) == ChunksOf(before) + Meaningful(Flush(Payloads(Lines(event))))
    ensures NoLoneCr(before + event) ==> FormatChunks(before + event) == FormatChunks(before)
  {
    var head := LinesBehindBlank(before, event);
    var lines := Lines(event);
    DispatchBehindBlank(head, lines);
    BlankAddsNothing(head);
    MeaningfulConcat(Dispatch(head, []), Flush(Payloads(lines)));
    if NoLoneCr(before + event) {
      FormatDropsUnended(before, event, head);
    }
  }

  lemma DispatchBehindBlank(head: seq<string>, lines: seq<string>)
    requires head == [] || head[|head| - 1] == ""
    requires lines != [] && NoneBlank(Front(lines))
    ensures Dispatch(head + lines, []) == Dispatch(head, []) + Flush(Payloads(lines))
  {
    DispatchAfterBlank(head, lines, []);
    assert lines == Front(lines) + [lines[|lines| - 1]];
    DispatchUnended(Front(lines), lines[|lines| - 1], []);
    assert [] + Payloads(lines) == Payloads(lines);
  }

  lemma BlankAddsNothing(head: seq<string>)
    requires head == [] || head[|head| - 1] == ""
    ensures Dispatch(head + [""], []) == Dispatch(head, [])
  {
    var blank := [""];
    assert blank[1..] == [] && Payloads(blank[1..]) == [] && Front(blank) == [];
    DispatchBehindBlank(head, blank);
    assert Payloads(blank) == [] && Dispatch(head, []) + [] == Dispatch(head, []);
  }

  lemma FormatDropsUnended(before: string, event: string, head: seq<string>)
    requires EndsBlank(before) && NoneBlank(Front(Lines(event))) && NoLoneCr(before + event)
    requires head == [] || head[|head| - 1] == ""
    requires Lines(before) == head + [""] && Lines(before + event) == head + Lines(event)
    ensures FormatChunks(before + event) == FormatChunks(before)
  {
    var text := before + event;
    assert forall i :: 0 <= i < |before| ==> text[i] == before[i];
    assert NoLoneCr(before);
    SameLines(text);
    SameLines(before);
    assert Front(Lines(text)) == head + Front(Lines(event)) && Front(Lines(before)) == head;
    EventsAfterBlank(head, Front(Lines(event)), []);
    NoBlankNoEvents(Front(Lines(event)), []);
    assert Events(head, []) + [] == Events(head, []);
  }
}
