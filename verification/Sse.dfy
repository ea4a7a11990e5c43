/** Forwarding of server-sent events line by line, detection of truncated
    streams, and the completeness test for buffered bodies. */
module Sse {
  const ANTHROPIC_STOP: string := "message_stop"
  const OPENAI_DONE: string := "[DONE]"

  /** A line of this many bytes or more does not fit the scanner's buffer. */
  const MAX_LINE: nat := 1024 * 1024

  /** One server-sent event. */
  function EventText(name: string, data: string): string {
    "event: " + name + "\ndata: " + data + "\n\n"
  }

  /** A truncated stream, completed by an error event and a stop event. */
  function Truncated(sent: string): string {
    sent
    + EventText(
        "error",
        "{\"type\":\"error\",\"error\":{\"type\":\"overloaded_error\","
        + "\"message\":\"upstream stream truncated, please retry\"}}")
    + EventText(ANTHROPIC_STOP, "{\"type\":\"message_stop\"}")
  }

  ghost predicate OccursAt(s: string, m: string, i: int) {
    0 <= i <= |s| - |m| && s[i..i + |m|] == m
  }

  ghost predicate Contains(s: string, m: string) {
    exists i :: OccursAt(s, m, i)
  }

  ghost predicate HasMarker(s: string) {
    Contains(s, ANTHROPIC_STOP) || Contains(s, OPENAI_DONE)
  }

  ghost predicate IsCompleteStream(body: string) {
    body != "" && HasMarker(body)
  }

  // ----- how the scanner cuts a body into lines -----

  /** The length of the first line, without its newline. */
  function LineLength(s: string): (n: nat)
    ensures n <= |s| && '\n' !in s[..n] && (n < |s| ==> s[n] == '\n')
  {
    if s == "" || s[0] == '\n' then 0
    else
      var n := LineLength(s[1..]);
      assert s[..n + 1] == [s[0]] + s[1..][..n];
      n + 1
  }

  /** What follows the first line and its newline. */
  function AfterLine(s: string): (rest: string)
    requires s != ""
    ensures |rest| < |s|
    ensures s == s[..LineLength(s)] + (if LineLength(s) < |s| then "\n" else "") + rest
  {
    if LineLength(s) < |s| then s[LineLength(s) + 1..] else ""
  }

  /** A trailing carriage return is not part of the line. */
  function DropCR(line: string): string {
    if line != "" && line[|line| - 1] == '\r' then line[..|line| - 1] else line
  }

  /** The part of the body that the scanner delivers: everything up to the
      first line that does not fit. */
  function Delivered(body: string): string {
    if body == "" || LineLength(body) >= MAX_LINE then ""
    else body[..|body| - |AfterLine(body)|] + Delivered(AfterLine(body))
  }

  /** The lines delivered, each with a plain newline. */
  function Forwarded(body: string): string {
    if body == "" || LineLength(body) >= MAX_LINE then ""
    else DropCR(body[..LineLength(body)]) + "\n" + Forwarded(AfterLine(body))
  }

  /** Some delivered line carries a terminal marker. */
  ghost predicate SeesMarker(body: string) {
    if body == "" || LineLength(body) >= MAX_LINE then false
    else HasMarker(DropCR(body[..LineLength(body)])) || SeesMarker(AfterLine(body))
  }

  predicate LinesFit(body: string) {
    body == "" || (LineLength(body) < MAX_LINE && LinesFit(AfterLine(body)))
  }

  ghost function Streamed(body: string): string {
    var sent := Forwarded(body);
    if !SeesMarker(body) && |sent| > 0 then Truncated(sent) else sent
  }

  lemma Regroup(a: string, b: string, c: string)
    ensures a + (b + c) == a + b + c
  {
  }

  lemma ForwardedStep(sent: string, rest: string)
    requires rest != "" && LineLength(rest) < MAX_LINE
    ensures sent + Forwarded(rest) ==
            sent + (DropCR(rest[..LineLength(rest)]) + "\n") + Forwarded(AfterLine(rest))
  {
    Regroup(sent, DropCR(rest[..LineLength(rest)]) + "\n", Forwarded(AfterLine(rest)));
  }

  lemma {:induction false} FirstNewline(s: string, n: nat)
    requires n < |s| && s[n] == '\n' && '\n' !in s[..n]
    ensures LineLength(s) == n
    decreases n
  {
    if n > 0 {
      assert s[0] == s[..n][0];
      assert s[1..][..n - 1] == s[..n][1..];
      FirstNewline(s[1..], n - 1);
    }
  }

  lemma FirstLine(line: string, rest: string)
    requires '\n' !in line
    ensures LineLength(line) == |line| && (line != "" ==> AfterLine(line) == "")
    ensures LineLength(line + "\n" + rest) == |line| && AfterLine(line + "\n" + rest) == rest
    ensures (line + "\n" + rest)[..|line|] == line
  {
    var s := line + "\n" + rest;
    FirstNewline(s, |line|);
  }

  /** Line by line: a line below one mebibyte is forwarded without a carriage
      return at its end and with a newline, whether it had one or not; a longer
      one is not, nor is anything behind it. */
  lemma ForwardsLine(line: string, rest: string)
    requires '\n' !in line
    ensures var all := line + "\n" + rest;
            var text := if line != "" && line[|line| - 1] == '\r' then line[..|line| - 1] else line;
            if |line| < 1_048_576 then
              && Forwarded(all) == text + "\n" + Forwarded(rest)
              && Forwarded(line) == (if line == "" then "" else text + "\n")
              && Delivered(all) == line + "\n" + Delivered(rest)
              && Delivered(line) == line
            else Forwarded(all) == Forwarded(line) == Delivered(all) == Delivered(line) == ""
  {
    FirstLine(line, rest);
    var all := line + "\n" + rest;
    assert all[..|all| - |rest|] == line + "\n";
    assert line[..|line|] == line;
    assert Forwarded("") == "" && Delivered("") == "";
  }

  // ----- the streaming loop -----

  method FindMarker(line: string, m: string) returns (found: bool)
    requires m != ""
    ensures found <==> Contains(line, m)
  {
    var i := 0;
    while i + |m| <= |line|
      invariant forall j :: 0 <= j < i ==> !OccursAt(line, m, j)
    {
      if line[i..i + |m|] == m {
        assert OccursAt(line, m, i);
        return true;
      }
      i := i + 1;
    }
    return false;
  }

  method LineHasMarker(line: string) returns (found: bool)
    ensures found <==> HasMarker(line)
  {
    found := FindMarker(line, ANTHROPIC_STOP);
    if !found {
      found := FindMarker(line, OPENAI_DONE);
    }
  }

  /** What was sent is followed by exactly one error event, which tells the client
      that the upstream is overloaded, and then one stop event. */
  predicate CompletedAs(sent: string, output: string) {
    output ==
    sent
    + ("event: " + "error" + "\ndata: "
       + ("{\"type\":\"error\",\"error\":{\"type\":\"overloaded_error\","
          + "\"message\":\"upstream stream truncated, please retry\"}}")
       + "\n\n")
    + ("event: " + "message_stop" + "\ndata: " + "{\"type\":\"message_stop\"}" + "\n\n")
  }

  lemma StreamedIs(body: string)
    ensures if !SeesMarker(body) && Forwarded(body) != "" then CompletedAs(Forwarded(body), Streamed(body))
            else Streamed(body) == Forwarded(body)
  {
  }

  /** Forwards the body line by line to a client whose writes succeed, and
      appends an error and a stop event when the stream was cut short. */
  method StreamSSE(body: string) returns (output: string, injected: bool)
    ensures output == Streamed(body)
    ensures injected <==> !SeesMarker(body) && Forwarded(body) != ""
    ensures if injected then CompletedAs(Forwarded(body), output) else output == Forwarded(body)
  {
    StreamedIs(body);
    output := "";
    var respBodySize := 0;
    var receivedTerminalEvent := false;
    var rest := body;
    while rest != "" && LineLength(rest) < MAX_LINE
      invariant |output| == respBodySize
      invariant Forwarded(body) == output + Forwarded(rest)
      invariant SeesMarker(body) <==> receivedTerminalEvent || SeesMarker(rest)
      decreases |rest|
    {
      var line := DropCR(rest[..LineLength(rest)]);
      var marked := LineHasMarker(line);
      if marked {
        receivedTerminalEvent := true;
      }
      ForwardedStep(output, rest);
      output := output + (line + "\n");
      respBodySize := respBodySize + |line| + 1;
      rest := AfterLine(rest);
    }
    assert Forwarded(rest) == "" && Forwarded(body) == output;
    injected := !receivedTerminalEvent && respBodySize > 0;
    if injected {
      output := Truncated(output);
    }
  }

  /** The text occurs somewhere in the body. */
  ghost predicate Holds(body: string, text: string) {
    exists i: nat, j: nat :: i <= j <= |body| && body[i..j] == text
  }

  lemma HoldsIsContains(body: string, text: string)
    ensures Holds(body, text) <==> Contains(body, text)
  {
    if i: nat, j: nat :| i <= j <= |body| && body[i..j] == text {
      assert OccursAt(body, text, i);
    }
    if i :| OccursAt(body, text, i) {
      assert body[i..i + |text|] == text;
    }
  }

  /** A stream is complete when it holds one of the two terminal markers. */
  lemma CompleteMeans(body: string)
    ensures IsCompleteStream(body) <==> Holds(body, "message_stop") || Holds(body, "[DONE]")
  {
    HoldsIsContains(body, "message_stop");
    HoldsIsContains(body, "[DONE]");
  }

  /** The test that buffer mode applies before it forwards a body. */
  method CheckComplete(body: string) returns (complete: bool)
    ensures complete <==> IsCompleteStream(body)
  {
    if |body| == 0 {
      return false;
    }
    complete := LineHasMarker(body);
  }

  // ----- what it guarantees -----

  lemma OccurrenceCovers(s: string, m: string, i: int, p: int)
    requires OccursAt(s, m, i) && i <= p < i + |m|
    ensures s[p] in m
  {
    assert s[i..i + |m|][p - i] == s[p];
  }

  lemma OccursInPart(a: string, c: char, b: string, m: string, i: int)
    requires c !in m && m != "" && OccursAt(a + [c] + b, m, i)
    ensures OccursAt(a, m, i) || OccursAt(b, m, i - |a| - 1)
  {
    var s := a + [c] + b;
    if i <= |a| < i + |m| {
      OccurrenceCovers(s, m, i, |a|);
    } else if i < |a| {
      assert s[i..i + |m|] == a[i..i + |m|];
    } else {
      assert s[i..i + |m|] == b[i - |a| - 1..i - |a| - 1 + |m|];
    }
  }

  /** A character that a marker lacks separates its occurrences. */
  lemma ContainsSplit(a: string, c: char, b: string, m: string)
    requires c !in m && m != ""
    ensures Contains(a + [c] + b, m) <==> Contains(a, m) || Contains(b, m)
  {
    var s := a + [c] + b;
    if i :| OccursAt(s, m, i) {
      OccursInPart(a, c, b, m, i);
    }
    if i :| OccursAt(a, m, i) {
      assert s[i..i + |m|] == a[i..i + |m|];
      assert OccursAt(s, m, i);
    }
    if i :| OccursAt(b, m, i) {
      assert s[i + |a| + 1..i + |a| + 1 + |m|] == b[i..i + |m|];
      assert OccursAt(s, m, i + |a| + 1);
    }
  }

  lemma MarkersSplit(a: string, c: char, b: string)
    requires c == '\n' || c == '\r'
    ensures HasMarker(a + [c] + b) <==> HasMarker(a) || HasMarker(b)
  {
    ContainsSplit(a, c, b, ANTHROPIC_STOP);
    ContainsSplit(a, c, b, OPENAI_DONE);
  }

  lemma NoMarkerInEmpty()
    ensures !HasMarker("")
  {
    forall i
      ensures !OccursAt("", ANTHROPIC_STOP, i) && !OccursAt("", OPENAI_DONE, i)
    {
      assert |ANTHROPIC_STOP| > 0 && |OPENAI_DONE| > 0;
    }
  }

  lemma DropCRKeepsMarkers(line: string)
    ensures HasMarker(DropCR(line)) <==> HasMarker(line)
  {
    if DropCR(line) != line {
      MarkersSplit(DropCR(line), '\r', "");
      assert line == DropCR(line) + ['\r'] + "";
      NoMarkerInEmpty();
    }
  }

  /** The line-by-line flag is the completeness test applied to exactly the part
      of the body that the scanner delivers. */
  lemma {:induction false} FlagIsMarkerInDelivered(body: string)
    ensures SeesMarker(body) <==> HasMarker(Delivered(body))
    decreases |body|
  {
    NoMarkerInEmpty();
    if body != "" && LineLength(body) < MAX_LINE {
      var n, rest := LineLength(body), AfterLine(body);
      var line, tail := body[..n], Delivered(rest);
      FlagIsMarkerInDelivered(rest);
      DropCRKeepsMarkers(line);
      if n < |body| {
        assert body[..|body| - |rest|] == line + ['\n'];
        MarkersSplit(line, '\n', tail);
      } else {
        assert Delivered(body) == line;
        assert tail == "";
      }
    }
  }

  lemma {:induction false} FittingBodyIsDelivered(body: string)
    requires LinesFit(body)
    ensures Delivered(body) == body
    decreases |body|
  {
    if body != "" {
      FittingBodyIsDelivered(AfterLine(body));
    }
  }

  lemma ForwardsSomething(body: string)
    ensures Forwarded(body) == "" <==> body == "" || LineLength(body) >= MAX_LINE
  {
  }

  /** When all lines fit, streaming and buffering agree: a stream is given the
      error and stop events exactly when it is not empty and the completeness
      test would have rejected its whole body. */
  lemma InjectsIffIncomplete(body: string)
    requires LinesFit(body)
    ensures SeesMarker(body) <==> HasMarker(body)
    ensures Streamed(body) != Forwarded(body) <==> body != "" && !IsCompleteStream(body)
  {
    FlagIsMarkerInDelivered(body);
    FittingBodyIsDelivered(body);
    ForwardsSomething(body);
    assert |Truncated(Forwarded(body))| > |Forwarded(body)|;
  }

  /** d is a part of s from its beginning up to the end of some line. */
  predicate CutAtLine(d: string, s: string) {
    d <= s && (d == "" || d == s || d[|d| - 1] == '\n')
  }

  lemma CutBehindLine(head: string, d: string, s: string)
    requires head != "" && head[|head| - 1] == '\n' && CutAtLine(d, s)
    ensures CutAtLine(head + d, head + s)
  {
    if d != "" && d != s {
      assert (head + d)[|head + d| - 1] == d[|d| - 1];
    }
  }

  lemma {:induction false} DeliveredIsCut(body: string)
    ensures CutAtLine(Delivered(body), body)
    decreases |body|
  {
    if body != "" && LineLength(body) < MAX_LINE {
      var rest := AfterLine(body);
      var head := body[..|body| - |rest|];
      DeliveredIsCut(rest);
      assert body == head + rest;
      if LineLength(body) < |body| {
        CutBehindLine(head, Delivered(rest), rest);
      }
    }
  }

  /** A marker begins at position i. */
  ghost predicate MarkerAt(s: string, i: int) {
    OccursAt(s, ANTHROPIC_STOP, i) || OccursAt(s, OPENAI_DONE, i)
  }

  lemma OccursInCut(d: string, s: string, m: string, i: int)
    requires CutAtLine(d, s) && m != "" && '\n' !in m
    ensures OccursAt(d, m, i) <==> OccursAt(s, m, i) && i < |d|
  {
    if 0 <= i <= |d| - |m| {
      assert s[i..i + |m|] == d[i..i + |m|];
    } else if OccursAt(s, m, i) && i < |d| {
      OccurrenceCovers(s, m, i, |d| - 1);
    }
  }

  lemma MarkersInCut(d: string, s: string)
    requires CutAtLine(d, s)
    ensures !HasMarker(d) <==> forall i :: MarkerAt(s, i) ==> i >= |d|
  {
    forall i
      ensures MarkerAt(d, i) <==> MarkerAt(s, i) && i < |d|
    {
      OccursInCut(d, s, ANTHROPIC_STOP, i);
      OccursInCut(d, s, OPENAI_DONE, i);
    }
    if i :| OccursAt(d, ANTHROPIC_STOP, i) {
      assert MarkerAt(d, i);
    }
    if i :| OccursAt(d, OPENAI_DONE, i) {
      assert MarkerAt(d, i);
    }
  }

  /** In general streaming gives up on a body that buffering would accept exactly
      when every marker begins behind what is delivered, that is at or after the
      first line that does not fit. */
  lemma DisagreesOnLongLinesOnly(body: string)
    requires IsCompleteStream(body)
    ensures !SeesMarker(body) <==> forall i :: MarkerAt(body, i) ==> i >= |Delivered(body)|
    ensures !SeesMarker(body) ==> !LinesFit(body)
  {
    FlagIsMarkerInDelivered(body);
    DeliveredIsCut(body);
    MarkersInCut(Delivered(body), body);
    if LinesFit(body) {
      FittingBodyIsDelivered(body);
    }
  }

  /** An event contains its own name. */
  lemma EventNamed(before: string, name: string, data: string)
    ensures Contains(before + EventText(name, data), name)
  {
    var s := before + EventText(name, data);
    var i := |before| + |"event: "|;
    assert s[i..i + |name|] == name;
    assert OccursAt(s, name, i);
  }

  lemma TruncatedHasStop(sent: string)
    ensures IsCompleteStream(Truncated(sent))
  {
    var stop := "{\"type\":\"message_stop\"}";
    var n := |EventText(ANTHROPIC_STOP, stop)|;
    EventNamed(Truncated(sent)[..|Truncated(sent)| - n], ANTHROPIC_STOP, stop);
  }

  lemma {:induction false} ForwardedKeepsMarkers(body: string)
    ensures SeesMarker(body) <==> HasMarker(Forwarded(body))
    decreases |body|
  {
    NoMarkerInEmpty();
    if body != "" && LineLength(body) < MAX_LINE {
      ForwardedKeepsMarkers(AfterLine(body));
      MarkersSplit(DropCR(body[..LineLength(body)]), '\n', Forwarded(AfterLine(body)));
    }
  }

  /** Whatever the upstream sends, a client that receives anything receives a
      stream that is complete. */
  lemma ClientStreamIsComplete(body: string)
    ensures Streamed(body) == "" || IsCompleteStream(Streamed(body))
  {
    var out := Forwarded(body);
    if SeesMarker(body) {
      ForwardedKeepsMarkers(body);
      assert Streamed(body) == out;
      NoMarkerInEmpty();
    } else if out != "" {
      TruncatedHasStop(out);
    }
  }

  function Terminated(s: string): string {
    if s == "" || s[|s| - 1] == '\n' then s else s + "\n"
  }

  lemma TerminatedStep(line: string, rest: string)
    ensures Terminated(line + "\n" + rest) == line + "\n" + Terminated(rest)
  {
    var s := line + "\n" + rest;
    if rest == "" {
      assert s == line + "\n";
    } else {
      assert s[|s| - 1] == rest[|rest| - 1];
      assert s + "\n" == line + "\n" + (rest + "\n");
    }
  }

  lemma NoReturn(body: string, n: nat)
    requires '\r' !in body && n <= |body|
    ensures DropCR(body[..n]) == body[..n]
  {
    if n > 0 {
      assert body[..n][n - 1] == body[n - 1];
    }
  }

  /** A body without carriage returns whose lines fit reaches the client byte for
      byte, completed by a final newline if it lacks one. */
  lemma {:induction false} ForwardsVerbatim(body: string)
    requires LinesFit(body) && '\r' !in body
    ensures Forwarded(body) == Terminated(body)
    decreases |body|
  {
    if body != "" {
      var n, rest := LineLength(body), AfterLine(body);
      ForwardsVerbatim(rest);
      NoReturn(body, n);
      if n < |body| {
        TerminatedStep(body[..n], rest);
      } else {
        assert body[..n] == body;
        assert body[|body| - 1] in body[..n];
      }
    }
  }
}
