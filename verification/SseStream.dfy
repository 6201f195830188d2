/**
 Incremental decoding of server-sent events: only `data: ` lines, ended by LF or
 CRLF (a part of section 9.2 of the WHATWG HTML Standard). JSON parsing is a parameter.
 */
module SseStream {
  import opened Wrappers

  datatype Event<+J> = DoneEvent | DataEvent(data: J)

  /** str.isspace for one character. */
  predicate IsSpace(c: char)
  {
    var n := c as int;
    || 9 <= n <= 13 || 28 <= n <= 32 || n == 0x85 || n == 0xA0 || n == 0x1680
    || 0x2000 <= n <= 0x200A || n == 0x2028 || n == 0x2029 || n == 0x202F || n == 0x205F || n == 0x3000
  }

  function RStripCr(s: string): string
  {
    if s != "" && s[|s| - 1] == '\r' then RStripCr(s[..|s| - 1]) else s
  }

  function LStrip(s: string): string
  {
    if s != "" && IsSpace(s[0]) then LStrip(s[1..]) else s
  }

  function RStrip(s: string): string
  {
    if s != "" && IsSpace(s[|s| - 1]) then RStrip(s[..|s| - 1]) else s
  }

  function Strip(s: string): string
  {
    RStrip(LStrip(s))
  }

  const PREFIX := "data: "
  const DONE := "[DONE]"

  /** The event of one line without its newline, if it has one. */
  function EventOf<J>(parse: string -> Option<J>, raw: string): seq<Event<J>>
  {
    var line := RStripCr(raw);
    if !(PREFIX <= line) then [] else
      var data := Strip(line[|PREFIX|..]);
      if data == DONE then [DoneEvent]
      else if data == "" then []
      else match parse(data)
        case Some(j) => [DataEvent(j)]
        case None => []
  }

  /** Position of the first newline, |s| when there is none. */
  function FirstNewline(s: string): (i: nat)
    ensures i <= |s|
    ensures i < |s| ==> s[i] == '\n'
    ensures forall j :: 0 <= j < i ==> s[j] != '\n'
  {
    if s == "" || s[0] == '\n' then 0 else 1 + FirstNewline(s[1..])
  }

  /** Events of the complete lines, and what is left after the last newline. */
  function Drain<J>(parse: string -> Option<J>, text: string): (r: (seq<Event<J>>, string))
    ensures '\n' !in r.1
    decreases |text|
  {
    var i := FirstNewline(text);
    if i == |text| then ([], text) else
      var r := Drain(parse, text[i + 1..]);
      (EventOf(parse, text[..i]) + r.0, r.1)
  }

  class Decoder<J> {
    const parse: string -> Option<J>
    var buffer: string

    constructor (parse: string -> Option<J>)
      ensures this.parse == parse && buffer == ""
    {
      this.parse := parse;
      buffer := "";
    }

    /** A chunk is None when its bytes are not UTF-8. */
    method DecodeChunk(chunk: Option<string>) returns (events: seq<Event<J>>)
      modifies this`buffer
      ensures chunk.None? ==> events == [] && buffer == old(buffer)
      ensures chunk.Some? ==> (events, buffer) == Drain(parse, old(buffer) + chunk.value)
    {
      hide Drain, FirstNewline, RStripCr, Strip;
      events := [];
      if chunk.None? {
        return;
      }
      buffer := buffer + chunk.value;
      ghost var text := buffer;
      while '\n' in buffer
        invariant Drain(parse, text).0 == events + Drain(parse, buffer).0
        invariant Drain(parse, text).1 == Drain(parse, buffer).1
        decreases |buffer|
      {
        var i := FirstNewline(buffer);
        var line := RStripCr(buffer[..i]);
        assert buffer == buffer[..i] + "\n" + buffer[i + 1..];
        DrainLine(parse, buffer[..i], buffer[i + 1..]);
        buffer := buffer[i + 1..];
        if PREFIX <= line {
          var data := Strip(line[|PREFIX|..]);
          if data == DONE {
            events := events + [DoneEvent];
          } else if data != "" {
            var parsed := parse(data);
            if parsed.Some? {
              events := events + [DataEvent(parsed.value)];
            }
          }
        }
      }
      DrainUnfinished(parse, buffer);
      assert events + [] == events;
    }
  }

  lemma DrainUnfinished<J>(parse: string -> Option<J>, text: string)
    requires '\n' !in text
    ensures Drain(parse, text) == ([], text)
  {
    assert FirstNewline(text) == |text|;
  }

  lemma DrainLine<J>(parse: string -> Option<J>, line: string, rest: string)
    requires '\n' !in line
    ensures Drain(parse, line + "\n" + rest) == (EventOf(parse, line) + Drain(parse, rest).0, Drain(parse, rest).1)
  {
    hide EventOf;
    var text := line + "\n" + rest;
    FirstNewlineOfLine(line, rest);
    assert text[..|line|] == line && text[|line| + 1..] == rest;
  }

  lemma FirstNewlineOfLine(line: string, rest: string)
    requires '\n' !in line
    ensures FirstNewline(line + "\n" + rest) == |line|
  {
    var text := line + "\n" + rest;
    assert text[|line|] == '\n';
    assert forall k :: 0 <= k < |line| ==> text[k] == line[k];
  }

  /** A text with a newline is its first line, a newline and the rest. */
  lemma SplitFirstLine(text: string) returns (line: string, rest: string)
    requires '\n' in text
    ensures '\n' !in line && text == line + "\n" + rest && |rest| < |text|
  {
    var i := FirstNewline(text);
    line, rest := text[..i], text[i + 1..];
  }

  // ----- chunk invariance -----

  /** Decoding chunk after chunk, starting from a buffer. */
  function DecodeAll<J>(parse: string -> Option<J>, buffer: string, chunks: seq<string>): (seq<Event<J>>, string)
    decreases chunks
  {
    if chunks == [] then ([], buffer) else
      var first := Drain(parse, buffer + chunks[0]);
      var rest := DecodeAll(parse, first.1, chunks[1..]);
      (first.0 + rest.0, rest.1)
  }

  function Concat(chunks: seq<string>): string
  {
    if chunks == [] then "" else chunks[0] + Concat(chunks[1..])
  }

  /** Draining a text in two parts. */
  lemma {:induction false} DrainAppend<J>(parse: string -> Option<J>, a: string, b: string)
    ensures Drain(parse, a + b).0 == Drain(parse, a).0 + Drain(parse, Drain(parse, a).1 + b).0
    ensures Drain(parse, a + b).1 == Drain(parse, Drain(parse, a).1 + b).1
    decreases |a|
  {
    hide EventOf, Drain;
    if '\n' in a {
      var line, rest := SplitFirstLine(a);
      DrainLine(parse, line, rest);
      assert a + b == line + "\n" + (rest + b);
      DrainLine(parse, line, rest + b);
      DrainAppend(parse, rest, b);
    } else {
      DrainUnfinished(parse, a);
    }
  }

  /** However a text is cut into chunks, events and final buffer are those of the whole text. */
  lemma {:induction false} ChunkingDoesNotMatter<J>(parse: string -> Option<J>, buffer: string, chunks: seq<string>)
    requires '\n' !in buffer
    ensures DecodeAll(parse, buffer, chunks) == Drain(parse, buffer + Concat(chunks))
    decreases chunks
  {
    hide EventOf, Drain;
    if chunks == [] {
      assert buffer + Concat(chunks) == buffer;
      DrainUnfinished(parse, buffer);
    } else {
      var first := Drain(parse, buffer + chunks[0]);
      DrainAppend(parse, buffer + chunks[0], Concat(chunks[1..]));
      assert buffer + Concat(chunks) == buffer + chunks[0] + Concat(chunks[1..]);
      DrainLeavesNoNewline(parse, buffer + chunks[0]);
      ChunkingDoesNotMatter(parse, first.1, chunks[1..]);
    }
  }

  lemma DrainLeavesNoNewline<J>(parse: string -> Option<J>, text: string)
    ensures '\n' !in Drain(parse, text).1
  {
  }

  // ----- what the events are -----

  function JoinLines(lines: seq<string>): string
  {
    if lines == [] then "" else lines[0] + "\n" + JoinLines(lines[1..])
  }

  function EventsOf<J>(parse: string -> Option<J>, lines: seq<string>): seq<Event<J>>
  {
    if lines == [] then [] else EventOf(parse, lines[0]) + EventsOf(parse, lines[1..])
  }

  /** Text made of lines and an unfinished one: one event lookup per line, the rest stays buffered. */
  lemma {:induction false} DrainLines<J>(parse: string -> Option<J>, lines: seq<string>, tail: string)
    requires '\n' !in tail && forall i :: 0 <= i < |lines| ==> '\n' !in lines[i]
    ensures Drain(parse, JoinLines(lines) + tail) == (EventsOf(parse, lines), tail)
  {
    hide EventOf, Drain;
    if lines == [] {
      assert JoinLines(lines) + tail == tail;
      DrainUnfinished(parse, tail);
    } else {
      var rest := JoinLines(lines[1..]) + tail;
      assert JoinLines(lines) + tail == lines[0] + "\n" + rest;
      DrainLine(parse, lines[0], rest);
      DrainLines(parse, lines[1..], tail);
    }
  }

  /** Every text is of that form. */
  lemma {:induction false} EveryTextIsLines(text: string) returns (lines: seq<string>, tail: string)
    ensures text == JoinLines(lines) + tail
    ensures '\n' !in tail && forall i :: 0 <= i < |lines| ==> '\n' !in lines[i]
    decreases |text|
  {
    if '\n' in text {
      var line, rest := SplitFirstLine(text);
      lines, tail := EveryTextIsLines(rest);
      assert ([line] + lines)[1..] == lines;
      lines := [line] + lines;
    } else {
      lines, tail := [], text;
    }
  }

  /** LF and CRLF endings mean the same. */
  lemma CrLfIsLf<J>(parse: string -> Option<J>, line: string)
    ensures EventOf(parse, line + "\r") == EventOf(parse, line)
  {
    assert (line + "\r")[..|line|] == line;
  }

  // ----- which lines carry an event -----

  ghost predicate Blank(s: string)
  {
    forall i :: 0 <= i < |s| ==> IsSpace(s[i])
  }

  /** A data line with nothing but this text, which blanks may surround; carriage returns are blanks. */
  ghost predicate Carries(line: string, text: string)
  {
    && (text == "" || (!IsSpace(text[0]) && !IsSpace(text[|text| - 1])))
    && exists left, right :: Blank(left) && Blank(right) && line == "data: " + left + text + right
  }

  /** The cut ends of a stripped text are blanks, and no blank is left at either end. */
  lemma {:induction false} LStripCuts(s: string) returns (left: string)
    ensures Blank(left) && s == left + LStrip(s)
    ensures LStrip(s) == "" || !IsSpace(LStrip(s)[0])
  {
    left := "";
    if s != "" && IsSpace(s[0]) {
      left := LStripCuts(s[1..]);
      left := [s[0]] + left;
    }
  }

  lemma {:induction false} RStripCuts(s: string) returns (right: string)
    ensures Blank(right) && s == RStrip(s) + right
    ensures RStrip(s) == "" || !IsSpace(RStrip(s)[|RStrip(s)| - 1])
  {
    right := "";
    if s != "" && IsSpace(s[|s| - 1]) {
      right := RStripCuts(s[..|s| - 1]);
      right := right + [s[|s| - 1]];
    }
  }

  /** Stripping keeps what stands between the blanks. */
  lemma {:induction false} StripKeeps(left: string, text: string, right: string)
    requires Blank(left) && Blank(right)
    requires text == "" || (!IsSpace(text[0]) && !IsSpace(text[|text| - 1]))
    ensures Strip(left + text + right) == text
    decreases |left| + |right|
  {
    var s := left + text + right;
    if left != "" {
      assert s[1..] == left[1..] + text + right;
      StripKeeps(left[1..], text, right);
    } else if text == "" {
      BlankStripsAway(right);
      assert s == right;
    } else {
      assert s == text + right;
      RStripKeeps(text, right);
    }
  }

  lemma {:induction false} BlankStripsAway(s: string)
    requires Blank(s)
    ensures LStrip(s) == ""
  {
    if s != "" {
      BlankStripsAway(s[1..]);
    }
  }

  lemma {:induction false} RStripKeeps(text: string, right: string)
    requires Blank(right) && text != "" && !IsSpace(text[|text| - 1])
    ensures RStrip(text + right) == text
  {
    var s := text + right;
    if right == "" {
      assert s == text;
    } else {
      assert s[..|s| - 1] == text + right[..|right| - 1];
      RStripKeeps(text, right[..|right| - 1]);
    }
  }

  /** rstrip("\r") leaves the data prefix alone and cuts blanks only. */
  lemma {:induction false} RStripCrCuts(s: string) returns (cut: string)
    ensures Blank(cut) && s == RStripCr(s) + cut
    ensures PREFIX <= s <==> PREFIX <= RStripCr(s)
  {
    cut := "";
    if s != "" && s[|s| - 1] == '\r' {
      cut := RStripCrCuts(s[..|s| - 1]);
      cut := cut + [s[|s| - 1]];
      assert PREFIX <= s ==> PREFIX[|PREFIX| - 1] == ' ' && |s| > |PREFIX|;
      assert PREFIX <= s <==> PREFIX <= s[..|s| - 1];
    }
  }

  lemma OneTextOnly(line: string, text: string)
    requires Carries(line, text)
    ensures PREFIX <= line && Strip(line[|PREFIX|..]) == text
  {
    hide Strip, IsSpace;
    var left, right :| Blank(left) && Blank(right) && line == "data: " + left + text + right;
    StripKeeps(left, text, right);
    assert line[|PREFIX|..] == left + text + right;
  }

  /** A data line carries exactly one text, the one the decoder looks at. */
  lemma DataLineCarries(line: string)
    requires PREFIX <= RStripCr(line)
    ensures Carries(line, Strip(RStripCr(line)[|PREFIX|..]))
  {
    hide RStripCr, LStrip, RStrip, IsSpace;
    var cr := RStripCrCuts(line);
    var rest := RStripCr(line)[|PREFIX|..];
    var text := Strip(rest);
    var left := LStripCuts(rest);
    var right := RStripCuts(LStrip(rest));
    assert text != "" ==> text[0] == LStrip(rest)[0];
    assert Blank(right + cr);
    assert line == "data: " + left + text + (right + cr);
  }

  /**
   What a line means. It ends the stream if and only if it is a data line that carries
   `[DONE]`; it is the event j if and only if it carries another non-empty text that
   parses to j. So comments, other fields and text that does not parse mean nothing.
   */
  lemma LineEvents<J>(parse: string -> Option<J>, line: string)
    ensures |EventOf(parse, line)| <= 1
    ensures EventOf(parse, line) == [DoneEvent] <==> Carries(line, "[DONE]")
    ensures forall j :: EventOf(parse, line) == [DataEvent(j)] <==>
      exists text :: Carries(line, text) && text != "" && text != "[DONE]" && parse(text) == Some(j)
  {
    hide RStripCr, Strip, Carries;
    if PREFIX <= RStripCr(line) {
      DataLineCarries(line);
    }
    forall text | Carries(line, text)
      ensures PREFIX <= RStripCr(line) && Strip(RStripCr(line)[|PREFIX|..]) == text
    {
      var cr := RStripCrCuts(line);
      OneTextOnly(line, text);
      DataLineCarries(line);
      OneTextOnly(line, Strip(RStripCr(line)[|PREFIX|..]));
    }
  }

  // ----- round trip -----

  /** What a server sends for an event whose JSON text is given. */
  datatype Item = Payload(json: string) | Last

  ghost predicate Sendable<J>(parse: string -> Option<J>, item: Item)
  {
    item.Payload? ==>
      (&& item.json != "" && item.json != DONE
       && !IsSpace(item.json[0]) && !IsSpace(item.json[|item.json| - 1])
       && '\n' !in item.json
       && parse(item.json).Some?)
  }

  function LineFor(item: Item): string
  {
    PREFIX + if item.Last? then DONE else item.json
  }

  /** Each event is a data line and an empty line. */
  function Encode(items: seq<Item>): string
  {
    if items == [] then "" else LineFor(items[0]) + "\n\n" + Encode(items[1..])
  }

  function Meaning<J>(parse: string -> Option<J>, items: seq<Item>): seq<Event<J>>
    requires forall i :: 0 <= i < |items| ==> (items[i].Payload? ==> parse(items[i].json).Some?)
  {
    seq(|items|, i requires 0 <= i < |items| =>
      if items[i].Last? then DoneEvent else DataEvent(parse(items[i].json).value))
  }

  lemma LineMeans<J>(parse: string -> Option<J>, item: Item)
    requires Sendable(parse, item)
    ensures EventOf(parse, LineFor(item)) == Meaning(parse, [item])
    ensures '\n' !in LineFor(item)
  {
    var data := if item.Last? then DONE else item.json;
    var line := LineFor(item);
    assert line[|line| - 1] == data[|data| - 1];
    assert RStripCr(line) == line;
    assert PREFIX <= line && line[|PREFIX|..] == data;
    assert Strip(data) == data;
  }

  ghost predicate AllSendable<J>(parse: string -> Option<J>, items: seq<Item>)
  {
    forall i :: 0 <= i < |items| ==> Sendable(parse, items[i])
  }

  lemma OneEncodedDrains<J>(parse: string -> Option<J>, item: Item)
    requires Sendable(parse, item)
    ensures Drain(parse, LineFor(item) + "\n\n") == (Meaning(parse, [item]), "")
  {
    hide EventOf, Drain, LineFor;
    var line := LineFor(item);
    LineMeans(parse, item);
    assert line + "\n\n" == line + "\n" + ("" + "\n" + "");
    DrainLine(parse, line, "" + "\n" + "");
    DrainLine(parse, "", "");
    DrainUnfinished(parse, "");
    EmptyLineMeansNothing(parse);
    assert Meaning(parse, [item]) + ([] + []) == Meaning(parse, [item]);
  }

  lemma EmptyLineMeansNothing<J>(parse: string -> Option<J>)
    ensures EventOf(parse, "") == []
  {
  }

  lemma {:induction false} EncodedDrains<J>(parse: string -> Option<J>, items: seq<Item>)
    requires AllSendable(parse, items)
    ensures Drain(parse, Encode(items)) == (Meaning(parse, items), "")
  {
    if items == [] {
      assert Meaning(parse, items) == [];
      DrainUnfinished(parse, "");
    } else {
      hide Drain, LineFor, EventOf, Meaning;
      var first, rest := LineFor(items[0]) + "\n\n", Encode(items[1..]);
      OneEncodedDrains(parse, items[0]);
      EncodedDrains(parse, items[1..]);
      DrainAppend(parse, first, rest);
      assert "" + rest == rest;
      MeaningSplits(parse, items);
    }
  }

  lemma MeaningSplits<J>(parse: string -> Option<J>, items: seq<Item>)
    requires AllSendable(parse, items) && items != []
    ensures Meaning(parse, items) == Meaning(parse, [items[0]]) + Meaning(parse, items[1..])
  {
  }

  /** Sending events and decoding them, cut into chunks anywhere, gives the events back. */
  lemma RoundTrip<J>(parse: string -> Option<J>, items: seq<Item>, chunks: seq<string>)
    requires AllSendable(parse, items)
    requires Concat(chunks) == Encode(items)
    ensures DecodeAll(parse, "", chunks) == (Meaning(parse, items), "")
  {
    ChunkingDoesNotMatter(parse, "", chunks);
    assert "" + Concat(chunks) == Concat(chunks);
    EncodedDrains(parse, items);
  }
}
