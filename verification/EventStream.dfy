/** The event stream of the portal: what the server prints, the reader that takes it in chunks as
    they arrive, and the parser of a finished stream that the end-to-end tests use. */
module EventStream {
  import opened Common
  import opened Characters
  import opened Pieces

  // ----- text -----

  /** The line terminators of JavaScript's regular expressions. */
  predicate IsTerminator(c: char) {
    c == '\n' || c == '\r' || c == '\U{2028}' || c == '\U{2029}'
  }

  function TrimStart(s: string): string {
    if s != "" && IsJsSpace(s[0]) then TrimStart(s[1..]) else s
  }

  function TrimEnd(s: string): string {
    if s != "" && IsJsSpace(s[|s| - 1]) then TrimEnd(s[..|s| - 1]) else s
  }

  function Trim(s: string): string { TrimEnd(TrimStart(s)) }

  /** The first place of a character, or -1. */
  function IndexOf(s: string, c: char): (at: int)
    ensures -1 <= at < |s|
  {
    if s == "" then -1
    else if s[0] == c then 0
    else
      var rest := IndexOf(s[1..], c);
      if rest < 0 then -1 else rest + 1
  }

  /** A line without one carriage return at its end. */
  function StripReturn(line: string): string {
    if line != "" && line[|line| - 1] == '\r' then line[..|line| - 1] else line
  }

  predicate StartsWith(s: string, prefix: string) { prefix <= s }

  // ----- events -----

  /** An event as the client gets it: its type and the object of its data. */
  datatype Event<+J> = Event(name: string, payload: J)

  const KNOWN_EVENTS: set<string> := {
    "start", "sql_question_check", "sql_check", "sql_run", "progress", "extraction_started",
    "extraction", "search_started", "sources", "context_truncated", "reasoning_delta", "delta",
    "title", "code_fix", "code_edit", "done", "error" }

  /** What the reader relies on: the known event names, and JSON parsing, which has no value for a text
      that is not JSON. The client's own names are `KNOWN_EVENTS`. */
  datatype Client<!J> = Client(known: set<string>, parse: string -> Option<J>)

  /** No event for an unknown name or for data that is not JSON. */
  function ToEvent<J>(name: string, data: string, client: Client<J>): Option<Event<J>> {
    if name !in client.known then None
    else match client.parse(data)
      case None => None
      case Some(payload) => Some(Event(name, payload))
  }

  // ----- what a text means, line by line -----

  /** The first line of a text without its line feed, and what follows it. */
  function Cut(text: string): (r: Option<(string, string)>)
    ensures r.Some? ==> |r.value.0| + 1 + |r.value.1| == |text|
  {
    if text == "" then None
    else if text[0] == '\n' then Some(("", text[1..]))
    else match Cut(text[1..])
      case None => None
      case Some((line, rest)) => Some(([text[0]] + line, rest))
  }

  /** The lines of a text that are closed by a line feed. */
  function Lines(text: string): seq<string>
    decreases |text|
  {
    match Cut(text)
    case None => []
    case Some((line, rest)) => [line] + Lines(rest)
  }

  /** What follows the last line feed. */
  function Rest(text: string): string
    decreases |text|
  {
    match Cut(text)
    case None => text
    case Some((_, rest)) => Rest(rest)
  }

  /** Folds a list of lines. */
  function Run<S, E>(lines: seq<string>, s: S, step: (string, S) -> (seq<E>, S)): (seq<E>, S) {
    if lines == [] then ([], s)
    else
      var (now, s') := step(lines[0], s);
      var (later, s'') := Run(lines[1..], s', step);
      (now + later, s'')
  }

  /** The event being collected. */
  datatype Pending = Pending(name: string, data: string)

  /** One line: a blank one closes the event, a field sets its name or data, all others are ignored. */
  function OnLine<J>(raw: string, p: Pending, client: Client<J>): (seq<Event<J>>, Pending) {
    var line := StripReturn(raw);
    if line == "" then
      (match (if p.name == "" then None else ToEvent(p.name, p.data, client)) case None => [] case Some(e) => [e],
       Pending("", ""))
    else if StartsWith(line, "event:") then ([], p.(name := Trim(line[6..])))
    else if StartsWith(line, "data:") then ([], p.(data := TrimStart(line[5..])))
    else ([], p)
  }

  function LineStep<J>(client: Client<J>): (string, Pending) -> (seq<Event<J>>, Pending) {
    (raw, p) => OnLine(raw, p, client)
  }

  /** The events of a text, and the event that it leaves unfinished. */
  function Read<J>(text: string, p: Pending, client: Client<J>): (seq<Event<J>>, Pending) {
    Run(Lines(text), p, LineStep(client))
  }

  /** The events of a whole text. */
  function EventsOf<J>(text: string, client: Client<J>): seq<Event<J>> {
    Read(text, Pending("", ""), client).0
  }

  lemma {:induction false} CutOfConcat(a: string, b: string)
    requires Cut(a).Some?
    ensures Cut(a + b) == Some((Cut(a).value.0, Cut(a).value.1 + b))
  {
    assert (a + b)[1..] == a[1..] + b;
    if a[0] != '\n' {
      CutOfConcat(a[1..], b);
    }
  }

  lemma {:induction false} LinesOfConcat(a: string, b: string)
    ensures Lines(a + b) == Lines(a) + Lines(Rest(a) + b)
    ensures Rest(a + b) == Rest(Rest(a) + b)
    decreases |a|
  {
    match Cut(a)
    case None =>
      assert Lines(a) == [] && Rest(a) == a;
    case Some((line, rest)) =>
      CutOfConcat(a, b);
      LinesOfConcat(rest, b);
      assert [line] + (Lines(rest) + Lines(Rest(rest) + b)) == ([line] + Lines(rest)) + Lines(Rest(rest) + b);
  }

  lemma {:induction false} RunOfConcat<S, E>(a: seq<string>, b: seq<string>, s: S, step: (string, S) -> (seq<E>, S))
    ensures var (now, s') := Run(a, s, step);
            var (later, s'') := Run(b, s', step);
            Run(a + b, s, step) == (now + later, s'')
  {
    if a == [] {
      assert a + b == b && [] + Run(b, s, step).0 == Run(b, s, step).0;
    } else {
      var (first, s1) := step(a[0], s);
      var (second, s2) := Run(a[1..], s1, step);
      var (later, s3) := Run(b, s2, step);
      RunOfConcat(a[1..], b, s1, step);
      assert (a + b)[1..] == a[1..] + b;
      assert first + (second + later) == (first + second) + later;
    }
  }

  /** Reading a text in two parts. */
  lemma ReadOfConcat<J>(a: string, b: string, p: Pending, client: Client<J>)
    ensures var (now, p') := Read(a, p, client);
            var (later, p'') := Read(Rest(a) + b, p', client);
            Read(a + b, p, client) == (now + later, p'') && Rest(a + b) == Rest(Rest(a) + b)
  {
    LinesOfConcat(a, b);
    RunOfConcat(Lines(a), Lines(Rest(a) + b), p, LineStep(client));
  }

  /** Reading on never takes back or changes an event. */
  lemma EventsGrow<J>(a: string, b: string, client: Client<J>)
    ensures EventsOf(a, client) <= EventsOf(a + b, client)
  {
    ReadOfConcat(a, b, Pending("", ""), client);
  }

  /** Lines without a blank one among them yield nothing. */
  lemma {:induction false} NoBlankNoEvent<J>(lines: seq<string>, p: Pending, client: Client<J>)
    requires forall k :: 0 <= k < |lines| ==> StripReturn(lines[k]) != ""
    ensures Run(lines, p, LineStep(client)).0 == []
  {
    if lines != [] {
      assert StripReturn(lines[0]) != "";
      NoBlankNoEvent(lines[1..], OnLine(lines[0], p, client).1, client);
    }
  }

  /** An event that no blank line closes is not given out. */
  lemma UnclosedEventIsNotGiven<J>(closed: string, tail: string, client: Client<J>)
    requires Rest(closed) == ""
    requires forall k :: 0 <= k < |Lines(tail)| ==> StripReturn(Lines(tail)[k]) != ""
    ensures EventsOf(closed + tail, client) == EventsOf(closed, client)
  {
    ReadOfConcat(closed, tail, Pending("", ""), client);
    assert Rest(closed) + tail == tail;
    NoBlankNoEvent(Lines(tail), Read(closed, Pending("", ""), client).1, client);
  }

  // ----- the incremental reader -----

  lemma {:induction false} IndexIsCut(text: string)
    ensures var end := IndexOf(text, '\n');
            Cut(text) == if end < 0 then None else Some((text[..end], text[end + 1..]))
  {
    if text != "" && text[0] != '\n' {
      IndexIsCut(text[1..]);
      var end := IndexOf(text, '\n');
      assert end >= 0 ==> text[..end] == [text[0]] + text[1..][..end - 1];
    }
  }

  lemma RunCons<S, E>(line: string, lines: seq<string>, s: S, step: (string, S) -> (seq<E>, S), before: seq<E>)
    ensures var (now, s') := step(line, s);
            && before + Run([line] + lines, s, step).0 == (before + now) + Run(lines, s', step).0
            && Run([line] + lines, s, step).1 == Run(lines, s', step).1
  {
    var (now, s') := step(line, s);
    assert ([line] + lines)[1..] == lines;
    assert before + (now + Run(lines, s', step).0) == (before + now) + Run(lines, s', step).0;
  }

  /** The first line of a text is read, then the rest. */
  lemma ReadLine<J>(text: string, events: seq<Event<J>>, p: Pending, client: Client<J>)
    requires IndexOf(text, '\n') >= 0
    ensures var end := IndexOf(text, '\n');
            var (now, p') := OnLine(text[..end], p, client);
            && events + Read(text, p, client).0 == (events + now) + Read(text[end + 1..], p', client).0
            && Read(text, p, client).1 == Read(text[end + 1..], p', client).1
            && Rest(text) == Rest(text[end + 1..])
  {
    IndexIsCut(text);
    var end := IndexOf(text, '\n');
    RunCons(text[..end], Lines(text[end + 1..]), p, LineStep(client), events);
  }

  /** The variables of the reader between two chunks. `text` is all that has been decoded so far. */
  class Reader<!J> {
    const client: Client<J>
    var buffer: string
    var name: string
    var data: string
    ghost var text: string

    /** The buffer is the unfinished line, and the event being collected is that of the finished lines. */
    ghost predicate Valid()
      reads this
    {
      buffer == Rest(text) && Read(text, Pending("", ""), client).1 == Pending(name, data)
    }

    constructor (client: Client<J>)
      ensures Valid() && text == "" && this.client == client
    {
      this.client := client;
      buffer, name, data, text := "", "", "", "";
    }

    /** Acts on one line of the stream. */
    method TakeLine(raw: string) returns (given: seq<Event<J>>)
      modifies this`name, this`data
      ensures (given, Pending(name, data)) == OnLine(raw, old(Pending(name, data)), client)
    {
      given := [];
      var line := StripReturn(raw);
      if line == "" {
        var event := if name != "" then ToEvent(name, data, client) else None;
        name, data := "", "";
        if event.Some? {
          given := [event.value];
        }
      } else if StartsWith(line, "event:") {
        name := Trim(line[6..]);
      } else if StartsWith(line, "data:") {
        data := TrimStart(line[5..]);
      }
    }

    /** Takes a chunk and gives out the events that it closes, no more and no fewer. */
    method Feed(chunk: string) returns (events: seq<Event<J>>)
      requires Valid()
      modifies this
      ensures Valid() && text == old(text) + chunk
      ensures EventsOf(text, client) == EventsOf(old(text), client) + events
    {
      events := [];
      ReadOfConcat(text, chunk, Pending("", ""), client);
      text := text + chunk;
      buffer := buffer + chunk;
      ghost var (all, last) := Read(buffer, Pending(name, data), client);
      var lineEnd := IndexOf(buffer, '\n');
      while lineEnd >= 0
        invariant lineEnd == IndexOf(buffer, '\n') && Rest(text) == Rest(buffer) && text == old(text) + chunk
        invariant all == events + Read(buffer, Pending(name, data), client).0
        invariant last == Read(buffer, Pending(name, data), client).1
        decreases |buffer|
      {
        ReadLine(buffer, events, Pending(name, data), client);
        var line := buffer[..lineEnd];
        buffer := buffer[lineEnd + 1..];
        var given := TakeLine(line);
        events := events + given;
        lineEnd := IndexOf(buffer, '\n');
      }
      IndexIsCut(buffer);
    }
  }

  /** Reads a body chunk by chunk: the events depend on the text alone, not on where it was cut. */
  method ReadEvents<J>(chunks: seq<string>, client: Client<J>) returns (events: seq<Event<J>>)
    ensures events == EventsOf(Concat(chunks, |chunks|), client)
  {
    var reader := new Reader(client);
    events := [];
    for n := 0 to |chunks|
      invariant reader.Valid() && reader.client == client && reader.text == Concat(chunks, n)
      invariant events == EventsOf(reader.text, client)
    {
      assert chunks[..n + 1][..n] == chunks[..n];
      var more := reader.Feed(chunks[n]);
      events := events + more;
    }
    assert chunks[..|chunks|] == chunks;
  }

  // ----- what the server prints -----

  /** What the server sends: an event, or a comment line that keeps the connection open. */
  datatype Sent = Message(name: string, data: string) | KeepAlive

  const KEEPALIVE_COMMENT := ": keep-alive"
  const KEEPALIVE_LINE := KEEPALIVE_COMMENT + "\n" + "\n"

  function Body(name: string, data: string): string {
    "event: " + name + "\n" + "data: " + data
  }

  function FormatEvent(name: string, data: string): string {
    Body(name, data) + "\n" + "\n"
  }

  function Print(sent: seq<Sent>): string {
    if sent == [] then ""
    else (match sent[0] case Message(name, data) => FormatEvent(name, data) case KeepAlive => KEEPALIVE_LINE) + Print(sent[1..])
  }

  /** An event name is a word; its data is the text of a JSON object on one line. */
  predicate WellFormed(sent: Sent) {
    match sent
    case KeepAlive => true
    case Message(name, data) =>
      && name != "" && (forall k :: 0 <= k < |name| ==> !IsJsSpace(name[k]))
      && |data| > 1 && data[0] == '{' && data[|data| - 1] == '}'
      && (forall k :: 0 <= k < |data| ==> data[k] != '\n' && data[k] != '\r')
  }

  predicate AllWellFormed(sent: seq<Sent>) {
    forall k :: 0 <= k < |sent| ==> WellFormed(sent[k])
  }

  /** The messages with a known name and with data that is JSON, in order. */
  function Received<J>(sent: seq<Sent>, client: Client<J>): seq<Event<J>> {
    if sent == [] then []
    else
      (match sent[0]
       case KeepAlive => []
       case Message(name, data) => (match ToEvent(name, data, client) case None => [] case Some(e) => [e]))
      + Received(sent[1..], client)
  }

  predicate NoFeed(line: string) {
    forall k :: 0 <= k < |line| ==> line[k] != '\n'
  }

  lemma {:induction false} CutLine(line: string, rest: string)
    requires NoFeed(line)
    ensures Cut(line + "\n" + rest) == Some((line, rest))
  {
    if line == "" {
      assert line + "\n" + rest == "\n" + rest;
    } else {
      CutLine(line[1..], rest);
      assert (line + "\n" + rest)[1..] == line[1..] + "\n" + rest;
      assert [line[0]] + line[1..] == line;
    }
  }

  lemma TrimWord(name: string)
    requires name != "" && forall k :: 0 <= k < |name| ==> !IsJsSpace(name[k])
    ensures Trim(" " + name) == name
  {
    assert (" " + name)[1..] == name;
    assert TrimStart(" " + name) == TrimStart(name) == name;
  }

  lemma ReadEventLine<J>(name: string, p: Pending, client: Client<J>)
    requires WellFormed(Message(name, "{}"))
    ensures OnLine("event: " + name, p, client) == ([], p.(name := name))
  {
    var line := "event: " + name;
    assert !IsJsSpace(name[|name| - 1]) && line[|line| - 1] == name[|name| - 1];
    assert StripReturn(line) == line && "event:" <= line;
    assert line[6..] == " " + name;
    TrimWord(name);
  }

  lemma ReadDataLine<J>(data: string, p: Pending, client: Client<J>)
    requires WellFormed(Message("x", data))
    ensures OnLine("data: " + data, p, client) == ([], p.(data := data))
  {
    var line := "data: " + data;
    assert line[|line| - 1] == '}';
    assert StripReturn(line) == line && "data:" <= line && line[0] == 'd';
    assert line[5..] == " " + data;
    assert (" " + data)[1..] == data;
    assert TrimStart(" " + data) == TrimStart(data) == data;
  }

  lemma ReadBlankLine<J>(name: string, data: string, client: Client<J>)
    requires name != ""
    ensures OnLine("", Pending(name, data), client)
         == ((match ToEvent(name, data, client) case None => [] case Some(e) => [e]), Pending("", ""))
  {
  }

  lemma LinesLine(line: string, rest: string)
    requires NoFeed(line)
    ensures Lines(line + "\n" + rest) == [line] + Lines(rest) && Rest(line + "\n" + rest) == Rest(rest)
  {
    CutLine(line, rest);
  }

  /** An event as printed is three lines. */
  lemma MessageLines(name: string, data: string, rest: string)
    requires WellFormed(Message(name, data))
    ensures Lines(FormatEvent(name, data) + rest) == ["event: " + name] + (["data: " + data] + ([""] + Lines(rest)))
    ensures Rest(FormatEvent(name, data) + rest) == Rest(rest)
  {
    var text2 := "" + "\n" + rest;
    var text1 := ("data: " + data) + "\n" + text2;
    assert FormatEvent(name, data) + rest == ("event: " + name) + "\n" + text1;
    assert NoFeed(name) by {
      assert forall k :: 0 <= k < |name| ==> !IsJsSpace(name[k]);
    }
    LinesLine("event: " + name, text1);
    LinesLine("data: " + data, text2);
    LinesLine("", rest);
  }

  lemma KeepAliveLines(rest: string)
    ensures Lines(KEEPALIVE_LINE + rest) == [KEEPALIVE_COMMENT] + ([""] + Lines(rest))
    ensures Rest(KEEPALIVE_LINE + rest) == Rest(rest)
  {
    var text1 := "" + "\n" + rest;
    assert KEEPALIVE_LINE + rest == KEEPALIVE_COMMENT + "\n" + text1;
    LinesLine(KEEPALIVE_COMMENT, text1);
    LinesLine("", rest);
  }

  lemma RunSkip<S, E>(line: string, lines: seq<string>, s: S, step: (string, S) -> (seq<E>, S))
    requires step(line, s).0 == []
    ensures Run([line] + lines, s, step) == Run(lines, step(line, s).1, step)
  {
    RunCons(line, lines, s, step, []);
    var later := Run(lines, step(line, s).1, step).0;
    assert ([line] + lines)[1..] == lines && [] + later == later;
  }

  lemma RunHead<S, E>(line: string, lines: seq<string>, s: S, step: (string, S) -> (seq<E>, S))
    ensures var (now, s') := step(line, s);
            var (later, s'') := Run(lines, s', step);
            Run([line] + lines, s, step) == (now + later, s'')
  {
    assert ([line] + lines)[1..] == lines;
  }

  lemma RunThree<S, E>(a: string, b: string, c: string, lines: seq<string>, s0: S, s1: S, s2: S, now: seq<E>, s3: S,
                       step: (string, S) -> (seq<E>, S))
    requires step(a, s0) == ([], s1) && step(b, s1) == ([], s2) && step(c, s2) == (now, s3)
    ensures Run([a] + ([b] + ([c] + lines)), s0, step) == (now + Run(lines, s3, step).0, Run(lines, s3, step).1)
  {
    RunSkip(a, [b] + ([c] + lines), s0, step);
    RunSkip(b, [c] + lines, s1, step);
    RunHead(c, lines, s2, step);
  }

  lemma ReadMessage<J>(name: string, data: string, lines: seq<string>, client: Client<J>)
    requires WellFormed(Message(name, data))
    ensures Run(["event: " + name] + (["data: " + data] + ([""] + lines)), Pending("", ""), LineStep(client))
         == ((match ToEvent(name, data, client) case None => [] case Some(e) => [e])
               + Run(lines, Pending("", ""), LineStep(client)).0,
             Run(lines, Pending("", ""), LineStep(client)).1)
  {
    var now := match ToEvent(name, data, client) case None => [] case Some(e) => [e];
    ReadEventLine(name, Pending("", ""), client);
    ReadDataLine(data, Pending(name, ""), client);
    ReadBlankLine(name, data, client);
    RunThree("event: " + name, "data: " + data, "", lines, Pending("", ""), Pending(name, ""), Pending(name, data),
             now, Pending("", ""), LineStep(client));
  }

  lemma ReadComment<J>(line: string, p: Pending, client: Client<J>)
    requires line != "" && line[0] == ':' && line[|line| - 1] != '\r'
    ensures OnLine(line, p, client) == ([], p)
  {
  }

  lemma ReadKeepAlive<J>(lines: seq<string>, client: Client<J>)
    ensures Run([KEEPALIVE_COMMENT] + ([""] + lines), Pending("", ""), LineStep(client)) == Run(lines, Pending("", ""), LineStep(client))
  {
    var step := LineStep(client);
    ReadComment(KEEPALIVE_COMMENT, Pending("", ""), client);
    assert step(KEEPALIVE_COMMENT, Pending("", "")) == ([], Pending("", ""));
    assert step("", Pending("", "")) == OnLine("", Pending("", ""), client) == ([], Pending("", ""));
    RunSkip(KEEPALIVE_COMMENT, [""] + lines, Pending("", ""), step);
    RunSkip("", lines, Pending("", ""), step);
  }

  /** The reader gives out exactly the messages that the server sent and the client knows. */
  lemma {:induction false} ReaderRoundTrip<J>(sent: seq<Sent>, client: Client<J>)
    requires AllWellFormed(sent)
    ensures Read(Print(sent), Pending("", ""), client) == (Received(sent, client), Pending("", ""))
    ensures Rest(Print(sent)) == ""
  {
    if sent != [] {
      var rest := Print(sent[1..]);
      ReaderRoundTrip(sent[1..], client);
      match sent[0]
      case Message(name, data) =>
        assert WellFormed(sent[0]);
        MessageLines(name, data, rest);
        ReadMessage(name, data, Lines(rest), client);
      case KeepAlive =>
        KeepAliveLines(rest);
        ReadKeepAlive(Lines(rest), client);
        assert [] + Received(sent[1..], client) == Received(sent[1..], client);
    }
  }

  /** However the printed text is cut into chunks, the reader gives out the known messages that were sent. */
  method ReadPrinted<J>(ghost sent: seq<Sent>, chunks: seq<string>, client: Client<J>) returns (events: seq<Event<J>>)
    requires AllWellFormed(sent) && Concat(chunks, |chunks|) == Print(sent)
    ensures events == Received(sent, client)
  {
    ReaderRoundTrip(sent, client);
    events := ReadEvents(chunks, client);
  }

  // ----- the parser of a finished stream -----

  /** The text before the first empty line and the text after it. */
  function CutBlock(text: string): (r: Option<(string, string)>)
    ensures r.Some? ==> |r.value.0| + 2 + |r.value.1| == |text|
  {
    if |text| < 2 then None
    else if text[0] == '\n' && text[1] == '\n' then Some(("", text[2..]))
    else match CutBlock(text[1..])
      case None => None
      case Some((block, rest)) => Some(([text[0]] + block, rest))
  }

  /** `split` at empty lines. */
  function Blocks(text: string): seq<string>
    decreases |text|
  {
    match CutBlock(text)
    case None => [text]
    case Some((block, rest)) => [block] + Blocks(rest)
  }

  /** The lines of a block as a multi-line regular expression sees them: four characters end a line. */
  function Segments(block: string): (segments: seq<string>)
    ensures |segments| > 0
  {
    if block == "" then [""]
    else
      var rest := Segments(block[1..]);
      if IsTerminator(block[0]) then [""] + rest else [[block[0]] + rest[0]] + rest[1..]
  }

  /** What follows the prefix on the first line that has it and goes on after it. */
  function FirstField(segments: seq<string>, prefix: string): Option<string> {
    if segments == [] then None
    else if prefix < segments[0] then Some(segments[0][|prefix|..])
    else FirstField(segments[1..], prefix)
  }

  /** An event in front of others, if its name and data were found; no value if some data is not JSON. */
  function Prepend<J>(name: Option<string>, data: Option<string>, later: Option<seq<Event<J>>>, parse: string -> Option<J>)
    : Option<seq<Event<J>>>
  {
    match (name, data, later)
    case (Some(n), Some(d), Some(events)) =>
      (match parse(d) case None => None case Some(payload) => Some([Event(n, payload)] + events))
    case (_, _, _) => later
  }

  /** The events of the blocks that have a name and data. */
  function ParseBlocks<J>(blocks: seq<string>, parse: string -> Option<J>): Option<seq<Event<J>>> {
    if blocks == [] then Some([])
    else
      var segments := Segments(blocks[0]);
      Prepend(FirstField(segments, "event: "), FirstField(segments, "data: "), ParseBlocks(blocks[1..], parse), parse)
  }

  function ParseStream<J>(body: string, parse: string -> Option<J>): Option<seq<Event<J>>> {
    ParseBlocks(Blocks(body), parse)
  }

  /** All messages with their payloads; no value if some data is not JSON. */
  function Messages<J>(sent: seq<Sent>, parse: string -> Option<J>): Option<seq<Event<J>>> {
    if sent == [] then Some([])
    else match sent[0]
      case Message(name, data) => Prepend(Some(name), Some(data), Messages(sent[1..], parse), parse)
      case KeepAlive => Messages(sent[1..], parse)
  }

  /** The data stays on one line for the regular expressions too. */
  predicate OneSegment(data: string) {
    forall k :: 0 <= k < |data| ==> !IsTerminator(data[k])
  }

  predicate AllOneSegment(sent: seq<Sent>) {
    forall k :: 0 <= k < |sent| ==> sent[k].Message? ==> OneSegment(sent[k].data)
  }

  /** A block has no empty line in it and does not end with a line feed. */
  predicate IsBlock(text: string) {
    text != "" && text[|text| - 1] != '\n' && forall k :: 0 <= k < |text| - 1 ==> !(text[k] == '\n' && text[k + 1] == '\n')
  }

  lemma {:induction false} CutBlockOf(block: string, rest: string)
    requires IsBlock(block)
    ensures CutBlock(block + "\n\n" + rest) == Some((block, rest))
  {
    var text := block + "\n\n" + rest;
    assert text[1..] == block[1..] + "\n\n" + rest;
    if |block| > 1 {
      assert IsBlock(block[1..]) by {
        assert forall k :: 0 <= k < |block| - 1 ==> !(block[k] == '\n' && block[k + 1] == '\n');
      }
      CutBlockOf(block[1..], rest);
    } else {
      assert text[1..][0] == '\n' && text[1..][1] == '\n' && text[1..][2..] == rest;
      assert CutBlock(text[1..]) == Some(("", rest));
    }
    assert [block[0]] + block[1..] == block;
  }

  /** The segments up to the first terminator of `more`. */
  lemma {:induction false} SegmentsOf(line: string, more: string)
    requires OneSegment(line) && (more == "" || IsTerminator(more[0]))
    ensures Segments(line + more) == [line] + (if more == "" then [] else Segments(more[1..]))
  {
    if line == "" {
      assert line + more == more;
    } else {
      assert !IsTerminator(line[0]);
      assert (line + more)[1..] == line[1..] + more && [line[0]] + line[1..] == line;
      assert OneSegment(line[1..]) by { assert forall k :: 0 <= k < |line| ==> !IsTerminator(line[k]); }
      SegmentsOf(line[1..], more);
    }
  }

  /** Where a line of a regular expression would end. */
  function SegmentEnd(data: string): (end: nat)
    ensures end <= |data| && OneSegment(data[..end]) && (end < |data| ==> IsTerminator(data[end]))
  {
    if data == "" || IsTerminator(data[0]) then 0
    else
      assert data[1..][..SegmentEnd(data[1..])] == data[..1 + SegmentEnd(data[1..])][1..];
      1 + SegmentEnd(data[1..])
  }

  lemma DataField(data: string)
    requires WellFormed(Message("x", data))
    ensures FirstField(Segments("data: " + data), "data: ") == Some(data[..SegmentEnd(data)])
  {
    var end := SegmentEnd(data);
    var line := "data: " + data[..end];
    assert "data: " + data == line + data[end..];
    assert OneSegment(line) by { assert OneSegment(data[..end]); }
    SegmentsOf(line, data[end..]);
    assert "data: " < line && line[6..] == data[..end];
  }

  lemma NameField(name: string, data: string)
    requires WellFormed(Message(name, data))
    ensures Segments(Body(name, data)) == ["event: " + name] + Segments("data: " + data)
  {
    var line, more := "event: " + name, "\n" + ("data: " + data);
    assert Body(name, data) == line + more && more[1..] == "data: " + data;
    assert OneSegment(name) by {
      assert forall k :: 0 <= k < |name| ==> !IsJsSpace(name[k]);
    }
    SegmentsOf(line, more);
  }

  lemma MessageFields(name: string, data: string)
    requires WellFormed(Message(name, data))
    ensures FirstField(Segments(Body(name, data)), "event: ") == Some(name)
    ensures FirstField(Segments(Body(name, data)), "data: ") == Some(data[..SegmentEnd(data)])
  {
    var line, segments := "event: " + name, Segments("data: " + data);
    NameField(name, data);
    DataField(data);
    assert ([line] + segments)[1..] == segments;
    assert "event: " < line && line[7..] == name;
    assert !("data: " < line) by { assert line[0] == 'e'; }
  }

  lemma BodyIsBlock(name: string, data: string)
    requires WellFormed(Message(name, data))
    ensures IsBlock(Body(name, data))
  {
    var line, more := "event: " + name, "data: " + data;
    assert forall k :: 0 <= k < |name| ==> !IsJsSpace(name[k]);
    assert NoFeed(line) && NoFeed(more) && Body(name, data) == line + "\n" + more;
  }

  lemma KeepAliveFields()
    ensures IsBlock(KEEPALIVE_COMMENT)
    ensures FirstField(Segments(KEEPALIVE_COMMENT), "event: ") == None
  {
    SegmentsOf(KEEPALIVE_COMMENT, "");
    assert KEEPALIVE_COMMENT + "" == KEEPALIVE_COMMENT;
  }

  lemma BatchBlock<J>(block: string, rest: string, parse: string -> Option<J>)
    requires IsBlock(block)
    ensures ParseStream(block + "\n\n" + rest, parse)
         == Prepend(FirstField(Segments(block), "event: "), FirstField(Segments(block), "data: "), ParseStream(rest, parse), parse)
  {
    CutBlockOf(block, rest);
    assert ([block] + Blocks(rest))[1..] == Blocks(rest);
  }

  lemma TwoFeeds(block: string, rest: string)
    ensures block + "\n" + "\n" + rest == block + "\n\n" + rest
  {
    assert "\n" + "\n" == "\n\n";
  }

  lemma BatchMessage<J>(name: string, data: string, rest: string, parse: string -> Option<J>)
    requires WellFormed(Message(name, data))
    ensures ParseStream(FormatEvent(name, data) + rest, parse)
         == Prepend(Some(name), Some(data[..SegmentEnd(data)]), ParseStream(rest, parse), parse)
  {
    MessageFields(name, data);
    BodyIsBlock(name, data);
    BatchBlock(Body(name, data), rest, parse);
    TwoFeeds(Body(name, data), rest);
  }

  lemma BatchKeepAlive<J>(rest: string, parse: string -> Option<J>)
    ensures ParseStream(KEEPALIVE_LINE + rest, parse) == ParseStream(rest, parse)
  {
    KeepAliveFields();
    BatchBlock(KEEPALIVE_COMMENT, rest, parse);
    TwoFeeds(KEEPALIVE_COMMENT, rest);
  }

  /** What the regular expressions see of the messages: data up to its first line terminator. */
  function Seen(sent: seq<Sent>): seq<Sent> {
    if sent == [] then []
    else
      var first := match sent[0] case KeepAlive => KeepAlive case Message(name, data) => Message(name, data[..SegmentEnd(data)]);
      [first] + Seen(sent[1..])
  }

  /** The parser of a finished stream gives out all messages, as far as its expressions see them. */
  lemma {:induction false} BatchSees<J>(sent: seq<Sent>, parse: string -> Option<J>)
    requires AllWellFormed(sent)
    ensures ParseStream(Print(sent), parse) == Messages(Seen(sent), parse)
  {
    if sent == [] {
      assert Blocks("") == [""] && Segments("") == [""];
    } else {
      BatchSees(sent[1..], parse);
      assert Seen(sent)[1..] == Seen(sent[1..]);
      match sent[0]
      case Message(name, data) =>
        assert WellFormed(sent[0]);
        BatchMessage(name, data, Print(sent[1..]), parse);
      case KeepAlive =>
        BatchKeepAlive(Print(sent[1..]), parse);
    }
  }

  /** Data that is JSON, no beginning of which is: what holds of every JSON object. */
  predicate IsJson<J>(data: string, parse: string -> Option<J>) {
    parse(data).Some? && forall k :: 0 <= k < |data| ==> parse(data[..k]) == None
  }

  predicate AllJson<J>(sent: seq<Sent>, parse: string -> Option<J>) {
    forall k :: 0 <= k < |sent| ==> sent[k].Message? ==> IsJson(sent[k].data, parse)
  }

  lemma AllOneSegmentSplit(sent: seq<Sent>)
    requires sent != []
    ensures AllOneSegment(sent) <==> (sent[0].Message? ==> OneSegment(sent[0].data)) && AllOneSegment(sent[1..])
  {
    assert forall k :: 1 <= k < |sent| ==> sent[k] == sent[1..][k - 1];
  }

  lemma SegmentEndOf(data: string)
    ensures if OneSegment(data) then data[..SegmentEnd(data)] == data else SegmentEnd(data) < |data|
  {
    if SegmentEnd(data) == |data| {
      assert data[..|data|] == data;
    }
  }

  lemma {:induction false} SeenMessages<J>(sent: seq<Sent>, parse: string -> Option<J>)
    requires AllJson(sent, parse)
    ensures Messages(sent, parse).Some?
    ensures Messages(Seen(sent), parse) == if AllOneSegment(sent) then Messages(sent, parse) else None
  {
    if sent != [] {
      SeenMessages(sent[1..], parse);
      assert Seen(sent)[1..] == Seen(sent[1..]);
      AllOneSegmentSplit(sent);
      if sent[0].Message? {
        assert IsJson(sent[0].data, parse);
        SegmentEndOf(sent[0].data);
      }
    }
  }

  /** The tests' parser returns all messages of the printed stream exactly if no data has a line
      terminator of the regular expressions in it; otherwise it throws. The server prints JSON with the
      characters U+2028 and U+2029 as they are. */
  lemma BatchRoundTrip<J>(sent: seq<Sent>, parse: string -> Option<J>)
    requires AllWellFormed(sent) && AllJson(sent, parse)
    ensures Messages(sent, parse).Some?
    ensures ParseStream(Print(sent), parse) == if AllOneSegment(sent) then Messages(sent, parse) else None
  {
    BatchSees(sent, parse);
    SeenMessages(sent, parse);
  }

  function KnownOnly<J>(events: seq<Event<J>>, known: set<string>): seq<Event<J>> {
    if events == [] then []
    else
      var later := KnownOnly(events[1..], known);
      if events[0].name in known then [events[0]] + later else later
  }

  /** What the client receives of some messages is what it knows of them. */
  lemma {:induction false} ReceivedIsKnown<J>(sent: seq<Sent>, client: Client<J>)
    requires AllJson(sent, client.parse)
    ensures Messages(sent, client.parse).Some?
    ensures Received(sent, client) == KnownOnly(Messages(sent, client.parse).value, client.known)
  {
    if sent != [] {
      assert AllJson(sent[1..], client.parse) by {
        assert forall k :: 0 <= k < |sent[1..]| ==> sent[1..][k] == sent[k + 1];
      }
      ReceivedIsKnown(sent[1..], client);
      var later := Messages(sent[1..], client.parse).value;
      match sent[0]
      case Message(name, data) =>
        assert IsJson(data, client.parse);
        assert ([Event(name, client.parse(data).value)] + later)[1..] == later;
      case KeepAlive =>
    }
  }

  /** The two parsers on one text: where the one for a whole body reads it, which is where no data holds a
      line separator, the client's reader gives the same events, less those it does not know. */
  lemma ParsersAgree<J>(sent: seq<Sent>, client: Client<J>)
    requires AllWellFormed(sent) && AllJson(sent, client.parse)
    ensures var batch := ParseStream(Print(sent), client.parse);
            && (batch.Some? <==> AllOneSegment(sent))
            && (batch.Some? ==> EventsOf(Print(sent), client) == KnownOnly(batch.value, client.known))
  {
    BatchRoundTrip(sent, client.parse);
    ReaderRoundTrip(sent, client);
    ReceivedIsKnown(sent, client);
  }

  /** One event whose text holds a line separator: the client gets it, the tests' parser throws. */
  lemma SeparatorBreaksBatch<J>(name: string, data: string, client: Client<J>)
    requires WellFormed(Message(name, data)) && name in client.known && IsJson(data, client.parse)
    requires !OneSegment(data)
    ensures EventsOf(Print([Message(name, data)]), client) == [Event(name, client.parse(data).value)]
    ensures ParseStream(Print([Message(name, data)]), client.parse) == None
  {
    var sent := [Message(name, data)];
    BatchRoundTrip(sent, client.parse);
    ReaderRoundTrip(sent, client);
    assert Received(sent[1..], client) == [];
    assert !OneSegment(sent[0].data);
  }

  lemma SeparatorData() returns (data: string, parse: string -> Option<int>)
    ensures WellFormed(Message("delta", data)) && IsJson(data, parse) && !OneSegment(data)
  {
    var text := "{\"\U{2028}\":0}";
    parse := s => if s == text then Some(0) else None;
    data := text;
    assert IsTerminator(data[2]);
    assert forall k :: 0 <= k < |data| ==> |data[..k]| < |data|;
  }

  /** There is such an event: its data is an object whose only name is a line separator. */
  lemma SeparatorExample() returns (sent: seq<Sent>, client: Client<int>)
    ensures AllWellFormed(sent) && AllJson(sent, client.parse)
    ensures |EventsOf(Print(sent), client)| == 1 && ParseStream(Print(sent), client.parse) == None
  {
    var data, parse := SeparatorData();
    client := Client({"delta"}, parse);
    sent := [Message("delta", data)];
    SeparatorBreaksBatch("delta", data, client);
  }
}
