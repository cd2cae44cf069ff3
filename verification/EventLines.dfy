/** What the reader of the event stream makes of lines, told from the text alone. */
module EventLines {
  import opened Common
  import opened Characters
  import opened EventStream

  // ----- lines -----

  /** Lines with a line feed after each. */
  function Joined(lines: seq<string>): string {
    if lines == [] then "" else lines[0] + "\n" + Joined(lines[1..])
  }

  lemma {:induction false} CutIs(text: string)
    ensures Cut(text) == None <==> '\n' !in text
    ensures Cut(text).Some? ==>
      text == Cut(text).value.0 + "\n" + Cut(text).value.1 && '\n' !in Cut(text).value.0
  {
    if text != "" {
      CutIs(text[1..]);
      assert text == [text[0]] + text[1..];
    }
  }

  /** The lines are what stands between line feeds, and the rest what comes after the last one. */
  lemma {:induction false} LinesAre(text: string)
    ensures text == Joined(Lines(text)) + Rest(text) && '\n' !in Rest(text)
    ensures forall k :: 0 <= k < |Lines(text)| ==> '\n' !in Lines(text)[k]
    decreases |text|
  {
    CutIs(text);
    match Cut(text)
    case None =>
    case Some((line, rest)) =>
      LinesAre(rest);
      LineBefore(line, rest, Lines(rest), Rest(rest));
  }

  lemma LineBefore(line: string, rest: string, lines: seq<string>, tail: string)
    requires rest == Joined(lines) + tail
    ensures line + "\n" + rest == Joined([line] + lines) + tail
  {
    assert ([line] + lines)[1..] == lines;
    assert line + "\n" + (Joined(lines) + tail) == line + "\n" + Joined(lines) + tail;
  }

  /** A carriage return before the line feed changes nothing. */
  lemma ReturnIsIgnored<J>(line: string, p: Pending, client: Client<J>)
    requires line == "" || line[|line| - 1] != '\r'
    ensures OnLine(line + "\r", p, client) == OnLine(line, p, client)
  {
    assert (line + "\r")[..|line|] == line;
  }

  // ----- white space -----

  predicate AllSpaces(s: string) {
    forall k :: 0 <= k < |s| ==> IsJsSpace(s[k])
  }

  lemma {:induction false} TrimStartIs(s: string) returns (i: nat)
    ensures i <= |s| && TrimStart(s) == s[i..] && AllSpaces(s[..i]) && (i < |s| ==> !IsJsSpace(s[i]))
  {
    i := 0;
    if s != "" && IsJsSpace(s[0]) {
      var j := TrimStartIs(s[1..]);
      i := j + 1;
      assert s[..i] == [s[0]] + s[1..][..j];
    }
  }

  lemma {:induction false} TrimEndIs(s: string) returns (j: nat)
    ensures j <= |s| && TrimEnd(s) == s[..j] && AllSpaces(s[j..]) && (j > 0 ==> !IsJsSpace(s[j - 1]))
  {
    j := |s|;
    if s != "" && IsJsSpace(s[|s| - 1]) {
      var before := s[..|s| - 1];
      j := TrimEndIs(before);
      assert before[..j] == s[..j];
      forall k | 0 <= k < |s[j..]| ensures IsJsSpace(s[j..][k]) {
        assert j + k < |before| ==> s[j..][k] == before[j..][k];
      }
    }
  }

  /** What is left of a text is the stretch between its first and its last character that is no white space. */
  lemma TrimIs(s: string) returns (i: nat, j: nat)
    ensures i <= j <= |s| && Trim(s) == s[i..j] && AllSpaces(s[..i]) && AllSpaces(s[j..])
    ensures i < j ==> !IsJsSpace(s[i]) && !IsJsSpace(s[j - 1])
  {
    i := TrimStartIs(s);
    var n := TrimEndIs(s[i..]);
    j := i + n;
    assert s[i..][n..] == s[j..];
  }

  // ----- events -----

  /** A line without its carriage return. */
  predicate IsField(raw: string, word: string) {
    var line := StripReturn(raw);
    |word| <= |line| && line[..|word|] == word
  }

  /** The last line of a field. */
  ghost predicate IsLastField(lines: seq<string>, word: string, k: nat) {
    k < |lines| && IsField(lines[k], word) && forall j :: k < j < |lines| ==> !IsField(lines[j], word)
  }

  ghost predicate HasNone(lines: seq<string>, word: string) {
    forall j :: 0 <= j < |lines| ==> !IsField(lines[j], word)
  }

  predicate IsBlank(raw: string) { StripReturn(raw) == "" }

  lemma FieldLine<J>(raw: string, p: Pending, client: Client<J>)
    requires !IsBlank(raw)
    ensures OnLine(raw, p, client)
         == ([], Pending(if IsField(raw, "event:") then Trim(StripReturn(raw)[6..]) else p.name,
                         if IsField(raw, "data:") then TrimStart(StripReturn(raw)[5..]) else p.data))
  {
    var line := StripReturn(raw);
    if IsField(raw, "event:") {
      assert line[..6][0] == 'e';
    }
    if IsField(raw, "data:") {
      assert line[..5][0] == 'd';
    }
  }

  lemma LastInRest(lines: seq<string>, word: string, k: nat)
    requires lines != [] && IsLastField(lines, word, k)
    ensures if k == 0 then HasNone(lines[1..], word) else IsLastField(lines[1..], word, k - 1)
  {
    forall j | 0 <= j < |lines[1..]| ensures lines[1..][j] == lines[j + 1] {
    }
  }

  /** Lines without a blank one give no event. They leave the name of the last `event:` line and the data of the
      last `data:` line, and what was there before if they have none. */
  lemma {:induction false} NameIs<J>(lines: seq<string>, p: Pending, client: Client<J>, k: nat)
    requires forall j :: 0 <= j < |lines| ==> !IsBlank(lines[j])
    ensures Run(lines, p, LineStep(client)).0 == []
    ensures IsLastField(lines, "event:", k) ==> Run(lines, p, LineStep(client)).1.name == Trim(StripReturn(lines[k])[6..])
    ensures HasNone(lines, "event:") ==> Run(lines, p, LineStep(client)).1.name == p.name
  {
    if lines != [] {
      FieldLine(lines[0], p, client);
      var p' := OnLine(lines[0], p, client).1;
      assert LineStep(client)(lines[0], p) == ([], p');
      forall j | 0 <= j < |lines[1..]| ensures lines[1..][j] == lines[j + 1] {
      }
      if IsLastField(lines, "event:", k) {
        LastInRest(lines, "event:", k);
      }
      NameIs(lines[1..], p', client, if k > 0 then k - 1 else 0);
      assert [] + Run(lines[1..], p', LineStep(client)).0 == Run(lines[1..], p', LineStep(client)).0;
    }
  }

  lemma {:induction false} DataIs<J>(lines: seq<string>, p: Pending, client: Client<J>, k: nat)
    requires forall j :: 0 <= j < |lines| ==> !IsBlank(lines[j])
    ensures IsLastField(lines, "data:", k) ==> Run(lines, p, LineStep(client)).1.data == TrimStart(StripReturn(lines[k])[5..])
    ensures HasNone(lines, "data:") ==> Run(lines, p, LineStep(client)).1.data == p.data
  {
    if lines != [] {
      FieldLine(lines[0], p, client);
      var p' := OnLine(lines[0], p, client).1;
      assert LineStep(client)(lines[0], p) == ([], p');
      forall j | 0 <= j < |lines[1..]| ensures lines[1..][j] == lines[j + 1] {
      }
      if IsLastField(lines, "data:", k) {
        LastInRest(lines, "data:", k);
      }
      DataIs(lines[1..], p', client, if k > 0 then k - 1 else 0);
    }
  }

  /** A blank line gives one event, if the name is known and the data is JSON, and forgets both. */
  lemma BlankLine<J>(raw: string, p: Pending, client: Client<J>)
    requires IsBlank(raw)
    ensures OnLine(raw, p, client)
         == (if p.name != "" && p.name in client.known && client.parse(p.data).Some?
             then [Event(p.name, client.parse(p.data).value)] else [],
             Pending("", ""))
  {
  }

  // ----- the parser of a finished stream -----

  predicate IsEmptyLine(text: string, k: nat) {
    k + 1 < |text| && text[k] == '\n' && text[k + 1] == '\n'
  }

  /** The text is cut at its first empty line. */
  lemma {:induction false} CutBlockIs(text: string)
    ensures CutBlock(text) == None <==> forall k: nat :: !IsEmptyLine(text, k)
    ensures CutBlock(text).Some? ==>
      var (block, rest) := CutBlock(text).value;
      text == block + "\n\n" + rest && forall k: nat :: k < |block| ==> !IsEmptyLine(text, k)
  {
    if |text| >= 2 && !IsEmptyLine(text, 0) {
      CutBlockIs(text[1..]);
      assert text == [text[0]] + text[1..];
      forall k: nat | k > 0 ensures IsEmptyLine(text, k) <==> IsEmptyLine(text[1..], k - 1) {
      }
      if k: nat :| IsEmptyLine(text[1..], k) {
        assert IsEmptyLine(text, k + 1);
      }
    } else if |text| >= 2 {
      assert text == "" + "\n\n" + text[2..];
    }
  }

  /** A field of a block: the rest of the first line that has the prefix and goes on after it. */
  ghost predicate IsFirstWith(segments: seq<string>, prefix: string, k: nat) {
    && k < |segments| && prefix < segments[k]
    && forall j :: 0 <= j < k ==> !(prefix < segments[j])
  }

  lemma {:induction false} FirstFieldIs(segments: seq<string>, prefix: string)
    ensures FirstField(segments, prefix) == None <==> forall j :: 0 <= j < |segments| ==> !(prefix < segments[j])
    ensures forall k: nat :: IsFirstWith(segments, prefix, k) ==>
      FirstField(segments, prefix) == Some(segments[k][|prefix|..]) && segments[k][|prefix|..] != ""
  {
    if segments != [] && !(prefix < segments[0]) {
      FirstFieldIs(segments[1..], prefix);
      forall j | 0 <= j < |segments[1..]| ensures segments[1..][j] == segments[j + 1] {
      }
      forall k: nat | IsFirstWith(segments, prefix, k) ensures k > 0 && IsFirstWith(segments[1..], prefix, k - 1) {
      }
    }
  }

  /** A block without a name or without data gives nothing; one with both gives its event, or no value at all if
      the data is not JSON. */
  lemma BlockGives<J>(block: string, blocks: seq<string>, parse: string -> Option<J>)
    ensures var (name, data, later) := (FirstField(Segments(block), "event: "), FirstField(Segments(block), "data: "),
                                        ParseBlocks(blocks, parse));
            && ParseBlocks([block] + blocks, parse)
               == if name == None || data == None || later == None then later
                  else if parse(data.value) == None then None
                  else Some([Event(name.value, parse(data.value).value)] + later.value)
  {
    assert ([block] + blocks)[1..] == blocks;
  }

  /** A line of a block holds none of the four characters that end one. */
  lemma {:induction false} SegmentsAre(block: string, k: nat)
    requires k < |Segments(block)|
    ensures forall j :: 0 <= j < |Segments(block)[k]| ==> !IsTerminator(Segments(block)[k][j])
  {
    if block != "" {
      var rest := Segments(block[1..]);
      if IsTerminator(block[0]) {
        if k > 0 {
          SegmentsAre(block[1..], k - 1);
        }
      } else if k > 0 {
        SegmentsAre(block[1..], k);
      } else {
        SegmentsAre(block[1..], 0);
      }
    }
  }
}
