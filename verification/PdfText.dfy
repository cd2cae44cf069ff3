/** The texts of the PDF documents: escaped into literal strings, encoded as latin1 with the whole file,
    and read back (section 7.3.4.2 of ISO 32000-1). */
module PdfText {
  import opened Common
  import opened Pieces
  import opened Decimal
  import opened Pdf

  // ----- latin1 -----

  /** `Buffer.from(text, 'latin1')`: the low byte of every character. */
  function Latin1(s: string): (r: string)
    ensures |r| == |s| && forall k :: 0 <= k < |s| ==> r[k] == (s[k] as int % 256) as char
  {
    Latin1First(s, |s|)
  }

  function Latin1First(s: string, n: nat): (r: string)
    requires n <= |s|
    ensures |r| == n && forall k :: 0 <= k < n ==> r[k] == (s[k] as int % 256) as char
  {
    if n == 0 then "" else Latin1First(s, n - 1) + [(s[n - 1] as int % 256) as char]
  }

  /** All characters have a byte of their own. */
  predicate IsLatin(s: string) {
    forall k :: 0 <= k < |s| ==> s[k] as int < 256
  }

  lemma Latin1Same(s: string)
    requires IsLatin(s)
    ensures Latin1(s) == s
  {
  }

  lemma Latin1Pair(x: string, y: string)
    ensures Latin1(x + y) == Latin1(x) + Latin1(y)
  {
  }

  lemma {:induction false} NumIsLatin(n: nat)
    ensures IsLatin(Num(n))
  {
    if n >= 10 {
      NumIsLatin(n / 10);
    }
  }

  lemma {:induction false} PaddedIsLatin(s: string, width: nat)
    requires IsLatin(s)
    ensures IsLatin(Padded(s, width))
    decreases width - |s|
  {
    if |s| < width {
      PaddedIsLatin(['0'] + s, width);
    }
  }

  /** What the builders write around objects has no other characters. */
  lemma WordsAreLatin()
    ensures IsLatin(HEAD) && IsLatin(OBJ) && IsLatin(ENDOBJ)
    ensures IsLatin(XREF) && IsLatin(FREE) && IsLatin(IN_USE) && IsLatin(SIZE) && IsLatin(STARTXREF) && IsLatin(EOF)
  {
  }

  lemma EntryIsLatin(offset: nat)
    ensures IsLatin(Entry(offset))
  {
    WordsAreLatin();
    NumIsLatin(offset);
    PaddedIsLatin(Num(offset), 10);
  }

  lemma TrailerIsLatin(count: nat, xref: nat)
    ensures IsLatin(Trailer(count, xref))
  {
    WordsAreLatin();
    NumIsLatin(count);
    NumIsLatin(xref);
  }

  // ----- the file of a document -----

  /** The objects as they are in the file. */
  function Latin1All(list: seq<string>): (r: seq<string>)
    ensures |r| == |list| && forall k :: 0 <= k < |list| ==> r[k] == Latin1(list[k])
  {
    if list == [] then [] else Latin1All(list[..|list| - 1]) + [Latin1(list[|list| - 1])]
  }

  lemma {:induction false} ConcatLatin1(parts: seq<string>, n: nat)
    requires n <= |parts|
    ensures Concat(Latin1All(parts), n) == Latin1(Concat(parts, n))
  {
    if n > 0 {
      ConcatLatin1(parts, n - 1);
      Latin1Pair(Concat(parts, n - 1), parts[n - 1]);
    }
  }

  lemma {:induction false} EntriesLatin1(parts: seq<string>, n: nat)
    requires 0 < n <= |parts|
    ensures Entries(Latin1All(parts), n) == Entries(parts, n) && IsLatin(Entries(parts, n))
  {
    WordsAreLatin();
    if n > 1 {
      EntriesLatin1(parts, n - 1);
      ConcatLatin1(parts, n - 1);
      EntryIsLatin(|Concat(parts, n - 1)|);
    }
  }

  lemma FinishedLatin1(body: string, entries: string, count: nat)
    requires IsLatin(entries)
    ensures Latin1(Finished(body, entries, count)) == Finished(Latin1(body), entries, count)
  {
    var table, trailer := XREF + Num(count) + entries, Trailer(count, |body|);
    WordsAreLatin();
    NumIsLatin(count);
    TrailerIsLatin(count, |body|);
    Latin1Pair(body, table);
    Latin1Pair(body + table, trailer);
    Latin1Same(table);
    Latin1Same(trailer);
  }

  lemma ObjectTextLatin1(id: nat, content: string)
    ensures Latin1(ObjectText(id, content)) == ObjectText(id, Latin1(content))
  {
    WordsAreLatin();
    NumIsLatin(id);
    Latin1Pair(Num(id) + OBJ, content);
    Latin1Pair(Num(id) + OBJ + content, ENDOBJ);
    Latin1Same(Num(id) + OBJ);
    Latin1Same(ENDOBJ);
  }

  lemma PartsLatin1(objects: seq<string>)
    ensures Parts(Latin1All(objects)) == Latin1All(Parts(objects))
  {
    WordsAreLatin();
    Latin1Same(HEAD);
    var x, y := Parts(Latin1All(objects)), Latin1All(Parts(objects));
    forall k | 0 <= k < |x| ensures x[k] == y[k] {
      if k > 0 {
        ObjectTextLatin1(k, objects[k - 1]);
      }
    }
  }

  /** The file of a document is the document of its encoded objects: all offsets and lengths stay right. */
  lemma FileIsDocument(objects: seq<string>)
    ensures Latin1(Document(Parts(objects))) == Document(Parts(Latin1All(objects)))
    ensures Addressable(Parts(Latin1All(objects))) <==> Addressable(Parts(objects))
  {
    var parts := Parts(objects);
    PartsLatin1(objects);
    ConcatLatin1(parts, |parts|);
    ConcatLatin1(parts, |parts| - 1);
    EntriesLatin1(parts, |parts|);
    FinishedLatin1(Concat(parts, |parts|), Entries(parts, |parts|), |parts|);
  }

  lemma StreamLatin1(dictionary: string, data: string)
    requires IsLatin(dictionary)
    ensures Latin1(Stream(dictionary, data)) == Stream(dictionary, Latin1(data))
  {
    NumIsLatin(|data|);
    var head := dictionary + Num(|data|) + STREAM;
    Latin1Pair(head, data);
    Latin1Pair(head + data, ENDSTREAM);
    Latin1Same(head);
    Latin1Same(ENDSTREAM);
  }

  /** The bytes of a document whose table is as it should be. */
  ghost predicate IsFile(file: string, objects: seq<string>) {
    Addressable(Parts(objects)) && file == Latin1(Document(Parts(objects)))
  }

  lemma EncodedStream(objects: seq<string>, k: nat, dictionary: string, data: string)
    requires k < |objects| && objects[k] == Stream(dictionary, data) && IsLatin(dictionary)
    ensures Latin1All(objects)[k] == Stream(dictionary, Latin1(data))
  {
    StreamLatin1(dictionary, data);
  }

  /** A stream is found in the file, encoded, and read in full. */
  lemma FileStreamRead(objects: seq<string>, file: string, id: nat, dictionary: string, data: string) returns (from: nat)
    requires 0 < id <= |objects| && IsFile(file, objects) && objects[id - 1] == Stream(dictionary, data)
    requires IsLatin(dictionary)
    ensures ReadStream(file, id, dictionary) == Some((from, |data|)) && Holds(file, from, Latin1(data))
  {
    FileIsDocument(objects);
    EncodedStream(objects, id - 1, dictionary, data);
    from := StreamStarts(Latin1All(objects), id, dictionary, Latin1(data));
  }

  lemma StreamStarts(objects: seq<string>, id: nat, dictionary: string, data: string) returns (from: nat)
    requires 0 < id <= |objects| && Addressable(Parts(objects)) && objects[id - 1] == Stream(dictionary, data)
    ensures ReadStream(Document(Parts(objects)), id, dictionary) == Some((from, |data|))
    ensures Holds(Document(Parts(objects)), from, data)
  {
    StreamRead(objects, id, dictionary, data);
    from := ReadStream(Document(Parts(objects)), id, dictionary).value.0;
  }

  // ----- literal strings -----

  /** A text in a literal string: backslashes and parentheses have a backslash before them. */
  function Escape(text: string): string {
    if text == [] then []
    else if text[0] == '\\' || text[0] == '(' || text[0] == ')' then ['\\', text[0]] + Escape(text[1..])
    else [text[0]] + Escape(text[1..])
  }

  predicate IsOctal(c: char) { '0' <= c <= '7' }

  /** Where an octal code of at most three digits ends. */
  function OctalEnd(b: string, at: nat, most: nat): (end: nat)
    requires at <= |b|
    ensures at <= end <= |b|
    decreases most
  {
    if most > 0 && at < |b| && IsOctal(b[at]) then OctalEnd(b, at + 1, most - 1) else at
  }

  function OctalValue(b: string, from: nat, end: nat): nat
    requires end <= |b|
  {
    if end <= from then 0 else 8 * OctalValue(b, from, end - 1) + DigitValue(b[end - 1])
  }

  /** What a letter stands for after a backslash. */
  function Escaped(c: char): char {
    if c == 'n' then '\n' else if c == 'r' then '\r' else if c == 't' then '\t'
    else if c == 'b' then 8 as char else if c == 'f' then 12 as char
    else c
  }

  /** After an end of line: a carriage return may have a line feed with it. */
  function AfterLine(b: string, at: nat): nat
    requires at < |b|
  {
    if b[at] == '\r' && at + 1 < |b| && b[at + 1] == '\n' then at + 2 else at + 1
  }

  function Before(c: char, rest: Option<string>): Option<string> {
    match rest case None => None case Some(s) => Some([c] + s)
  }

  /** Reading a literal string up to its closing parenthesis: balanced parentheses belong to it, every end of
      line reads as a line feed, and a backslash starts an escape, of which octal codes keep their low byte. */
  function ReadLiteral(b: string, at: nat, depth: nat): Option<string>
    decreases |b| - at
  {
    if at >= |b| then None
    else
      var c := b[at];
      if c == '(' then Before(c, ReadLiteral(b, at + 1, depth + 1))
      else if c == ')' then if depth == 0 then Some("") else Before(c, ReadLiteral(b, at + 1, depth - 1))
      else if c == '\r' || c == '\n' then Before('\n', ReadLiteral(b, AfterLine(b, at), depth))
      else if c != '\\' then Before(c, ReadLiteral(b, at + 1, depth))
      else if at + 1 >= |b| then None
      else if b[at + 1] == '\r' || b[at + 1] == '\n' then ReadLiteral(b, AfterLine(b, at + 1), depth)
      else if IsOctal(b[at + 1]) then
        var end := OctalEnd(b, at + 2, 2);
        Before((OctalValue(b, at + 1, end) % 256) as char, ReadLiteral(b, end, depth))
      else Before(Escaped(b[at + 1]), ReadLiteral(b, at + 2, depth))
  }

  /** What is read from a file has no characters beyond a byte. */
  lemma {:induction false} ReadIsLatin(b: string, at: nat, depth: nat)
    requires IsLatin(b)
    ensures var r := ReadLiteral(b, at, depth); r.Some? ==> IsLatin(r.value)
    decreases |b| - at
  {
    if at < |b| {
      var c := b[at];
      if c == '(' {
        ReadIsLatin(b, at + 1, depth + 1);
      } else if c == ')' {
        if depth > 0 { ReadIsLatin(b, at + 1, depth - 1); }
      } else if c == '\r' || c == '\n' {
        ReadIsLatin(b, AfterLine(b, at), depth);
      } else if c != '\\' {
        ReadIsLatin(b, at + 1, depth);
      } else if at + 1 < |b| {
        if b[at + 1] == '\r' || b[at + 1] == '\n' {
          ReadIsLatin(b, AfterLine(b, at + 1), depth);
        } else if IsOctal(b[at + 1]) {
          ReadIsLatin(b, OctalEnd(b, at + 2, 2), depth);
        } else {
          ReadIsLatin(b, at + 2, depth);
        }
      }
    }
  }

  /** A text with every end of line as a line feed. */
  function Lined(text: string): string {
    if text == "" then ""
    else if text[0] == '\r' then "\n" + Lined(if |text| > 1 && text[1] == '\n' then text[2..] else text[1..])
    else [text[0]] + Lined(text[1..])
  }

  lemma {:induction false} LinedIff(text: string)
    ensures Lined(text) == text <==> '\r' !in text
    ensures '\r' !in Lined(text)
    decreases |text|
  {
    if text != "" {
      assert text == [text[0]] + text[1..];
      if text[0] == '\r' {
        LinedIff(if |text| > 1 && text[1] == '\n' then text[2..] else text[1..]);
        assert Lined(text)[0] == '\n';
      } else {
        LinedIff(text[1..]);
        assert Lined(text)[1..] == Lined(text[1..]);
      }
    }
  }

  /** The first character of a text and how it is escaped. */
  function EscapedFirst(c: char): string {
    if c == '\\' || c == '(' || c == ')' then ['\\', c] else [c]
  }

  lemma EscapeSplits(text: string, after: string)
    requires text != ""
    ensures Escape(text) + after == EscapedFirst(text[0]) + (Escape(text[1..]) + after)
  {
  }

  lemma NextHeld(b: string, at: nat, text: string)
    requires text != "" && Holds(b, at, Escape(text) + ")")
    ensures var first := EscapedFirst(text[0]);
            && at + |first| < |b| && b[at] == first[0] && b[at + |first| - 1] == text[0]
            && Holds(b, at + |first|, Escape(text[1..]) + ")")
  {
    var first, rest := EscapedFirst(text[0]), Escape(text[1..]) + ")";
    EscapeSplits(text, ")");
    HoldsPair(b, at, first, rest);
    CharHeld(b, at, first, 0);
    CharHeld(b, at, first, |first| - 1);
  }

  lemma EndHeld(b: string, at: nat)
    requires Holds(b, at, Escape("") + ")")
    ensures at < |b| && b[at] == ')'
  {
    assert Escape("") + ")" == ")";
    CharHeld(b, at, ")", 0);
  }

  lemma ReadPlain(b: string, at: nat, c: char, rest: Option<string>)
    requires var first := EscapedFirst(c);
      c != '\r' && at + |first| < |b| && b[at] == first[0] && b[at + |first| - 1] == c
      && ReadLiteral(b, at + |first|, 0) == rest
    ensures ReadLiteral(b, at, 0) == Before(c, rest)
  {
  }

  lemma ReadReturn(b: string, at: nat, rest: Option<string>)
    requires at < |b| && b[at] == '\r' && ReadLiteral(b, AfterLine(b, at), 0) == rest
    ensures ReadLiteral(b, at, 0) == Before('\n', rest)
  {
  }

  /** Every text reads back from its literal string, with its ends of line as line feeds. */
  lemma {:induction false} EscapeRead(text: string, b: string, at: nat)
    requires Holds(b, at, Escape(text) + ")")
    ensures ReadLiteral(b, at, 0) == Some(Lined(text))
    decreases |text|, 1
  {
    if text == "" {
      EndHeld(b, at);
    } else {
      NextHeld(b, at, text);
      var rest, next := text[1..], at + |EscapedFirst(text[0])|;
      if text[0] != '\r' {
        EscapeRead(rest, b, next);
        ReadPlain(b, at, text[0], Some(Lined(rest)));
      } else {
        ReturnRead(text, b, at);
      }
    }
  }

  lemma ReturnRead(text: string, b: string, at: nat)
    requires text != "" && text[0] == '\r' && at + 1 < |b| && b[at] == '\r' && Holds(b, at + 1, Escape(text[1..]) + ")")
    ensures ReadLiteral(b, at, 0) == Some(Lined(text))
    decreases |text|, 0
  {
    var rest := text[1..];
    if rest == "" {
      EndHeld(b, at + 1);
    } else {
      NextHeld(b, at + 1, rest);
    }
    if rest != "" && rest[0] == '\n' {
      assert rest[1..] == text[2..];
      EscapeRead(text[2..], b, at + 2);
      ReadReturn(b, at, Some(Lined(text[2..])));
    } else {
      EscapeRead(rest, b, at + 1);
      ReadReturn(b, at, Some(Lined(rest)));
    }
  }

  // ----- documents of text pages -----

  const SHOW := "BT /F1 12 Tf 50 780 Td ("
  const CATALOG := "<< /Type /Catalog /Pages 2 0 R >>"
  const FONT := "<< /Type /Font /Subtype /Type1 /BaseFont /Helvetica >>"
  const PAGE_TYPE := "<< /Type /Page /Parent 2 0 R "
  const PAGE_BOX := "/MediaBox [0 0 595 842] /Resources "
  const PAGE_FONT := "<< /Font << /F1 3 0 R >> >> /Contents "
  const PAGE := PAGE_TYPE + PAGE_BOX + PAGE_FONT

  function Content(text: string, after: string): string {
    SHOW + Escape(text) + ")" + after
  }

  /** The references to the first `n` pages. */
  function Kids(n: nat): string {
    if n == 0 then "" else (if n == 1 then "" else Kids(n - 1) + " ") + Num(4 + (n - 1) * 2) + " 0 R"
  }

  /** The objects of a document of text pages: the common ones and two for every page. */
  function TextObjects(pages: seq<string>, n: nat): (objects: seq<string>)
    requires n <= |pages|
    ensures |objects| == 3 + 2 * n
  {
    if n == 0 then
      [CATALOG, "<< /Type /Pages /Kids [" + Kids(|pages|) + "] /Count " + Num(|pages|) + " >>", FONT]
    else
      var id := 4 + (n - 1) * 2;
      TextObjects(pages, n - 1) + [PAGE + Num(id + 1) + " 0 R >>", Stream(LENGTH, Content(pages[n - 1], " Tj ET"))]
  }

  /** Builds the file. Every page gives its text back exactly if the text is one that the file can hold. */
  method TextPdf(pages: seq<string>) returns (file: string)
    ensures file == Latin1(Document(Parts(TextObjects(pages, |pages|))))
    ensures Addressable(Parts(TextObjects(pages, |pages|))) ==>
      forall i {:trigger pages[i]} :: 0 <= i < |pages| ==> (PageText(file, 5 + 2 * i) == Some(pages[i]) <==> IsReadable(pages[i]))
  {
    var kids := "";
    for index := 0 to |pages|
      invariant kids == Kids(index)
    {
      kids := (if index == 0 then kids else kids + " ") + Num(4 + index * 2) + " 0 R";
    }
    var objects := [CATALOG, "<< /Type /Pages /Kids [" + kids + "] /Count " + Num(|pages|) + " >>", FONT];
    for index := 0 to |pages|
      invariant objects == TextObjects(pages, index)
    {
      var id := 4 + index * 2;
      var stream := Content(pages[index], " Tj ET");
      objects := objects + [PAGE + Num(id + 1) + " 0 R >>", Stream(LENGTH, stream)];
    }
    var body := WriteObjects(objects);
    file := Latin1(body);
    PagesRead(pages, objects, file);
  }

  lemma PagesRead(pages: seq<string>, objects: seq<string>, file: string)
    requires objects == TextObjects(pages, |pages|) && file == Latin1(Document(Parts(objects)))
    ensures Addressable(Parts(objects)) ==>
      forall i {:trigger pages[i]} :: 0 <= i < |pages| ==> (PageText(file, 5 + 2 * i) == Some(pages[i]) <==> IsReadable(pages[i]))
  {
    if Addressable(Parts(objects)) {
      TextObjectsHavePages(pages, |pages|);
      forall i {:trigger pages[i]} | 0 <= i < |pages|
        ensures PageText(file, 5 + 2 * i) == Some(pages[i]) <==> IsReadable(pages[i]) {
        TextPdfRead(pages, objects, file, i);
      }
    }
  }

  /** The page at `i` shows its text: its content stream has the number that the page refers to. */
  predicate HasPages(objects: seq<string>, pages: seq<string>, n: nat)
    requires n <= |pages|
  {
    && |objects| >= 3 + 2 * n
    && forall i {:trigger pages[i]} :: 0 <= i < n ==> objects[4 + 2 * i] == Stream(LENGTH, Content(pages[i], " Tj ET"))
  }

  lemma OneMorePage(objects: seq<string>, page: string, stream: string, pages: seq<string>, n: nat)
    requires n < |pages| && |objects| == 3 + 2 * n && HasPages(objects, pages, n) && stream == Stream(LENGTH, Content(pages[n], " Tj ET"))
    ensures HasPages(objects + [page, stream], pages, n + 1)
  {
    var longer := objects + [page, stream];
    assert longer[4 + 2 * n] == stream;
    forall i {:trigger pages[i]} | 0 <= i < n ensures longer[4 + 2 * i] == objects[4 + 2 * i] {
    }
  }

  lemma {:induction false} TextObjectsHavePages(pages: seq<string>, n: nat)
    requires n <= |pages|
    ensures HasPages(TextObjects(pages, n), pages, n)
  {
    if n > 0 {
      TextObjectsHavePages(pages, n - 1);
      var page, stream := PAGE + Num(4 + (n - 1) * 2 + 1) + " 0 R >>", Stream(LENGTH, Content(pages[n - 1], " Tj ET"));
      OneMorePage(TextObjects(pages, n - 1), page, stream, pages, n - 1);
    }
  }

  /** The text that a page shows: its content stream by the table, and the literal string in it. */
  ghost function PageText(b: string, id: nat): Option<string> {
    match ReadStream(b, id, LENGTH)
    case None => None
    case Some((from, length)) => if Holds(b, from, SHOW) then ReadLiteral(b, from + |SHOW|, 0) else None
  }

  lemma TextHeld(b: string, at: nat, escaped: string, after: string)
    requires Holds(b, at, SHOW + escaped + ")" + after)
    ensures Holds(b, at, SHOW) && Holds(b, at + |SHOW|, escaped + ")")
  {
    HoldsPair(b, at, SHOW + escaped + ")", after);
    assert SHOW + escaped + ")" == SHOW + (escaped + ")");
    HoldsPair(b, at, SHOW, escaped + ")");
  }

  lemma ContentLatin1(text: string, after: string)
    requires IsLatin(after)
    ensures Latin1(Content(text, after)) == SHOW + Latin1(Escape(text)) + ")" + after
  {
    assert IsLatin(SHOW) && IsLatin(")");
    Latin1Same(SHOW);
    Latin1Same(")");
    Latin1Same(after);
    Latin1Pair(SHOW, Escape(text));
    Latin1Pair(SHOW + Escape(text), ")");
    Latin1Pair(SHOW + Escape(text) + ")", after);
  }

  lemma {:induction false} EscapeIsLatin(text: string)
    requires IsLatin(text)
    ensures IsLatin(Escape(text))
  {
    if text != "" {
      EscapeIsLatin(text[1..]);
    }
  }

  /** A text that the file can hold: every character has its own byte, and no end of line is a carriage return. */
  predicate IsReadable(text: string) {
    IsLatin(text) && '\r' !in text
  }

  /** What is read where the escaped text was encoded. */
  lemma EncodedRead(b: string, at: nat, text: string)
    requires IsLatin(b) && Holds(b, at, Latin1(Escape(text)) + ")")
    ensures IsLatin(text) ==> ReadLiteral(b, at, 0) == Some(Lined(text))
    ensures ReadLiteral(b, at, 0) == Some(text) <==> IsReadable(text)
  {
    ReadIsLatin(b, at, 0);
    LinedIff(text);
    if IsLatin(text) {
      EscapeIsLatin(text);
      Latin1Same(Escape(text));
      EscapeRead(text, b, at);
    }
  }

  lemma ShownRead(b: string, id: nat, from: nat, length: nat, text: string, after: string)
    requires IsLatin(b) && IsLatin(after)
    requires ReadStream(b, id, LENGTH) == Some((from, length)) && Holds(b, from, Latin1(Content(text, after)))
    ensures IsLatin(text) ==> PageText(b, id) == Some(Lined(text))
    ensures PageText(b, id) == Some(text) <==> IsReadable(text)
  {
    ContentLatin1(text, after);
    TextHeld(b, from, Latin1(Escape(text)), after);
    EncodedRead(b, from + |SHOW|, text);
  }

  lemma FileIsLatin(file: string, objects: seq<string>)
    requires IsFile(file, objects)
    ensures IsLatin(file)
  {
  }

  lemma TextWordsAreLatin()
    ensures IsLatin(LENGTH) && IsLatin(" Tj ET")
  {
  }

  /** A page shows its text exactly if the file can hold the text. */
  lemma ContentRead(objects: seq<string>, file: string, id: nat, text: string, after: string)
    requires 0 < id <= |objects| && IsFile(file, objects) && IsLatin(after)
    requires objects[id - 1] == Stream(LENGTH, Content(text, after))
    ensures IsLatin(text) ==> PageText(file, id) == Some(Lined(text))
    ensures PageText(file, id) == Some(text) <==> IsReadable(text)
  {
    TextWordsAreLatin();
    FileIsLatin(file, objects);
    var content := Content(text, after);
    var from := FileStreamRead(objects, file, id, LENGTH, content);
    ShownRead(file, id, from, |content|, text, after);
  }

  /** A page of a text document gives its text back, through table, length, escapes and encoding, exactly if
      the text has no character beyond a byte and no carriage return. */
  lemma TextPdfRead(pages: seq<string>, objects: seq<string>, file: string, i: nat)
    requires i < |pages| && HasPages(objects, pages, |pages|) && IsFile(file, objects)
    ensures PageText(file, 5 + 2 * i) == Some(pages[i]) <==> IsReadable(pages[i])
  {
    PageRead(objects, file, 5 + 2 * i, pages[i]);
  }

  lemma PageRead(objects: seq<string>, file: string, id: nat, text: string)
    requires 0 < id <= |objects| && IsFile(file, objects) && objects[id - 1] == Stream(LENGTH, Content(text, " Tj ET"))
    ensures PageText(file, id) == Some(text) <==> IsReadable(text)
  {
    TextWordsAreLatin();
    ContentRead(objects, file, id, text, " Tj ET");
  }

  // ----- what is read of other texts -----

  lemma ShownFrom(b: string, id: nat, from: nat, length: nat, text: string, after: string)
    requires IsLatin(after)
    requires ReadStream(b, id, LENGTH) == Some((from, length)) && Holds(b, from, Latin1(Content(text, after)))
    ensures PageText(b, id) == ReadLiteral(b, from + |SHOW|, 0) && Holds(b, from + |SHOW|, Latin1(Escape(text)) + ")")
  {
    ContentLatin1(text, after);
    TextHeld(b, from, Latin1(Escape(text)), after);
  }

  lemma LowByteRead(b: string, at: nat, text: string)
    requires text == [0x416 as char] && Holds(b, at, Latin1(Escape(text)) + ")")
    ensures ReadLiteral(b, at, 0) == Some([0x16 as char])
  {
    var low := [0x16 as char];
    assert text[1..] == "" && Escape(text) == text && Latin1(text) == low;
    assert low[1..] == "" && Escape(low) == low && Lined(low) == low;
    EscapeRead(low, b, at);
  }

  lemma LostFrom(b: string, id: nat, from: nat, length: nat, text: string, after: string)
    requires text == [0x416 as char] && IsLatin(after)
    requires ReadStream(b, id, LENGTH) == Some((from, length)) && Holds(b, from, Latin1(Content(text, after)))
    ensures PageText(b, id) == Some([0x16 as char])
  {
    ShownFrom(b, id, from, length, text, after);
    LowByteRead(b, from + |SHOW|, text);
  }

  /** A Cyrillic letter reads as its low byte: U+0416 as U+0016. */
  lemma CyrillicIsLost(objects: seq<string>, file: string, id: nat, text: string, after: string)
    requires text == [0x416 as char] && 0 < id <= |objects| && IsFile(file, objects) && IsLatin(after)
    requires objects[id - 1] == Stream(LENGTH, Content(text, after))
    ensures PageText(file, id) == Some([0x16 as char])
  {
    TextWordsAreLatin();
    var content := Content(text, after);
    var from := FileStreamRead(objects, file, id, LENGTH, content);
    LostFrom(file, id, from, |content|, text, after);
  }

  lemma EndsFrom(b: string, id: nat, from: nat, length: nat, text: string, after: string)
    requires text != "" && text[0] == 0x129 as char && IsLatin(after)
    requires ReadStream(b, id, LENGTH) == Some((from, length)) && Holds(b, from, Latin1(Content(text, after)))
    ensures PageText(b, id) == Some("")
  {
    ShownFrom(b, id, from, length, text, after);
    EncodedEnds(b, from + |SHOW|, text);
  }

  /** A letter whose low byte is a parenthesis ends the string: of U+0129 and what follows nothing is read. */
  lemma ParenthesisEnds(objects: seq<string>, file: string, id: nat, text: string, after: string)
    requires text != "" && text[0] == 0x129 as char && 0 < id <= |objects| && IsFile(file, objects) && IsLatin(after)
    requires objects[id - 1] == Stream(LENGTH, Content(text, after))
    ensures PageText(file, id) == Some("")
  {
    TextWordsAreLatin();
    var content := Content(text, after);
    var from := FileStreamRead(objects, file, id, LENGTH, content);
    EndsFrom(file, id, from, |content|, text, after);
  }

  lemma EncodedEnds(b: string, at: nat, text: string)
    requires text != "" && text[0] == 0x129 as char && Holds(b, at, Latin1(Escape(text)) + ")")
    ensures ReadLiteral(b, at, 0) == Some("")
  {
    var piece := Latin1(Escape(text)) + ")";
    assert Escape(text)[0] == 0x129 as char && piece[0] == ')';
    CharHeld(b, at, piece, 0);
    HoldsInside(b, at, piece);
  }

  lemma HoldsInside(b: string, at: nat, piece: string)
    requires Holds(b, at, piece)
    ensures at + |piece| <= |b|
  {
  }

  // ----- a document with a picture -----

  const ONE_PAGE := "<< /Type /Pages /Kids [4 0 R] /Count 1 >>"
  const IMAGE_PAGE := "<< /Type /Page /Parent 2 0 R /MediaBox [0 0 595 842] /Resources << /Font << /F1 3 0 R >> /XObject << /Im1 5 0 R >> >> /Contents 6 0 R >>"
  const IMAGE_KIND := "<< /Type /XObject /Subtype /Image /Width "
  const IMAGE_SIZE := "200 /Height 200 /ColorSpace /DeviceRGB "
  const IMAGE_BITS := "/BitsPerComponent 8 /Filter "
  const IMAGE_CODE := "/FlateDecode /Length "
  const IMAGE := IMAGE_KIND + IMAGE_SIZE + (IMAGE_BITS + IMAGE_CODE)
  const DRAW := " Tj ET q 200 0 0 200 50 500 cm /Im1 Do Q"

  function ImageObjects(text: string, pixels: string): (objects: seq<string>) {
    [CATALOG, ONE_PAGE, FONT, IMAGE_PAGE, Stream(IMAGE, pixels), Stream(LENGTH, Content(text, DRAW))]
  }

  /** Builds the file. The picture, which is bytes, reads back; the text, exactly if the file can hold it. */
  method PdfWithImage(text: string, pixels: string) returns (file: string)
    requires IsLatin(pixels)
    ensures file == Latin1(Document(Parts(ImageObjects(text, pixels))))
    ensures Addressable(Parts(ImageObjects(text, pixels))) ==>
      && (PageText(file, 6) == Some(text) <==> IsReadable(text))
      && exists from: nat :: ReadStream(file, 5, IMAGE) == Some((from, |pixels|)) && Holds(file, from, pixels)
  {
    var objects := ImageObjects(text, pixels);
    var pdf := WriteParts(objects);
    file := Latin1(pdf);
    if Addressable(Parts(objects)) {
      ghost var from := ImagePdfRead(text, pixels, objects, file);
    }
  }

  lemma KindIsLatin()
    ensures IsLatin(IMAGE_KIND)
  {
  }

  lemma SizeIsLatin()
    ensures IsLatin(IMAGE_SIZE)
  {
  }

  lemma CodeIsLatin()
    ensures IsLatin(IMAGE_BITS + IMAGE_CODE)
  {
  }

  lemma DrawIsLatin()
    ensures IsLatin(DRAW)
  {
  }

  lemma LatinThree(x: string, y: string, z: string)
    requires IsLatin(x) && IsLatin(y) && IsLatin(z)
    ensures IsLatin(x + y + z)
  {
  }

  lemma ImageWordsAreLatin()
    ensures IsLatin(DRAW) && IsLatin(IMAGE)
  {
    DrawIsLatin();
    KindIsLatin();
    SizeIsLatin();
    CodeIsLatin();
    LatinThree(IMAGE_KIND, IMAGE_SIZE, IMAGE_BITS + IMAGE_CODE);
  }

  /** The compressed picture reads back whatever its bytes; the text, exactly if the file can hold it. */
  lemma ImagePdfRead(text: string, pixels: string, objects: seq<string>, file: string) returns (from: nat)
    requires objects == ImageObjects(text, pixels) && IsFile(file, objects) && IsLatin(pixels)
    ensures PageText(file, 6) == Some(text) <==> IsReadable(text)
    ensures ReadStream(file, 5, IMAGE) == Some((from, |pixels|)) && Holds(file, from, pixels)
  {
    ImageWordsAreLatin();
    ContentRead(objects, file, 6, text, DRAW);
    from := FileStreamRead(objects, file, 5, IMAGE, pixels);
    Latin1Same(pixels);
  }
}
