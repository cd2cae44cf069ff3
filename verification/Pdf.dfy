/** The PDF builders of the end-to-end tests: cross-reference offsets and stream lengths
    (sections 7.3.8, 7.5.4 and 7.5.5 of ISO 32000-1). */
module Pdf {
  import opened Common
  import opened Pieces
  import opened Decimal
  import opened Characters

  // ----- documents -----

  /** The first number with more than ten digits. */
  const LIMIT: nat := 10_000_000_000

  const HEAD := "%PDF-1.4\n"
  const OBJ := " 0 obj\n"
  const ENDOBJ := "\nendobj\n"
  const XREF := "xref\n0 "
  const FREE := "\n0000000000 65535 f \n"
  const IN_USE := " 00000 n \n"
  const SIZE := "trailer\n<< /Size "
  const STARTXREF := " /Root 1 0 R >>\nstartxref\n"
  const EOF := "\n%%EOF\n"

  function ObjectText(id: nat, content: string): string {
    Num(id) + OBJ + content + ENDOBJ
  }

  /** The parts of a document: the header, and the objects by number. */
  function Parts(objects: seq<string>): (parts: seq<string>)
    ensures |parts| == |objects| + 1 && parts[0] == HEAD
    ensures forall k :: 0 < k < |parts| ==> parts[k] == ObjectText(k, objects[k - 1])
  {
    if objects == [] then [HEAD]
    else
      var n := |objects| - 1;
      Parts(objects[..n]) + [ObjectText(n + 1, objects[n])]
  }

  lemma PartsMore(objects: seq<string>, last: string)
    ensures Parts(objects + [last]) == Parts(objects) + [ObjectText(|objects| + 1, last)]
  {
    assert (objects + [last])[..|objects|] == objects;
  }

  function Entry(offset: nat): string {
    Padded(Num(offset), 10) + IN_USE
  }

  /** The entries of the objects before `n`, after that of the free object 0. */
  function Entries(parts: seq<string>, n: nat): string
    requires 0 < n <= |parts|
  {
    if n == 1 then FREE else Entries(parts, n - 1) + Entry(|Concat(parts, n - 1)|)
  }

  function Trailer(count: nat, xref: nat): string {
    SIZE + Num(count) + STARTXREF + Num(xref) + EOF
  }

  /** A body with its table and trailer. */
  function Finished(body: string, entries: string, count: nat): string {
    body + (XREF + Num(count) + entries) + Trailer(count, |body|)
  }

  function Document(parts: seq<string>): string
    requires |parts| > 0
  {
    Finished(Concat(parts, |parts|), Entries(parts, |parts|), |parts|)
  }

  // ----- the builders -----

  /** The text of the objects, as `textPdf` puts it together, and where they start. */
  method WriteBody(objects: seq<string>) returns (body: string, offsets: seq<nat>)
    ensures body == Concat(Parts(objects), |objects| + 1)
    ensures |offsets| == |objects| && forall k :: 0 <= k < |objects| ==> offsets[k] == |Concat(Parts(objects), k + 1)|
  {
    body, offsets := HEAD, [];
    ghost var parts := Parts(objects);
    for index := 0 to |objects|
      invariant body == Concat(parts, index + 1)
      invariant |offsets| == index && forall k :: 0 <= k < index ==> offsets[k] == |Concat(parts, k + 1)|
    {
      offsets := offsets + [|body|];
      body := body + ObjectText(index + 1, objects[index]);
    }
  }

  method WriteEntries(ghost parts: seq<string>, offsets: seq<nat>) returns (table: string)
    requires |offsets| + 1 == |parts| && forall k :: 0 <= k < |offsets| ==> offsets[k] == |Concat(parts, k + 1)|
    ensures table == Entries(parts, |parts|)
  {
    table := FREE;
    for index := 0 to |offsets|
      invariant table == Entries(parts, index + 1)
    {
      table := table + Entry(offsets[index]);
    }
  }

  /** How `textPdf` writes its objects. */
  method WriteObjects(objects: seq<string>) returns (body: string)
    ensures body == Document(Parts(objects))
  {
    var offsets: seq<nat>;
    body, offsets := WriteBody(objects);
    var table := WriteEntries(Parts(objects), offsets);
    body := Finished(body, table, |objects| + 1);
  }

  /** How `pdfWithImage` writes its objects: in buffers, with the length counted beside. */
  method WriteParts(objects: seq<string>) returns (pdf: string)
    ensures pdf == Document(Parts(objects))
  {
    var parts: seq<string> := [HEAD];
    var length := |HEAD|;
    var offsets: seq<nat> := [];
    ghost var all := Parts(objects);
    for index := 0 to |objects|
      invariant parts == all[..index + 1] && length == |Concat(all, index + 1)|
      invariant |offsets| == index && forall k :: 0 <= k < index ==> offsets[k] == |Concat(all, k + 1)|
    {
      offsets := offsets + [length];
      var part := ObjectText(index + 1, objects[index]);
      parts := parts + [part];
      length := length + |part|;
    }
    assert parts == all;
    var table := WriteEntries(all, offsets);
    var body := Concat(parts, |parts|);
    pdf := body + (XREF + Num(|objects| + 1) + table) + Trailer(|objects| + 1, length);
  }

  // ----- reading a document by its cross-reference table -----

  function NumberEnd(b: string, at: nat): (end: nat)
    ensures end >= at
    decreases |b| - at
  {
    if at < |b| && IsDigit(b[at]) then NumberEnd(b, at + 1) else at
  }

  function NumberStart(b: string, end: nat): (start: nat)
    requires end <= |b|
    ensures start <= end
  {
    if end > 0 && IsDigit(b[end - 1]) then NumberStart(b, end - 1) else end
  }

  /** The number on the line before the last, which `startxref` precedes. */
  function StartXref(b: string): Option<nat> {
    var end := |b| - |EOF|;
    if end < 0 || !Holds(b, end, EOF) then None
    else
      var start := NumberStart(b, end);
      if start < |STARTXREF| || !Holds(b, start - |STARTXREF|, STARTXREF) then None
      else Some(ValueIn(b, start, end))
  }

  /** Where the table says that an object starts. Every entry has 20 bytes, so the place of an entry is computed. */
  function Locate(b: string, id: nat): Option<nat> {
    match StartXref(b)
    case None => None
    case Some(xref) =>
      if !Holds(b, xref, XREF) then None
      else
        var at := NumberEnd(b, xref + |XREF|) + 1 + 20 * id;
        if at + 20 > |b| || !Holds(b, at + 10, IN_USE) then None else Some(ValueIn(b, at, at + 10))
  }

  // ----- every entry holds the offset of its object -----

  lemma {:induction false} ConcatGrows(parts: seq<string>, k: nat, n: nat)
    requires k <= n <= |parts|
    ensures |Concat(parts, k)| <= |Concat(parts, n)|
    decreases n
  {
    if k < n {
      ConcatGrows(parts, k, n - 1);
    }
  }

  lemma EntryLength(offset: nat)
    ensures |Entry(offset)| == 20 <==> offset < LIMIT
    ensures |Entry(offset)| >= 20
  {
    PaddedValue(Num(offset), 10);
    NumLength(offset, 10);
    assert Pow10(10) == LIMIT;
  }

  /** The entries have 20 bytes each exactly if every object starts at less than ten digits can say. */
  lemma {:induction false} EntriesLength(parts: seq<string>, n: nat)
    requires 0 < n <= |parts|
    ensures |Entries(parts, n)| >= |FREE| + 20 * (n - 1)
    ensures |Entries(parts, n)| == |FREE| + 20 * (n - 1) <==> n == 1 || |Concat(parts, n - 1)| < LIMIT
  {
    if n > 1 {
      EntriesLength(parts, n - 1);
      EntryLength(|Concat(parts, n - 1)|);
      ConcatGrows(parts, n - 2, n - 1);
    }
  }

  lemma {:induction false} EntriesHeld(parts: seq<string>, k: nat, n: nat)
    requires 0 < k < n <= |parts|
    ensures Holds(Entries(parts, n), |Entries(parts, k)|, Entry(|Concat(parts, k)|))
    decreases n
  {
    var last := Entry(|Concat(parts, n - 1)|);
    if k < n - 1 {
      EntriesHeld(parts, k, n - 1);
      HoldsLonger([], Entries(parts, n - 1), |Entries(parts, k)|, Entry(|Concat(parts, k)|), last);
    } else {
      HoldsLast(Entries(parts, k), last);
    }
  }

  /** Digits that end where others begin. */
  lemma {:induction false} NumberEnds(b: string, at: nat, end: nat)
    requires at <= end < |b| && DigitsIn(b, at, end) && !IsDigit(b[end])
    ensures NumberEnd(b, at) == end
    decreases end - at
  {
    if at < end {
      FirstDigit(b, at, end);
      NumberEnds(b, at + 1, end);
    }
  }

  lemma {:induction false} FirstDigit(b: string, at: nat, end: nat)
    requires at < end <= |b| && DigitsIn(b, at, end)
    ensures IsDigit(b[at]) && DigitsIn(b, at + 1, end)
    decreases end
  {
    if at < end - 1 {
      FirstDigit(b, at, end - 1);
    }
  }

  lemma {:induction false} NumberStarts(b: string, at: nat, end: nat)
    requires 0 < at <= end <= |b| && DigitsIn(b, at, end) && !IsDigit(b[at - 1])
    ensures NumberStart(b, end) == at
    decreases end
  {
    if at < end {
      NumberStarts(b, at, end - 1);
    }
  }

  lemma {:induction false} ValueHeld(b: string, at: nat, s: string, n: nat)
    requires Holds(b, at, s) && n <= |s|
    ensures ValueIn(b, at, at + n) == ValueIn(s, 0, n)
  {
    if n > 0 {
      ValueHeld(b, at, s, n - 1);
      AgreesAll(b, at, s, |s|);
      assert b[at + (n - 1)] == s[n - 1];
    }
  }

  lemma CharHeld(b: string, at: nat, s: string, k: nat)
    requires Holds(b, at, s) && k < |s|
    ensures b[at + k] == s[k]
  {
    AgreesAll(b, at, s, |s|);
  }

  /** `startxref` holds the place of the table. */
  lemma TrailerRead(b: string, at: nat, count: nat, xref: nat)
    requires Holds(b, at, Trailer(count, xref)) && |b| == at + |Trailer(count, xref)|
    ensures StartXref(b) == Some(xref)
  {
    var before := SIZE + Num(count);
    HoldsPair(b, at, before + STARTXREF + Num(xref), EOF);
    HoldsPair(b, at, before + STARTXREF, Num(xref));
    HoldsPair(b, at, before, STARTXREF);
    var start, end := at + |before| + |STARTXREF|, |b| - |EOF|;
    NumValue(xref, b, start);
    CharHeld(b, start - |STARTXREF|, STARTXREF, |STARTXREF| - 1);
    NumberStarts(b, start, end);
  }

  lemma EntryValue(b: string, at: nat, offset: nat)
    requires Holds(b, at, Entry(offset)) && |Entry(offset)| == 20
    ensures Holds(b, at + 10, IN_USE) && ValueIn(b, at, at + 10) == offset && at + 20 <= |b|
  {
    HoldsPair(b, at, Padded(Num(offset), 10), IN_USE);
    PaddedValue(Num(offset), 10);
    NumValueAlone(offset);
    ValueHeld(b, at, Padded(Num(offset), 10), 10);
  }

  lemma CountEnds(b: string, at: nat, count: nat, end: nat)
    requires Holds(b, at, Num(count)) && end == at + |Num(count)| && Holds(b, end, FREE)
    ensures NumberEnd(b, at) == end
  {
    NumValue(count, b, at);
    CharHeld(b, end, FREE, 0);
    NumberEnds(b, at, end);
  }

  /** The entry of object `id` is found where 20 bytes for every entry before it put it. */
  lemma TableRead(b: string, xref: nat, count: nat, entries: string, id: nat, offset: nat)
    requires StartXref(b) == Some(xref) && Holds(b, xref, XREF + Num(count) + entries)
    requires Holds(entries, 0, FREE) && |Entry(offset)| == 20
    requires id > 0 && Holds(entries, |FREE| + 20 * (id - 1), Entry(offset))
    ensures Locate(b, id) == Some(offset)
  {
    HoldsPair(b, xref, XREF + Num(count), entries);
    HoldsPair(b, xref, XREF, Num(count));
    var end := xref + |XREF| + |Num(count)|;
    HoldsHeld(b, end, entries, 0, FREE);
    CountEnds(b, xref + |XREF|, count, end);
    HoldsHeld(b, end, entries, |FREE| + 20 * (id - 1), Entry(offset));
    EntryValue(b, end + (|FREE| + 20 * (id - 1)), offset);
  }

  lemma {:induction false} FreeFirst(parts: seq<string>, n: nat)
    requires 0 < n <= |parts|
    ensures Holds(Entries(parts, n), 0, FREE)
  {
    if n == 1 {
      HoldsFirst(FREE, []);
      assert FREE + [] == FREE;
    } else {
      FreeFirst(parts, n - 1);
      HoldsLonger([], Entries(parts, n - 1), 0, FREE, Entry(|Concat(parts, n - 1)|));
    }
  }

  lemma DocumentRead(body: string, entries: string, count: nat, id: nat, offset: nat, piece: string)
    requires Holds(body, offset, piece) && Holds(entries, 0, FREE) && |Entry(offset)| == 20
    requires id > 0 && Holds(entries, |FREE| + 20 * (id - 1), Entry(offset))
    ensures Locate(Finished(body, entries, count), id) == Some(offset) && Holds(Finished(body, entries, count), offset, piece)
  {
    var table, trailer := XREF + Num(count) + entries, Trailer(count, |body|);
    HoldsThree(body, table, trailer, offset, piece);
    TrailerRead(body + table + trailer, |body| + |table|, count, |body|);
    TableRead(body + table + trailer, |body|, count, entries, id, offset);
  }

  /** The last object starts where ten digits can say. */
  predicate Addressable(parts: seq<string>)
    requires |parts| > 0
  {
    |Concat(parts, |parts| - 1)| < LIMIT
  }

  /** In every document whose last object starts below 10 to the 10th, the table gives for every object
      the offset at which it stands. */
  lemma EveryOffsetIsRight(parts: seq<string>, k: nat)
    requires 0 < k < |parts| && Addressable(parts)
    ensures Locate(Document(parts), k) == Some(|Concat(parts, k)|)
    ensures Holds(Document(parts), |Concat(parts, k)|, parts[k])
  {
    var n := |parts|;
    FreeFirst(parts, n);
    EntriesHeld(parts, k, n);
    EntriesShort(parts, k);
    ConcatHeld(parts, k, n);
    DocumentRead(Concat(parts, n), Entries(parts, n), n, k, |Concat(parts, k)|, parts[k]);
  }

  lemma EntriesShort(parts: seq<string>, k: nat)
    requires 0 < k < |parts| && Addressable(parts)
    ensures |Entry(|Concat(parts, k)|)| == 20 && |Entries(parts, k)| == |FREE| + 20 * (k - 1)
  {
    ConcatGrows(parts, k, |parts| - 1);
    EntryLength(|Concat(parts, k)|);
    EntriesLength(parts, k);
    ConcatGrows(parts, k - 1, k);
  }

  // ----- streams and texts -----

  const LENGTH := "<< /Length "
  const STREAM := " >>\nstream\n"
  const ENDSTREAM := "\nendstream"

  /** A stream object: a dictionary that ends with the length of the data, and the data. */
  function Stream(dictionary: string, data: string): string {
    dictionary + Num(|data|) + STREAM + data + ENDSTREAM
  }

  /** The data of a stream object, by its length: where it starts and how long it is. */
  function ReadStream(b: string, id: nat, dictionary: string): Option<(nat, nat)> {
    match Locate(b, id)
    case None => None
    case Some(at) =>
      var start := at + |Num(id) + OBJ|;
      if !Holds(b, at, Num(id) + OBJ) || !Holds(b, start, dictionary) then None
      else
        var digits := start + |dictionary|;
        var end := NumberEnd(b, digits);
        if end > |b| || !Holds(b, end, STREAM) then None
        else
          var from, length := end + |STREAM|, ValueIn(b, digits, end);
          if Holds(b, from + length, ENDSTREAM) then Some((from, length)) else None
  }

  /** Every `/Length` is exact: a stream is found and read in full, whatever its data. */
  lemma {:induction false} StreamRead(objects: seq<string>, id: nat, dictionary: string, data: string)
    requires 0 < id <= |objects| && Addressable(Parts(objects)) && objects[id - 1] == Stream(dictionary, data)
    ensures var r := ReadStream(Document(Parts(objects)), id, dictionary);
            r.Some? && r.value.1 == |data| && Holds(Document(Parts(objects)), r.value.0, data)
  {
    var parts := Parts(objects);
    EveryOffsetIsRight(parts, id);
    StreamHeld(Document(parts), |Concat(parts, id)|, id, parts[id], objects[id - 1], dictionary, data);
  }

  lemma StreamHeld(b: string, at: nat, id: nat, part: string, content: string, dictionary: string, data: string)
    requires part == ObjectText(id, content) && content == Stream(dictionary, data)
    requires Locate(b, id) == Some(at) && Holds(b, at, part)
    ensures var r := ReadStream(b, id, dictionary);
            r.Some? && r.value.1 == |data| && Holds(b, r.value.0, data)
  {
    var start := at + |Num(id) + OBJ|;
    ContentHeld(b, at, Num(id) + OBJ, content);
    DataHeld(b, start, dictionary, Num(|data|), data);
    var digits := start + |dictionary|;
    NumValue(|data|, b, digits);
    CharHeld(b, digits + |Num(|data|)|, STREAM, 0);
    NumberEnds(b, digits, digits + |Num(|data|)|);
  }

  lemma ContentHeld(b: string, at: nat, start: string, content: string)
    requires Holds(b, at, start + content + ENDOBJ)
    ensures Holds(b, at, start) && Holds(b, at + |start|, content)
  {
    HoldsPair(b, at, start + content, ENDOBJ);
    HoldsPair(b, at, start, content);
  }

  lemma DataHeld(b: string, at: nat, dictionary: string, number: string, data: string)
    requires Holds(b, at, dictionary + number + STREAM + data + ENDSTREAM)
    ensures var end := at + |dictionary| + |number|;
            && Holds(b, at, dictionary) && Holds(b, at + |dictionary|, number) && Holds(b, end, STREAM)
            && Holds(b, end + |STREAM|, data) && Holds(b, end + |STREAM| + |data|, ENDSTREAM)
  {
    HoldsPair(b, at, dictionary + number + STREAM + data, ENDSTREAM);
    HoldsPair(b, at, dictionary + number + STREAM, data);
    HoldsPair(b, at, dictionary + number, STREAM);
    HoldsPair(b, at, dictionary, number);
  }
}
