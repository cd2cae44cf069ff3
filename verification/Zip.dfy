/** The ZIP writer and reader of the end-to-end tests, byte by byte (local file headers, central
    directory and its end record: sections 4.3.7, 4.3.12 and 4.3.16 of PKWARE's APPNOTE.TXT). */
module Zip {
  import opened Common
  import opened Pieces

  /** Text encoding, compression and checksum are parameters. */
  datatype Codec = Codec(encode: string -> bytes, decode: bytes -> string, deflate: bytes -> bytes,
                         inflate: bytes -> Option<bytes>, crc32: bytes -> nat)

  /** Decoding undoes encoding, inflating undoes deflating, and a checksum has 32 bits. */
  ghost predicate Faithful(codec: Codec) {
    && (forall s :: codec.decode(codec.encode(s)) == s)
    && (forall d :: codec.inflate(codec.deflate(d)) == Some(d))
    && (forall d :: codec.crc32(d) < 0x1_0000_0000)
  }

  // ----- little-endian fields -----

  function Get16(b: bytes, at: nat): (v: nat)
    requires at + 2 <= |b|
    ensures v < 0x1_0000
  {
    b[at] as int + 0x100 * b[at + 1] as int
  }

  function Get32(b: bytes, at: nat): (v: nat)
    requires at + 4 <= |b|
    ensures v < 0x1_0000_0000
  {
    b[at] as int + 0x100 * b[at + 1] as int + 0x1_0000 * b[at + 2] as int + 0x100_0000 * b[at + 3] as int
  }

  lemma FourBytes(v: nat)
    ensures v == v % 256 + 0x100 * (v / 0x100 % 256) + 0x1_0000 * (v / 0x1_0000 % 256) + 0x100_0000 * (v / 0x100_0000)
  {
    var v1, v2 := v / 0x100, v / 0x1_0000;
    assert v2 == v1 / 0x100 && v / 0x100_0000 == v2 / 0x100;
  }

  // ----- the records -----

  datatype Part = Part(path: string, data: bytes, deflate: bool)

  /** A part as it is written: its name and data in bytes, and what the headers say of them. */
  datatype Item = Item(name: bytes, stored: bytes, method_: nat, crc: nat, size: nat)

  function Encoded(p: Part, codec: Codec): Item {
    Item(codec.encode(p.path), if p.deflate then codec.deflate(p.data) else p.data, if p.deflate then 8 else 0,
         codec.crc32(p.data), |p.data|)
  }

  function Items(parts: seq<Part>, codec: Codec): (items: seq<Item>)
    ensures |items| == |parts| && forall k :: 0 <= k < |parts| ==> items[k] == Encoded(parts[k], codec)
  {
    if parts == [] then [] else Items(parts[..|parts| - 1], codec) + [Encoded(parts[|parts| - 1], codec)]
  }

  /** The numbers of an item have fields that can hold them. */
  predicate Fits(i: Item) {
    && |i.name| < 0x1_0000 && i.method_ < 0x1_0000 && i.crc < 0x1_0000_0000 && |i.stored| < 0x1_0000_0000
    && i.size < 0x1_0000_0000
  }

  function Size(i: Item): nat {
    30 + |i.name| + |i.stored|
  }

  /** Where item `n` starts: after the items before it. */
  function Offset(items: seq<Item>, n: nat): nat
    requires n <= |items|
  {
    if n == 0 then 0 else Offset(items, n - 1) + Size(items[n - 1])
  }

  /** Where entry `n` starts in the directory. */
  function EntryOffset(items: seq<Item>, n: nat): nat
    requires n <= |items|
  {
    if n == 0 then 0 else EntryOffset(items, n - 1) + 46 + |items[n - 1].name|
  }

  /** The first `n` items have sizes and offsets that their fields can hold. */
  predicate AllFit(items: seq<Item>, n: nat)
    requires n <= |items|
  {
    n == 0 || (AllFit(items, n - 1) && Fits(items[n - 1]) && Offset(items, n - 1) < 0x1_0000_0000)
  }

  lemma {:induction false} AllFitAt(items: seq<Item>, k: nat, n: nat)
    requires k < n <= |items| && AllFit(items, n)
    ensures Fits(items[k]) && Offset(items, k) < 0x1_0000_0000
    decreases n
  {
    if k < n - 1 {
      AllFitAt(items, k, n - 1);
    }
  }

  lemma Misfit(items: seq<Item>, k: nat)
    requires k < |items| && !(Fits(items[k]) && Offset(items, k) < 0x1_0000_0000)
    ensures !AllFit(items, |items|)
  {
    if AllFit(items, |items|) {
      AllFitAt(items, k, |items|);
    }
  }

  /** All numbers that go into the archive fit their fields. */
  predicate CanWrite(items: seq<Item>) {
    && AllFit(items, |items|) && |items| < 0x1_0000
    && EntryOffset(items, |items|) < 0x1_0000_0000 && Offset(items, |items|) < 0x1_0000_0000
  }

  const LOCAL_SIGNATURE := 0x04034b50
  const ENTRY_SIGNATURE := 0x02014b50
  const END_SIGNATURE: bytes := [0x50, 0x4b, 0x05, 0x06]

  /** A local header starts with these fields (section 4.3.7). */
  ghost predicate IsHeader(b: bytes, i: Item) {
    && |b| >= 30 && Get32(b, 0) == LOCAL_SIGNATURE && Get16(b, 4) == 20 && Get16(b, 6) == 0
    && Get16(b, 8) == i.method_ && Get16(b, 10) == 0 && Get16(b, 12) == 0
    && Get32(b, 14) == i.crc && Get32(b, 18) == |i.stored| && Get32(b, 22) == i.size
    && Get16(b, 26) == |i.name| && Get16(b, 28) == 0
  }

  /** Header, name and data of an item. */
  ghost predicate IsLocal(b: bytes, i: Item) {
    |b| == Size(i) && IsHeader(b, i) && Holds(b, 30, i.name) && Holds(b, 30 + |i.name|, i.stored)
  }

  /** An entry of the central directory starts with these fields (section 4.3.12). */
  ghost predicate IsEntryHeader(b: bytes, i: Item, offset: nat) {
    && |b| >= 46 && Get32(b, 0) == ENTRY_SIGNATURE && Get16(b, 4) == 20 && Get16(b, 6) == 20 && Get16(b, 8) == 0
    && Get16(b, 10) == i.method_ && Get16(b, 12) == 0 && Get16(b, 14) == 0
    && Get32(b, 16) == i.crc && Get32(b, 20) == |i.stored| && Get32(b, 24) == i.size
    && Get16(b, 28) == |i.name| && Get16(b, 30) == 0 && Get16(b, 32) == 0 && Get16(b, 34) == 0
    && Get16(b, 36) == 0 && Get32(b, 38) == 0 && Get32(b, 42) == offset
  }

  /** Entry and name of an item whose local header is at `offset`. */
  ghost predicate IsEntry(b: bytes, i: Item, offset: nat) {
    |b| == 46 + |i.name| && IsEntryHeader(b, i, offset) && Holds(b, 46, i.name)
  }

  /** The end record is made of these fields (section 4.3.16). */
  ghost predicate IsEnd(b: bytes, count: nat, size: nat, offset: nat) {
    && |b| == 22 && Get32(b, 0) == 0x06054b50 && Get16(b, 4) == 0 && Get16(b, 6) == 0
    && Get16(b, 8) == count && Get16(b, 10) == count && Get32(b, 12) == size && Get32(b, 16) == offset && Get16(b, 20) == 0
  }

  /** The buffers of an archive. */
  datatype Layout = Layout(locals: seq<bytes>, entries: seq<bytes>, end: bytes)

  function Whole(a: Layout): bytes {
    Concat(a.locals, |a.locals|) + Concat(a.entries, |a.entries|) + a.end
  }

  /** Of each of the first `n` items, the buffers have the right fields and the right offset. */
  ghost predicate Packed(locals: seq<bytes>, entries: seq<bytes>, items: seq<Item>, n: nat)
    requires n <= |locals| && n <= |entries| && n <= |items|
  {
    n == 0 || (Packed(locals, entries, items, n - 1)
               && IsLocal(locals[n - 1], items[n - 1]) && IsEntry(entries[n - 1], items[n - 1], Offset(items, n - 1)))
  }

  /** An archive of items. */
  ghost predicate LaidOut(a: Layout, items: seq<Item>) {
    && |a.locals| == |a.entries| == |items| && Packed(a.locals, a.entries, items, |items|)
    && IsEnd(a.end, |items|, EntryOffset(items, |items|), Offset(items, |items|))
  }

  lemma Field16(b: bytes, at: nat, piece: bytes, k: nat)
    requires Holds(b, at, piece) && k + 2 <= |piece|
    ensures Get16(b, at + k) == Get16(piece, k)
  {
    AgreesAll(b, at, piece, |piece|);
    assert b[at + (k + 1)] == piece[k + 1];
  }

  lemma Field32(b: bytes, at: nat, piece: bytes, k: nat)
    requires Holds(b, at, piece) && k + 4 <= |piece|
    ensures Get32(b, at + k) == Get32(piece, k)
  {
    AgreesAll(b, at, piece, |piece|);
    assert b[at + (k + 1)] == piece[k + 1] && b[at + (k + 2)] == piece[k + 2] && b[at + (k + 3)] == piece[k + 3];
  }

  // ----- the writer -----

  /** `writeUInt16LE`. */
  method WriteUInt16(b: array<byte>, at: nat, v: nat)
    requires at + 2 <= b.Length && v < 0x1_0000
    modifies b
    ensures b[at] == v % 256 && b[at + 1] == v / 256
    ensures Get16(b[..], at) == v
    ensures forall k :: 0 <= k < b.Length && !(at <= k < at + 2) ==> b[k] == old(b[k])
  {
    b[at], b[at + 1] := v % 256, v / 256;
  }

  /** `writeUInt32LE`. */
  method WriteUInt32(b: array<byte>, at: nat, v: nat)
    requires at + 4 <= b.Length && v < 0x1_0000_0000
    modifies b
    ensures Get32(b[..], at) == v
    ensures forall k :: 0 <= k < b.Length && !(at <= k < at + 4) ==> b[k] == old(b[k])
  {
    b[at], b[at + 1], b[at + 2], b[at + 3] := v % 256, v / 0x100 % 256, v / 0x1_0000 % 256, v / 0x100_0000;
    FourBytes(v);
  }

  method Alloc(n: nat) returns (b: array<byte>)
    ensures fresh(b) && b.Length == n && forall k :: 0 <= k < n ==> b[k] == 0
  {
    b := new byte[n](_ => 0);
  }

  method MakeLocal(i: Item) returns (local: array<byte>)
    requires Fits(i)
    ensures fresh(local) && local.Length == 30 && IsHeader(local[..], i)
  {
    local := Alloc(30);
    WriteUInt32(local, 0, LOCAL_SIGNATURE);
    WriteUInt16(local, 4, 20);
    WriteUInt16(local, 8, i.method_);
    WriteUInt32(local, 14, i.crc);
    WriteUInt32(local, 18, |i.stored|);
    WriteUInt32(local, 22, i.size);
    WriteUInt16(local, 26, |i.name|);
  }

  /** An entry takes eleven fields from the local header as they are. */
  lemma EntryFromHeader(b: bytes, local: bytes, i: Item, offset: nat)
    requires |b| == 46 && IsHeader(local, i)
    requires Get32(b, 0) == ENTRY_SIGNATURE && Get16(b, 4) == 20 && Get16(b, 6) == 20 && b[8] == 0 && b[9] == 0
    requires (forall k :: 10 <= k < 32 ==> b[k] == local[k - 2]) && (forall k :: 32 <= k < 42 ==> b[k] == 0)
    requires Get32(b, 42) == offset
    ensures IsEntryHeader(b, i, offset)
  {
  }

  method MakeEntry(i: Item, local: array<byte>, offset: nat) returns (entry: array<byte>)
    requires Fits(i) && offset < 0x1_0000_0000 && local.Length == 30 && IsHeader(local[..], i)
    ensures fresh(entry) && entry.Length == 46 && IsEntryHeader(entry[..], i, offset)
  {
    entry := Alloc(46);
    WriteUInt32(entry, 0, ENTRY_SIGNATURE);
    WriteUInt16(entry, 4, 20);
    WriteUInt16(entry, 6, 20);
    forall k | 8 <= k < 30 {
      entry[k + 2] := local[k];
    }
    WriteUInt32(entry, 42, offset);
    EntryFromHeader(entry[..], local[..], i, offset);
  }

  method MakeEnd(count: nat, size: nat, offset: nat) returns (record: bytes)
    requires count < 0x1_0000 && size < 0x1_0000_0000 && offset < 0x1_0000_0000
    ensures IsEnd(record, count, size, offset)
  {
    var end := Alloc(22);
    WriteUInt32(end, 0, 0x06054b50);
    WriteUInt16(end, 8, count);
    WriteUInt16(end, 10, count);
    WriteUInt32(end, 12, size);
    WriteUInt32(end, 16, offset);
    record := end[..];
  }

  lemma HeaderFirst(header: bytes, i: Item)
    requires |header| == 30 && IsHeader(header, i)
    ensures IsLocal(header + i.name + i.stored, i)
  {
    var local := header + i.name + i.stored;
    assert forall k :: 0 <= k < 30 ==> local[k] == header[k];
    HoldsLast(header, i.name);
    HoldsLonger([], header + i.name, 30, i.name, i.stored);
    HoldsLast(header + i.name, i.stored);
  }

  lemma EntryHeaderFirst(header: bytes, i: Item, offset: nat)
    requires |header| == 46 && IsEntryHeader(header, i, offset)
    ensures IsEntry(header + i.name, i, offset)
  {
    assert forall k :: 0 <= k < 46 ==> (header + i.name)[k] == header[k];
    HoldsLast(header, i.name);
  }

  /** The bytes of one item: local header, name and data, and its entry and name for the directory. */
  method PackItem(i: Item, offset: nat) returns (local: bytes, central: bytes)
    requires Fits(i) && offset < 0x1_0000_0000
    ensures IsLocal(local, i) && IsEntry(central, i, offset)
  {
    var header := MakeLocal(i);
    var entry := MakeEntry(i, header, offset);
    local := header[..] + i.name + i.stored;
    central := entry[..] + i.name;
    HeaderFirst(header[..], i);
    EntryHeaderFirst(entry[..], i, offset);
  }

  lemma {:induction false} PackedStays(locals: seq<bytes>, entries: seq<bytes>, items: seq<Item>, n: nat, local: bytes, entry: bytes)
    requires n <= |locals| && n <= |entries| && n <= |items| && Packed(locals, entries, items, n)
    ensures Packed(locals + [local], entries + [entry], items, n)
  {
    if n > 0 {
      PackedStays(locals, entries, items, n - 1, local, entry);
      assert (locals + [local])[n - 1] == locals[n - 1] && (entries + [entry])[n - 1] == entries[n - 1];
    }
  }

  lemma PackedNext(locals: seq<bytes>, entries: seq<bytes>, items: seq<Item>, n: nat, local: bytes, entry: bytes)
    requires |locals| == |entries| == n < |items| && Packed(locals, entries, items, n)
    requires IsLocal(local, items[n]) && IsEntry(entry, items[n], Offset(items, n))
    ensures Packed(locals + [local], entries + [entry], items, n + 1)
  {
    PackedStays(locals, entries, items, n, local, entry);
    assert (locals + [local])[n] == local && (entries + [entry])[n] == entry;
  }

  lemma {:induction false} PackedAt(locals: seq<bytes>, entries: seq<bytes>, items: seq<Item>, k: nat, n: nat)
    requires k < n <= |items| && n <= |locals| && n <= |entries| && Packed(locals, entries, items, n)
    ensures IsLocal(locals[k], items[k]) && IsEntry(entries[k], items[k], Offset(items, k))
    decreases n
  {
    if k < n - 1 {
      PackedAt(locals, entries, items, k, n - 1);
    }
  }

  /** The buffers of the items and of the directory, and the length of the former. */
  method PackItems(items: seq<Item>) returns (ok: bool, locals: seq<bytes>, central: seq<bytes>, offset: nat)
    ensures ok <==> AllFit(items, |items|)
    ensures ok ==> |locals| == |central| == |items| && offset == Offset(items, |items|)
    ensures ok ==> Packed(locals, central, items, |items|)
  {
    locals, central, offset := [], [], 0;
    for n := 0 to |items|
      invariant |locals| == |central| == n && Packed(locals, central, items, n)
      invariant AllFit(items, n) && offset == Offset(items, n)
    {
      var i := items[n];
      if !Fits(i) || offset >= 0x1_0000_0000 {
        Misfit(items, n);
        return false, [], [], 0;
      }
      var local, entry := PackItem(i, offset);
      PackedNext(locals, central, items, n, local, entry);
      locals, central := locals + [local], central + [entry];
      offset := offset + |local|;
    }
    ok := true;
  }

  /** How long the buffers are together. */
  lemma {:induction false} PackedLength(locals: seq<bytes>, entries: seq<bytes>, items: seq<Item>, n: nat)
    requires n <= |locals| && n <= |entries| && n <= |items| && Packed(locals, entries, items, n)
    ensures |Concat(locals, n)| == Offset(items, n) && |Concat(entries, n)| == EntryOffset(items, n)
  {
    if n > 0 {
      PackedLength(locals, entries, items, n - 1);
    }
  }

  // ----- what an archive says of its parts -----

  /** The bytes of a part in the archive. */
  function Stored(p: Part, codec: Codec): bytes {
    if p.deflate then codec.deflate(p.data) else p.data
  }

  /** Where the local header of part `k` starts. */
  function LocalStart(parts: seq<Part>, k: nat, codec: Codec): nat
    requires k <= |parts|
  {
    if k == 0 then 0
    else LocalStart(parts, k - 1, codec) + 30 + |codec.encode(parts[k - 1].path)| + |Stored(parts[k - 1], codec)|
  }

  /** Where its entry starts in the directory. */
  function EntryStart(parts: seq<Part>, k: nat, codec: Codec): nat
    requires k <= |parts|
  {
    if k == 0 then 0 else EntryStart(parts, k - 1, codec) + 46 + |codec.encode(parts[k - 1].path)|
  }

  /** What a header or an entry says. */
  datatype Fields = Fields(signature: nat, method_: nat, crc: nat, storedSize: nat, size: nat, nameLength: nat, local: nat)

  /** The fields of a local header at `at`. */
  function LocalFields(b: bytes, at: nat): Fields
    requires at + 30 <= |b|
  {
    Fields(Get32(b, at), Get16(b, at + 8), Get32(b, at + 14), Get32(b, at + 18), Get32(b, at + 22), Get16(b, at + 26), at)
  }

  /** The fields of an entry of the directory at `at`. */
  function EntryFields(b: bytes, at: nat): Fields
    requires at + 46 <= |b|
  {
    Fields(Get32(b, at), Get16(b, at + 10), Get32(b, at + 16), Get32(b, at + 20), Get32(b, at + 24), Get16(b, at + 28),
           Get32(b, at + 42))
  }

  /** A local header, and the name and the bytes after it. */
  datatype Local = Local(fields: Fields, name: bytes, stored: bytes)

  /** What a reader finds at `at`, who trusts the lengths in the header. */
  function LocalAt(b: bytes, at: nat): Option<Local> {
    if at + 30 > |b| then None
    else
      var f := LocalFields(b, at);
      var name := at + 30 + f.nameLength;
      if name + f.storedSize > |b| then None else Some(Local(f, b[at + 30..name], b[name..name + f.storedSize]))
  }

  /** The same of an entry of the directory, which has a name only. */
  function EntryAt(b: bytes, at: nat): Option<Local> {
    if at + 46 > |b| then None
    else
      var f := EntryFields(b, at);
      if at + 46 + f.nameLength > |b| then None else Some(Local(f, b[at + 46..at + 46 + f.nameLength], []))
  }

  /** What both should say of a part: its method, the checksum and size of its data, and the size of what is stored. */
  function PartFields(signature: nat, p: Part, local: nat, codec: Codec): Fields {
    Fields(signature, if p.deflate then 8 else 0, codec.crc32(p.data), |Stored(p, codec)|, |p.data|, |codec.encode(p.path)|, local)
  }

  function PartLocal(p: Part, at: nat, codec: Codec): Local {
    Local(PartFields(0x04034b50, p, at, codec), codec.encode(p.path), Stored(p, codec))
  }

  function PartEntry(p: Part, local: nat, codec: Codec): Local {
    Local(PartFields(0x02014b50, p, local, codec), codec.encode(p.path), [])
  }

  lemma {:induction false} StartsAre(parts: seq<Part>, items: seq<Item>, k: nat, codec: Codec)
    requires k <= |parts| && items == Items(parts, codec)
    ensures Offset(items, k) == LocalStart(parts, k, codec) && EntryOffset(items, k) == EntryStart(parts, k, codec)
  {
    if k > 0 {
      StartsAre(parts, items, k - 1, codec);
      assert items[k - 1] == Encoded(parts[k - 1], codec);
    }
  }

  lemma SliceHeld(b: bytes, at: nat, piece: bytes)
    requires Holds(b, at, piece)
    ensures b[at..at + |piece|] == piece
  {
    AgreesAll(b, at, piece, |piece|);
    forall k | 0 <= k < |piece| ensures b[at..at + |piece|][k] == piece[k] {
      assert b[at + k] == piece[k];
    }
  }

  lemma LocalFieldsHeld(b: bytes, at: nat, local: bytes, i: Item, p: Part, codec: Codec)
    requires Holds(b, at, local) && IsLocal(local, i) && i == Encoded(p, codec)
    ensures LocalFields(b, at) == PartFields(0x04034b50, p, at, codec)
  {
    Field32(b, at, local, 0);
    Field16(b, at, local, 8);
    Field32(b, at, local, 14);
    Field32(b, at, local, 18);
    Field32(b, at, local, 22);
    Field16(b, at, local, 26);
  }

  lemma EntryFieldsHeld(b: bytes, at: nat, entry: bytes, i: Item, p: Part, offset: nat, codec: Codec)
    requires Holds(b, at, entry) && IsEntry(entry, i, offset) && i == Encoded(p, codec)
    ensures EntryFields(b, at) == PartFields(0x02014b50, p, offset, codec)
  {
    Field32(b, at, entry, 0);
    Field16(b, at, entry, 10);
    Field32(b, at, entry, 16);
    Field32(b, at, entry, 20);
    Field32(b, at, entry, 24);
    Field16(b, at, entry, 28);
    Field32(b, at, entry, 42);
  }

  lemma LocalHeld(b: bytes, at: nat, local: bytes, i: Item, p: Part, codec: Codec)
    requires Holds(b, at, local) && IsLocal(local, i) && i == Encoded(p, codec)
    ensures LocalAt(b, at) == Some(PartLocal(p, at, codec))
  {
    LocalFieldsHeld(b, at, local, i, p, codec);
    HoldsHeld(b, at, local, 30, i.name);
    HoldsHeld(b, at, local, 30 + |i.name|, i.stored);
    SliceHeld(b, at + 30, i.name);
    SliceHeld(b, at + 30 + |i.name|, i.stored);
  }

  lemma EntryHeld(b: bytes, at: nat, entry: bytes, i: Item, p: Part, offset: nat, codec: Codec)
    requires Holds(b, at, entry) && IsEntry(entry, i, offset) && i == Encoded(p, codec)
    ensures EntryAt(b, at) == Some(PartEntry(p, offset, codec))
  {
    EntryFieldsHeld(b, at, entry, i, p, offset, codec);
    HoldsHeld(b, at, entry, 46, i.name);
    SliceHeld(b, at + 46, i.name);
  }

  /** The buffers of the first `n` items stand where their numbers say. */
  ghost predicate Places(b: bytes, a: Layout, items: seq<Item>, n: nat)
    requires n <= |items| == |a.locals| == |a.entries|
  {
    n == 0
    || (Places(b, a, items, n - 1) && Holds(b, Offset(items, n - 1), a.locals[n - 1])
        && Holds(b, Offset(items, |items|) + EntryOffset(items, n - 1), a.entries[n - 1]))
  }

  lemma {:induction false} AllPlaced(a: Layout, items: seq<Item>, n: nat)
    requires n <= |items| && LaidOut(a, items)
    ensures Places(Whole(a), a, items, n)
  {
    if n > 0 {
      AllPlaced(a, items, n - 1);
      ItemHeld(a, items, n - 1);
    }
  }

  lemma {:induction false} PlacedAt(b: bytes, a: Layout, items: seq<Item>, k: nat, n: nat)
    requires k < n <= |items| == |a.locals| == |a.entries| && Places(b, a, items, n)
    ensures Holds(b, Offset(items, k), a.locals[k]) && Holds(b, Offset(items, |items|) + EntryOffset(items, k), a.entries[k])
    decreases n
  {
    if k < n - 1 {
      PlacedAt(b, a, items, k, n - 1);
    }
  }

  /** What is found at every place of an archive. */
  type Finder = nat -> Option<Local>

  function LocalsOf(b: bytes): Finder { (at: nat) => LocalAt(b, at) }

  function EntriesOf(b: bytes): Finder { (at: nat) => EntryAt(b, at) }

  /** Of part `k`: the local header that is found where it starts, and the entry. */
  ghost predicate SaysPart(locals: Finder, entries: Finder, parts: seq<Part>, k: nat, codec: Codec)
    requires k < |parts|
  {
    && locals(LocalStart(parts, k, codec)) == Some(PartLocal(parts[k], LocalStart(parts, k, codec), codec))
    && entries(LocalStart(parts, |parts|, codec) + EntryStart(parts, k, codec))
       == Some(PartEntry(parts[k], LocalStart(parts, k, codec), codec))
  }

  /** The same with the places of the items. */
  ghost predicate SaysItem(locals: Finder, entries: Finder, parts: seq<Part>, items: seq<Item>, k: nat, codec: Codec)
    requires k < |parts| == |items|
  {
    && locals(Offset(items, k)) == Some(PartLocal(parts[k], Offset(items, k), codec))
    && entries(Offset(items, |items|) + EntryOffset(items, k)) == Some(PartEntry(parts[k], Offset(items, k), codec))
  }

  ghost predicate LocalIsAt(b: bytes, a: Layout, items: seq<Item>, k: nat)
    requires k < |items| == |a.locals|
  {
    IsLocal(a.locals[k], items[k]) && Holds(b, Offset(items, k), a.locals[k])
  }

  ghost predicate EntryIsAt(b: bytes, a: Layout, items: seq<Item>, k: nat)
    requires k < |items| == |a.entries|
  {
    IsEntry(a.entries[k], items[k], Offset(items, k)) && Holds(b, Offset(items, |items|) + EntryOffset(items, k), a.entries[k])
  }

  lemma PackedAndPlaced(b: bytes, a: Layout, items: seq<Item>, k: nat)
    requires k < |items| && LaidOut(a, items) && Places(b, a, items, |items|)
    ensures LocalIsAt(b, a, items, k) && EntryIsAt(b, a, items, k)
  {
    PlacedAt(b, a, items, k, |items|);
    PackedAt(a.locals, a.entries, items, k, |items|);
  }

  lemma LocalSaid(b: bytes, a: Layout, items: seq<Item>, k: nat, p: Part, codec: Codec)
    requires k < |items| == |a.locals| && items[k] == Encoded(p, codec) && LocalIsAt(b, a, items, k)
    ensures LocalsOf(b)(Offset(items, k)) == Some(PartLocal(p, Offset(items, k), codec))
  {
    LocalHeld(b, Offset(items, k), a.locals[k], items[k], p, codec);
  }

  lemma EntrySaid(b: bytes, a: Layout, items: seq<Item>, k: nat, p: Part, codec: Codec)
    requires k < |items| == |a.entries| && items[k] == Encoded(p, codec) && EntryIsAt(b, a, items, k)
    ensures EntriesOf(b)(Offset(items, |items|) + EntryOffset(items, k)) == Some(PartEntry(p, Offset(items, k), codec))
  {
    EntryHeld(b, Offset(items, |items|) + EntryOffset(items, k), a.entries[k], items[k], p, Offset(items, k), codec);
  }

  lemma ItemSaid(b: bytes, a: Layout, parts: seq<Part>, items: seq<Item>, k: nat, codec: Codec)
    requires k < |parts| == |a.locals| == |a.entries| && items == Items(parts, codec)
    requires LocalIsAt(b, a, items, k) && EntryIsAt(b, a, items, k)
    ensures SaysItem(LocalsOf(b), EntriesOf(b), parts, items, k, codec)
  {
    LocalSaid(b, a, items, k, parts[k], codec);
    EntrySaid(b, a, items, k, parts[k], codec);
  }

  lemma PartSaid(locals: Finder, entries: Finder, parts: seq<Part>, items: seq<Item>, k: nat, codec: Codec)
    requires k < |parts| && items == Items(parts, codec) && SaysItem(locals, entries, parts, items, k, codec)
    ensures SaysPart(locals, entries, parts, k, codec)
  {
    StartsAre(parts, items, k, codec);
    StartsAre(parts, items, |parts|, codec);
  }

  lemma AllSaid(b: bytes, a: Layout, parts: seq<Part>, codec: Codec)
    requires LaidOut(a, Items(parts, codec)) && Places(b, a, Items(parts, codec), |parts|)
    ensures forall k :: 0 <= k < |parts| ==> SaysPart(LocalsOf(b), EntriesOf(b), parts, k, codec)
  {
    forall k | 0 <= k < |parts| ensures SaysPart(LocalsOf(b), EntriesOf(b), parts, k, codec) {
      PackedAndPlaced(b, a, Items(parts, codec), k);
      ItemSaid(b, a, parts, Items(parts, codec), k, codec);
      PartSaid(LocalsOf(b), EntriesOf(b), parts, Items(parts, codec), k, codec);
    }
  }

  /** All numbers fit: of every part, and of the end record. */
  predicate PartsFit(parts: seq<Part>, codec: Codec) {
    && |parts| < 0x1_0000 && EntryStart(parts, |parts|, codec) < 0x1_0000_0000
    && LocalStart(parts, |parts|, codec) < 0x1_0000_0000
    && forall k :: 0 <= k < |parts| ==>
         && |codec.encode(parts[k].path)| < 0x1_0000 && |Stored(parts[k], codec)| < 0x1_0000_0000
         && |parts[k].data| < 0x1_0000_0000 && codec.crc32(parts[k].data) < 0x1_0000_0000
  }

  lemma {:induction false} StartsGrow(parts: seq<Part>, k: nat, n: nat, codec: Codec)
    requires k <= n <= |parts|
    ensures LocalStart(parts, k, codec) <= LocalStart(parts, n, codec)
    decreases n
  {
    if k < n {
      StartsGrow(parts, k, n - 1, codec);
    }
  }

  predicate FitsAt(items: seq<Item>, k: nat)
    requires k < |items|
  {
    Fits(items[k]) && Offset(items, k) < 0x1_0000_0000
  }

  lemma {:induction false} AllFitIf(items: seq<Item>, n: nat)
    requires n <= |items| && forall k :: 0 <= k < n ==> FitsAt(items, k)
    ensures AllFit(items, n)
  {
    if n > 0 {
      AllFitIf(items, n - 1);
      assert FitsAt(items, n - 1);
    }
  }

  lemma CanWriteIff(parts: seq<Part>, items: seq<Item>, codec: Codec)
    requires items == Items(parts, codec)
    ensures CanWrite(items) <==> PartsFit(parts, codec)
  {
    StartsAre(parts, items, |parts|, codec);
    if CanWrite(items) {
      forall k | 0 <= k < |parts| ensures Fits(items[k]) && items[k] == Encoded(parts[k], codec) {
        AllFitAt(items, k, |items|);
      }
    }
    if PartsFit(parts, codec) {
      forall k | 0 <= k < |parts| ensures FitsAt(items, k) {
        StartsAre(parts, items, k, codec);
        StartsGrow(parts, k, |parts|, codec);
        assert items[k] == Encoded(parts[k], codec);
      }
      AllFitIf(items, |items|);
    }
  }

  /** Writes an archive; there is none, but a range error, if a number does not fit its field. */
  method Pack(parts: seq<Part>, codec: Codec) returns (archive: Option<bytes>, ghost a: Layout)
    ensures archive.Some? <==> CanWrite(Items(parts, codec))
    ensures archive.Some? <==> PartsFit(parts, codec)
    ensures archive.Some? ==> archive.value == Whole(a) && LaidOut(a, Items(parts, codec))
    ensures archive.Some? ==> forall k :: 0 <= k < |parts| ==> SaysPart(LocalsOf(archive.value), EntriesOf(archive.value), parts, k, codec)
  {
    CanWriteIff(parts, Items(parts, codec), codec);
    a := Layout([], [], []);
    var ok, locals, central, offset := PackItems(Items(parts, codec));
    if !ok {
      return None, a;
    }
    var directory := Concat(central, |central|);
    PackedLength(locals, central, Items(parts, codec), |parts|);
    if |parts| >= 0x1_0000 || |directory| >= 0x1_0000_0000 || offset >= 0x1_0000_0000 {
      return None, a;
    }
    var end := MakeEnd(|parts|, |directory|, offset);
    a := Layout(locals, central, end);
    archive := Some(Concat(locals, |locals|) + directory + end);
    AllPlaced(a, Items(parts, codec), |parts|);
    AllSaid(Whole(a), a, parts, codec);
  }

  // ----- the reader -----

  /** `subarray` and `toString`: the bytes of a range, as far as there are any. */
  function Sub(b: bytes, from: nat, end: nat): bytes
    decreases end
  {
    if from < end <= |b| then Sub(b, from, end - 1) + [b[end - 1]]
    else if |b| < end then Sub(b, from, |b|)
    else []
  }

  predicate SignatureAt(b: bytes, at: int) {
    0 <= at <= |b| - 4 && b[at..at + 4] == END_SIGNATURE
  }

  /** The last place of the signature, or -1. */
  predicate IsLastSignature(b: bytes, at: int) {
    && -1 <= at && (at >= 0 ==> SignatureAt(b, at))
    && forall k :: at < k <= |b| - 4 && 0 <= k ==> !SignatureAt(b, k)
  }

  method LastSignature(b: bytes) returns (at: int)
    ensures IsLastSignature(b, at)
  {
    at := |b| - 4;
    while at >= 0 && b[at..at + 4] != END_SIGNATURE
      invariant -4 <= at <= |b| - 4
      invariant forall k :: at < k <= |b| - 4 && 0 <= k ==> !SignatureAt(b, k)
    {
      at := at - 1;
    }
    at := Max(at, -1);
  }

  /** One entry of the directory: the name and data of the file, and where the next entry starts.
      There is none if a field lies beyond the end of the archive or the data does not inflate. */
  function ReadEntry(b: bytes, entry: nat, codec: Codec): Option<(string, bytes, nat)> {
    if entry + 46 > |b| then None
    else
      var method_ := Get16(b, entry + 10);
      var compressedSize := Get32(b, entry + 20);
      var nameLength, extraLength, commentLength := Get16(b, entry + 28), Get16(b, entry + 30), Get16(b, entry + 32);
      var local := Get32(b, entry + 42);
      if local + 30 > |b| then None
      else
        var name := codec.decode(Sub(b, entry + 46, entry + 46 + nameLength));
        var dataStart := local + 30 + Get16(b, local + 26) + Get16(b, local + 28);
        var data := Sub(b, dataStart, dataStart + compressedSize);
        match (if method_ == 0 then Some(data) else codec.inflate(data))
        case None => None
        case Some(content) => Some((name, content, entry + 46 + nameLength + extraLength + commentLength))
  }

  /** A file and where the next entry starts, for every place in an archive. */
  type EntryReader = nat -> Option<(string, bytes, nat)>

  function Reading(b: bytes, codec: Codec): EntryReader {
    entry => ReadEntry(b, entry, codec)
  }

  /** The files of `left` entries from `entry` on; a later file replaces an earlier one of its name. */
  function ReadEntries(read: EntryReader, entry: nat, left: nat, files: map<string, bytes>): Option<map<string, bytes>>
    decreases left
  {
    if left == 0 then Some(files)
    else match read(entry)
      case None => None
      case Some((name, content, next)) => ReadEntries(read, next, left - 1, files[name := content])
  }

  /** The files of an archive whose end record is taken to start at `at`. */
  function FilesFrom(b: bytes, at: int, codec: Codec): Option<map<string, bytes>>
    requires at <= |b|
  {
    if at < 0 || at + 20 > |b| then None
    else ReadEntries(Reading(b, codec), Get32(b, at + 16), Get16(b, at + 10), map[])
  }

  /** Reads an archive by its last end signature; no value where the original throws. */
  method Unzip(archive: bytes, codec: Codec) returns (files: Option<map<string, bytes>>)
    ensures exists at :: IsLastSignature(archive, at) && files == FilesFrom(archive, at, codec)
  {
    var end := LastSignature(archive);
    if end < 0 || end + 20 > |archive| {
      return None;
    }
    var count, entry := Get16(archive, end + 10), Get32(archive, end + 16);
    var found: map<string, bytes> := map[];
    var index := 0;
    while index < count
      invariant index <= count
      invariant FilesFrom(archive, end, codec) == ReadEntries(Reading(archive, codec), entry, count - index, found)
    {
      var file := ReadEntry(archive, entry, codec);
      if file == None {
        return None;
      }
      var (name, content, next) := file.value;
      found := found[name := content];
      entry := next;
      index := index + 1;
    }
    files := Some(found);
  }

  // ----- what is written is read back -----

  /** The data of the last part of every path, among the first `n`. */
  function Files(parts: seq<Part>, n: nat): map<string, bytes>
    requires n <= |parts|
  {
    if n == 0 then map[] else Files(parts, n - 1)[parts[n - 1].path := parts[n - 1].data]
  }

  /** `Files` holds exactly the paths of the parts, each with the data of its last part. */
  lemma {:induction false} FilesAreLastParts(parts: seq<Part>, n: nat, path: string)
    requires n <= |parts|
    ensures path in Files(parts, n) <==> exists k :: 0 <= k < n && parts[k].path == path
    ensures forall k :: 0 <= k < n && parts[k].path == path && (forall j :: k < j < n ==> parts[j].path != path)
                        ==> path in Files(parts, n) && Files(parts, n)[path] == parts[k].data
  {
    if n > 0 {
      FilesAreLastParts(parts, n - 1, path);
    }
  }

  lemma LocalsHeld(locals: bytes, entries: bytes, end: bytes, at: nat, piece: bytes)
    requires Holds(locals, at, piece)
    ensures Holds(locals + entries + end, at, piece)
  {
    HoldsLonger([], locals, at, piece, entries);
    HoldsLonger([], locals + entries, at, piece, end);
  }

  lemma EntriesHeld(locals: bytes, entries: bytes, end: bytes, at: nat, piece: bytes)
    requires Holds(entries, at, piece)
    ensures Holds(locals + entries + end, |locals| + at, piece)
  {
    HoldsLonger(locals, entries, at, piece, end);
    HoldsLonger([], locals + entries, |locals| + at, piece, end);
  }

  /** Where an item stands in an archive, and where its entry does. */
  lemma {:induction false} ItemHeld(a: Layout, items: seq<Item>, k: nat)
    requires k < |items| && LaidOut(a, items)
    ensures Holds(Whole(a), Offset(items, k), a.locals[k])
    ensures Holds(Whole(a), Offset(items, |items|) + EntryOffset(items, k), a.entries[k])
  {
    var locals, entries := Concat(a.locals, |a.locals|), Concat(a.entries, |a.entries|);
    PackedUpTo(a.locals, a.entries, items, k, |items|);
    PackedLength(a.locals, a.entries, items, k);
    PackedLength(a.locals, a.entries, items, |items|);
    ConcatHeld(a.locals, k, |items|);
    LocalsHeld(locals, entries, a.end, Offset(items, k), a.locals[k]);
    ConcatHeld(a.entries, k, |items|);
    EntriesHeld(locals, entries, a.end, EntryOffset(items, k), a.entries[k]);
  }

  lemma {:induction false} PackedUpTo(locals: seq<bytes>, entries: seq<bytes>, items: seq<Item>, k: nat, n: nat)
    requires k <= n <= |items| && n <= |locals| && n <= |entries| && Packed(locals, entries, items, n)
    ensures Packed(locals, entries, items, k)
    decreases n
  {
    if k < n {
      PackedUpTo(locals, entries, items, k, n - 1);
    }
  }

  /** The entry at `at` describes an item and points to its local header at `local`. */
  ghost predicate Points(b: bytes, at: nat, local: nat, i: Item) {
    && at + 46 <= |b| && Get16(b, at + 10) == i.method_ && Get32(b, at + 20) == |i.stored| && Get16(b, at + 28) == |i.name|
    && Get16(b, at + 30) == 0 && Get16(b, at + 32) == 0 && Get32(b, at + 42) == local
    && local + 30 <= |b| && Get16(b, local + 26) == |i.name| && Get16(b, local + 28) == 0
  }

  lemma EntryPoints(b: bytes, at: nat, i: Item, offset: nat, entry: bytes, local: bytes)
    requires IsEntry(entry, i, offset) && IsLocal(local, i) && Holds(b, at, entry) && Holds(b, offset, local)
    ensures Points(b, at, offset, i)
  {
    Field16(b, at, entry, 10);
    Field32(b, at, entry, 20);
    Field16(b, at, entry, 28);
    Field16(b, at, entry, 30);
    Field16(b, at, entry, 32);
    Field32(b, at, entry, 42);
    Field16(b, offset, local, 26);
    Field16(b, offset, local, 28);
  }

  lemma {:induction false} SubIsSlice(b: bytes, from: nat, end: nat)
    requires from <= end <= |b|
    ensures Sub(b, from, end) == b[from..end]
    decreases end
  {
    if from < end {
      SubIsSlice(b, from, end - 1);
      assert b[from..end] == b[from..end - 1] + [b[end - 1]];
    }
  }

  lemma SubHeld(b: bytes, at: nat, piece: bytes, inner: nat, x: bytes)
    requires Holds(b, at, piece) && Holds(piece, inner, x)
    ensures Sub(b, at + inner, at + inner + |x|) == x
  {
    HoldsHeld(b, at, piece, inner, x);
    AgreesAll(b, at + inner, x, |x|);
    SubIsSlice(b, at + inner, at + inner + |x|);
  }

  /** Decoding gives the path, and inflating, where needed, the data. */
  ghost predicate Decodes(codec: Codec, method_: nat, name: bytes, stored: bytes, path: string, data: bytes) {
    codec.decode(name) == path && (if method_ == 0 then Some(stored) else codec.inflate(stored)) == Some(data)
  }

  lemma ReadPointed(b: bytes, at: nat, local: nat, i: Item, codec: Codec, path: string, data: bytes)
    requires Points(b, at, local, i)
    requires Decodes(codec, i.method_, Sub(b, at + 46, at + 46 + |i.name|),
                     Sub(b, local + 30 + |i.name|, local + 30 + |i.name| + |i.stored|), path, data)
    ensures ReadEntry(b, at, codec) == Some((path, data, at + 46 + |i.name|))
  {
  }

  lemma ReadingEntry(b: bytes, at: nat, codec: Codec)
    ensures Reading(b, codec)(at) == ReadEntry(b, at, codec)
  {
  }

  lemma HeldRead(b: bytes, at: nat, i: Item, offset: nat, entry: bytes, local: bytes, codec: Codec, path: string, data: bytes)
    requires IsEntry(entry, i, offset) && IsLocal(local, i) && Holds(b, at, entry) && Holds(b, offset, local)
    requires Decodes(codec, i.method_, i.name, i.stored, path, data)
    ensures Reading(b, codec)(at) == Some((path, data, at + 46 + |i.name|))
  {
    EntryPoints(b, at, i, offset, entry, local);
    SubHeld(b, at, entry, 46, i.name);
    SubHeld(b, offset, local, 30 + |i.name|, i.stored);
    ReadPointed(b, at, offset, i, codec, path, data);
    ReadingEntry(b, at, codec);
  }

  lemma SubIsPiece(b: bytes, at: nat, piece: bytes)
    requires Holds(b, at, piece)
    ensures Sub(b, at, at + |piece|) == piece
  {
    AgreesAll(b, at, piece, |piece|);
    SubIsSlice(b, at, at + |piece|);
  }

  /** Archives of other writers are read too, with extra fields and comments of any length, where the local
      header has its own. */
  lemma ForeignEntryRead(b: bytes, at: nat, local: nat, i: Item, extra: nat, comment: nat, localName: nat, localExtra: nat,
                         codec: Codec, path: string, data: bytes)
    requires at + 46 <= |b| && Get16(b, at + 10) == i.method_ && Get32(b, at + 20) == |i.stored| && Get16(b, at + 28) == |i.name|
    requires Get16(b, at + 30) == extra && Get16(b, at + 32) == comment && Get32(b, at + 42) == local
    requires local + 30 <= |b| && Get16(b, local + 26) == localName && Get16(b, local + 28) == localExtra
    requires Holds(b, at + 46, i.name) && Holds(b, local + 30 + localName + localExtra, i.stored)
    requires Decodes(codec, i.method_, i.name, i.stored, path, data)
    ensures ReadEntry(b, at, codec) == Some((path, data, at + 46 + |i.name| + extra + comment))
  {
    SubIsPiece(b, at + 46, i.name);
    SubIsPiece(b, local + 30 + localName + localExtra, i.stored);
  }

  /** An entry and the item it points to are read back. */
  lemma EntryRead(a: Layout, items: seq<Item>, k: nat, codec: Codec, path: string, data: bytes)
    requires k < |items| && LaidOut(a, items)
    requires Decodes(codec, items[k].method_, items[k].name, items[k].stored, path, data)
    ensures Reading(Whole(a), codec)(Offset(items, |items|) + EntryOffset(items, k))
         == Some((path, data, Offset(items, |items|) + EntryOffset(items, k + 1)))
  {
    ItemHeld(a, items, k);
    PackedAt(a.locals, a.entries, items, k, |items|);
    HeldRead(Whole(a), Offset(items, |items|) + EntryOffset(items, k), items[k], Offset(items, k), a.entries[k], a.locals[k],
             codec, path, data);
  }

  /** Entry `k` of a directory that starts at `start` is that of part `k`. */
  ghost predicate Gives(read: EntryReader, start: nat, items: seq<Item>, parts: seq<Part>, k: nat)
    requires k < |items| == |parts|
  {
    read(start + EntryOffset(items, k)) == Some((parts[k].path, parts[k].data, start + EntryOffset(items, k + 1)))
  }

  lemma {:induction false} EntriesRead(read: EntryReader, start: nat, items: seq<Item>, parts: seq<Part>, k: nat)
    requires k <= |items| == |parts|
    requires forall j :: 0 <= j < |parts| ==> Gives(read, start, items, parts, j)
    ensures ReadEntries(read, start + EntryOffset(items, k), |parts| - k, Files(parts, k)) == Some(Files(parts, |parts|))
    decreases |parts| - k
  {
    if k < |parts| {
      assert Gives(read, start, items, parts, k);
      EntriesRead(read, start, items, parts, k + 1);
    }
  }

  /** The ten bytes of the last three numbers of the end record. */
  function Numbers(count: nat, size: nat, offset: nat): (b: bytes)
    requires count < 0x1_0000 && size < 0x1_0000_0000 && offset < 0x1_0000_0000
  {
    [count % 256, count / 256,
     size % 256, size / 0x100 % 256, size / 0x1_0000 % 256, size / 0x100_0000,
     offset % 256, offset / 0x100 % 256, offset / 0x1_0000 % 256, offset / 0x100_0000]
  }

  /** The number of parts, the size of the directory and its offset spell the end signature. */
  predicate Shadowed(count: nat, size: nat, offset: nat)
    requires count < 0x1_0000 && size < 0x1_0000_0000 && offset < 0x1_0000_0000
  {
    exists k :: 0 <= k <= 6 && SignatureAt(Numbers(count, size, offset), k)
  }

  /** They cannot while they are small. */
  lemma SmallIsNotShadowed(count: nat, size: nat, offset: nat)
    requires count < 0x4b50 && size < 0x054b_5000 && offset < 0x054b_5000
    ensures !Shadowed(count, size, offset)
  {
    var b := Numbers(count, size, offset);
    forall k | 0 <= k <= 6 ensures !SignatureAt(b, k) {
      FourAt(b, k);
    }
  }

  lemma OffsetShadows(count: nat, size: nat)
    requires count < 0x1_0000 && size < 0x1_0000_0000
    ensures Shadowed(count, size, 0x0605_4b50)
  {
    var b := Numbers(count, size, 0x0605_4b50);
    FourAt(b, 6);
  }

  /** One stored part of about 100 MB is enough: it can be written, and its archive cannot be read. */
  lemma OnePartShadows(p: Part, codec: Codec)
    requires Faithful(codec) && !p.deflate && |codec.encode(p.path)| == 1 && |p.data| == 0x0605_4b50 - 31
    ensures var items := Items([p], codec); CanWrite(items) && Shadowed(|items|, EntryOffset(items, |items|), Offset(items, |items|))
  {
    var items := Items([p], codec);
    assert items[0] == Encoded(p, codec);
    assert Offset(items, 0) == EntryOffset(items, 0) == 0 && AllFit(items, 0);
    assert Offset(items, 1) == 0x0605_4b50 && EntryOffset(items, 1) == 47;
    OffsetShadows(1, 47);
  }

  lemma FourAt(b: bytes, at: int)
    ensures SignatureAt(b, at) <==> 0 <= at <= |b| - 4 && b[at] == 0x50 && b[at + 1] == 0x4b && b[at + 2] == 5 && b[at + 3] == 6
  {
    if 0 <= at <= |b| - 4 {
      assert b[at..at + 4] == [b[at], b[at + 1], b[at + 2], b[at + 3]];
    }
  }

  lemma Quotients(b0: int, b1: int, b2: int, b3: int)
    requires 0 <= b0 < 256 && 0 <= b1 < 256 && 0 <= b2 < 256 && 0 <= b3 < 256
    ensures var v := b0 + 0x100 * b1 + 0x1_0000 * b2 + 0x100_0000 * b3;
            b0 == v % 256 && b1 == v / 0x100 % 256 && b2 == v / 0x1_0000 % 256 && b3 == v / 0x100_0000
  {
    var v, v1, v2 := b0 + 0x100 * b1 + 0x1_0000 * b2 + 0x100_0000 * b3, b1 + 0x100 * b2 + 0x1_0000 * b3, b2 + 0x100 * b3;
    assert v == b0 + 0x100 * v1 && v / 0x100 == v1;
    assert v1 == b1 + 0x100 * v2 && v1 / 0x100 == v2;
    assert v / 0x1_0000 == v2;
  }

  lemma Bytes32(b: bytes, at: nat)
    requires at + 4 <= |b|
    ensures var v := Get32(b, at);
            b[at] == v % 256 && b[at + 1] == v / 0x100 % 256 && b[at + 2] == v / 0x1_0000 % 256 && b[at + 3] == v / 0x100_0000
  {
    Quotients(b[at], b[at + 1], b[at + 2], b[at + 3]);
  }

  lemma Bytes16(b: bytes, at: nat)
    requires at + 2 <= |b|
    ensures var v := Get16(b, at); b[at] == v % 256 && b[at + 1] == v / 256
  {
  }

  lemma EndBytes(end: bytes, count: nat, size: nat, offset: nat)
    requires count < 0x1_0000 && size < 0x1_0000_0000 && offset < 0x1_0000_0000 && IsEnd(end, count, size, offset)
    ensures end[0] == 0x50 && end[1] == 0x4b && end[2] == 5 && end[3] == 6
    ensures end[4] == end[5] == end[6] == end[7] == end[20] == end[21] == 0 && end[8] == end[10] && end[9] == end[11]
    ensures forall k :: 0 <= k < 10 ==> end[10 + k] == Numbers(count, size, offset)[k]
  {
    Bytes32(end, 0);
    Bytes16(end, 10);
    Bytes32(end, 12);
    Bytes32(end, 16);
  }

  lemma EndSignatures(end: bytes, count: nat, size: nat, offset: nat, k: nat)
    requires count < 0x1_0000 && size < 0x1_0000_0000 && offset < 0x1_0000_0000 && IsEnd(end, count, size, offset)
    ensures SignatureAt(end, k) <==> k == 0 || (10 <= k <= 16 && SignatureAt(Numbers(count, size, offset), k - 10))
  {
    EndBytes(end, count, size, offset);
    FourAt(end, k);
    FourAt(Numbers(count, size, offset), k - 10);
  }

  lemma SignatureAfter(b: bytes, end: bytes, k: nat)
    ensures SignatureAt(b + end, |b| + k) <==> SignatureAt(end, k)
  {
    if k + 4 <= |end| {
      assert (b + end)[|b| + k..|b| + k + 4] == end[k..k + 4];
    }
  }

  lemma LastInArchive(b: bytes, end: bytes, count: nat, size: nat, offset: nat, at: int)
    requires count < 0x1_0000 && size < 0x1_0000_0000 && offset < 0x1_0000_0000 && IsEnd(end, count, size, offset)
    requires IsLastSignature(b + end, at)
    ensures if Shadowed(count, size, offset) then at >= |b| + 10 else at == |b|
  {
    SignatureAfter(b, end, 0);
    EndSignatures(end, count, size, offset, 0);
    assert at >= |b| + 0;
    SignatureAfter(b, end, at - |b|);
    EndSignatures(end, count, size, offset, at - |b|);
    if Shadowed(count, size, offset) {
      var k :| 0 <= k <= 6 && SignatureAt(Numbers(count, size, offset), k);
      EndSignatures(end, count, size, offset, k + 10);
      SignatureAfter(b, end, k + 10);
    }
  }

  lemma EncodedDecodes(p: Part, i: Item, codec: Codec)
    requires Faithful(codec) && i == Encoded(p, codec)
    ensures Decodes(codec, i.method_, i.name, i.stored, p.path, p.data)
  {
  }

  /** Read by its own end record, an archive gives the last part of every path. */
  lemma ReadByItsEnd(parts: seq<Part>, items: seq<Item>, codec: Codec, a: Layout, at: nat)
    requires Faithful(codec) && items == Items(parts, codec) && LaidOut(a, items) && Holds(Whole(a), at, a.end)
    ensures FilesFrom(Whole(a), at, codec) == Some(Files(parts, |parts|))
  {
    forall k | 0 <= k < |parts| ensures Gives(Reading(Whole(a), codec), Offset(items, |items|), items, parts, k) {
      EncodedDecodes(parts[k], items[k], codec);
      EntryRead(a, items, k, codec, parts[k].path, parts[k].data);
    }
    ReadAll(parts, items, codec, Whole(a), a.end, at);
  }

  lemma {:induction false} ReadAll(parts: seq<Part>, items: seq<Item>, codec: Codec, b: bytes, end: bytes, at: nat)
    requires |items| == |parts| && Holds(b, at, end) && IsEnd(end, |items|, EntryOffset(items, |items|), Offset(items, |items|))
    requires forall k :: 0 <= k < |parts| ==> Gives(Reading(b, codec), Offset(items, |items|), items, parts, k)
    ensures FilesFrom(b, at, codec) == Some(Files(parts, |parts|))
  {
    Field16(b, at, end, 10);
    Field32(b, at, end, 16);
    EntriesRead(Reading(b, codec), Offset(items, |items|), items, parts, 0);
  }

  lemma TooLate(b: bytes, at: int, codec: Codec)
    requires at <= |b| < at + 20
    ensures FilesFrom(b, at, codec) == None
  {
  }

  /** An archive gives back the last part of every path, unless the numbers of its end record happen
      to spell the end signature: then reading throws. */
  lemma ZipRoundTrip(parts: seq<Part>, items: seq<Item>, codec: Codec, a: Layout, at: int)
    requires Faithful(codec) && items == Items(parts, codec) && CanWrite(items) && LaidOut(a, items)
    requires IsLastSignature(Whole(a), at)
    ensures FilesFrom(Whole(a), at, codec)
         == if Shadowed(|items|, EntryOffset(items, |items|), Offset(items, |items|)) then None
            else Some(Files(parts, |parts|))
  {
    var count, size, offset := |items|, EntryOffset(items, |items|), Offset(items, |items|);
    var before := Concat(a.locals, |a.locals|) + Concat(a.entries, |a.entries|);
    LastInArchive(before, a.end, count, size, offset, at);
    if Shadowed(count, size, offset) {
      TooLate(Whole(a), at, codec);
    } else {
      HoldsLast(before, a.end);
      ReadByItsEnd(parts, items, codec, a, at);
    }
  }

  /** Writing and then reading, as the two are called. */
  method ThereAndBack(parts: seq<Part>, codec: Codec) returns (files: Option<map<string, bytes>>)
    requires Faithful(codec) && CanWrite(Items(parts, codec))
    ensures var items := Items(parts, codec);
            files == if Shadowed(|items|, EntryOffset(items, |items|), Offset(items, |items|)) then None
                     else Some(Files(parts, |parts|))
  {
    var archive, a := Pack(parts, codec);
    files := Unzip(archive.value, codec);
    ghost var at :| IsLastSignature(archive.value, at) && files == FilesFrom(archive.value, at, codec);
    ZipRoundTrip(parts, Items(parts, codec), codec, a, at);
  }
}
