/** The list of the offline package set: printed by the portal, parsed by the script that downloads it. */
module PackageList {
  import opened Common
  import opened Characters

  /** `sha512` is the digest in base64. */
  datatype Package = Package(id: string, version: string, sha512: string)

  /** Base64 and SHA-512 are parameters; decoding has no value where the original raises `binascii.Error`. */
  datatype Codec = Codec(encode: bytes -> string, decode: string -> Option<bytes>, sha512: bytes -> bytes)

  /** Decoding undoes encoding, accepts nothing but the characters of base64, and makes nothing of nothing. */
  ghost predicate Faithful(codec: Codec) {
    && (forall d :: codec.decode(codec.encode(d)) == Some(d))
    && (forall s :: codec.decode(s).Some? ==> IsBase64(s))
    && codec.decode("") == Some([])
  }

  predicate IsBase64(s: string) {
    forall k :: 0 <= k < |s| ==> IsAlnum(s[k]) || s[k] == '+' || s[k] == '/' || s[k] == '='
  }

  predicate MatchesId(s: string) {
    s != "" && IsAlnum(s[0]) && forall k :: 0 <= k < |s| ==> IsAlnum(s[k]) || s[k] == '.' || s[k] == '_' || s[k] == '-'
  }

  predicate MatchesVersion(s: string) {
    s != "" && IsDigit(s[0]) && forall k :: 0 <= k < |s| ==> IsAlnum(s[k]) || s[k] == '.' || s[k] == '+' || s[k] == '-'
  }

  // ----- text -----

  /** Where `splitlines` ends a line. */
  predicate IsBreak(c: char) {
    var n := c as int;
    10 <= n <= 13 || 28 <= n <= 30 || n == 133 || n == 8232 || n == 8233
  }

  /** What `strip` takes away. */
  predicate IsSpace(c: char) {
    var n := c as int;
    9 <= n <= 13 || 28 <= n <= 32 || n == 133 || n == 160 || n == 5760 || 8192 <= n <= 8202 || n == 8232 || n == 8233
    || n == 8239 || n == 8287 || n == 12288
  }

  function LineEnd(s: string): (n: nat)
    ensures n <= |s| && (forall k :: 0 <= k < n ==> !IsBreak(s[k])) && (n < |s| ==> IsBreak(s[n]))
  {
    if s == "" || IsBreak(s[0]) then 0 else 1 + LineEnd(s[1..])
  }

  function SplitLines(s: string): seq<string>
    decreases |s|
  {
    if s == "" then []
    else
      var n := LineEnd(s);
      if n == |s| then [s]
      else
        var skip := if s[n] == '\r' && n + 1 < |s| && s[n + 1] == '\n' then 2 else 1;
        [s[..n]] + SplitLines(s[n + skip..])
  }

  function StripLeft(s: string): string {
    if s != "" && IsSpace(s[0]) then StripLeft(s[1..]) else s
  }

  function StripRight(s: string): string {
    if s != "" && IsSpace(s[|s| - 1]) then StripRight(s[..|s| - 1]) else s
  }

  function Strip(s: string): string { StripRight(StripLeft(s)) }

  function SplitTabs(s: string): (fields: seq<string>)
    ensures |fields| > 0
  {
    if s == "" then [""]
    else
      var rest := SplitTabs(s[1..]);
      if s[0] == '\t' then [""] + rest else [[s[0]] + rest[0]] + rest[1..]
  }

  // ----- the printer -----

  function PrintLine(p: Package): string {
    p.id + "\t" + p.version + "\t" + p.sha512
  }

  function Print(packages: seq<Package>): string {
    if packages == [] then "" else PrintLine(packages[0]) + "\n" + Print(packages[1..])
  }

  // ----- the parser -----

  /** Why a line is refused; `Uncaught` is a `ValueError` that the parser does not expect. */
  datatype Error = Fields | Id | Version | Digest | Repeated | Uncaught

  predicate IsAscii(s: string) { forall k :: 0 <= k < |s| ==> s[k] as int < 128 }

  /** What one line gives, whatever the other lines are. */
  function ParseLine(line: string, codec: Codec): Result<Package, Error> {
    var fields := SplitTabs(Strip(line));
    if |fields| != 3 then Err(Fields)
    else
      var p := Package(fields[0], fields[1], fields[2]);
      if !MatchesId(p.id) then Err(Id)
      else if !MatchesVersion(p.version) then Err(Version)
      else if !IsAscii(p.sha512) then Err(Uncaught)
      else match codec.decode(p.sha512)
        case None => Err(Digest)
        case Some(digest) => if |digest| == 64 then Ok(p) else Err(Digest)
  }

  predicate IsBlank(line: string) { Strip(line) == "" }

  datatype Parsed = Packages(packages: seq<Package>) | Refused(line: nat, error: Error)

  /** A blank line gives no package. */
  type LineParser = string -> Result<Option<Package>, Error>

  function Parser(codec: Codec): LineParser {
    line =>
      if IsBlank(line) then Ok(None)
      else match ParseLine(line, codec)
        case Err(error) => Err(error)
        case Ok(p) => Ok(Some(p))
  }

  /** What the first `n` lines give. */
  function ParseLines(lines: seq<string>, n: nat, parse: LineParser): Parsed
    requires n <= |lines|
  {
    if n == 0 then Packages([])
    else match ParseLines(lines, n - 1, parse)
      case Refused(line, error) => Refused(line, error)
      case Packages(packages) =>
        match parse(lines[n - 1])
        case Err(error) => Refused(n, error)
        case Ok(None) => Packages(packages)
        case Ok(Some(p)) => if Lower(p.id) in Ids(packages) then Refused(n, Repeated) else Packages(packages + [p])
  }

  function Ids(packages: seq<Package>): set<string> { IdsFirst(packages, |packages|) }

  function IdsFirst(packages: seq<Package>, n: nat): set<string>
    requires n <= |packages|
  {
    if n == 0 then {} else IdsFirst(packages, n - 1) + {Lower(packages[n - 1].id)}
  }

  lemma {:induction false} IdsOfFirst(packages: seq<Package>, p: Package, n: nat)
    requires n <= |packages|
    ensures IdsFirst(packages + [p], n) == IdsFirst(packages, n)
  {
    if n > 0 {
      IdsOfFirst(packages, p, n - 1);
    }
  }

  lemma {:induction false} RefusalStays(lines: seq<string>, k: nat, n: nat, parse: LineParser)
    requires k <= n <= |lines| && ParseLines(lines, k, parse).Refused?
    ensures ParseLines(lines, n, parse) == ParseLines(lines, k, parse)
    decreases n
  {
    if k < n {
      RefusalStays(lines, k, n - 1, parse);
    }
  }

  lemma ParseNext(lines: seq<string>, n: nat, parse: LineParser, packages: seq<Package>, p: Package)
    requires n < |lines| && ParseLines(lines, n, parse) == Packages(packages)
    requires parse(lines[n]) == Ok(Some(p)) && Lower(p.id) !in Ids(packages)
    ensures ParseLines(lines, n + 1, parse) == Packages(packages + [p])
    ensures Ids(packages + [p]) == Ids(packages) + {Lower(p.id)}
  {
    IdsOfFirst(packages, p, |packages|);
  }

  method ParseAll(lines: seq<string>, parse: LineParser) returns (r: Parsed)
    ensures r == ParseLines(lines, |lines|, parse)
  {
    var packages: seq<Package>, seen: set<string> := [], {};
    for n := 0 to |lines|
      invariant ParseLines(lines, n, parse) == Packages(packages) && seen == Ids(packages)
    {
      match parse(lines[n]) {
        case Err(error) =>
          RefusalStays(lines, n + 1, |lines|, parse);
          return Refused(n + 1, error);
        case Ok(None) => {}
        case Ok(Some(p)) =>
          if Lower(p.id) in seen {
            RefusalStays(lines, n + 1, |lines|, parse);
            return Refused(n + 1, Repeated);
          }
          ParseNext(lines, n, parse, packages, p);
          seen := seen + {Lower(p.id)};
          packages := packages + [p];
      }
    }
    r := Packages(packages);
  }

  /** Parses the list. What it accepts has distinct ids, valid names and digests of 64 bytes. */
  method ParsePackageList(text: string, codec: Codec) returns (r: Parsed)
    ensures r == ParseLines(SplitLines(text), |SplitLines(text)|, Parser(codec))
    ensures r.Packages? ==> DistinctIds(r.packages) && forall i :: 0 <= i < |r.packages| ==> WellFormed(r.packages[i], codec)
  {
    r := ParseAll(SplitLines(text), Parser(codec));
    ParsedIsWellFormed(SplitLines(text), codec);
  }

  // ----- what is accepted -----

  /** A package that the settings of the portal let through. */
  predicate WellFormed(p: Package, codec: Codec) {
    && MatchesId(p.id) && MatchesVersion(p.version)
    && codec.decode(p.sha512).Some? && |codec.decode(p.sha512).value| == 64
  }

  predicate DistinctIds(packages: seq<Package>) {
    forall i, j :: 0 <= i < j < |packages| ==> Lower(packages[i].id) != Lower(packages[j].id)
  }

  lemma {:induction false} IdIn(packages: seq<Package>, n: nat, id: string)
    requires n <= |packages|
    ensures id in IdsFirst(packages, n) <==> exists i :: 0 <= i < n && Lower(packages[i].id) == id
  {
    if n > 0 {
      IdIn(packages, n - 1, id);
    }
  }

  /** If every accepted line is well formed, every accepted list has distinct ids and well-formed packages. */
  lemma {:induction false} AcceptedIsWellFormed(lines: seq<string>, n: nat, codec: Codec, parse: LineParser)
    requires n <= |lines| && ParseLines(lines, n, parse).Packages?
    requires forall line :: parse(line).Ok? && parse(line).value.Some? ==> WellFormed(parse(line).value.value, codec)
    ensures var packages := ParseLines(lines, n, parse).packages;
            DistinctIds(packages) && forall i :: 0 <= i < |packages| ==> WellFormed(packages[i], codec)
  {
    if n > 0 {
      AcceptedIsWellFormed(lines, n - 1, codec, parse);
      var before := ParseLines(lines, n - 1, parse).packages;
      if parse(lines[n - 1]).value.Some? {
        var p := parse(lines[n - 1]).value.value;
        IdIn(before, |before|, Lower(p.id));
        ParseNext(lines, n - 1, parse, before, p);
      }
    }
  }

  lemma LineIsWellFormed(line: string, codec: Codec)
    ensures var r := Parser(codec)(line); r.Ok? && r.value.Some? ==> WellFormed(r.value.value, codec)
  {
  }

  lemma ParsedIsWellFormed(lines: seq<string>, codec: Codec)
    ensures var r := ParseLines(lines, |lines|, Parser(codec));
            r.Packages? ==> DistinctIds(r.packages) && forall i :: 0 <= i < |r.packages| ==> WellFormed(r.packages[i], codec)
  {
    var parse := Parser(codec);
    forall line | parse(line).Ok? && parse(line).value.Some? ensures WellFormed(parse(line).value.value, codec) {
      LineIsWellFormed(line, codec);
    }
    if ParseLines(lines, |lines|, parse).Packages? {
      AcceptedIsWellFormed(lines, |lines|, codec, parse);
    }
  }

  // ----- what is refused -----

  /** A line is refused after these packages: for itself, or since it repeats the id of one of them. */
  predicate Offends(line: string, before: seq<Package>, error: Error, parse: LineParser) {
    match parse(line)
    case Err(e) => error == e
    case Ok(None) => false
    case Ok(Some(p)) => error == Repeated && Lower(p.id) in Ids(before)
  }

  /** A list is refused for a line exactly if the lines before it are accepted and the line offends. */
  lemma {:induction false} RefusedIff(lines: seq<string>, n: nat, k: nat, error: Error, parse: LineParser)
    requires n <= |lines|
    ensures ParseLines(lines, n, parse) == Refused(k, error)
       <==> && 1 <= k <= n && ParseLines(lines, k - 1, parse).Packages?
            && Offends(lines[k - 1], ParseLines(lines, k - 1, parse).packages, error, parse)
  {
    if n > 0 {
      RefusedIff(lines, n - 1, k, error, parse);
      if 1 <= k < n && ParseLines(lines, n - 1, parse).Packages? {
        AcceptedBefore(lines, k, n - 1, parse);
      }
    }
  }

  lemma {:induction false} AcceptedBefore(lines: seq<string>, k: nat, n: nat, parse: LineParser)
    requires k <= n <= |lines| && ParseLines(lines, n, parse).Packages?
    ensures ParseLines(lines, k, parse).Packages?
    decreases n
  {
    if k < n {
      AcceptedBefore(lines, k, n - 1, parse);
    }
  }

  /** A line with an id and a version that are in order, and a digest with a character beyond ASCII. */
  predicate IsUncaught(line: string) {
    var fields := SplitTabs(Strip(line));
    |fields| == 3 && MatchesId(fields[0]) && MatchesVersion(fields[1]) && exists k :: 0 <= k < |fields[2]| && fields[2][k] as int >= 128
  }

  lemma UncaughtLine(line: string, before: seq<Package>, codec: Codec)
    ensures Offends(line, before, Uncaught, Parser(codec)) <==> IsUncaught(line)
  {
    var fields := SplitTabs(Strip(line));
    if |fields| == 3 && MatchesId(fields[0]) && MatchesVersion(fields[1]) {
      assert ParseLine(line, codec) == Err(Uncaught) <==> !IsAscii(fields[2]);
    }
    if IsBlank(line) {
      assert fields == [""];
    }
  }

  /** The parser ends with an error that it does not catch exactly if such a line comes after accepted ones. */
  lemma UncaughtIff(text: string, k: nat, codec: Codec)
    ensures var lines, parse := SplitLines(text), Parser(codec);
            && (ParseLines(lines, |lines|, parse) == Refused(k, Uncaught)
                <==> 1 <= k <= |lines| && ParseLines(lines, k - 1, parse).Packages? && IsUncaught(lines[k - 1]))
  {
    var lines, parse := SplitLines(text), Parser(codec);
    RefusedIff(lines, |lines|, k, Uncaught, parse);
    if 1 <= k <= |lines| && ParseLines(lines, k - 1, parse).Packages? {
      UncaughtLine(lines[k - 1], ParseLines(lines, k - 1, parse).packages, codec);
    }
  }

  lemma CyrillicFields(text: string)
    requires text == "A" + "\t" + "1" + "\t" + "\U{416}"
    ensures SplitTabs(text) == ["A", "1", "\U{416}"]
  {
    FirstField("A", "1" + "\t" + "\U{416}");
    FirstField("1", "\U{416}");
    OneField("\U{416}");
    assert text == "A" + "\t" + ("1" + "\t" + "\U{416}");
  }

  lemma CyrillicIsUncaught(text: string)
    requires Strip(text) == text && SplitTabs(text) == ["A", "1", "\U{416}"]
    ensures IsUncaught(text)
  {
    assert SplitTabs(text)[2][0] as int >= 128;
  }

  /** So it does for one line whose digest is a Cyrillic letter. */
  lemma CyrillicDigest(text: string, codec: Codec)
    requires text == "A" + "\t" + "1" + "\t" + "\U{416}"
    ensures SplitLines(text) == [text] && ParseLines(SplitLines(text), 1, Parser(codec)) == Refused(1, Uncaught)
  {
    NoBreakIsOneLine(text);
    NotStripped(text);
    CyrillicFields(text);
    CyrillicIsUncaught(text);
    UncaughtIff(text, 1, codec);
  }

  lemma {:induction false} NoBreakIsOneLine(line: string)
    requires line != "" && forall k :: 0 <= k < |line| ==> !IsBreak(line[k])
    ensures SplitLines(line) == [line]
  {
    assert LineEnd(line) == |line|;
  }

  // ----- the round trip -----

  lemma {:induction false} LineEndIs(line: string, rest: string)
    requires forall k :: 0 <= k < |line| ==> !IsBreak(line[k])
    requires rest != "" && IsBreak(rest[0])
    ensures LineEnd(line + rest) == |line|
  {
    if line != "" {
      assert (line + rest)[1..] == line[1..] + rest;
      LineEndIs(line[1..], rest);
    } else {
      assert line + rest == rest;
    }
  }

  lemma FirstLine(line: string, rest: string)
    requires forall k :: 0 <= k < |line| ==> !IsBreak(line[k])
    ensures SplitLines(line + "\n" + rest) == [line] + SplitLines(rest)
  {
    var s := line + "\n" + rest;
    assert s == line + ("\n" + rest);
    LineEndIs(line, "\n" + rest);
    assert s[..|line|] == line && s[|line| + 1..] == rest;
  }

  lemma {:induction false} FirstField(field: string, rest: string)
    requires forall k :: 0 <= k < |field| ==> field[k] != '\t'
    ensures SplitTabs(field + "\t" + rest) == [field] + SplitTabs(rest)
  {
    var s := field + "\t" + rest;
    if field == "" {
      assert s[1..] == rest;
    } else {
      assert s[1..] == field[1..] + "\t" + rest;
      FirstField(field[1..], rest);
      assert [s[0]] + field[1..] == field;
    }
  }

  lemma {:induction false} OneField(field: string)
    requires forall k :: 0 <= k < |field| ==> field[k] != '\t'
    ensures SplitTabs(field) == [field]
  {
    if field != "" {
      OneField(field[1..]);
      assert [field[0]] + field[1..] == field;
    }
  }

  /** Characters that neither end a line nor are stripped or split. */
  predicate IsPlain(s: string) {
    forall k :: 0 <= k < |s| ==> 33 <= s[k] as int <= 122
  }

  lemma PrintedLineParses(p: Package, codec: Codec)
    requires Faithful(codec) && WellFormed(p, codec)
    ensures ParseLine(PrintLine(p), codec) == Ok(p) && !IsBlank(PrintLine(p))
    ensures forall k :: 0 <= k < |PrintLine(p)| ==> !IsBreak(PrintLine(p)[k])
  {
    assert IsBase64(p.sha512);
    FieldsParse(p.id, p.version, p.sha512);
    assert IsAscii(p.sha512);
  }

  lemma NotStripped(line: string)
    requires line != "" && !IsSpace(line[0]) && !IsSpace(line[|line| - 1])
    ensures Strip(line) == line
  {
  }

  lemma FieldsSplit(id: string, version: string, digest: string)
    requires IsPlain(id) && IsPlain(version) && IsPlain(digest)
    ensures SplitTabs(id + "\t" + version + "\t" + digest) == [id, version, digest]
  {
    var rest := version + "\t" + digest;
    FirstField(id, rest);
    FirstField(version, digest);
    OneField(digest);
    assert id + "\t" + version + "\t" + digest == id + "\t" + rest;
  }

  lemma NoBreaks(id: string, version: string, digest: string)
    requires IsPlain(id) && IsPlain(version) && IsPlain(digest)
    ensures var line := id + "\t" + version + "\t" + digest; forall k :: 0 <= k < |line| ==> !IsBreak(line[k])
  {
  }

  lemma FieldsParse(id: string, version: string, digest: string)
    requires IsPlain(id) && IsPlain(version) && IsPlain(digest) && id != ""
    ensures var line := id + "\t" + version + "\t" + digest;
            && (digest != "" ==> Strip(line) == line && line != "")
            && SplitTabs(line) == [id, version, digest]
            && forall k :: 0 <= k < |line| ==> !IsBreak(line[k])
  {
    FieldsSplit(id, version, digest);
    NoBreaks(id, version, digest);
    if digest != "" {
      var line := id + "\t" + version + "\t" + digest;
      assert line[0] == id[0] && line[|line| - 1] == digest[|digest| - 1];
      NotStripped(line);
    }
  }

  function Lines(packages: seq<Package>): (lines: seq<string>)
    ensures |lines| == |packages| && forall i :: 0 <= i < |packages| ==> lines[i] == PrintLine(packages[i])
  {
    if packages == [] then [] else [PrintLine(packages[0])] + Lines(packages[1..])
  }

  lemma {:induction false} PrintedLines(packages: seq<Package>, codec: Codec)
    requires Faithful(codec) && forall i :: 0 <= i < |packages| ==> WellFormed(packages[i], codec)
    ensures SplitLines(Print(packages)) == Lines(packages)
  {
    if packages != [] {
      PrintedLines(packages[1..], codec);
      PrintedLineParses(packages[0], codec);
      FirstLine(PrintLine(packages[0]), Print(packages[1..]));
    }
  }

  function First(packages: seq<Package>, n: nat): (first: seq<Package>)
    requires n <= |packages|
    ensures |first| == n && forall i :: 0 <= i < n ==> first[i] == packages[i]
  {
    if n == 0 then [] else First(packages, n - 1) + [packages[n - 1]]
  }

  /** A package whose id none before it has. */
  predicate IsNew(packages: seq<Package>, n: nat)
    requires n < |packages|
  {
    Lower(packages[n].id) !in Ids(First(packages, n))
  }

  lemma IdIsNew(packages: seq<Package>, n: nat)
    requires n < |packages| && DistinctIds(packages)
    ensures IsNew(packages, n)
  {
    IdIn(First(packages, n), n, Lower(packages[n].id));
  }

  lemma {:induction false} LinesParse(packages: seq<Package>, lines: seq<string>, n: nat, parse: LineParser)
    requires n <= |packages| == |lines| && forall i :: 0 <= i < |packages| ==> IsNew(packages, i)
    requires forall i :: 0 <= i < |packages| ==> parse(lines[i]) == Ok(Some(packages[i]))
    ensures ParseLines(lines, n, parse) == Packages(First(packages, n))
  {
    if n > 0 {
      LinesParse(packages, lines, n - 1, parse);
      assert IsNew(packages, n - 1);
      ParseNext(lines, n - 1, parse, First(packages, n - 1), packages[n - 1]);
    }
  }

  /** Every list of well-formed packages with distinct ids is parsed as it was printed. */
  lemma ParsePrinted(packages: seq<Package>, codec: Codec)
    requires Faithful(codec) && DistinctIds(packages)
    requires forall i :: 0 <= i < |packages| ==> WellFormed(packages[i], codec)
    ensures var lines := SplitLines(Print(packages));
            ParseLines(lines, |lines|, Parser(codec)) == Packages(packages)
  {
    PrintedLines(packages, codec);
    var lines, parse := Lines(packages), Parser(codec);
    forall i | 0 <= i < |packages| ensures parse(lines[i]) == Ok(Some(packages[i])) {
      PrintedLineParses(packages[i], codec);
    }
    forall i | 0 <= i < |packages| ensures IsNew(packages, i) {
      IdIsNew(packages, i);
    }
    LinesParse(packages, lines, |packages|, parse);
    assert First(packages, |packages|) == packages;
  }

  // ----- accepted digests that nothing matches -----

  /** A file matches the digest of an accepted line exactly if that is the digest of the file and in the form
      in which digests are printed: with other bits left over in its last character it is accepted too, but
      matches nothing. */
  lemma MatchIffCanonical(digest: string, data: bytes, codec: Codec)
    requires Faithful(codec) && codec.decode(digest).Some?
    ensures codec.encode(codec.sha512(data)) == digest
       <==> codec.decode(digest) == Some(codec.sha512(data)) && codec.encode(codec.decode(digest).value) == digest
  {
    assert codec.decode(codec.encode(codec.sha512(data))) == Some(codec.sha512(data));
  }
}
