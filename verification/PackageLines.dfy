/** How the parser of the package list takes a text apart, and why it refuses a line, told from the text alone. */
module PackageLines {
  import opened Common
  import opened Characters
  import opened PackageList

  // ----- lines -----

  /** Lines with what ends them. */
  function Woven(lines: seq<string>, ends: seq<string>): string
    requires |lines| == |ends|
  {
    if lines == [] then "" else lines[0] + ends[0] + Woven(lines[1..], ends[1..])
  }

  predicate IsLineEnd(end: string) {
    (|end| == 1 && IsBreak(end[0])) || end == "\r\n"
  }

  predicate IsUnbroken(line: string) {
    forall k :: 0 <= k < |line| ==> !IsBreak(line[k])
  }

  /** The text in lines: each has no break and ends with one, but the last need not if it is not empty; a
      carriage return and a line feed end one line, not two. */
  ghost predicate AreLines(text: string, lines: seq<string>, ends: seq<string>) {
    && |lines| == |ends| && text == Woven(lines, ends)
    && (forall k :: 0 <= k < |lines| ==> IsUnbroken(lines[k]))
    && (forall k :: 0 <= k < |lines| ==> IsLineEnd(ends[k]) || (k == |lines| - 1 && ends[k] == "" && lines[k] != ""))
    && forall k :: 0 < k < |lines| && ends[k - 1] == "\r" ==> lines[k] != "" || ends[k] != "\n"
  }

  lemma WovenFirst(line: string, end: string, lines: seq<string>, ends: seq<string>)
    requires |lines| == |ends|
    ensures Woven([line] + lines, [end] + ends) == line + end + Woven(lines, ends)
  {
    assert ([line] + lines)[1..] == lines && ([end] + ends)[1..] == ends;
  }

  lemma LinesMore(text: string, line: string, end: string, lines: seq<string>, ends: seq<string>)
    requires AreLines(text, lines, ends) && IsUnbroken(line) && IsLineEnd(end)
    requires end == "\r" ==> text == "" || text[0] != '\n'
    ensures AreLines(line + end + text, [line] + lines, [end] + ends)
  {
    WovenFirst(line, end, lines, ends);
    var more, moreEnds := [line] + lines, [end] + ends;
    forall k | 0 <= k < |more| ensures IsUnbroken(more[k]) && (k > 0 ==> more[k] == lines[k - 1] && moreEnds[k] == ends[k - 1]) {
    }
    if lines != [] && end == "\r" && lines[0] == "" {
      assert text == "" + ends[0] + Woven(lines[1..], ends[1..]);
    }
  }

  /** The first line, what ends it, and what follows. */
  lemma FirstSplit(text: string) returns (line: string, end: string, rest: string)
    requires text != "" && LineEnd(text) < |text|
    ensures text == line + end + rest && |rest| < |text| && SplitLines(text) == [line] + SplitLines(rest)
    ensures IsUnbroken(line) && IsLineEnd(end) && (end == "\r" ==> rest == "" || rest[0] != '\n')
  {
    var n := LineEnd(text);
    var skip := if text[n] == '\r' && n + 1 < |text| && text[n + 1] == '\n' then 2 else 1;
    line, end, rest := text[..n], text[n..n + skip], text[n + skip..];
  }

  lemma OnlyLine(text: string)
    requires text != "" && LineEnd(text) == |text|
    ensures SplitLines(text) == [text] && AreLines(text, [text], [""])
  {
    assert Woven([text], [""]) == text + "" + Woven([], []);
  }

  lemma {:induction false} SplitLinesAre(text: string) returns (ends: seq<string>)
    ensures AreLines(text, SplitLines(text), ends)
    decreases |text|
  {
    ends := [];
    if text != "" && LineEnd(text) == |text| {
      OnlyLine(text);
      ends := [""];
    } else if text != "" {
      var line, end, rest := FirstSplit(text);
      ends := SplitLinesAre(rest);
      LinesMore(rest, line, end, SplitLines(rest), ends);
      ends := [end] + ends;
    }
  }

  // ----- fields -----

  function Tabbed(fields: seq<string>): string
    requires fields != []
  {
    if |fields| == 1 then fields[0] else fields[0] + "\t" + Tabbed(fields[1..])
  }

  /** Fields are what stands between tabulators. */
  lemma {:induction false} FieldsAre(s: string)
    ensures Tabbed(SplitTabs(s)) == s
    ensures forall k :: 0 <= k < |SplitTabs(s)| ==> '\t' !in SplitTabs(s)[k]
  {
    if s != "" {
      FieldsAre(s[1..]);
      var rest := SplitTabs(s[1..]);
      if s[0] == '\t' {
        assert ([""] + rest)[1..] == rest;
      } else {
        assert ([[s[0]] + rest[0]] + rest[1..])[1..] == rest[1..];
      }
    }
  }

  predicate AllSpaces(s: string) {
    forall k :: 0 <= k < |s| ==> IsSpace(s[k])
  }

  lemma {:induction false} StripLeftIs(s: string) returns (i: nat)
    ensures i <= |s| && StripLeft(s) == s[i..] && AllSpaces(s[..i]) && (i < |s| ==> !IsSpace(s[i]))
  {
    i := 0;
    if s != "" && IsSpace(s[0]) {
      var j := StripLeftIs(s[1..]);
      i := j + 1;
      assert s[..i] == [s[0]] + s[1..][..j];
    }
  }

  lemma {:induction false} StripRightIs(s: string) returns (j: nat)
    ensures j <= |s| && StripRight(s) == s[..j] && AllSpaces(s[j..]) && (j > 0 ==> !IsSpace(s[j - 1]))
  {
    j := |s|;
    if s != "" && IsSpace(s[|s| - 1]) {
      var before := s[..|s| - 1];
      j := StripRightIs(before);
      assert before[..j] == s[..j];
      forall k | 0 <= k < |s[j..]| ensures IsSpace(s[j..][k]) {
        assert j + k < |before| ==> s[j..][k] == before[j..][k];
      }
    }
  }

  /** What is left of a line is the stretch between its first and its last character that is no white space. */
  lemma StripIs(s: string) returns (i: nat, j: nat)
    ensures i <= j <= |s| && Strip(s) == s[i..j] && AllSpaces(s[..i]) && AllSpaces(s[j..])
    ensures i < j ==> !IsSpace(s[i]) && !IsSpace(s[j - 1])
  {
    i := StripLeftIs(s);
    var n := StripRightIs(s[i..]);
    j := i + n;
    assert s[i..][n..] == s[j..];
  }

  // ----- why a line is refused -----

  /** A letter or digit, then letters, digits, dots, underscores and hyphens. */
  predicate IsId(s: string) {
    && s != "" && s[0] != '.' && s[0] != '_' && s[0] != '-'
    && forall k :: 0 <= k < |s| ==>
         'A' <= s[k] <= 'Z' || 'a' <= s[k] <= 'z' || '0' <= s[k] <= '9' || s[k] == '.' || s[k] == '_' || s[k] == '-'
  }

  /** A digit, then letters, digits, dots, plus signs and hyphens. */
  predicate IsVersion(s: string) {
    && s != "" && '0' <= s[0] <= '9'
    && forall k :: 0 <= k < |s| ==>
         'A' <= s[k] <= 'Z' || 'a' <= s[k] <= 'z' || '0' <= s[k] <= '9' || s[k] == '.' || s[k] == '+' || s[k] == '-'
  }

  lemma FormsAre(s: string)
    ensures (MatchesId(s) <==> IsId(s)) && (MatchesVersion(s) <==> IsVersion(s))
  {
    if IsId(s) {
      assert IsAlnum(s[0]);
    }
  }

  predicate IsDigest(s: string, codec: Codec) {
    codec.decode(s).Some? && |codec.decode(s).value| == 64
  }

  predicate HasBeyondAscii(s: string) {
    exists k :: 0 <= k < |s| && s[k] as int >= 128
  }

  /** What three fields give: the first that is not in order is the reason, and a package is made of all three. */
  predicate IsGiven(r: Result<Package, Error>, id: string, version: string, digest: string, codec: Codec) {
    match r
    case Ok(p) => IsId(id) && IsVersion(version) && !HasBeyondAscii(digest) && IsDigest(digest, codec) && p == Package(id, version, digest)
    case Err(Id) => !IsId(id)
    case Err(Version) => IsId(id) && !IsVersion(version)
    case Err(Uncaught) => IsId(id) && IsVersion(version) && HasBeyondAscii(digest)
    case Err(Digest) => IsId(id) && IsVersion(version) && !HasBeyondAscii(digest) && !IsDigest(digest, codec)
    case Err(_) => false
  }

  lemma LineGives(line: string, codec: Codec)
    ensures var fields, r := SplitTabs(Strip(line)), ParseLine(line, codec);
            if |fields| == 3 then IsGiven(r, fields[0], fields[1], fields[2], codec) else r == Err(Fields)
  {
    var fields := SplitTabs(Strip(line));
    if |fields| == 3 {
      FormsAre(fields[0]);
      FormsAre(fields[1]);
      assert IsAscii(fields[2]) <==> !HasBeyondAscii(fields[2]);
    }
  }
}
