/** The total of the file sizes of a request: exact for every request that comes through the endpoint, and
    a request for which it is not, which only a caller in the same process can make. */
module SourceBytes {
  import opened Common
  import opened Characters
  import opened Validator

  /** UTF-8 bytes of a text. */
  function Utf8Length(s: string): nat { Utf8First(s, |s|) }

  function Utf8First(s: string, n: nat): nat
    requires n <= |s|
  {
    if n == 0 then 0 else Utf8First(s, n - 1) + CharBytes(s[n - 1] as int)
  }

  function CharBytes(point: int): nat {
    if point < 0x80 then 1 else if point < 0x800 then 2 else if point < 0x1_0000 then 3 else 4
  }

  // ----- through the endpoint -----

  /** A character in a JSON string (section 7 of RFC 8259): as it is, after a backslash, or by one or two codes
      of four digits. */
  datatype Piece = Plain(point: int) | Short(c: char) | Code(unit: int) | Codes(point: int)

  /** The bytes that it takes in the body, and those of what it stands for. */
  function Written(p: Piece): nat {
    match p case Plain(point) => CharBytes(point) case Short(_) => 2 case Code(_) => 6 case Codes(_) => 12
  }

  function Stands(p: Piece): nat {
    match p case Plain(point) => CharBytes(point) case Short(_) => 1 case Code(unit) => Min(CharBytes(unit), 3) case Codes(_) => 4
  }

  function AllWritten(pieces: seq<Piece>, n: nat): nat
    requires n <= |pieces|
  {
    if n == 0 then 0 else AllWritten(pieces, n - 1) + Written(pieces[n - 1])
  }

  function AllStand(pieces: seq<Piece>, n: nat): nat
    requires n <= |pieces|
  {
    if n == 0 then 0 else AllStand(pieces, n - 1) + Stands(pieces[n - 1])
  }

  /** A decoded string is never longer than it is in the body. */
  lemma {:induction false} DecodedIsShorter(pieces: seq<Piece>, n: nat)
    requires n <= |pieces|
    ensures AllStand(pieces, n) <= AllWritten(pieces, n)
  {
    if n > 0 {
      DecodedIsShorter(pieces, n - 1);
    }
  }

  /** What the contents of the first `n` files take in the body. */
  function InBody(contents: seq<seq<Piece>>, n: nat): nat
    requires n <= |contents|
  {
    if n == 0 then 0 else InBody(contents, n - 1) + AllWritten(contents[n - 1], |contents[n - 1]|)
  }

  lemma {:induction false} SumIsInBody(files: seq<Option<SourceFile>>, contents: seq<seq<Piece>>, n: nat, check: FileCheck)
    requires n <= |files| == |contents|
    requires forall i :: 0 <= i < |files| ==> check(files[i]).bytes == AllStand(contents[i], |contents[i]|)
    ensures Sum(files, n, check) <= InBody(contents, n)
  {
    if n > 0 {
      SumIsInBody(files, contents, n - 1, check);
      DecodedIsShorter(contents[n - 1], |contents[n - 1]|);
    }
  }

  /** A body in one memory stream is shorter than this. */
  const STREAM_MAX := 0x8000_0000

  /** For a request through the endpoint, whose body is in one memory stream, the total is exact. */
  lemma EndpointIsExact(files: seq<Option<SourceFile>>, contents: seq<seq<Piece>>, body: nat, check: FileCheck)
    requires |files| == |contents| && InBody(contents, |contents|) <= body < STREAM_MAX
    requires forall i :: 0 <= i < |files| ==> check(files[i]).bytes == AllStand(contents[i], |contents[i]|)
    ensures Total(files, |files|, check) == Sum(files, |files|, check) <= body
  {
    SumIsInBody(files, contents, |files|, check);
    TotalIsWrapped(files, |files|, check);
  }

  // ----- in the same process -----

  lemma {:induction false} Utf8Same(s: string, c: char, n: nat)
    requires n <= |s| && forall k :: 0 <= k < n ==> s[k] == c
    ensures Utf8First(s, n) == n * CharBytes(c as int)
  {
    if n > 0 {
      Utf8Same(s, c, n - 1);
    }
  }

  /** 715 827 882 euro signs and one letter: the most bytes that an `int` can count. */
  function Large(): string {
    Repeat('\U{20AC}', 715_827_882) + "x"
  }

  lemma LargeIsLargest()
    ensures Utf8Length(Large()) == 0x7fff_ffff && '\0' !in Large()
  {
    Utf8Same(Large(), '\U{20AC}', 715_827_882);
  }

  function FileOf(path: string): Option<SourceFile> {
    Some(SourceFile(Some(path), Some(Large())))
  }

  function LargeRequest(): CompileRequest {
    CompileRequest(Some("A"), Some([FileOf("a.cs"), FileOf("b.cs")]), Some([]))
  }

  lemma PlainPath(path: string, c: char)
    requires path == [c] + ".cs" && (c == 'a' || c == 'b')
    ensures CheckPath(path) == None && '/' !in path
  {
    assert path[1..] == ".cs" && UpTo(".cs", '.') == "";
    assert UpTo(path, '.') == [c];
    assert CheckPart(path) == None;
    assert [path][1..] == [];
    assert CheckParts([path]) == None;
    NoSlash(path);
    assert path[|path| - 3..] == ".cs";
    OnePart(path);
  }

  lemma OnePart(path: string)
    requires Split(path) == [path] && CheckParts([path]) == None && 3 < |path| <= 200
    requires path[0] != '/' && '\\' !in path && path[1] != ':' && path[|path| - 3..] == ".cs"
    ensures CheckPath(path) == None
  {
  }

  lemma NotInside(path: string, paths: set<string>)
    requires '/' !in path
    ensures !InsideOneOf(path, paths)
  {
  }

  /** Limits as large as they can be, and the bytes of UTF-8. */
  predicate IsWidest(o: Options) {
    o.fileMaxBytes == o.projectMaxBytes == 0x7fff_ffff && o.maxFiles >= 2 && o.maxPackages >= 0 && !o.isKeyword("A")
    && o.size(Large()) == Utf8Length(Large())
  }

  lemma LargeFilePasses(path: string, c: char, o: Options)
    requires IsWidest(o) && path == [c] + ".cs" && (c == 'a' || c == 'b')
    ensures FileChecker(o)(FileOf(path)) == Checked(true, Lower(path), 0x7fff_ffff)
  {
    PlainPath(path, c);
    LargeIsLargest();
    assert FileOk(FileOf(path), o);
  }

  lemma TwoLarge(files: seq<Option<SourceFile>>, check: FileCheck)
    requires |files| == 2 && check(files[0]).ok && check(files[1]).ok && check(files[0]).key != check(files[1]).key
    requires check(files[0]).bytes == check(files[1]).bytes == 0x7fff_ffff
    ensures FilesPass(files, 2, check, 0x7fff_ffff) && Total(files, 2, check) == -2
  {
    assert Total(files, 1, check) == 0x7fff_ffff;
    assert Keys(files, 1, check) == {check(files[0]).key};
    assert FilesPass(files, 1, check, 0x7fff_ffff);
  }

  lemma ShortName(isKeyword: string -> bool)
    requires !isKeyword("A")
    ensures IsValidProjectName("A", isKeyword)
  {
    assert Lower("A")[0] == 'a';
  }

  /** With the widest limits this request is acceptable, with a total of -2. */
  lemma TotalCanWrap(o: Options, files: seq<Option<SourceFile>>)
    requires IsWidest(o) && files == [FileOf("a.cs"), FileOf("b.cs")]
    ensures LargeRequest().files == Some(files) && Acceptable(LargeRequest(), o)
    ensures Total(files, 2, FileChecker(o)) == -2
  {
    var a, b := "a.cs", "b.cs";
    assert a == ['a'] + ".cs" && b == ['b'] + ".cs";
    LargeFilePasses(a, 'a', o);
    LargeFilePasses(b, 'b', o);
    assert Lower(a)[0] == 'a' && Lower(b)[0] == 'b';
    TwoLarge(files, FileChecker(o));
    PlainPath(a, 'a');
    PlainPath(b, 'b');
    LargeIsAcceptable(o, files);
  }

  lemma LargeIsAcceptable(o: Options, files: seq<Option<SourceFile>>)
    requires IsWidest(o) && files == [FileOf("a.cs"), FileOf("b.cs")]
    requires FilesPass(files, 2, FileChecker(o), 0x7fff_ffff) && '/' !in "a.cs" && '/' !in "b.cs"
    ensures Acceptable(LargeRequest(), o)
  {
    ShortName(o.isKeyword);
    var paths := Keys(files, 2, FileChecker(o));
    forall i | 0 <= i < |files| ensures !InsideOneOf(PathOf(files[i]), paths) {
      NotInside(PathOf(files[i]), paths);
    }
    assert NoneInside(files, paths);
  }
}
