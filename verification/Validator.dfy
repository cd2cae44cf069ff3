/** The request validator of the compile sandbox: which file sets it accepts, and that every accepted
    one is a directory tree, whatever the case of its names. */
module Validator {
  import opened Common
  import opened Characters

  // ----- names -----

  predicate IsNameChar(c: char) { IsWord(c) || c == '.' || c == '-' }

  /** `$` also matches before one final line feed. */
  function BeforeEnd(s: string): string {
    if s != "" && s[|s| - 1] == '\n' then s[..|s| - 1] else s
  }

  predicate MatchesPart(s: string) {
    1 <= |s| <= 64 && IsWord(s[0]) && forall k :: 0 < k < |s| ==> IsNameChar(s[k])
  }

  predicate MatchesName(s: string) {
    1 <= |s| <= 64 && IsLetter(s[0]) && forall k :: 0 < k < |s| ==> IsWord(s[k])
  }

  predicate MatchesPackageId(s: string) {
    1 <= |s| <= 100 && IsWord(s[0]) && forall k :: 0 < k < |s| ==> IsNameChar(s[k])
  }

  predicate MatchesVersion(s: string) {
    1 <= |s| <= 64 && IsDigit(s[0])
    && forall k :: 0 < k < |s| ==> IsLetter(s[k]) || IsDigit(s[k]) || s[k] == '.' || s[k] == '+' || s[k] == '-'
  }

  /** CON, PRN, AUX, NUL, COM1 to COM9, LPT1 to LPT9. */
  predicate IsReserved(s: string) {
    var f := Lower(s);
    f == "con" || f == "prn" || f == "aux" || f == "nul"
    || (|f| == 4 && (f[..3] == "com" || f[..3] == "lpt") && '1' <= f[3] <= '9')
  }

  function UpTo(s: string, c: char): string {
    if s == "" || s[0] == c then "" else [s[0]] + UpTo(s[1..], c)
  }

  /** Assembly names; which names are keywords of C# is a parameter. */
  predicate IsValidProjectName(name: string, isKeyword: string -> bool) {
    MatchesName(BeforeEnd(name)) && !isKeyword(name) && !IsReserved(name)
  }

  // ----- paths -----

  /** `Split('/')`. */
  function Split(s: string): (parts: seq<string>)
    ensures |parts| > 0
  {
    if s == "" then [""]
    else
      var rest := Split(s[1..]);
      if s[0] == '/' then [""] + rest else [[s[0]] + rest[0]] + rest[1..]
  }

  function Join(parts: seq<string>): string
    requires |parts| > 0
  {
    if |parts| == 1 then parts[0] else parts[0] + "/" + Join(parts[1..])
  }

  datatype Reason = BadLength | Outside | TooDeep | BadCharacters | ReservedName | BadExtension

  function CheckPart(part: string): Option<Reason> {
    if !MatchesPart(BeforeEnd(part)) || part[|part| - 1] == '.' then Some(BadCharacters)
    else if IsReserved(UpTo(part, '.')) then Some(ReservedName)
    else None
  }

  function CheckParts(parts: seq<string>): Option<Reason> {
    if parts == [] then None
    else match CheckPart(parts[0])
      case Some(reason) => Some(reason)
      case None => CheckParts(parts[1..])
  }

  function CheckPath(path: string): Option<Reason> {
    if !(1 <= |path| <= 200) then Some(BadLength)
    else if path[0] == '/' || '\\' in path || (|path| >= 2 && IsLetter(path[0]) && path[1] == ':') then Some(Outside)
    else
      var parts := Split(path);
      if "." in parts || ".." in parts then Some(Outside)
      else if |parts| > 8 then Some(TooDeep)
      else match CheckParts(parts)
        case Some(reason) => Some(reason)
        case None => if |path| >= 3 && path[|path| - 3..] == ".cs" then None else Some(BadExtension)
  }

  lemma {:induction false} SplitPair(a: string, b: string)
    ensures Split(a + "/" + b) == Split(a) + Split(b)
  {
    var s := a + "/" + b;
    if a == "" {
      assert s[1..] == b;
    } else {
      assert s[1..] == a[1..] + "/" + b;
      SplitPair(a[1..], b);
    }
  }

  lemma {:induction false} JoinSplit(s: string)
    ensures Join(Split(s)) == s
  {
    if s != "" {
      JoinSplit(s[1..]);
      var rest := Split(s[1..]);
      if s[0] == '/' {
        assert ([""] + rest)[1..] == rest;
      } else {
        var parts := [[s[0]] + rest[0]] + rest[1..];
        assert parts[1..] == rest[1..];
      }
    }
  }

  lemma {:induction false} JoinPair(p: seq<string>, q: seq<string>)
    requires |p| > 0 && |q| > 0
    ensures Join(p + q) == Join(p) + "/" + Join(q)
  {
    if |p| == 1 {
      assert (p + q)[1..] == q;
    } else {
      assert (p + q)[1..] == p[1..] + q;
      JoinPair(p[1..], q);
    }
  }

  predicate IsPrefix<T(==)>(p: seq<T>, q: seq<T>) {
    |p| <= |q| && q[..|p|] == p
  }

  /** A path names a folder on the way to another exactly if the other goes on after it with a slash. */
  lemma {:induction false} FolderOf(a: string, b: string)
    ensures IsPrefix(Split(a), Split(b)) && Split(a) != Split(b) <==> |a| < |b| && b[..|a|] == a && b[|a|] == '/'
  {
    if |a| < |b| && b[..|a|] == a && b[|a|] == '/' {
      var rest := b[|a| + 1..];
      assert b == a + "/" + rest;
      SplitPair(a, rest);
    }
    if IsPrefix(Split(a), Split(b)) && Split(a) != Split(b) {
      var p, q := Split(a), Split(b)[|Split(a)|..];
      assert Split(b) == p + q;
      JoinPair(p, q);
      JoinSplit(a);
      JoinSplit(b);
    }
  }

  lemma SplitInjective(a: string, b: string)
    ensures Split(a) == Split(b) <==> a == b
  {
    JoinSplit(a);
    JoinSplit(b);
  }

  // ----- directory trees -----

  /** A file or folder; a folder knows its entries by their names without regard to case. */
  datatype Tree = File(content: string) | Folder(entries: map<string, Tree>)

  type Entries = map<string, Tree>

  /** Puts a file in its place, with the folders on the way; there is none if a file or folder is in the way. */
  function Insert(t: Entries, parts: seq<string>, content: string): Option<Entries>
    requires |parts| > 0
    decreases parts
  {
    var name := parts[0];
    if |parts| == 1 then if name in t then None else Some(t[name := File(content)])
    else if name in t && t[name].File? then None
    else match Insert(if name in t then t[name].entries else map[], parts[1..], content)
      case None => None
      case Some(entries) => Some(t[name := Folder(entries)])
  }

  function Lookup(t: Entries, parts: seq<string>): Option<string>
    requires |parts| > 0
    decreases parts
  {
    if parts[0] !in t then None
    else if |parts| == 1 then if t[parts[0]].File? then Some(t[parts[0]].content) else None
    else if t[parts[0]].File? then None
    else Lookup(t[parts[0]].entries, parts[1..])
  }

  /** The path of a file or folder, or a path through a file. */
  predicate Blocked(t: Entries, parts: seq<string>)
    requires |parts| > 0
    decreases parts
  {
    parts[0] in t && (|parts| == 1 || t[parts[0]].File? || Blocked(t[parts[0]].entries, parts[1..]))
  }

  lemma {:induction false} InsertUnlessBlocked(t: Entries, parts: seq<string>, content: string)
    requires |parts| > 0
    ensures Insert(t, parts, content).None? <==> Blocked(t, parts)
    decreases parts
  {
    if |parts| > 1 {
      if parts[0] in t {
        if t[parts[0]].Folder? {
          InsertUnlessBlocked(t[parts[0]].entries, parts[1..], content);
        }
      } else {
        InsertUnlessBlocked(map[], parts[1..], content);
      }
    }
  }

  /** One path leads to or through the other. */
  predicate Comparable(p: seq<string>, q: seq<string>) { IsPrefix(p, q) || IsPrefix(q, p) }

  lemma ComparableTail(p: seq<string>, q: seq<string>)
    requires |p| > 0 && |q| > 0
    ensures Comparable(p, q) <==> p[0] == q[0] && (|p| == 1 || |q| == 1 || Comparable(p[1..], q[1..]))
  {
    assert p == [p[0]] + p[1..] && q == [q[0]] + q[1..];
    if |p| <= |q| {
      assert q[..|p|] == [q[0]] + q[1..][..|p| - 1];
    }
    if |q| <= |p| {
      assert p[..|q|] == [p[0]] + p[1..][..|q| - 1];
    }
  }

  /** A new file blocks exactly the paths that lead to it or through it. */
  lemma {:induction false} InsertBlocks(t: Entries, p: seq<string>, content: string, q: seq<string>)
    requires |p| > 0 && |q| > 0 && Insert(t, p, content).Some?
    ensures Blocked(Insert(t, p, content).value, q) <==> Blocked(t, q) || Comparable(p, q)
    decreases p
  {
    ComparableTail(p, q);
    if |p| > 1 && |q| > 1 && q[0] == p[0] {
      var below: Entries := if p[0] in t then t[p[0]].entries else map[];
      InsertBlocks(below, p[1..], content, q[1..]);
    }
  }

  /** It is there, and every other path leads to what it led to before. */
  lemma {:induction false} InsertThenLookup(t: Entries, p: seq<string>, content: string, q: seq<string>)
    requires |p| > 0 && |q| > 0 && Insert(t, p, content).Some?
    ensures Lookup(Insert(t, p, content).value, q) == if q == p then Some(content) else Lookup(t, q)
    decreases p
  {
    assert p == [p[0]] + p[1..] && q == [q[0]] + q[1..];
    if |p| > 1 && |q| > 1 && q[0] == p[0] {
      var below: Entries := if p[0] in t then t[p[0]].entries else map[];
      InsertThenLookup(below, p[1..], content, q[1..]);
    }
  }

  /** A file to put into the tree: the parts of its path, and its content. */
  datatype Leaf = Leaf(parts: seq<string>, content: string)

  predicate Rooted(files: seq<Leaf>) {
    forall i :: 0 <= i < |files| ==> |files[i].parts| > 0
  }

  function InsertAll(files: seq<Leaf>, n: nat): Option<Entries>
    requires n <= |files| && Rooted(files)
  {
    if n == 0 then Some(map[])
    else match InsertAll(files, n - 1)
      case None => None
      case Some(t) => Insert(t, files[n - 1].parts, files[n - 1].content)
  }

  ghost predicate NoClash(files: seq<Leaf>, n: nat)
    requires n <= |files|
  {
    forall i, j :: 0 <= i < j < n ==> !Comparable(files[i].parts, files[j].parts)
  }

  lemma {:induction false} AllBlock(files: seq<Leaf>, n: nat, q: seq<string>)
    requires n <= |files| && Rooted(files) && InsertAll(files, n).Some? && |q| > 0
    ensures Blocked(InsertAll(files, n).value, q) <==> exists i :: 0 <= i < n && Comparable(files[i].parts, q)
  {
    if n > 0 {
      AllBlock(files, n - 1, q);
      InsertBlocks(InsertAll(files, n - 1).value, files[n - 1].parts, files[n - 1].content, q);
    }
  }

  /** Files make a tree exactly if no path leads to or through another. */
  lemma {:induction false} TreeIffNoClash(files: seq<Leaf>, n: nat)
    requires n <= |files| && Rooted(files)
    ensures InsertAll(files, n).Some? <==> NoClash(files, n)
  {
    if n > 0 {
      TreeIffNoClash(files, n - 1);
      if InsertAll(files, n - 1).Some? {
        AllBlock(files, n - 1, files[n - 1].parts);
        InsertUnlessBlocked(InsertAll(files, n - 1).value, files[n - 1].parts, files[n - 1].content);
      }
    }
  }

  /** And then every file reads back with its own content, and there are no others. */
  lemma {:induction false} TreeReadsBack(files: seq<Leaf>, n: nat, q: seq<string>)
    requires n <= |files| && Rooted(files) && InsertAll(files, n).Some? && |q| > 0
    ensures forall i :: 0 <= i < n && files[i].parts == q ==> Lookup(InsertAll(files, n).value, q) == Some(files[i].content)
    ensures Lookup(InsertAll(files, n).value, q).Some? ==> exists i :: 0 <= i < n && files[i].parts == q
  {
    TreeIffNoClash(files, n);
    if n > 0 {
      TreeReadsBack(files, n - 1, q);
      InsertThenLookup(InsertAll(files, n - 1).value, files[n - 1].parts, files[n - 1].content, q);
      forall i | 0 <= i < n - 1 && files[i].parts == q ensures q != files[n - 1].parts {
        assert !Comparable(files[i].parts, files[n - 1].parts);
        assert q[..|q|] == q;
      }
    }
  }

  /** The files in another order. */
  function Ordered(files: seq<Leaf>, order: seq<nat>): (r: seq<Leaf>)
    requires forall k :: 0 <= k < |order| ==> order[k] < |files|
    ensures |r| == |order| && forall k :: 0 <= k < |order| ==> r[k] == files[order[k]]
  {
    if order == [] then [] else Ordered(files, order[..|order| - 1]) + [files[order[|order| - 1]]]
  }

  /** The order in which the files are put into the tree does not matter. */
  lemma AnyOrder(files: seq<Leaf>, order: seq<nat>)
    requires Rooted(files) && NoClash(files, |files|)
    requires forall k :: 0 <= k < |order| ==> order[k] < |files|
    requires forall j, k :: 0 <= j < k < |order| ==> order[j] != order[k]
    ensures InsertAll(Ordered(files, order), |order|).Some?
  {
    var r := Ordered(files, order);
    forall i, j | 0 <= i < j < |order| ensures !Comparable(r[i].parts, r[j].parts) {
      assert order[i] != order[j];
      if order[i] < order[j] {
        assert !Comparable(files[order[i]].parts, files[order[j]].parts);
      } else {
        assert !Comparable(files[order[j]].parts, files[order[i]].parts);
      }
    }
    TreeIffNoClash(r, |order|);
  }

  // ----- requests -----

  datatype SourceFile = SourceFile(path: Option<string>, content: Option<string>)

  datatype PackageRef = PackageRef(id: Option<string>, version: Option<string>)

  /** The body of a request as it was deserialized: every field and every element may be missing. */
  datatype CompileRequest = CompileRequest(assemblyName: Option<string>, files: Option<seq<Option<SourceFile>>>,
                                           packages: Option<seq<Option<PackageRef>>>)

  datatype ValidFile = ValidFile(path: string, content: string)

  datatype ValidPackage = ValidPackage(id: string, version: string)

  datatype ValidRequest = ValidRequest(assemblyName: string, files: seq<ValidFile>, packages: seq<ValidPackage>, sourceBytes: int)

  datatype Rejection = InvalidRequest | UnknownPackage

  /** The limits, and what the validator asks of others: the bytes of a text in UTF-8, the keywords of C#,
      and whether the offline set has a package (by lower-case id and version). */
  datatype Options = Options(maxFiles: int, fileMaxBytes: int, projectMaxBytes: int, maxPackages: int,
                             size: string -> nat, isKeyword: string -> bool, inStore: (string, string) -> bool)

  /** A sum of two `int` without overflow check. */
  function Wrap32(x: int): int {
    (x + 0x8000_0000) % 0x1_0000_0000 - 0x8000_0000
  }

  function PathOf(f: Option<SourceFile>): string {
    if f.Some? && f.value.path.Some? then f.value.path.value else ""
  }

  function ContentOf(f: Option<SourceFile>): string {
    if f.Some? && f.value.content.Some? then f.value.content.value else ""
  }

  /** A file that passes on its own. */
  predicate FileOk(f: Option<SourceFile>, o: Options) {
    && f.Some? && f.value.path.Some? && f.value.content.Some?
    && CheckPath(PathOf(f)) == None && '\0' !in ContentOf(f) && o.size(ContentOf(f)) <= o.fileMaxBytes
  }

  /** What the loop over the files looks at: whether a file passes on its own, its path without regard to
      case, and its size. */
  datatype Checked = Checked(ok: bool, key: string, bytes: nat)

  type FileCheck = Option<SourceFile> -> Checked

  function FileChecker(o: Options): FileCheck {
    f => Checked(FileOk(f, o), Lower(PathOf(f)), o.size(ContentOf(f)))
  }

  /** The paths of the first `n` files without regard to case. */
  function Keys(files: seq<Option<SourceFile>>, n: nat, check: FileCheck): set<string>
    requires n <= |files|
  {
    if n == 0 then {} else Keys(files, n - 1, check) + {check(files[n - 1]).key}
  }

  /** The total as the loop counts it. */
  function Total(files: seq<Option<SourceFile>>, n: nat, check: FileCheck): int
    requires n <= |files|
  {
    if n == 0 then 0 else Wrap32(Total(files, n - 1, check) + check(files[n - 1]).bytes)
  }

  /** The total as it is. */
  function Sum(files: seq<Option<SourceFile>>, n: nat, check: FileCheck): nat
    requires n <= |files|
  {
    if n == 0 then 0 else Sum(files, n - 1, check) + check(files[n - 1]).bytes
  }

  predicate FilesPass(files: seq<Option<SourceFile>>, n: nat, check: FileCheck, max: int)
    requires n <= |files|
  {
    n == 0
    || (FilesPass(files, n - 1, check, max) && check(files[n - 1]).ok && check(files[n - 1]).key !in Keys(files, n - 1, check)
        && Total(files, n, check) <= max)
  }

  function FilesOf(files: seq<Option<SourceFile>>): (valid: seq<ValidFile>)
    ensures |valid| == |files|
    ensures forall i :: 0 <= i < |files| ==> valid[i] == ValidFile(PathOf(files[i]), ContentOf(files[i]))
  {
    if files == [] then []
    else
      var n := |files| - 1;
      FilesOf(files[..n]) + [ValidFile(PathOf(files[n]), ContentOf(files[n]))]
  }

  function PackagesOf(packages: seq<Option<PackageRef>>): (valid: seq<ValidPackage>)
    ensures |valid| == |packages|
    ensures forall i :: 0 <= i < |packages| && PackageOk(packages[i])
                        ==> packages[i] == Some(PackageRef(Some(valid[i].id), Some(valid[i].version)))
  {
    if packages == [] then []
    else
      var n := |packages| - 1;
      var p := packages[n];
      PackagesOf(packages[..n])
      + [if PackageOk(p) then ValidPackage(p.value.id.value, p.value.version.value) else ValidPackage("", "")]
  }

  /** A folder on the way to a path is one of some paths. */
  ghost predicate InsideOneOf(path: string, paths: set<string>) {
    exists k :: 0 < k < |path| && path[k] == '/' && Lower(path[..k]) in paths
  }

  predicate PackageOk(p: Option<PackageRef>) {
    && p.Some? && p.value.id.Some? && p.value.version.Some?
    && MatchesPackageId(BeforeEnd(p.value.id.value)) && MatchesVersion(BeforeEnd(p.value.version.value))
    && !HasDots(p.value.id.value) && !HasDots(p.value.version.value)
  }

  predicate HasDots(s: string) {
    exists k :: 0 <= k < |s| - 1 && s[k] == '.' && s[k + 1] == '.'
  }

  /** What the loop over the packages looks at. */
  datatype Known = Known(ok: bool, key: string, inStore: bool)

  type PackageCheck = Option<PackageRef> -> Known

  function PackageChecker(o: Options): PackageCheck {
    p =>
      if !PackageOk(p) then Known(false, "", false)
      else Known(true, Lower(p.value.id.value), o.inStore(Lower(p.value.id.value), Lower(p.value.version.value)))
  }

  function Ids(packages: seq<Option<PackageRef>>, n: nat, check: PackageCheck): set<string>
    requires n <= |packages|
  {
    if n == 0 then {} else Ids(packages, n - 1, check) + {check(packages[n - 1]).key}
  }

  predicate PackagesPass(packages: seq<Option<PackageRef>>, n: nat, check: PackageCheck)
    requires n <= |packages|
  {
    n == 0 || (PackagesPass(packages, n - 1, check) && WellFormed(packages, n - 1, check) && check(packages[n - 1]).inStore)
  }

  /** The package itself is in order, and no earlier one has its id. */
  predicate WellFormed(packages: seq<Option<PackageRef>>, n: nat, check: PackageCheck)
    requires n < |packages|
  {
    check(packages[n]).ok && check(packages[n]).key !in Ids(packages, n, check)
  }

  /** Everything before the packages is in order. */
  ghost predicate SourcesPass(r: CompileRequest, o: Options) {
    && r.assemblyName.Some? && r.files.Some? && r.packages.Some?
    && IsValidProjectName(r.assemblyName.value, o.isKeyword)
    && |r.files.value| <= o.maxFiles && FilesPass(r.files.value, |r.files.value|, FileChecker(o), o.projectMaxBytes)
    && NoneInside(r.files.value, Keys(r.files.value, |r.files.value|, FileChecker(o)))
    && |r.packages.value| <= o.maxPackages
  }

  ghost predicate NoneInside(files: seq<Option<SourceFile>>, paths: set<string>) {
    forall i :: 0 <= i < |files| ==> !InsideOneOf(PathOf(files[i]), paths)
  }

  ghost predicate Acceptable(r: CompileRequest, o: Options) {
    SourcesPass(r, o) && PackagesPass(r.packages.value, |r.packages.value|, PackageChecker(o))
  }

  /** The first package that stops the check is in order but not in the offline set. */
  ghost predicate StopsAtUnknown(packages: seq<Option<PackageRef>>, check: PackageCheck) {
    exists n :: 0 <= n < |packages| && PackagesPass(packages, n, check) && WellFormed(packages, n, check)
                && !check(packages[n]).inStore
  }

  lemma {:induction false} FilesPassAt(files: seq<Option<SourceFile>>, k: nat, n: nat, check: FileCheck, max: int)
    requires k < n <= |files| && FilesPass(files, n, check, max)
    ensures FilesPass(files, k + 1, check, max)
    decreases n
  {
    if k + 1 < n {
      FilesPassAt(files, k, n - 1, check, max);
    }
  }

  lemma {:induction false} PackagesPassAt(packages: seq<Option<PackageRef>>, k: nat, n: nat, check: PackageCheck)
    requires k < n <= |packages| && PackagesPass(packages, n, check)
    ensures PackagesPass(packages, k + 1, check)
    decreases n
  {
    if k + 1 < n {
      PackagesPassAt(packages, k, n - 1, check);
    }
  }

  /** `IndexOf('/', from)`. */
  function NextSlash(path: string, from: nat): (k: int)
    ensures -1 <= k < |path| && (k >= 0 ==> k >= from && path[k] == '/')
    ensures forall j :: from <= j < |path| && (k < 0 || j < k) ==> path[j] != '/'
    decreases |path| - from
  {
    if from >= |path| then -1 else if path[from] == '/' then from else NextSlash(path, from + 1)
  }

  /** Looks for the folders of a path among the files. */
  method FolderIsFile(path: string, paths: set<string>) returns (found: bool)
    requires path != "" && path[0] != '/'
    ensures found <==> InsideOneOf(path, paths)
  {
    var slash := NextSlash(path, 0);
    while slash > 0
      invariant -1 <= slash < |path| && slash != 0 && (slash > 0 ==> path[slash] == '/')
      invariant forall k :: 0 < k < |path| && path[k] == '/' && (slash < 0 || k < slash) ==> Lower(path[..k]) !in paths
      decreases |path| - (if slash < 0 then |path| else slash)
    {
      if Lower(path[..slash]) in paths {
        return true;
      }
      slash := NextSlash(path, slash + 1);
    }
    found := false;
  }

  /** The files that pass, their paths and their total. */
  method CheckFiles(files: seq<Option<SourceFile>>, check: FileCheck, max: int)
    returns (ok: bool, valid: seq<ValidFile>, paths: set<string>, totalBytes: int)
    ensures ok <==> FilesPass(files, |files|, check, max)
    ensures ok ==> |valid| == |files| && paths == Keys(files, |files|, check) && totalBytes == Total(files, |files|, check)
    ensures ok ==> forall i :: 0 <= i < |files| ==> valid[i] == ValidFile(PathOf(files[i]), ContentOf(files[i]))
  {
    ok, valid, paths, totalBytes := true, [], {}, 0;
    for i := 0 to |files|
      invariant ok && FilesPass(files, i, check, max) && paths == Keys(files, i, check) && totalBytes == Total(files, i, check)
      invariant |valid| == i && forall j :: 0 <= j < i ==> valid[j] == ValidFile(PathOf(files[j]), ContentOf(files[j]))
    {
      if FilesPass(files, |files|, check, max) { FilesPassAt(files, i, |files|, check, max); }
      var file := check(files[i]);
      if !file.ok || file.key in paths {
        return false, valid, paths, totalBytes;
      }
      paths := paths + {file.key};
      totalBytes := Wrap32(totalBytes + file.bytes);
      if totalBytes > max {
        return false, valid, paths, totalBytes;
      }
      valid := valid + [ValidFile(PathOf(files[i]), ContentOf(files[i]))];
    }
  }

  method CheckPackages(packages: seq<Option<PackageRef>>, check: PackageCheck) returns (error: Option<Rejection>)
    ensures error == None <==> PackagesPass(packages, |packages|, check)
    ensures error == Some(UnknownPackage) <==> StopsAtUnknown(packages, check)
  {
    error := None;
    var ids: set<string> := {};
    for i := 0 to |packages|
      invariant error == None && PackagesPass(packages, i, check) && ids == Ids(packages, i, check)
    {
      var package := check(packages[i]);
      OnlyOneStops(packages, i, check);
      if !package.ok || package.key in ids {
        return Some(InvalidRequest);
      }
      ids := ids + {package.key};
      if !package.inStore {
        return Some(UnknownPackage);
      }
    }
    if StopsAtUnknown(packages, check) {
      var n :| 0 <= n < |packages| && PackagesPass(packages, n, check) && WellFormed(packages, n, check) && !check(packages[n]).inStore;
      PackagesPassAt(packages, n, |packages|, check);
    }
  }

  /** If the check gets to a package, no earlier one stops it; and if this one does, no later one is seen. */
  lemma OnlyOneStops(packages: seq<Option<PackageRef>>, i: nat, check: PackageCheck)
    requires i < |packages| && PackagesPass(packages, i, check)
    ensures StopsAtUnknown(packages, check) && !PackagesPass(packages, i + 1, check)
        ==> WellFormed(packages, i, check) && !check(packages[i]).inStore
    ensures PackagesPass(packages, |packages|, check) ==> PackagesPass(packages, i + 1, check)
  {
    if PackagesPass(packages, |packages|, check) {
      PackagesPassAt(packages, i, |packages|, check);
    }
    if StopsAtUnknown(packages, check) {
      var n: nat :| 0 <= n < |packages| && PackagesPass(packages, n, check) && WellFormed(packages, n, check) && !check(packages[n]).inStore;
      if n < i {
        PackagesPassAt(packages, n, i, check);
      } else if i < n {
        PackagesPassAt(packages, i, n, check);
      }
    }
  }

  lemma PathStartsWell(f: Option<SourceFile>, o: Options)
    requires FileChecker(o)(f).ok
    ensures FileOk(f, o) && CheckPath(PathOf(f)) == None && PathOf(f) != "" && PathOf(f)[0] != '/'
  {
    assert FileOk(f, o);
    assert CheckPath(PathOf(f)).None?;
  }

  /** No path has a folder that is one of the files. */
  method CheckFolders(files: seq<Option<SourceFile>>, paths: set<string>) returns (ok: bool)
    requires forall i :: 0 <= i < |files| ==> PathOf(files[i]) != "" && PathOf(files[i])[0] != '/'
    ensures ok <==> NoneInside(files, paths)
  {
    for i := 0 to |files|
      invariant forall j :: 0 <= j < i ==> !InsideOneOf(PathOf(files[j]), paths)
    {
      var inside := FolderIsFile(PathOf(files[i]), paths);
      if inside {
        return false;
      }
    }
    ok := true;
  }

  /** Checks the request: accepts exactly the acceptable ones, with their files, packages and total; the first
      package that stops the check as unknown is in order but not in the offline set. */
  method Validate(request: Option<CompileRequest>, o: Options) returns (r: Result<ValidRequest, Rejection>)
    ensures r.Ok? <==> request.Some? && IsAccepted(request.value, o)
    ensures r == Err(UnknownPackage) <==> request.Some? && HasSources(request.value, o) && HasUnknown(request.value.packages.value, o)
    ensures r.Ok? ==> IsValidated(r.value, request.value, o)
    ensures r.Ok? <==> request.Some? && Acceptable(request.value, o)
    ensures r == Err(UnknownPackage)
       <==> request.Some? && SourcesPass(request.value, o) && StopsAtUnknown(request.value.packages.value, PackageChecker(o))
    ensures r.Ok? ==>
      r.value == ValidRequest(request.value.assemblyName.value, FilesOf(request.value.files.value),
                              PackagesOf(request.value.packages.value),
                              Total(request.value.files.value, |request.value.files.value|, FileChecker(o)))
  {
    if request == None || request.value.assemblyName == None || request.value.files == None || request.value.packages == None {
      return Err(InvalidRequest);
    }
    var name, files, packages := request.value.assemblyName.value, request.value.files.value, request.value.packages.value;
    AcceptableIff(request.value, o);
    UnknownIff(packages, o);
    if !IsValidProjectName(name, o.isKeyword) || |files| > o.maxFiles {
      return Err(InvalidRequest);
    }
    var ok, validFiles, paths, totalBytes := CheckFiles(files, FileChecker(o), o.projectMaxBytes);
    if !ok {
      return Err(InvalidRequest);
    }
    AllStartWell(files, o);
    ok := CheckFolders(files, paths);
    if !ok || |packages| > o.maxPackages {
      return Err(InvalidRequest);
    }
    var error := CheckPackages(packages, PackageChecker(o));
    if error.Some? {
      return Err(error.value);
    }
    assert validFiles == FilesOf(files);
    r := Ok(ValidRequest(name, validFiles, PackagesOf(packages), totalBytes));
    Validated(r.value, request.value, o);
  }

  lemma AllStartWell(files: seq<Option<SourceFile>>, o: Options)
    requires FilesPass(files, |files|, FileChecker(o), o.projectMaxBytes)
    ensures forall i :: 0 <= i < |files| ==> PathOf(files[i]) != "" && PathOf(files[i])[0] != '/'
  {
    forall i | 0 <= i < |files| ensures PathOf(files[i]) != "" && PathOf(files[i])[0] != '/' {
      FilesPassAt(files, i, |files|, FileChecker(o), o.projectMaxBytes);
      PathStartsWell(files[i], o);
    }
  }

  // ----- what is accepted -----

  /** A file by the parts of its path without regard to case. */
  function LeafOf(f: Option<SourceFile>): (leaf: Leaf)
    ensures |leaf.parts| > 0
  {
    Leaf(Split(Lower(PathOf(f))), ContentOf(f))
  }

  function LeavesOf(files: seq<Option<SourceFile>>): (leaves: seq<Leaf>)
    ensures |leaves| == |files| && forall i :: 0 <= i < |files| ==> leaves[i] == LeafOf(files[i])
    ensures Rooted(leaves)
  {
    if files == [] then [] else LeavesOf(files[..|files| - 1]) + [LeafOf(files[|files| - 1])]
  }

  ghost predicate DistinctPaths(files: seq<Option<SourceFile>>) {
    forall i, j :: 0 <= i < j < |files| ==> Lower(PathOf(files[i])) != Lower(PathOf(files[j]))
  }

  lemma {:induction false} KeyIn(files: seq<Option<SourceFile>>, n: nat, check: FileCheck, key: string)
    requires n <= |files|
    ensures key in Keys(files, n, check) <==> exists i :: 0 <= i < n && check(files[i]).key == key
  {
    if n > 0 {
      KeyIn(files, n - 1, check, key);
    }
  }

  lemma KeysDiffer(files: seq<Option<SourceFile>>, i: nat, j: nat, check: FileCheck, max: int)
    requires i < j < |files| && FilesPass(files, |files|, check, max)
    ensures check(files[i]).key != check(files[j]).key
  {
    FilesPassAt(files, j, |files|, check, max);
    KeyIn(files, j, check, check(files[i]).key);
  }

  /** One file path lies inside another as a folder exactly if it ends before a slash of it. */
  lemma InsideIffPrefix(a: string, b: string)
    requires a != ""
    ensures IsPrefix(Split(Lower(a)), Split(Lower(b))) && Lower(a) != Lower(b)
       <==> exists k :: 0 < k < |b| && b[k] == '/' && Lower(b[..k]) == Lower(a)
  {
    FolderOf(Lower(a), Lower(b));
    SplitInjective(Lower(a), Lower(b));
    forall k | 0 < k < |b| ensures Lower(b[..k]) == Lower(b)[..k] {
    }
    if |a| < |b| {
      assert Lower(b)[|a|] == '/' <==> b[|a|] == '/';
    }
  }

  /** Of files that pass one by one, the two checks let through exactly those that make a directory tree. */
  lemma ChecksMeanTree(files: seq<Option<SourceFile>>, paths: set<string>)
    requires forall i :: 0 <= i < |files| ==> PathOf(files[i]) != ""
    requires forall key :: key in paths <==> exists i :: 0 <= i < |files| && Lower(PathOf(files[i])) == key
    ensures DistinctPaths(files) && NoneInside(files, paths) <==> InsertAll(LeavesOf(files), |files|).Some?
  {
    var leaves := LeavesOf(files);
    TreeIffNoClash(leaves, |files|);
    if DistinctPaths(files) && NoneInside(files, paths) {
      forall i, j | 0 <= i < j < |files| ensures !Comparable(leaves[i].parts, leaves[j].parts) {
        NotInside(files, paths, i, j);
        NotInside(files, paths, j, i);
      }
    }
    if NoClash(leaves, |files|) {
      TreeIsDistinct(files);
      forall j | 0 <= j < |files| ensures !InsideOneOf(PathOf(files[j]), paths) {
        TreeHasNoneInside(files, paths, j);
      }
    }
  }

  lemma NotInside(files: seq<Option<SourceFile>>, paths: set<string>, i: nat, j: nat)
    requires i < |files| && j < |files| && i != j && PathOf(files[i]) != ""
    requires DistinctPaths(files) && NoneInside(files, paths) && Lower(PathOf(files[i])) in paths
    ensures !IsPrefix(LeafOf(files[i]).parts, LeafOf(files[j]).parts)
  {
    var a, b := PathOf(files[i]), PathOf(files[j]);
    assert Lower(a) != Lower(b);
    InsideIffPrefix(a, b);
    assert !InsideOneOf(b, paths);
  }

  lemma {:induction false} TreeIsDistinct(files: seq<Option<SourceFile>>)
    requires NoClash(LeavesOf(files), |files|)
    ensures DistinctPaths(files)
  {
    forall i, j | 0 <= i < j < |files| ensures Lower(PathOf(files[i])) != Lower(PathOf(files[j])) {
      var p := LeavesOf(files)[i].parts;
      assert !Comparable(p, LeavesOf(files)[j].parts);
      assert p[..|p|] == p;
    }
  }

  lemma {:induction false} TreeHasNoneInside(files: seq<Option<SourceFile>>, paths: set<string>, j: nat)
    requires j < |files| && NoClash(LeavesOf(files), |files|)
    requires forall i :: 0 <= i < |files| ==> PathOf(files[i]) != ""
    requires forall key :: key in paths <==> exists i :: 0 <= i < |files| && Lower(PathOf(files[i])) == key
    ensures !InsideOneOf(PathOf(files[j]), paths)
  {
    var b := PathOf(files[j]);
    if InsideOneOf(b, paths) {
      var k :| 0 < k < |b| && b[k] == '/' && Lower(b[..k]) in paths;
      var i :| 0 <= i < |files| && Lower(PathOf(files[i])) == Lower(b[..k]);
      InsideIffPrefix(PathOf(files[i]), b);
      var leaves := LeavesOf(files);
      assert i != j;
      assert Comparable(leaves[i].parts, leaves[j].parts) && Comparable(leaves[j].parts, leaves[i].parts);
    }
  }

  lemma {:induction false} LowerSplit(s: string)
    ensures |Split(Lower(s))| == |Split(s)|
  {
    if s != "" {
      assert Lower(s)[1..] == Lower(s[1..]);
      LowerSplit(s[1..]);
    }
  }

  /** The files of an accepted request, in any order, are a tree of at most eight levels in which every
      file reads back with its own content. */
  lemma {:induction false} AcceptedIsATree(files: seq<Option<SourceFile>>, order: seq<nat>, o: Options)
    requires FilesPass(files, |files|, FileChecker(o), o.projectMaxBytes)
    requires NoneInside(files, Keys(files, |files|, FileChecker(o)))
    requires forall k :: 0 <= k < |order| ==> order[k] < |files|
    requires forall j, k :: 0 <= j < k < |order| ==> order[j] != order[k]
    ensures var tree := InsertAll(Ordered(LeavesOf(files), order), |order|);
            tree.Some? && forall k :: 0 <= k < |order| ==>
              Lookup(tree.value, LeafOf(files[order[k]]).parts) == Some(ContentOf(files[order[k]]))
    ensures forall i :: 0 <= i < |files| ==> |LeafOf(files[i]).parts| <= 8
  {
    FilesMakeATree(files, o);
    var leaves := LeavesOf(files);
    AnyOrder(leaves, order);
    var ordered := Ordered(leaves, order);
    forall k | 0 <= k < |order|
      ensures Lookup(InsertAll(ordered, |order|).value, LeafOf(files[order[k]]).parts) == Some(ContentOf(files[order[k]])) {
      assert ordered[k] == LeafOf(files[order[k]]);
      TreeReadsBack(ordered, |order|, ordered[k].parts);
    }
    forall i | 0 <= i < |files| ensures |LeafOf(files[i]).parts| <= 8 {
      FilesPassAt(files, i, |files|, FileChecker(o), o.projectMaxBytes);
      PathStartsWell(files[i], o);
      FewParts(PathOf(files[i]));
      LowerSplit(PathOf(files[i]));
    }
  }

  lemma FewParts(path: string)
    requires CheckPath(path) == None
    ensures |Split(path)| <= 8
  {
    assert CheckPath(path).None?;
  }

  lemma FilesMakeATree(files: seq<Option<SourceFile>>, o: Options)
    requires FilesPass(files, |files|, FileChecker(o), o.projectMaxBytes)
    requires NoneInside(files, Keys(files, |files|, FileChecker(o)))
    ensures NoClash(LeavesOf(files), |files|)
  {
    var check, paths := FileChecker(o), Keys(files, |files|, FileChecker(o));
    AllStartWell(files, o);
    forall key: string ensures key in paths <==> exists i :: 0 <= i < |files| && Lower(PathOf(files[i])) == key {
      KeyIn(files, |files|, check, key);
    }
    forall i, j | 0 <= i < j < |files| ensures Lower(PathOf(files[i])) != Lower(PathOf(files[j])) {
      KeysDiffer(files, i, j, check, o.projectMaxBytes);
    }
    ChecksMeanTree(files, paths);
    TreeIffNoClash(LeavesOf(files), |files|);
  }

  // ----- the total -----

  /** The total is exact, and within its limit, whenever the two limits together are an `int`. */
  lemma {:induction false} TotalIsExact(files: seq<Option<SourceFile>>, n: nat, check: FileCheck, fileMax: int, max: int)
    requires n <= |files| && FilesPass(files, n, check, max)
    requires fileMax < 0x8000_0000 && fileMax + max < 0x8000_0000
    requires forall i :: 0 <= i < |files| ==> check(files[i]).bytes <= fileMax
    ensures Total(files, n, check) == Sum(files, n, check)
    ensures n > 0 ==> Sum(files, n, check) <= max
  {
    if n > 0 {
      TotalIsExact(files, n - 1, check, fileMax, max);
      var sum := Sum(files, n, check);
      assert check(files[n - 1]).bytes <= fileMax;
      assert sum < 0x8000_0000 && Wrap32(sum) == sum;
    }
  }

  /** Whatever the limits, the total is the sum without its overflow: exact exactly if the sum is an `int`. */
  lemma {:induction false} TotalIsWrapped(files: seq<Option<SourceFile>>, n: nat, check: FileCheck)
    requires n <= |files|
    ensures Total(files, n, check) == Wrap32(Sum(files, n, check))
    ensures Total(files, n, check) == Sum(files, n, check) <==> Sum(files, n, check) < 0x8000_0000
  {
    if n > 0 {
      TotalIsWrapped(files, n - 1, check);
      WrapSum(Sum(files, n - 1, check), check(files[n - 1]).bytes);
    }
    var sum := Sum(files, n, check);
    if sum >= 0x8000_0000 {
      assert Wrap32(sum) < 0x8000_0000;
    }
  }

  lemma WrapSum(x: nat, y: nat)
    ensures Wrap32(Wrap32(x) + y) == Wrap32(x + y)
  {
    var q := (x + 0x8000_0000) / 0x1_0000_0000;
    assert Wrap32(x) == x - 0x1_0000_0000 * q;
    var z := x + y + 0x8000_0000;
    assert (z - 0x1_0000_0000 * q) % 0x1_0000_0000 == z % 0x1_0000_0000;
  }

  // ----- names of folders -----

  /** A name that the rules mean to allow. */
  predicate IsStrict(part: string) {
    MatchesPart(part) && part[|part| - 1] != '.' && !IsReserved(UpTo(part, '.'))
  }

  lemma {:induction false} PartsPass(parts: seq<string>, k: nat)
    requires CheckParts(parts) == None && k < |parts|
    ensures CheckPart(parts[k]) == None
  {
    assert CheckPart(parts[0]).None? && CheckParts(parts[1..]).None?;
    if k > 0 {
      PartsPass(parts[1..], k - 1);
    }
  }

  lemma PassIsStrict(part: string)
    requires CheckPart(part) == None
    ensures IsStrict(part) <==> '\n' !in part
  {
    assert CheckPart(part).None?;
    if '\n' !in part {
      assert part != "" ==> part[|part| - 1] in part;
    }
  }

  lemma {:induction false} CharInPart(s: string, c: char)
    requires c != '/'
    ensures c in s <==> exists k :: 0 <= k < |Split(s)| && c in Split(s)[k]
  {
    if s != "" {
      CharInPart(s[1..], c);
      var rest, parts := Split(s[1..]), Split(s);
      assert s == [s[0]] + s[1..];
      if s[0] == '/' {
        forall k | 0 <= k < |rest| ensures rest[k] == parts[k + 1] {
        }
        if c in s[1..] {
          var k :| 0 <= k < |rest| && c in rest[k];
          assert c in parts[k + 1];
        }
      } else {
        assert forall k :: 0 < k < |rest| ==> parts[k] == rest[k];
        assert parts[0] == [s[0]] + rest[0];
        if c in s[1..] {
          var k :| 0 <= k < |rest| && c in rest[k];
          assert c in parts[k];
        }
        if s[0] == c {
          assert c in parts[0];
        }
      }
    }
  }

  /** An accepted path has only the names that the rules mean to allow exactly if it has no line feed:
      the end of the pattern also matches before a final one. */
  lemma StrictIffNoLineFeed(path: string)
    requires CheckPath(path) == None
    ensures (forall k :: 0 <= k < |Split(path)| ==> IsStrict(Split(path)[k])) <==> '\n' !in path
  {
    var parts := Split(path);
    assert CheckPath(path).None?;
    assert CheckParts(parts).None?;
    CharInPart(path, '\n');
    forall k | 0 <= k < |parts| ensures IsStrict(parts[k]) <==> '\n' !in parts[k] {
      PartsPass(parts, k);
      PassIsStrict(parts[k]);
    }
  }

  /** An assembly name that the rules mean to allow. */
  predicate IsStrictName(name: string, isKeyword: string -> bool) {
    MatchesName(name) && !isKeyword(name) && !IsReserved(name)
  }

  /** The same holds of assembly names: an accepted one is allowed exactly if it has no line feed. */
  lemma NameStrictIffNoLineFeed(name: string, isKeyword: string -> bool)
    requires IsValidProjectName(name, isKeyword)
    ensures IsStrictName(name, isKeyword) <==> '\n' !in name
  {
    if '\n' !in name {
      assert name != "" ==> name[|name| - 1] in name;
    }
  }

  /** A word of the pattern passes with a line feed, be it a reserved name or a keyword. */
  lemma NameWithLineFeedPasses(word: string, isKeyword: string -> bool)
    requires MatchesName(word) && !isKeyword(word + "\n")
    ensures IsValidProjectName(word + "\n", isKeyword)
  {
    var name := word + "\n";
    assert BeforeEnd(name) == word;
    assert Lower(name)[|word|] == '\n';
  }

  /** And of the id and the version of a package. */
  lemma PackageStrictIffNoLineFeed(id: string, version: string)
    requires PackageOk(Some(PackageRef(Some(id), Some(version))))
    ensures MatchesPackageId(id) && MatchesVersion(version) <==> '\n' !in id && '\n' !in version
  {
    assert id != "" ==> id[|id| - 1] in id;
    assert version != "" ==> version[|version| - 1] in version;
  }

  /** A package whose id ends in a line feed is in order; whether it is accepted is for the offline set to say. */
  lemma PackageWithLineFeed(id: string, version: string, o: Options)
    requires id == "A\n" && version == "1"
    ensures var p := Some(PackageRef(Some(id), Some(version)));
            && PackageOk(p) && !MatchesPackageId(id)
            && if o.inStore(Lower(id), Lower(version)) then PackagesPass([p], 1, PackageChecker(o))
               else StopsAtUnknown([p], PackageChecker(o))
  {
    var p, check := Some(PackageRef(Some(id), Some(version))), PackageChecker(o);
    assert BeforeEnd(id) == "A" && BeforeEnd(version) == "1";
    assert PackageOk(p);
    assert PackagesPass([p], 0, check) && Ids([p], 0, check) == {};
    assert WellFormed([p], 0, check);
  }

  /** No name or version in the offline set has a line feed, as none that is downloaded into it has. */
  ghost predicate IsCleanStore(o: Options) {
    forall id, version :: o.inStore(id, version) ==> '\n' !in id && '\n' !in version
  }

  lemma PackageChecked(p: Option<PackageRef>, o: Options)
    requires PackageChecker(o)(p).ok && PackageChecker(o)(p).inStore
    ensures PackageOk(p) && o.inStore(Lower(p.value.id.value), Lower(p.value.version.value))
  {
  }

  lemma CleanPackageIsStrict(id: string, version: string, o: Options)
    requires PackageOk(Some(PackageRef(Some(id), Some(version)))) && IsCleanStore(o) && o.inStore(Lower(id), Lower(version))
    ensures MatchesPackageId(id) && MatchesVersion(version)
  {
    LowerKeepsLineFeed(id);
    LowerKeepsLineFeed(version);
    PackageStrictIffNoLineFeed(id, version);
  }

  /** An id and a version that match their patterns whole. */
  predicate IsStrictPackage(p: Option<PackageRef>) {
    PackageOk(p) && MatchesPackageId(p.value.id.value) && MatchesVersion(p.value.version.value)
  }

  /** Then every accepted package has an id and a version that the rules mean to allow. */
  lemma {:induction false} CleanStoreIsStrict(packages: seq<Option<PackageRef>>, i: nat, n: nat, o: Options)
    requires i < n <= |packages| && PackagesPass(packages, n, PackageChecker(o)) && IsCleanStore(o)
    ensures IsStrictPackage(packages[i])
    decreases n
  {
    if i < n - 1 {
      CleanStoreIsStrict(packages, i, n - 1, o);
    } else {
      StrictIfChecked(packages[i], o);
    }
  }

  lemma StrictIfChecked(p: Option<PackageRef>, o: Options)
    requires PackageChecker(o)(p).ok && PackageChecker(o)(p).inStore && IsCleanStore(o)
    ensures IsStrictPackage(p)
  {
    PackageChecked(p, o);
    CleanPackageIsStrict(p.value.id.value, p.value.version.value, o);
  }

  lemma LowerKeepsLineFeed(s: string)
    ensures '\n' in Lower(s) <==> '\n' in s
  {
    forall k | 0 <= k < |s| ensures Lower(s)[k] == '\n' <==> s[k] == '\n' {
    }
    if '\n' in s {
      var k :| 0 <= k < |s| && s[k] == '\n';
      assert Lower(s)[k] == '\n';
    }
  }

  lemma ReservedWithLineFeed()
    ensures CheckPart("CON\n") == None && !IsStrict("CON\n")
  {
    assert BeforeEnd("CON\n") == "CON";
    NoDot("CON\n");
    assert Lower("CON\n")[2] == 'n';
  }

  lemma PlainFile()
    ensures CheckPart("a.cs") == None
  {
    assert "a.cs"[1..] == ".cs" && UpTo(".cs", '.') == "";
    assert UpTo("a.cs", '.') == "a";
  }

  lemma TwoParts(a: string, b: string)
    requires CheckPart(a) == None && CheckPart(b) == None
    ensures CheckParts([a, b]) == None
  {
    assert [a, b][1..] == [b];
    assert [b][1..] == [];
    assert CheckParts([b]) == None;
  }

  lemma PairIsSplit(folder: string, file: string)
    requires '/' !in folder && '/' !in file
    ensures Split(folder + "/" + file) == [folder, file]
  {
    NoSlash(folder);
    NoSlash(file);
    SplitPair(folder, file);
  }

  lemma CharsOfPair(folder: string, file: string)
    requires |folder| > 2 && |file| > 3 && file[|file| - 3..] == ".cs"
    requires '/' !in folder && '\\' !in folder && '\\' !in file && folder[1] != ':'
    ensures var path := folder + "/" + file;
            path[0] != '/' && '\\' !in path && path[1] != ':' && path[|path| - 3..] == ".cs"
  {
    var path := folder + "/" + file;
    assert folder[0] in folder;
    assert path[|path| - 3..] == file[|file| - 3..];
  }

  lemma FileInFolder(folder: string, file: string)
    requires CheckPart(folder) == None && CheckPart(file) == None && |folder| > 2 && |file| > 3 && |folder| + |file| < 200
    requires '/' !in folder && '/' !in file && '\\' !in folder && '\\' !in file && folder[1] != ':'
    requires file[|file| - 3..] == ".cs"
    ensures CheckPath(folder + "/" + file) == None
  {
    PairIsSplit(folder, file);
    CharsOfPair(folder, file);
    TwoParts(folder, file);
    PathPasses(folder + "/" + file, [folder, file]);
  }

  lemma PathPasses(path: string, parts: seq<string>)
    requires parts == Split(path) && |parts| <= 8 && CheckParts(parts) == None
    requires forall k :: 0 <= k < |parts| ==> |parts[k]| > 2
    requires 3 <= |path| <= 200 && path[0] != '/' && '\\' !in path && path[1] != ':' && path[|path| - 3..] == ".cs"
    ensures CheckPath(path) == None
  {
  }

  /** Such a path is accepted: its folder is a reserved name and a line feed. */
  lemma LineFeedPasses(folder: string, file: string)
    requires folder == "CON\n" && file == "a.cs"
    ensures CheckPath(folder + "/" + file) == None
  {
    ReservedWithLineFeed();
    PlainFile();
    FileInFolder(folder, file);
  }

  lemma {:induction false} NoSlash(s: string)
    requires '/' !in s
    ensures Split(s) == [s]
  {
    if s != "" {
      NoSlash(s[1..]);
      assert s[0] in s && [s[0]] + s[1..] == s;
    }
  }

  lemma {:induction false} NoDot(s: string)
    requires '.' !in s
    ensures UpTo(s, '.') == s
  {
    if s != "" {
      NoDot(s[1..]);
    }
  }

  // ----- what is accepted, told from the request alone -----

  /** Where a text ends for the patterns: before one final line feed. */
  function EndOf(s: string): nat {
    if s != "" && s[|s| - 1] == '\n' then |s| - 1 else |s|
  }

  const RESERVED_NAMES: set<string> := {
    "con", "prn", "aux", "nul", "com1", "com2", "com3", "com4", "com5", "com6", "com7", "com8", "com9",
    "lpt1", "lpt2", "lpt3", "lpt4", "lpt5", "lpt6", "lpt7", "lpt8", "lpt9"
  }

  /** A part of a path: its characters, its last one, and what it has before its first dot. */
  predicate IsPart(part: string) {
    && 1 <= EndOf(part) <= 64 && IsWord(part[0]) && part[|part| - 1] != '.'
    && (forall k :: 0 < k < EndOf(part) ==> IsWord(part[k]) || part[k] == '.' || part[k] == '-')
    && forall n :: 0 <= n <= |part| && '.' !in part[..n] && (n == |part| || part[n] == '.') ==> Lower(part[..n]) !in RESERVED_NAMES
  }

  predicate IsPath(path: string) {
    && 3 <= |path| <= 200 && path[|path| - 3..] == ".cs"
    && |Split(path)| <= 8 && forall k :: 0 <= k < |Split(path)| ==> IsPart(Split(path)[k])
  }

  lemma EndIsEnd(s: string)
    ensures BeforeEnd(s) == s[..EndOf(s)]
  {
  }

  lemma SerialPorts(f: string)
    ensures |f| == 4 && f[..3] == "com" && '1' <= f[3] <= '9'
       <==> f in {"com1", "com2", "com3", "com4", "com5", "com6", "com7", "com8", "com9"}
  {
    PortsOf(f, "com");
    assert "com" + "1" == "com1" && "com" + "2" == "com2" && "com" + "3" == "com3" && "com" + "4" == "com4" && "com" + "5" == "com5"
      && "com" + "6" == "com6" && "com" + "7" == "com7" && "com" + "8" == "com8" && "com" + "9" == "com9";
  }

  lemma PrinterPorts(f: string)
    ensures |f| == 4 && f[..3] == "lpt" && '1' <= f[3] <= '9'
       <==> f in {"lpt1", "lpt2", "lpt3", "lpt4", "lpt5", "lpt6", "lpt7", "lpt8", "lpt9"}
  {
    PortsOf(f, "lpt");
    assert "lpt" + "1" == "lpt1" && "lpt" + "2" == "lpt2" && "lpt" + "3" == "lpt3" && "lpt" + "4" == "lpt4" && "lpt" + "5" == "lpt5"
      && "lpt" + "6" == "lpt6" && "lpt" + "7" == "lpt7" && "lpt" + "8" == "lpt8" && "lpt" + "9" == "lpt9";
  }

  lemma PortsOf(f: string, port: string)
    requires |port| == 3
    ensures |f| == 4 && f[..3] == port && '1' <= f[3] <= '9'
       <==> f in {port + "1", port + "2", port + "3", port + "4", port + "5", port + "6", port + "7", port + "8", port + "9"}
  {
    if |f| == 4 && f[..3] == port {
      assert f == port + [f[3]];
    }
  }

  lemma ReservedIff(s: string)
    ensures IsReserved(s) <==> Lower(s) in RESERVED_NAMES
  {
    SerialPorts(Lower(s));
    PrinterPorts(Lower(s));
  }

  lemma {:induction false} UpToIsStem(s: string, n: nat)
    requires n <= |s| && '.' !in s[..n] && (n == |s| || s[n] == '.')
    ensures UpTo(s, '.') == s[..n]
  {
    if n > 0 {
      assert s[0] == s[..n][0] && s[..n] == [s[0]] + s[1..][..n - 1];
      var rest := s[1..][..n - 1];
      forall k | 0 <= k < |rest| ensures rest[k] != '.' {
        assert s[..n][k + 1] != '.';
      }
      UpToIsStem(s[1..], n - 1);
    }
  }

  lemma {:induction false} StemEnds(s: string) returns (n: nat)
    ensures n <= |s| && '.' !in s[..n] && (n == |s| || s[n] == '.')
  {
    n := 0;
    if s != "" && s[0] != '.' {
      var m := StemEnds(s[1..]);
      n := m + 1;
      assert s[..n] == [s[0]] + s[1..][..m];
    }
  }

  lemma PartIff(part: string)
    ensures CheckPart(part) == None <==> IsPart(part)
  {
    EndIsEnd(part);
    if part != "" {
      var n := StemEnds(part);
      UpToIsStem(part, n);
      ReservedIff(part[..n]);
      forall m | 0 <= m <= |part| && '.' !in part[..m] && (m == |part| || part[m] == '.') ensures part[..m] == part[..n] {
        UpToIsStem(part, m);
      }
    }
  }

  lemma {:induction false} PartsIff(parts: seq<string>)
    ensures CheckParts(parts) == None <==> forall k :: 0 <= k < |parts| ==> IsPart(parts[k])
  {
    if parts != [] {
      PartIff(parts[0]);
      PartsIff(parts[1..]);
      if forall k :: 0 <= k < |parts| ==> IsPart(parts[k]) {
        forall k | 0 <= k < |parts[1..]| ensures IsPart(parts[1..][k]) {
          assert parts[1..][k] == parts[k + 1];
        }
      }
      if forall k :: 0 <= k < |parts[1..]| ==> IsPart(parts[1..][k]) {
        forall k | 0 < k < |parts| ensures IsPart(parts[k]) {
          assert parts[k] == parts[1..][k - 1];
        }
      }
    }
  }

  /** No part has a character that a path may not have elsewhere. */
  lemma NoOddChar(path: string, c: char)
    requires forall k :: 0 <= k < |Split(path)| ==> IsPart(Split(path)[k])
    requires !IsWord(c) && c != '.' && c != '-' && c != '/' && c != '\n'
    ensures c !in path
  {
    CharInPart(path, c);
    forall k | 0 <= k < |Split(path)| ensures c !in Split(path)[k] {
      NotInPart(Split(path)[k], c);
    }
  }

  lemma NotInPart(part: string, c: char)
    requires IsPart(part) && !IsWord(c) && c != '.' && c != '-' && c != '\n'
    ensures c !in part
  {
    forall k | 0 <= k < |part| ensures part[k] != c {
      if 0 < k < EndOf(part) {
        assert IsWord(part[k]) || part[k] == '.' || part[k] == '-';
      }
    }
  }

  lemma NoDots(parts: seq<string>)
    requires forall k :: 0 <= k < |parts| ==> IsPart(parts[k])
    ensures "." !in parts && ".." !in parts
  {
  }

  lemma StartsInside(path: string)
    requires path != "" && forall k :: 0 <= k < |Split(path)| ==> IsPart(Split(path)[k])
    ensures path[0] != '/' && '\\' !in path && ':' !in path
  {
    assert IsPart(Split(path)[0]);
    NoOddChar(path, '\\');
    NoOddChar(path, ':');
  }

  /** What the checks of a path let through. */
  lemma PathIff(path: string)
    ensures CheckPath(path) == None <==> IsPath(path)
  {
    var parts := Split(path);
    PartsIff(parts);
    if path != "" && forall k :: 0 <= k < |parts| ==> IsPart(parts[k]) {
      StartsInside(path);
      NoDots(parts);
      assert |path| >= 2 ==> path[1] in path;
    }
  }

  /** An assembly name: a letter and then letters, digits and underscores. */
  predicate IsAssemblyName(name: string, isKeyword: string -> bool) {
    && 1 <= EndOf(name) <= 64 && IsLetter(name[0])
    && (forall k :: 0 < k < EndOf(name) ==> IsLetter(name[k]) || IsDigit(name[k]) || name[k] == '_')
    && !isKeyword(name) && Lower(name) !in RESERVED_NAMES
  }

  lemma NameIff(name: string, isKeyword: string -> bool)
    ensures IsValidProjectName(name, isKeyword) <==> IsAssemblyName(name, isKeyword)
  {
    EndIsEnd(name);
    ReservedIff(name);
  }

  /** A file: its path, no zero character in its content, and its size. */
  predicate IsFile(f: Option<SourceFile>, o: Options) {
    && f.Some? && f.value.path.Some? && f.value.content.Some?
    && IsPath(f.value.path.value) && '\0' !in f.value.content.value && o.size(f.value.content.value) <= o.fileMaxBytes
  }

  /** A package: letters, digits and some signs, no two dots in a row. */
  predicate IsPackage(p: Option<PackageRef>) {
    && p.Some? && p.value.id.Some? && p.value.version.Some?
    && var id, version := p.value.id.value, p.value.version.value;
    && 1 <= EndOf(id) <= 100 && IsWord(id[0])
    && (forall k :: 0 < k < EndOf(id) ==> IsWord(id[k]) || id[k] == '.' || id[k] == '-')
    && 1 <= EndOf(version) <= 64 && IsDigit(version[0])
    && (forall k :: 0 < k < EndOf(version) ==>
          IsLetter(version[k]) || IsDigit(version[k]) || version[k] == '.' || version[k] == '+' || version[k] == '-')
    && (forall k :: 0 < k < |id| ==> id[k - 1] != '.' || id[k] != '.')
    && (forall k :: 0 < k < |version| ==> version[k - 1] != '.' || version[k] != '.')
  }

  lemma DotsIff(s: string)
    ensures HasDots(s) <==> !(forall k :: 0 < k < |s| ==> s[k - 1] != '.' || s[k] != '.')
  {
    if exists k :: 0 < k < |s| && s[k - 1] == '.' && s[k] == '.' {
      var k :| 0 < k < |s| && s[k - 1] == '.' && s[k] == '.';
      assert s[k - 1 + 1] == '.';
    }
  }

  lemma PackageIff(p: Option<PackageRef>)
    ensures PackageOk(p) <==> IsPackage(p)
  {
    if p.Some? && p.value.id.Some? && p.value.version.Some? {
      EndIsEnd(p.value.id.value);
      EndIsEnd(p.value.version.value);
      DotsIff(p.value.id.value);
      DotsIff(p.value.version.value);
    }
  }

  /** The first `n` files are in order, and no two have one path without regard to case. */
  ghost predicate AreFiles(files: seq<Option<SourceFile>>, n: nat, o: Options)
    requires n <= |files|
  {
    && (forall i :: 0 <= i < n ==> IsFile(files[i], o))
    && forall i, j :: 0 <= i < j < n ==> Lower(files[i].value.path.value) != Lower(files[j].value.path.value)
  }

  /** Their bytes together. */
  ghost function Sizes(files: seq<Option<SourceFile>>, n: nat, o: Options): nat
    requires n <= |files| && AreFiles(files, n, o)
  {
    if n == 0 then 0 else Sizes(files, n - 1, o) + o.size(files[n - 1].value.content.value)
  }

  /** The total, as an `int` counts it, is within the limit after each of them. */
  ghost predicate FitTogether(files: seq<Option<SourceFile>>, n: nat, o: Options)
    requires n <= |files| && AreFiles(files, n, o)
  {
    forall m :: 0 < m <= n ==> Wrap32(Sizes(files, m, o)) <= o.projectMaxBytes
  }

  lemma Checks(f: Option<SourceFile>, o: Options)
    ensures FileChecker(o)(f).ok <==> IsFile(f, o)
    ensures IsFile(f, o) ==>
      FileChecker(o)(f).key == Lower(f.value.path.value) && FileChecker(o)(f).bytes == o.size(f.value.content.value)
  {
    PathIff(PathOf(f));
    assert FileChecker(o)(f) == Checked(FileOk(f, o), Lower(PathOf(f)), o.size(ContentOf(f)));
  }

  lemma {:induction false} SumIsSizes(files: seq<Option<SourceFile>>, n: nat, o: Options)
    requires n <= |files| && AreFiles(files, n, o)
    ensures Sum(files, n, FileChecker(o)) == Sizes(files, n, o) && Total(files, n, FileChecker(o)) == Wrap32(Sizes(files, n, o))
  {
    TotalIsWrapped(files, n, FileChecker(o));
    if n > 0 {
      SumIsSizes(files, n - 1, o);
      Checks(files[n - 1], o);
    }
  }

  lemma NewPath(files: seq<Option<SourceFile>>, n: nat, o: Options)
    requires n < |files| && AreFiles(files, n, o) && IsFile(files[n], o)
    ensures FileChecker(o)(files[n]).key !in Keys(files, n, FileChecker(o))
       <==> forall i :: 0 <= i < n ==> Lower(files[i].value.path.value) != Lower(files[n].value.path.value)
  {
    var check := FileChecker(o);
    Checks(files[n], o);
    KeyIn(files, n, check, check(files[n]).key);
    forall i | 0 <= i < n ensures check(files[i]).key == Lower(files[i].value.path.value) {
      Checks(files[i], o);
    }
  }

  /** One more file keeps the files in order exactly if it is in order and its path is new. */
  lemma OneMoreFile(files: seq<Option<SourceFile>>, n: nat, o: Options)
    requires n < |files|
    ensures AreFiles(files, n + 1, o)
       <==> && AreFiles(files, n, o) && FileChecker(o)(files[n]).ok
            && FileChecker(o)(files[n]).key !in Keys(files, n, FileChecker(o))
  {
    Checks(files[n], o);
    if AreFiles(files, n, o) && IsFile(files[n], o) {
      NewPath(files, n, o);
    }
  }

  lemma FitMore(files: seq<Option<SourceFile>>, n: nat, o: Options)
    requires n < |files| && AreFiles(files, n + 1, o)
    ensures FitTogether(files, n + 1, o) <==> FitTogether(files, n, o) && Wrap32(Sizes(files, n + 1, o)) <= o.projectMaxBytes
  {
  }

  ghost predicate FilesAccepted(files: seq<Option<SourceFile>>, n: nat, o: Options)
    requires n <= |files|
  {
    AreFiles(files, n, o) && FitTogether(files, n, o)
  }

  lemma OneMoreFits(files: seq<Option<SourceFile>>, n: nat, o: Options)
    requires n < |files|
    ensures FilesAccepted(files, n + 1, o)
       <==> && FilesAccepted(files, n, o) && FileChecker(o)(files[n]).ok
            && FileChecker(o)(files[n]).key !in Keys(files, n, FileChecker(o)) && Total(files, n + 1, FileChecker(o)) <= o.projectMaxBytes
  {
    OneMoreFile(files, n, o);
    if AreFiles(files, n + 1, o) {
      SumIsSizes(files, n + 1, o);
      FitMore(files, n, o);
    }
  }

  /** What grows file by file as the loop does is what the loop lets through. */
  lemma {:induction false} FilesPassBy(files: seq<Option<SourceFile>>, n: nat, check: FileCheck, max: int, good: nat -> bool)
    requires n <= |files| && good(0)
    requires forall m: nat :: m < n ==>
      (good(m + 1) <==> && good(m) && check(files[m]).ok && check(files[m]).key !in Keys(files, m, check)
                        && Total(files, m + 1, check) <= max)
    ensures FilesPass(files, n, check, max) <==> good(n)
  {
    if n > 0 {
      FilesPassBy(files, n - 1, check, max, good);
      assert good(n - 1 + 1) == good(n);
    }
  }

  /** Step by step. */
  lemma FilesGrow(files: seq<Option<SourceFile>>, n: nat, o: Options) returns (good: nat -> bool)
    requires n <= |files|
    ensures good(n) <==> FilesAccepted(files, n, o)
    ensures good(0)
    ensures forall m: nat :: m < n ==>
      (good(m + 1) <==> && good(m) && FileChecker(o)(files[m]).ok && FileChecker(o)(files[m]).key !in Keys(files, m, FileChecker(o))
                        && Total(files, m + 1, FileChecker(o)) <= o.projectMaxBytes)
  {
    good := (m: nat) => m <= |files| && FilesAccepted(files, m, o);
    forall m: nat | m < n
      ensures FilesAccepted(files, m + 1, o)
         <==> && FilesAccepted(files, m, o) && FileChecker(o)(files[m]).ok
              && FileChecker(o)(files[m]).key !in Keys(files, m, FileChecker(o)) && Total(files, m + 1, FileChecker(o)) <= o.projectMaxBytes {
      OneMoreFits(files, m, o);
    }
  }

  lemma FilesPassIff(files: seq<Option<SourceFile>>, n: nat, o: Options)
    requires n <= |files|
    ensures FilesPass(files, n, FileChecker(o), o.projectMaxBytes) <==> FilesAccepted(files, n, o)
  {
    var good := FilesGrow(files, n, o);
    FilesPassBy(files, n, FileChecker(o), o.projectMaxBytes, good);
  }

  /** A file is a folder on the way to a path. */
  ghost predicate IsFolderOf(file: string, path: string) {
    exists k :: 0 < k < |path| && path[k] == '/' && Lower(path[..k]) == Lower(file)
  }

  /** No file is a folder on the way to another. */
  ghost predicate NoFolders(files: seq<Option<SourceFile>>, o: Options)
    requires AreFiles(files, |files|, o)
  {
    forall i, j :: 0 <= i < |files| && 0 <= j < |files| ==> !IsFolderOf(files[i].value.path.value, files[j].value.path.value)
  }

  lemma InsideIff(files: seq<Option<SourceFile>>, path: string, o: Options)
    requires AreFiles(files, |files|, o)
    ensures InsideOneOf(path, Keys(files, |files|, FileChecker(o)))
       <==> exists i :: 0 <= i < |files| && IsFolderOf(files[i].value.path.value, path)
  {
    var check, paths := FileChecker(o), Keys(files, |files|, FileChecker(o));
    forall i | 0 <= i < |files| ensures check(files[i]).key == Lower(files[i].value.path.value) {
      Checks(files[i], o);
    }
    if InsideOneOf(path, paths) {
      var k :| 0 < k < |path| && path[k] == '/' && Lower(path[..k]) in paths;
      KeyIn(files, |files|, check, Lower(path[..k]));
      var i :| 0 <= i < |files| && check(files[i]).key == Lower(path[..k]);
      assert IsFolderOf(files[i].value.path.value, path);
    }
    if i :| 0 <= i < |files| && IsFolderOf(files[i].value.path.value, path) {
      var k :| 0 < k < |path| && path[k] == '/' && Lower(path[..k]) == Lower(files[i].value.path.value);
      KeyIn(files, |files|, check, Lower(path[..k]));
      assert check(files[i]).key == Lower(path[..k]);
    }
  }

  lemma NoFoldersIff(files: seq<Option<SourceFile>>, o: Options)
    requires AreFiles(files, |files|, o)
    ensures NoneInside(files, Keys(files, |files|, FileChecker(o))) <==> NoFolders(files, o)
  {
    forall j | 0 <= j < |files|
      ensures InsideOneOf(PathOf(files[j]), Keys(files, |files|, FileChecker(o)))
         <==> exists i :: 0 <= i < |files| && IsFolderOf(files[i].value.path.value, files[j].value.path.value) {
      assert IsFile(files[j], o);
      InsideIff(files, PathOf(files[j]), o);
    }
  }

  /** The first `n` packages are in order and in the offline set, and no two have one id without regard to case. */
  ghost predicate ArePackages(packages: seq<Option<PackageRef>>, n: nat, o: Options)
    requires n <= |packages|
  {
    && (forall i :: 0 <= i < n ==> IsPackage(packages[i]) && IsStored(packages[i].value, o))
    && forall i, j :: 0 <= i < j < n ==> Lower(packages[i].value.id.value) != Lower(packages[j].value.id.value)
  }

  predicate IsStored(p: PackageRef, o: Options)
    requires p.id.Some? && p.version.Some?
  {
    o.inStore(Lower(p.id.value), Lower(p.version.value))
  }

  /** Package `n` is in order, with a new id. */
  ghost predicate IsNewPackage(packages: seq<Option<PackageRef>>, n: nat, o: Options)
    requires n < |packages| && ArePackages(packages, n, o)
  {
    IsPackage(packages[n]) && forall i :: 0 <= i < n ==> Lower(packages[i].value.id.value) != Lower(packages[n].value.id.value)
  }

  lemma Knows(p: Option<PackageRef>, o: Options)
    ensures PackageChecker(o)(p).ok <==> IsPackage(p)
    ensures IsPackage(p) ==>
      PackageChecker(o)(p).key == Lower(p.value.id.value) && PackageChecker(o)(p).inStore == IsStored(p.value, o)
  {
    PackageIff(p);
  }

  lemma {:induction false} PackageIdIn(packages: seq<Option<PackageRef>>, n: nat, check: PackageCheck, key: string)
    requires n <= |packages|
    ensures key in Ids(packages, n, check) <==> exists i :: 0 <= i < n && check(packages[i]).key == key
  {
    if n > 0 {
      PackageIdIn(packages, n - 1, check, key);
    }
  }

  lemma NewIff(packages: seq<Option<PackageRef>>, n: nat, o: Options)
    requires n < |packages| && ArePackages(packages, n, o)
    ensures WellFormed(packages, n, PackageChecker(o)) <==> IsNewPackage(packages, n, o)
  {
    var check := PackageChecker(o);
    Knows(packages[n], o);
    PackageIdIn(packages, n, check, check(packages[n]).key);
    forall i | 0 <= i < n ensures check(packages[i]).key == Lower(packages[i].value.id.value) {
      Knows(packages[i], o);
    }
  }

  lemma OneMorePackage(packages: seq<Option<PackageRef>>, n: nat, o: Options)
    requires n < |packages|
    ensures ArePackages(packages, n + 1, o)
       <==> && ArePackages(packages, n, o) && WellFormed(packages, n, PackageChecker(o)) && PackageChecker(o)(packages[n]).inStore
  {
    Knows(packages[n], o);
    if ArePackages(packages, n, o) {
      NewIff(packages, n, o);
    }
  }

  lemma {:induction false} PackagesPassBy(packages: seq<Option<PackageRef>>, n: nat, check: PackageCheck, good: nat -> bool)
    requires n <= |packages| && good(0)
    requires forall m: nat :: m < n ==>
      (good(m + 1) <==> good(m) && WellFormed(packages, m, check) && check(packages[m]).inStore)
    ensures PackagesPass(packages, n, check) <==> good(n)
  {
    if n > 0 {
      PackagesPassBy(packages, n - 1, check, good);
      assert good(n - 1 + 1) == good(n);
    }
  }

  /** Step by step. */
  lemma PackagesGrow(packages: seq<Option<PackageRef>>, o: Options) returns (good: nat -> bool)
    ensures forall m: nat :: good(m) == (m <= |packages| && ArePackages(packages, m, o))
    ensures good(0)
    ensures forall m: nat :: m < |packages| ==>
      (good(m + 1) <==> good(m) && WellFormed(packages, m, PackageChecker(o)) && PackageChecker(o)(packages[m]).inStore)
  {
    good := (m: nat) => m <= |packages| && ArePackages(packages, m, o);
    forall m: nat | m < |packages|
      ensures ArePackages(packages, m + 1, o)
         <==> ArePackages(packages, m, o) && WellFormed(packages, m, PackageChecker(o)) && PackageChecker(o)(packages[m]).inStore {
      OneMorePackage(packages, m, o);
    }
  }

  lemma PackagesPassIff(packages: seq<Option<PackageRef>>, n: nat, o: Options)
    requires n <= |packages|
    ensures PackagesPass(packages, n, PackageChecker(o)) <==> ArePackages(packages, n, o)
  {
    var good := PackagesGrow(packages, o);
    PackagesPassBy(packages, n, PackageChecker(o), good);
  }

  ghost predicate HasUnknown(packages: seq<Option<PackageRef>>, o: Options) {
    exists n :: 0 <= n < |packages| && ArePackages(packages, n, o) && IsNewPackage(packages, n, o) && !IsStored(packages[n].value, o)
  }

  lemma UnknownIff(packages: seq<Option<PackageRef>>, o: Options)
    ensures StopsAtUnknown(packages, PackageChecker(o)) <==> HasUnknown(packages, o)
  {
    forall n | 0 <= n < |packages|
      ensures PackagesPass(packages, n, PackageChecker(o)) <==> ArePackages(packages, n, o)
      ensures ArePackages(packages, n, o) ==> (WellFormed(packages, n, PackageChecker(o)) <==> IsNewPackage(packages, n, o))
      ensures IsPackage(packages[n]) ==> PackageChecker(o)(packages[n]).inStore == IsStored(packages[n].value, o) {
      PackagesPassIff(packages, n, o);
      if ArePackages(packages, n, o) {
        NewIff(packages, n, o);
      }
      Knows(packages[n], o);
    }
  }

  /** Name, files and the number of packages are in order. */
  ghost predicate HasSources(r: CompileRequest, o: Options) {
    && r.assemblyName.Some? && r.files.Some? && r.packages.Some?
    && IsAssemblyName(r.assemblyName.value, o.isKeyword)
    && |r.files.value| <= o.maxFiles && FilesAccepted(r.files.value, |r.files.value|, o) && NoFolders(r.files.value, o)
    && |r.packages.value| <= o.maxPackages
  }

  ghost predicate IsAccepted(r: CompileRequest, o: Options) {
    HasSources(r, o) && ArePackages(r.packages.value, |r.packages.value|, o)
  }

  lemma SourcesIff(r: CompileRequest, o: Options)
    ensures SourcesPass(r, o) <==> HasSources(r, o)
  {
    if r.assemblyName.Some? && r.files.Some? && r.packages.Some? {
      NameIff(r.assemblyName.value, o.isKeyword);
      FilesPassIff(r.files.value, |r.files.value|, o);
      if FilesAccepted(r.files.value, |r.files.value|, o) {
        NoFoldersIff(r.files.value, o);
      }
    }
  }

  lemma AcceptableIff(r: CompileRequest, o: Options)
    ensures (Acceptable(r, o) <==> IsAccepted(r, o)) && (SourcesPass(r, o) <==> HasSources(r, o))
  {
    SourcesIff(r, o);
    if r.packages.Some? {
      PackagesPassIff(r.packages.value, |r.packages.value|, o);
    }
  }

  /** What an accepted request becomes: its own name, paths, contents, ids and versions. */
  ghost predicate IsValidated(v: ValidRequest, r: CompileRequest, o: Options)
    requires IsAccepted(r, o)
  {
    && v.assemblyName == r.assemblyName.value
    && |v.files| == |r.files.value| && |v.packages| == |r.packages.value|
    && (forall i :: 0 <= i < |v.files| ==>
          r.files.value[i] == Some(SourceFile(Some(v.files[i].path), Some(v.files[i].content))))
    && (forall i :: 0 <= i < |v.packages| ==>
          r.packages.value[i] == Some(PackageRef(Some(v.packages[i].id), Some(v.packages[i].version))))
    && v.sourceBytes == Wrap32(Sizes(r.files.value, |r.files.value|, o))
  }

  lemma Validated(v: ValidRequest, r: CompileRequest, o: Options)
    requires IsAccepted(r, o)
    requires v == ValidRequest(r.assemblyName.value, FilesOf(r.files.value), PackagesOf(r.packages.value),
                               Total(r.files.value, |r.files.value|, FileChecker(o)))
    ensures |PackagesOf(r.packages.value)| == |r.packages.value| && IsValidated(v, r, o)
  {
    SumIsSizes(r.files.value, |r.files.value|, o);
    forall i | 0 <= i < |r.files.value|
      ensures r.files.value[i] == Some(SourceFile(Some(v.files[i].path), Some(v.files[i].content))) {
      assert IsFile(r.files.value[i], o);
    }
    forall i | 0 <= i < |r.packages.value|
      ensures r.packages.value[i] == Some(PackageRef(Some(v.packages[i].id), Some(v.packages[i].version))) {
      PackageIff(r.packages.value[i]);
    }
  }
}
