/** The SDK of the compile sandbox: indexed once, checked against the index at every start, and consulted
    when the libraries of packages are resolved. */
module Sdk {
  import opened Common

  datatype Identity = Identity(name: string, version: string, fileVersion: Option<string>, informational: Option<string>)

  /** What other code decides: names without regard to case, assembly metadata, hashes, and the assemblies of .NET. */
  datatype World = World(fold: string -> string, identify: bytes -> Option<Identity>, sha256: bytes -> string,
                         isFramework: string -> bool)

  datatype Kind = Cogis | Server | Framework

  datatype SdkFile = SdkFile(fileName: string, kind: Kind, assemblyVersion: string, fileVersion: Option<string>, sha256: string)

  /** A manifest as it may be read: lists may be missing. */
  datatype Manifest = Manifest(format: int, sdkVersion: string, files: Option<seq<SdkFile>>, plugins: Option<seq<string>>)

  const FORMAT := 1

  const SERVER_DLL := "eLiteGIS.Server.dll"

  const MAP_DLL := "Atemiko.eLiteMap.dll"

  /** Files by name, and their names in order. */
  datatype Folder = Folder(names: seq<string>, files: map<string, bytes>)

  /** A file name and nothing more. */
  predicate IsPlain(name: string) {
    '/' !in name && name != "." && name != ".."
  }

  ghost predicate Valid(f: Folder) {
    forall i :: 0 <= i < |f.names| ==> f.names[i] in f.files && IsPlain(f.names[i])
  }

  predicate EndsWithDll(name: string, w: World) {
    |name| >= 4 && w.fold(name[|name| - 4..]) == w.fold(".dll")
  }

  predicate StartsWith(name: string, start: string, w: World) {
    |name| >= |start| && w.fold(name[..|start|]) == w.fold(start)
  }

  predicate IsRequired(name: string, w: World) {
    w.fold(name) == w.fold(SERVER_DLL) || w.fold(name) == w.fold(MAP_DLL)
  }

  function KindOf(name: string, i: Identity, w: World): Kind {
    if StartsWith(name, "eLiteGIS.", w) || StartsWith(name, "Atemiko.", w) then Cogis
    else if w.isFramework(i.name) then Framework
    else Server
  }

  /** What the index makes of a file: nothing for one that is no library, or that is no assembly. */
  datatype Indexed = Skipped | Bad | File(file: SdkFile, version: string)

  function IndexFile(name: string, image: bytes, w: World): Indexed {
    if !EndsWithDll(name, w) then Skipped
    else match w.identify(image)
      case None => if IsRequired(name, w) then Bad else Skipped
      case Some(i) =>
        File(SdkFile(name, KindOf(name, i, w), i.version, i.fileVersion, w.sha256(image)),
             match i.fileVersion case Some(v) => v case None => (match i.informational case Some(v) => v case None => i.version))
  }

  type Indexer = (string, bytes) -> Indexed

  function IndexerOf(w: World): Indexer {
    (name, image) => IndexFile(name, image, w)
  }

  /** The entries of the first `n` files, unless a required one is no assembly. */
  ghost function IndexFiles(f: Folder, n: nat, index: Indexer): Option<seq<SdkFile>>
    requires n <= |f.names| && Valid(f)
  {
    if n == 0 then Some([])
    else match IndexFiles(f, n - 1, index)
      case None => None
      case Some(files) =>
        match index(f.names[n - 1], f.files[f.names[n - 1]])
        case Skipped => Some(files)
        case Bad => None
        case File(file, _) => Some(files + [file])
  }

  /** The version that the last file by the name of the server library has among the first `n`. */
  ghost function VersionAmong(f: Folder, n: nat, index: Indexer, isServer: string -> bool): Option<string>
    requires n <= |f.names| && Valid(f)
  {
    if n == 0 then None
    else
      var name := f.names[n - 1];
      match index(name, f.files[name])
      case File(_, version) => if isServer(name) then Some(version) else VersionAmong(f, n - 1, index, isServer)
      case _ => VersionAmong(f, n - 1, index, isServer)
  }

  lemma {:induction false} NoneStays(f: Folder, k: nat, n: nat, index: Indexer)
    requires k <= n <= |f.names| && Valid(f) && IndexFiles(f, k, index) == None
    ensures IndexFiles(f, n, index) == None
    decreases n
  {
    if k < n {
      NoneStays(f, k, n - 1, index);
    }
  }

  method IndexLibraries(f: Folder, index: Indexer, isServer: string -> bool)
    returns (files: Option<seq<SdkFile>>, version: Option<string>)
    requires Valid(f)
    ensures files == IndexFiles(f, |f.names|, index)
    ensures files.Some? ==> version == VersionAmong(f, |f.names|, index, isServer)
  {
    files, version := Some([]), None;
    for n := 0 to |f.names|
      invariant files.Some? && files == IndexFiles(f, n, index) && version == VersionAmong(f, n, index, isServer)
    {
      var name := f.names[n];
      match index(name, f.files[name]) {
        case Skipped => {}
        case Bad =>
          NoneStays(f, n + 1, |f.names|, index);
          return None, None;
        case File(file, v) =>
          files := Some(files.value + [file]);
          if isServer(name) {
            version := Some(v);
          }
      }
    }
  }

  predicate HasName(names: seq<string>, n: nat, name: string, w: World)
    requires n <= |names|
  {
    n > 0 && (w.fold(names[n - 1]) == w.fold(name) || HasName(names, n - 1, name, w))
  }

  function IsServer(w: World): string -> bool {
    name => w.fold(name) == w.fold(SERVER_DLL)
  }

  /** The names of `plugins.txt`: trimmed lines with the extension, each name once. */
  function ReadPlugins(lines: seq<string>, n: nat, w: World): seq<string>
    requires n <= |lines|
  {
    if n == 0 then []
    else
      var names := ReadPlugins(lines, n - 1, w);
      if EndsWithDll(lines[n - 1], w) && !HasName(names, |names|, lines[n - 1], w) then names + [lines[n - 1]] else names
  }

  lemma {:induction false} HasNameIff(names: seq<string>, n: nat, name: string, w: World)
    requires n <= |names|
    ensures HasName(names, n, name, w) <==> exists i :: 0 <= i < n && w.fold(names[i]) == w.fold(name)
  {
    if n > 0 {
      HasNameIff(names, n - 1, name, w);
    }
  }

  /** Every library line is kept once, whatever its case. */
  lemma {:induction false} PluginsAreDistinct(lines: seq<string>, n: nat, w: World)
    requires n <= |lines|
    ensures var names := ReadPlugins(lines, n, w);
            && (forall i, j :: 0 <= i < j < |names| ==> w.fold(names[i]) != w.fold(names[j]))
            && (forall i :: 0 <= i < n && EndsWithDll(lines[i], w) ==> exists j :: 0 <= j < |names| && w.fold(names[j]) == w.fold(lines[i]))
            && (forall j :: 0 <= j < |names| ==> exists i :: 0 <= i < n && names[j] == lines[i])
  {
    if n > 0 {
      PluginsAreDistinct(lines, n - 1, w);
      var names, more := ReadPlugins(lines, n - 1, w), ReadPlugins(lines, n, w);
      HasNameIff(names, |names|, lines[n - 1], w);
      forall i | 0 <= i < n && EndsWithDll(lines[i], w) ensures exists j :: 0 <= j < |more| && w.fold(more[j]) == w.fold(lines[i]) {
        if i < n - 1 || HasName(names, |names|, lines[n - 1], w) {
          var j :| 0 <= j < |names| && w.fold(names[j]) == w.fold(lines[i]);
          assert w.fold(more[j]) == w.fold(lines[i]);
        } else {
          assert more[|names|] == lines[i];
        }
      }
    }
  }

  /** The lines that are the first with the extension and their name, whatever its case, in order. */
  ghost function FirstLines(lines: seq<string>, n: nat, w: World): (at: seq<nat>)
    requires n <= |lines|
    ensures forall i :: i in at <==> 0 <= i < n && IsFirstLine(lines, i, w)
  {
    if n == 0 then [] else FirstLines(lines, n - 1, w) + if IsFirstLine(lines, n - 1, w) then [n - 1] else []
  }

  ghost predicate IsFirstLine(lines: seq<string>, i: nat, w: World)
    requires i < |lines|
  {
    EndsWithDll(lines[i], w) && forall j :: 0 <= j < i && EndsWithDll(lines[j], w) ==> w.fold(lines[j]) != w.fold(lines[i])
  }

  ghost predicate AreLines(names: seq<string>, lines: seq<string>, at: seq<nat>) {
    |names| == |at| && forall k :: 0 <= k < |at| ==> at[k] < |lines| && names[k] == lines[at[k]]
  }

  ghost predicate ArePlugins(names: seq<string>, lines: seq<string>, w: World) {
    AreLines(names, lines, FirstLines(lines, |lines|, w))
  }

  lemma {:induction false} PluginsAreFirsts(lines: seq<string>, n: nat, w: World)
    requires n <= |lines|
    ensures AreLines(ReadPlugins(lines, n, w), lines, FirstLines(lines, n, w))
  {
    if n > 0 {
      PluginsAreFirsts(lines, n - 1, w);
      PluginIsNew(lines, n - 1, w);
      OneMoreLine(ReadPlugins(lines, n - 1, w), lines, FirstLines(lines, n - 1, w), n - 1);
    }
  }

  lemma OneMoreLine(names: seq<string>, lines: seq<string>, at: seq<nat>, n: nat)
    requires n < |lines| && AreLines(names, lines, at)
    ensures AreLines(names + [lines[n]], lines, at + [n])
  {
  }

  lemma PluginIsNew(lines: seq<string>, n: nat, w: World)
    requires n < |lines|
    ensures var names := ReadPlugins(lines, n, w);
            EndsWithDll(lines[n], w) ==> (HasName(names, |names|, lines[n], w) <==> !IsFirstLine(lines, n, w))
  {
    var names := ReadPlugins(lines, n, w);
    PluginsAreDistinct(lines, n, w);
    HasNameIff(names, |names|, lines[n], w);
    if HasName(names, |names|, lines[n], w) && EndsWithDll(lines[n], w) {
      var j :| 0 <= j < |names| && w.fold(names[j]) == w.fold(lines[n]);
      PluginsEnd(lines, n, w);
      var i :| 0 <= i < n && names[j] == lines[i];
      assert EndsWithDll(lines[i], w);
    }
  }

  lemma {:induction false} PluginsEnd(lines: seq<string>, n: nat, w: World)
    requires n <= |lines|
    ensures forall j :: 0 <= j < |ReadPlugins(lines, n, w)| ==> EndsWithDll(ReadPlugins(lines, n, w)[j], w)
  {
    if n > 0 {
      PluginsEnd(lines, n - 1, w);
    }
  }

  /** Builds the index of a folder; there is none if a required file is missing or is no assembly. */
  method Index(f: Folder, lines: Option<seq<string>>, w: World) returns (m: Option<Manifest>)
    requires Valid(f)
    requires forall name :: w.fold(name) == w.fold(SERVER_DLL) ==> EndsWithDll(name, w)
    ensures m.Some? <==> lines.Some? && HasName(f.names, |f.names|, SERVER_DLL, w) && HasName(f.names, |f.names|, MAP_DLL, w)
                         && IndexFiles(f, |f.names|, IndexerOf(w)).Some?
    ensures m.Some? <==> CanIndex(f, lines, w)
    ensures m.Some? ==>
      && m.value.format == 1 && IsSdkVersion(m.value.sdkVersion, f, w)
      && m.value.files.Some? && AreEntries(m.value.files.value, Libraries(f, |f.names|, w), f, w)
      && m.value.plugins.Some? && ArePlugins(m.value.plugins.value, lines.value, w)
    ensures m.Some? ==>
      && m.value.format == FORMAT && m.value.files == IndexFiles(f, |f.names|, IndexerOf(w))
      && m.value.plugins == Some(ReadPlugins(lines.value, |lines.value|, w))
      && VersionAmong(f, |f.names|, IndexerOf(w), IsServer(w)) == Some(m.value.sdkVersion)
  {
    CanIndexIff(f, lines, w);
    if lines == None || !HasName(f.names, |f.names|, SERVER_DLL, w) || !HasName(f.names, |f.names|, MAP_DLL, w) {
      return None;
    }
    var files, version := IndexLibraries(f, IndexerOf(w), IsServer(w));
    if files == None {
      return None;
    }
    VersionIsFound(f, |f.names|, w);
    VersionIsRelease(f, |f.names|, w);
    EntriesAreLibraries(f, |f.names|, w);
    PluginsAreFirsts(lines.value, |lines.value|, w);
    m := Some(Manifest(FORMAT, version.value, files, Some(ReadPlugins(lines.value, |lines.value|, w))));
  }

  lemma {:induction false} VersionIsFound(f: Folder, n: nat, w: World)
    requires n <= |f.names| && Valid(f) && HasName(f.names, n, SERVER_DLL, w) && IndexFiles(f, n, IndexerOf(w)).Some?
    requires forall name :: w.fold(name) == w.fold(SERVER_DLL) ==> EndsWithDll(name, w)
    ensures VersionAmong(f, n, IndexerOf(w), IsServer(w)).Some?
  {
    var name := f.names[n - 1];
    if IsServer(w)(name) {
      assert IndexerOf(w)(name, f.files[name]) == IndexFile(name, f.files[name], w);
    } else {
      VersionIsFound(f, n - 1, w);
    }
  }

  // ----- loading -----

  /** The loaded SDK: without a version, nothing is. Names are kept without regard to case. */
  datatype State = State(version: Option<string>, references: seq<(string, bytes)>, serverCopies: set<string>, onServer: set<string>)

  const MISSING := State(None, [], {}, {})

  datatype Reason = Loaded | NoManifest | BadManifest | FileMissing | HashMismatch

  /** What is in the place of the manifest. */
  datatype Stored = Absent | Unreadable | Null | Read(manifest: Manifest)

  predicate InServer(kind: Kind) { kind == Cogis || kind == Server }

  /** A file of the manifest that is in the folder with the bytes that were indexed. */
  predicate Unchanged(file: SdkFile, files: map<string, bytes>, sha256: bytes -> string) {
    IsPlain(file.fileName) && file.fileName in files && sha256(files[file.fileName]) == file.sha256
  }

  function Names(files: seq<SdkFile>, n: nat, fold: string -> string): set<string>
    requires n <= |files|
  {
    if n == 0 then {} else Names(files, n - 1, fold) + {fold(files[n - 1].fileName)}
  }

  function Copies(files: seq<SdkFile>, n: nat, fold: string -> string): set<string>
    requires n <= |files|
  {
    if n == 0 then {}
    else Copies(files, n - 1, fold) + if InServer(files[n - 1].kind) then {fold(files[n - 1].fileName)} else {}
  }

  function Folds(names: seq<string>, n: nat, fold: string -> string): set<string>
    requires n <= |names|
  {
    if n == 0 then {} else Folds(names, n - 1, fold) + {fold(names[n - 1])}
  }

  /** The references of the first `n` files, with the bytes that are on the disk. */
  function References(files: seq<SdkFile>, n: nat, disk: map<string, bytes>): seq<(string, bytes)>
    requires n <= |files|
  {
    if n == 0 then []
    else
      var name := files[n - 1].fileName;
      References(files, n - 1, disk) + if InServer(files[n - 1].kind) && name in disk then [(name, disk[name])] else []
  }

  /** Why the first `n` files do not load: the first trouble. */
  function Trouble(files: seq<SdkFile>, n: nat, disk: map<string, bytes>, sha256: bytes -> string): (r: Reason)
    requires n <= |files|
    ensures r == Loaded <==> forall i :: 0 <= i < n ==> Unchanged(files[i], disk, sha256)
  {
    if n == 0 then Loaded
    else
      var earlier, name := Trouble(files, n - 1, disk, sha256), files[n - 1].fileName;
      if earlier != Loaded then earlier
      else if !IsPlain(name) then BadManifest
      else if name !in disk then FileMissing
      else if sha256(disk[name]) != files[n - 1].sha256 then HashMismatch
      else Loaded
  }

  lemma {:induction false} TroubleStays(files: seq<SdkFile>, k: nat, n: nat, disk: map<string, bytes>, sha256: bytes -> string)
    requires k <= n <= |files| && Trouble(files, k, disk, sha256) != Loaded
    ensures Trouble(files, n, disk, sha256) == Trouble(files, k, disk, sha256)
    decreases n
  {
    if k < n {
      TroubleStays(files, k, n - 1, disk, sha256);
    }
  }

  /** What is wrong with the first file that is not as it was indexed. */
  ghost predicate IsTrouble(r: Reason, files: seq<SdkFile>, disk: map<string, bytes>, sha256: bytes -> string) {
    exists i :: 0 <= i < |files| && (forall j :: 0 <= j < i ==> Unchanged(files[j], disk, sha256)) && IsTroubleOf(r, files[i], disk, sha256)
  }

  predicate IsTroubleOf(r: Reason, file: SdkFile, disk: map<string, bytes>, sha256: bytes -> string) {
    match r
    case BadManifest => '/' in file.fileName || file.fileName == "." || file.fileName == ".."
    case FileMissing => IsPlain(file.fileName) && file.fileName !in disk
    case HashMismatch => IsPlain(file.fileName) && file.fileName in disk && sha256(disk[file.fileName]) != file.sha256
    case _ => false
  }

  lemma FirstTrouble(file: SdkFile, disk: map<string, bytes>, sha256: bytes -> string, r: Reason)
    requires !Unchanged(file, disk, sha256)
    requires r == if !IsPlain(file.fileName) then BadManifest else if file.fileName !in disk then FileMissing else HashMismatch
    ensures IsTroubleOf(r, file, disk, sha256)
  {
  }

  lemma TroubleAt(files: seq<SdkFile>, n: nat, disk: map<string, bytes>, sha256: bytes -> string)
    requires n < |files| && Trouble(files, n, disk, sha256) == Loaded && Trouble(files, n + 1, disk, sha256) != Loaded
    ensures IsTrouble(Trouble(files, n + 1, disk, sha256), files, disk, sha256)
  {
    FirstTrouble(files[n], disk, sha256, Trouble(files, n + 1, disk, sha256));
  }

  lemma {:induction false} TroubleStarts(files: seq<SdkFile>, n: nat, disk: map<string, bytes>, sha256: bytes -> string) returns (k: nat)
    requires n <= |files| && Trouble(files, n, disk, sha256) != Loaded
    ensures k < n && Trouble(files, k, disk, sha256) == Loaded && Trouble(files, k + 1, disk, sha256) == Trouble(files, n, disk, sha256)
  {
    k := n - 1;
    if Trouble(files, n - 1, disk, sha256) != Loaded {
      k := TroubleStarts(files, n - 1, disk, sha256);
      TroubleStays(files, n - 1, n, disk, sha256);
    }
  }

  lemma TroubleIs(files: seq<SdkFile>, disk: map<string, bytes>, sha256: bytes -> string)
    requires Trouble(files, |files|, disk, sha256) != Loaded
    ensures IsTrouble(Trouble(files, |files|, disk, sha256), files, disk, sha256)
  {
    var k := TroubleStarts(files, |files|, disk, sha256);
    TroubleAt(files, k, disk, sha256);
  }

  /** Files of the server's own folder: those of the product and of the server, not those of .NET. */
  ghost predicate IsCopy(files: seq<SdkFile>, i: nat)
    requires i < |files|
  {
    files[i].kind == Cogis || files[i].kind == Server
  }

  ghost function CopiedAt(files: seq<SdkFile>, n: nat): (at: seq<nat>)
    requires n <= |files|
    ensures forall i :: i in at <==> 0 <= i < n && IsCopy(files, i)
  {
    if n == 0 then [] else CopiedAt(files, n - 1) + if IsCopy(files, n - 1) then [n - 1] else []
  }

  /** One reference for each copy, in order, with its bytes on the disk. */
  ghost predicate AreReferences(references: seq<(string, bytes)>, files: seq<SdkFile>, at: seq<nat>, disk: map<string, bytes>) {
    |references| == |at|
    && forall k :: 0 <= k < |at| ==>
         at[k] < |files| && files[at[k]].fileName in disk && references[k] == (files[at[k]].fileName, disk[files[at[k]].fileName])
  }

  ghost predicate IsLoaded(state: State, m: Manifest, disk: map<string, bytes>, fold: string -> string)
    requires m.files.Some? && m.plugins.Some?
  {
    var files, plugins := m.files.value, m.plugins.value;
    && state.version == Some(m.sdkVersion)
    && (forall x :: x in state.serverCopies <==> exists i :: 0 <= i < |files| && IsCopy(files, i) && fold(files[i].fileName) == x)
    && (forall x :: x in state.onServer <==> || (exists i :: 0 <= i < |files| && fold(files[i].fileName) == x)
                                             || (exists i :: 0 <= i < |plugins| && fold(plugins[i]) == x))
    && AreReferences(state.references, files, CopiedAt(files, |files|), disk)
  }

  lemma {:induction false} CopiesAre(files: seq<SdkFile>, n: nat, fold: string -> string)
    requires n <= |files|
    ensures forall x :: x in Copies(files, n, fold) <==> exists i :: 0 <= i < n && IsCopy(files, i) && fold(files[i].fileName) == x
    ensures forall x :: x in Names(files, n, fold) <==> exists i :: 0 <= i < n && fold(files[i].fileName) == x
  {
    if n > 0 {
      CopiesAre(files, n - 1, fold);
      assert IsCopy(files, n - 1) <==> InServer(files[n - 1].kind);
    }
  }

  lemma {:induction false} FoldsAre(names: seq<string>, n: nat, fold: string -> string)
    requires n <= |names|
    ensures forall x :: x in Folds(names, n, fold) <==> exists i :: 0 <= i < n && fold(names[i]) == x
  {
    if n > 0 {
      FoldsAre(names, n - 1, fold);
    }
  }

  lemma OneMoreReference(references: seq<(string, bytes)>, files: seq<SdkFile>, at: seq<nat>, n: nat, disk: map<string, bytes>)
    requires n < |files| && files[n].fileName in disk && AreReferences(references, files, at, disk)
    ensures AreReferences(references + [(files[n].fileName, disk[files[n].fileName])], files, at + [n], disk)
  {
  }

  lemma ReferencesMore(files: seq<SdkFile>, n: nat, disk: map<string, bytes>)
    requires n < |files| && files[n].fileName in disk && AreReferences(References(files, n, disk), files, CopiedAt(files, n), disk)
    ensures AreReferences(References(files, n + 1, disk), files, CopiedAt(files, n + 1), disk)
  {
    if IsCopy(files, n) {
      OneMoreReference(References(files, n, disk), files, CopiedAt(files, n), n, disk);
    } else {
      assert References(files, n + 1, disk) == References(files, n, disk);
    }
  }

  lemma {:induction false} ReferencesAre(files: seq<SdkFile>, n: nat, disk: map<string, bytes>)
    requires n <= |files| && forall i :: 0 <= i < n ==> files[i].fileName in disk
    ensures AreReferences(References(files, n, disk), files, CopiedAt(files, n), disk)
  {
    if n > 0 {
      ReferencesAre(files, n - 1, disk);
      ReferencesMore(files, n - 1, disk);
    }
  }

  lemma LoadedIs(state: State, m: Manifest, disk: map<string, bytes>, fold: string -> string)
    requires m.files.Some? && m.plugins.Some?
    requires var (files, plugins) := (m.files.value, m.plugins.value);
             && (forall i :: 0 <= i < |files| ==> files[i].fileName in disk)
             && state == State(Some(m.sdkVersion), References(files, |files|, disk), Copies(files, |files|, fold),
                               Names(files, |files|, fold) + Folds(plugins, |plugins|, fold))
    ensures IsLoaded(state, m, disk, fold)
  {
    CopiesAre(m.files.value, |m.files.value|, fold);
    FoldsAre(m.plugins.value, |m.plugins.value|, fold);
    ReferencesAre(m.files.value, |m.files.value|, disk);
  }

  /** Checks the files one by one, up to the first trouble, and keeps the bytes that were hashed. */
  method CheckSdkFiles(files: seq<SdkFile>, disk: map<string, bytes>, fold: string -> string, sha256: bytes -> string)
    returns (reason: Reason, references: seq<(string, bytes)>, serverCopies: set<string>, onServer: set<string>)
    ensures reason == Trouble(files, |files|, disk, sha256)
    ensures reason == Loaded ==>
      && serverCopies == Copies(files, |files|, fold) && onServer == Names(files, |files|, fold)
      && references == References(files, |files|, disk)
  {
    reason, references, serverCopies, onServer := Loaded, [], {}, {};
    for i := 0 to |files|
      invariant reason == Loaded == Trouble(files, i, disk, sha256)
      invariant serverCopies == Copies(files, i, fold) && onServer == Names(files, i, fold)
      invariant references == References(files, i, disk)
    {
      var file := files[i];
      if Trouble(files, i + 1, disk, sha256) != Loaded {
        TroubleStays(files, i + 1, |files|, disk, sha256);
      }
      if !IsPlain(file.fileName) {
        return BadManifest, references, serverCopies, onServer;
      }
      if file.fileName !in disk {
        return FileMissing, references, serverCopies, onServer;
      }
      var image := disk[file.fileName];
      if sha256(image) != file.sha256 {
        return HashMismatch, references, serverCopies, onServer;
      }
      onServer := onServer + {fold(file.fileName)};
      if InServer(file.kind) {
        serverCopies := serverCopies + {fold(file.fileName)};
        references := references + [(file.fileName, image)];
      }
    }
  }

  /** Loads the SDK; any mismatch gives the state without one. Referenced are exactly the bytes that were hashed. */
  method Load(stored: Stored, disk: map<string, bytes>, fold: string -> string, sha256: bytes -> string)
    returns (state: State, reason: Reason)
    ensures reason == Loaded <==>
      && stored.Read? && stored.manifest.format == FORMAT && stored.manifest.files.Some? && stored.manifest.plugins.Some?
      && AllUnchanged(stored.manifest.files.value, disk, sha256)
    ensures reason != Loaded ==> state == MISSING
    ensures match stored
            case Absent => reason == NoManifest
            case Unreadable => reason == BadManifest
            case Null => reason == BadManifest
            case Read(m) =>
              reason == if m.format != FORMAT || m.files == None || m.plugins == None then BadManifest
                        else Trouble(m.files.value, |m.files.value|, disk, sha256)
    ensures reason == Loaded ==>
      var (files, plugins) := (stored.manifest.files.value, stored.manifest.plugins.value);
      && state.version == Some(stored.manifest.sdkVersion)
      && state.serverCopies == Copies(files, |files|, fold)
      && state.onServer == Names(files, |files|, fold) + Folds(plugins, |plugins|, fold)
      && state.references == References(files, |files|, disk)
    ensures reason == Loaded ==> IsLoaded(state, stored.manifest, disk, fold)
    ensures reason != Loaded && stored.Read? && stored.manifest.format == 1 && stored.manifest.files.Some? && stored.manifest.plugins.Some?
      ==> IsTrouble(reason, stored.manifest.files.value, disk, sha256)
  {
    match stored {
      case Absent => return MISSING, NoManifest;
      case Unreadable => return MISSING, BadManifest;
      case Null => return MISSING, BadManifest;
      case Read(manifest) =>
        if manifest.format != FORMAT || manifest.files == None || manifest.plugins == None {
          return MISSING, BadManifest;
        }
        var files := manifest.files.value;
        var references, serverCopies, onServer;
        reason, references, serverCopies, onServer := CheckSdkFiles(files, disk, fold, sha256);
        if reason != Loaded {
          TroubleIs(files, disk, sha256);
          return MISSING, reason;
        }
        onServer := onServer + Folds(manifest.plugins.value, |manifest.plugins.value|, fold);
        state := State(Some(manifest.sdkVersion), references, serverCopies, onServer);
        reason := Loaded;
        LoadedIs(state, manifest, disk, fold);
    }
  }

  /** An indexed library of a folder: a file with the extension that is an assembly. */
  ghost predicate IsLibrary(f: Folder, i: nat, w: World)
    requires i < |f.names| && Valid(f)
  {
    && |f.names[i]| >= 4 && w.fold(f.names[i][|f.names[i]| - 4..]) == w.fold(".dll")
    && w.identify(f.files[f.names[i]]).Some?
  }

  predicate AllUnchanged(files: seq<SdkFile>, disk: map<string, bytes>, sha256: bytes -> string) {
    forall i :: 0 <= i < |files| ==> Unchanged(files[i], disk, sha256)
  }

  /** The entry of a library: its name, and what is read from its bytes. */
  ghost predicate IsEntryOf(file: SdkFile, f: Folder, i: nat, w: World)
    requires i < |f.names| && Valid(f)
  {
    IsLibrary(f, i, w)
    && var image := f.files[f.names[i]];
    var identity := w.identify(image).value;
    && file.fileName == f.names[i] && file.sha256 == w.sha256(image)
    && file.assemblyVersion == identity.version && file.fileVersion == identity.fileVersion
    && (file.kind == Cogis <==> IsOfCogis(f.names[i], w))
    && (file.kind == Framework <==> !IsOfCogis(f.names[i], w) && w.isFramework(identity.name))
    && (file.kind == Server <==> !IsOfCogis(f.names[i], w) && !w.isFramework(identity.name))
  }

  /** The name starts with one of two words, whatever their case. */
  predicate IsOfCogis(name: string, w: World) {
    || (|name| >= 9 && w.fold(name[..9]) == w.fold("eLiteGIS."))
    || (|name| >= 8 && w.fold(name[..8]) == w.fold("Atemiko."))
  }

  /** The last file of the folder that has the name of the server library. */
  ghost predicate IsServerFile(f: Folder, k: nat, w: World) {
    && k < |f.names| && w.fold(f.names[k]) == w.fold("eLiteGIS.Server.dll")
    && forall i :: k < i < |f.names| ==> w.fold(f.names[i]) != w.fold("eLiteGIS.Server.dll")
  }

  /** The version of a release: that of the file, else the informational one, else that of the assembly. */
  predicate IsRelease(version: string, i: Identity) {
    match (i.fileVersion, i.informational)
    case (Some(v), _) => version == v
    case (None, Some(v)) => version == v
    case (None, None) => version == i.version
  }

  /** The version of the SDK is the release of its server library. */
  ghost predicate IsSdkVersion(version: string, f: Folder, w: World)
    requires Valid(f)
  {
    exists k: nat :: IsServerFile(f, k, w) && w.identify(f.files[f.names[k]]).Some?
                     && IsRelease(version, w.identify(f.files[f.names[k]]).value)
  }

  lemma {:induction false} VersionIsRelease(f: Folder, n: nat, w: World)
    requires n <= |f.names| && Valid(f) && VersionAmong(f, n, IndexerOf(w), IsServer(w)).Some?
    requires IndexFiles(f, n, IndexerOf(w)).Some?
    requires forall name :: w.fold(name) == w.fold(SERVER_DLL) ==> EndsWithDll(name, w)
    requires forall i :: n <= i < |f.names| ==> w.fold(f.names[i]) != w.fold("eLiteGIS.Server.dll")
    ensures IsSdkVersion(VersionAmong(f, n, IndexerOf(w), IsServer(w)).value, f, w)
  {
    var name := f.names[n - 1];
    assert IndexerOf(w)(name, f.files[name]) == IndexFile(name, f.files[name], w);
    if IsServer(w)(name) {
      assert IsServerFile(f, n - 1, w);
    } else {
      VersionIsRelease(f, n - 1, w);
    }
  }

  /** What the index needs: the list of plugins, both required files, and that these are assemblies. */
  ghost predicate CanIndex(f: Folder, lines: Option<seq<string>>, w: World)
    requires Valid(f)
  {
    && lines.Some?
    && (exists i :: 0 <= i < |f.names| && w.fold(f.names[i]) == w.fold("eLiteGIS.Server.dll"))
    && (exists i :: 0 <= i < |f.names| && w.fold(f.names[i]) == w.fold("Atemiko.eLiteMap.dll"))
    && forall i :: 0 <= i < |f.names| && EndsWithDll(f.names[i], w)
                   && (w.fold(f.names[i]) == w.fold("eLiteGIS.Server.dll") || w.fold(f.names[i]) == w.fold("Atemiko.eLiteMap.dll"))
                   ==> w.identify(f.files[f.names[i]]).Some?
  }

  lemma CanIndexIff(f: Folder, lines: Option<seq<string>>, w: World)
    requires Valid(f)
    ensures CanIndex(f, lines, w)
       <==> lines.Some? && HasName(f.names, |f.names|, SERVER_DLL, w) && HasName(f.names, |f.names|, MAP_DLL, w)
            && IndexFiles(f, |f.names|, IndexerOf(w)).Some?
  {
    HasNameIff(f.names, |f.names|, SERVER_DLL, w);
    HasNameIff(f.names, |f.names|, MAP_DLL, w);
    NoEntriesIff(f, |f.names|, w);
  }

  ghost predicate AreEntries(files: seq<SdkFile>, at: seq<nat>, f: Folder, w: World)
    requires Valid(f)
  {
    |files| == |at| && forall k :: 0 <= k < |at| ==> at[k] < |f.names| && IsEntryOf(files[k], f, at[k], w)
  }

  /** The libraries among the first `n` files, in order. */
  ghost function Libraries(f: Folder, n: nat, w: World): (at: seq<nat>)
    requires n <= |f.names| && Valid(f)
    ensures forall i :: i in at <==> 0 <= i < n && IsLibrary(f, i, w)
  {
    if n == 0 then [] else Libraries(f, n - 1, w) + if IsLibrary(f, n - 1, w) then [n - 1] else []
  }

  lemma OneMoreEntry(files: seq<SdkFile>, file: SdkFile, at: seq<nat>, f: Folder, n: nat, w: World)
    requires n < |f.names| && Valid(f) && AreEntries(files, at, f, w) && IsEntryOf(file, f, n, w)
    ensures AreEntries(files + [file], at + [n], f, w)
  {
  }

  lemma LastEntry(f: Folder, n: nat, w: World) returns (file: Option<SdkFile>)
    requires n < |f.names| && Valid(f) && IndexFiles(f, n + 1, IndexerOf(w)).Some?
    ensures IndexFiles(f, n, IndexerOf(w)).Some? && (file.Some? <==> IsLibrary(f, n, w))
    ensures var before := IndexFiles(f, n, IndexerOf(w)).value;
            IndexFiles(f, n + 1, IndexerOf(w)).value == if file.Some? then before + [file.value] else before
    ensures file.Some? ==> IsEntryOf(file.value, f, n, w)
  {
    var name := f.names[n];
    var indexed := IndexFile(name, f.files[name], w);
    assert IndexerOf(w)(name, f.files[name]) == indexed;
    file := if indexed.File? then Some(indexed.file) else None;
  }

  /** The manifest has one entry for each library, in the order of the folder, and no others. */
  lemma {:induction false} EntriesAreLibraries(f: Folder, n: nat, w: World)
    requires n <= |f.names| && Valid(f) && IndexFiles(f, n, IndexerOf(w)).Some?
    ensures AreEntries(IndexFiles(f, n, IndexerOf(w)).value, Libraries(f, n, w), f, w)
  {
    if n > 0 {
      var file := LastEntry(f, n - 1, w);
      EntriesAreLibraries(f, n - 1, w);
      if file.Some? {
        OneMoreEntry(IndexFiles(f, n - 1, IndexerOf(w)).value, file.value, Libraries(f, n - 1, w), f, n - 1, w);
      }
    }
  }

  /** There are no entries exactly if a required library is no assembly. */
  lemma {:induction false} NoEntriesIff(f: Folder, n: nat, w: World)
    requires n <= |f.names| && Valid(f)
    ensures IndexFiles(f, n, IndexerOf(w)) == None
       <==> exists i :: 0 <= i < n && EndsWithDll(f.names[i], w) && IsRequired(f.names[i], w) && !IsLibrary(f, i, w)
  {
    if n > 0 {
      NoEntriesIff(f, n - 1, w);
      var name := f.names[n - 1];
      assert IndexerOf(w)(name, f.files[name]) == IndexFile(name, f.files[name], w);
    }
  }

  /** All entries are unchanged on a disk exactly if it has all libraries of the folder with their bytes. */
  lemma {:induction false} IndexListsLibraries(f: Folder, n: nat, w: World, disk: map<string, bytes>)
    requires n <= |f.names| && Valid(f) && IndexFiles(f, n, IndexerOf(w)).Some?
    requires forall x, y :: w.sha256(x) == w.sha256(y) ==> x == y
    ensures AllUnchanged(IndexFiles(f, n, IndexerOf(w)).value, disk, w.sha256)
       <==> forall i :: 0 <= i < n && IsLibrary(f, i, w) ==> f.names[i] in disk && disk[f.names[i]] == f.files[f.names[i]]
  {
    if n > 0 {
      IndexListsLibraries(f, n - 1, w, disk);
      var name := f.names[n - 1];
      var indexed := IndexerOf(w)(name, f.files[name]);
      assert indexed == IndexFile(name, f.files[name], w);
      assert indexed.File? <==> IsLibrary(f, n - 1, w);
      if indexed.File? {
        var before, files := IndexFiles(f, n - 1, IndexerOf(w)).value, IndexFiles(f, n, IndexerOf(w)).value;
        assert files == before + [indexed.file];
        assert Unchanged(indexed.file, disk, w.sha256) <==> name in disk && disk[name] == f.files[name];
        assert forall i :: 0 <= i < |before| ==> files[i] == before[i];
        assert files[|before|] == indexed.file;
      }
    }
  }

  /** An SDK loads after indexing exactly if every library that was in the folder is still there with the
      same bytes, and then with the version of the server library that was indexed. */
  method IndexThenLoad(f: Folder, lines: seq<string>, later: map<string, bytes>, w: World) returns (state: State, reason: Reason)
    requires Valid(f)
    requires forall name :: w.fold(name) == w.fold(SERVER_DLL) ==> EndsWithDll(name, w)
    requires forall x, y :: w.sha256(x) == w.sha256(y) ==> x == y
    requires HasName(f.names, |f.names|, SERVER_DLL, w) && HasName(f.names, |f.names|, MAP_DLL, w)
    requires IndexFiles(f, |f.names|, IndexerOf(w)).Some?
    ensures reason == Loaded
       <==> forall i :: 0 <= i < |f.names| && IsLibrary(f, i, w) ==>
              f.names[i] in later && later[f.names[i]] == f.files[f.names[i]]
    ensures if reason == Loaded then state.version.Some? && IsSdkVersion(state.version.value, f, w) else state.version == None
    ensures state.version == if reason == Loaded then VersionAmong(f, |f.names|, IndexerOf(w), IsServer(w)) else None
  {
    var m := Index(f, Some(lines), w);
    state, reason := Load(Read(m.value), later, w.fold, w.sha256);
    IndexListsLibraries(f, |f.names|, w, later);
  }
}
