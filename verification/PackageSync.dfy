/** Synchronising the offline package set into a volume: what is on the disk after every operation,
    wherever the run stops. */
module PackageSync {
  import opened Common
  import opened Characters
  import opened PackageList

  /** Names from the root of the volume. */
  type Path = seq<string>

  type Disk = map<Path, bytes>

  function FileName(p: Package): string {
    Lower(p.id) + "." + Lower(p.version) + ".nupkg"
  }

  function RelativePath(p: Package): Path {
    [Lower(p.id), Lower(p.version), FileName(p)]
  }

  /** The temporary files of the download start with a dot; no file of the set does. */
  predicate IsTemp(path: Path) {
    path != [] && path[|path| - 1] != "" && path[|path| - 1][0] == '.'
  }

  /** The temporary file that `mkstemp` makes beside a path. */
  function TempBeside(path: Path, random: string): Path
    requires path != []
  {
    path[..|path| - 1] + ["." + path[|path| - 1] + "." + random + ".part"]
  }

  /** The disk without temporary files. */
  ghost function Finals(disk: Disk): Disk {
    map path | path in disk && !IsTemp(path) :: disk[path]
  }

  /** The environment: which operation fails, what random names come, what the server answers to a download. */
  datatype World = World(fails: nat -> bool, random: nat -> string, answer: (Package, nat) -> Option<bytes>)

  /** A volume, with the errors of the file system so far, and with all states that its disk has been in:
      after any of them the machine may stop. */
  class Volume {
    var disk: Disk
    var operations: nat
    var troubles: nat
    var downloads: nat
    ghost var history: seq<Disk>
    const world: World

    constructor (world: World, disk: Disk)
      ensures this.world == world && this.disk == disk && history == [disk] && operations == 0 && troubles == 0 && downloads == 0
    {
      this.world := world;
      this.disk := disk;
      operations, troubles, downloads, history := 0, 0, 0, [disk];
    }

    ghost predicate Valid()
      reads this
    {
      history != [] && history[|history| - 1] == disk
    }

    /** Whether the next operation succeeds. */
    method Attempt() returns (ok: bool)
      requires Valid()
      modifies this`operations, this`troubles
      ensures Valid() && ok == !world.fails(old(operations)) && operations == old(operations) + 1
      ensures troubles == old(troubles) + if ok then 0 else 1
    {
      ok := !world.fails(operations);
      operations := operations + 1;
      if !ok {
        troubles := troubles + 1;
      }
    }

    /** `mkstemp` finds no free name. */
    method NoName()
      requires Valid()
      modifies this`troubles
      ensures Valid() && troubles == old(troubles) + 1
    {
      troubles := troubles + 1;
    }

    method Put(path: Path, data: bytes)
      requires Valid()
      modifies this`disk, this`history
      ensures Valid() && disk == old(disk)[path := data] && history == old(history) + [disk]
    {
      disk := disk[path := data];
      history := history + [disk];
    }

    method Unlink(path: Path)
      requires Valid()
      modifies this`disk, this`history
      ensures Valid() && disk == old(disk) - {path} && history == old(history) + [disk]
    {
      disk := disk - {path};
      history := history + [disk];
    }

    method Rename(from: Path, to: Path)
      requires Valid() && from in disk && from != to
      modifies this`disk, this`history
      ensures Valid() && disk == old(disk)[to := old(disk)[from]] - {from} && history == old(history) + [disk]
    {
      disk := disk[to := disk[from]] - {from};
      history := history + [disk];
    }
  }

  /** Every later state of the disk has these final files. */
  ghost predicate Since(history: seq<Disk>, n: nat, finals: Disk) {
    n <= |history| && forall k :: n <= k < |history| ==> Finals(history[k]) == finals
  }

  lemma TempIsTemp(path: Path, random: string)
    requires path != []
    ensures IsTemp(TempBeside(path, random))
  {
  }

  /** Changing a temporary file changes no final one. */
  lemma TempHidden(disk: Disk, temp: Path, data: bytes)
    requires IsTemp(temp)
    ensures Finals(disk[temp := data]) == Finals(disk) && Finals(disk - {temp}) == Finals(disk)
  {
  }

  lemma RenameShows(disk: Disk, temp: Path, path: Path)
    requires IsTemp(temp) && !IsTemp(path) && temp in disk
    ensures Finals(disk[path := disk[temp]] - {temp}) == Finals(disk)[path := disk[temp]]
  {
  }

  /** Fills a temporary file, byte by byte as far as anyone may see it. */
  method Fill(v: Volume, temp: Path, data: bytes) returns (ok: bool)
    requires v.Valid() && IsTemp(temp)
    modifies v`disk, v`history, v`operations, v`troubles
    ensures v.troubles >= old(v.troubles) && (!ok ==> v.troubles > old(v.troubles))
    ensures v.Valid() && Finals(v.disk) == old(Finals(v.disk))
    ensures |old(v.history)| <= |v.history| && v.history[..|old(v.history)|] == old(v.history)
    ensures Since(v.history, |old(v.history)|, old(Finals(v.disk)))
    ensures ok ==> temp in v.disk && v.disk[temp] == data
  {
    ghost var finals := Finals(v.disk);
    ghost var before := v.history;
    TempHidden(v.disk, temp, []);
    v.Put(temp, []);
    for written := 0 to |data|
      invariant v.troubles >= old(v.troubles)
      invariant v.Valid() && Finals(v.disk) == finals && temp in v.disk && v.disk[temp] == data[..written]
      invariant |before| < |v.history| && v.history[..|before|] == before && Since(v.history, |before|, finals)
    {
      ok := v.Attempt();
      if !ok {
        return;
      }
      TempHidden(v.disk, temp, data[..written + 1]);
      v.Put(temp, data[..written + 1]);
    }
    assert data[..|data|] == data;
    ok := true;
  }

  /** Writes a file through a temporary one beside it. At every moment the final files are the old ones,
      or the old ones with the new file complete; and without success they are the old ones. */
  method WriteAtomically(v: Volume, path: Path, data: bytes) returns (ok: bool)
    requires v.Valid() && path != [] && !IsTemp(path)
    modifies v`disk, v`history, v`operations, v`troubles
    ensures v.troubles >= old(v.troubles) && (!ok ==> v.troubles > old(v.troubles))
    ensures v.Valid() && Finals(v.disk) == if ok then old(Finals(v.disk))[path := data] else old(Finals(v.disk))
    ensures |old(v.history)| <= |v.history| && v.history[..|old(v.history)|] == old(v.history)
    ensures forall k :: |old(v.history)| <= k < |v.history| ==>
      Finals(v.history[k]) == old(Finals(v.disk)) || Finals(v.history[k]) == old(Finals(v.disk))[path := data]
    ensures !ok ==> Since(v.history, |old(v.history)|, old(Finals(v.disk)))
  {
    ghost var finals, before := Finals(v.disk), v.history;
    ok := v.Attempt();
    if !ok {
      return;
    }
    var temp := TempBeside(path, v.world.random(v.operations));
    TempIsTemp(path, v.world.random(v.operations));
    ok := v.Attempt();
    if ok && temp in v.disk {
      v.NoName();
      ok := false;
    }
    if !ok {
      return;
    }
    ok := Fill(v, temp, data);
    if ok {
      ok := v.Attempt();
    }
    if ok {
      ok := v.Attempt();
    }
    if ok {
      RenameShows(v.disk, temp, path);
      v.Rename(temp, path);
    } else {
      var removed := v.Attempt();
      if removed {
        TempHidden(v.disk, temp, []);
        v.Unlink(temp);
      }
    }
  }

  // ----- synchronising -----

  predicate Matches(data: bytes, p: Package, codec: Codec) {
    codec.encode(codec.sha512(data)) == p.sha512
  }

  /** The file of a package is there, with the digest of the list. */
  predicate InPlace(disk: Disk, p: Package, codec: Codec) {
    RelativePath(p) in disk && Matches(disk[RelativePath(p)], p, codec)
  }

  lemma PathIsFinal(p: Package)
    requires MatchesId(p.id)
    ensures !IsTemp(RelativePath(p))
  {
    assert FileName(p)[0] == LowerChar(p.id[0]);
  }

  /** Packages with different ids, whatever their case, have different files. */
  lemma PathsDiffer(p: Package, q: Package)
    requires Lower(p.id) != Lower(q.id)
    ensures RelativePath(p) != RelativePath(q)
  {
    assert RelativePath(p)[0] == Lower(p.id) && RelativePath(q)[0] == Lower(q.id);
  }

  /** No name in the path of a package that the parser accepts has a line feed. */
  lemma PathHasNoLineFeed(p: Package, k: nat)
    requires MatchesId(p.id) && MatchesVersion(p.version) && k < |RelativePath(p)|
    ensures '\n' !in RelativePath(p)[k]
  {
    LowerHasNoLineFeed(p.id);
    LowerHasNoLineFeed(p.version);
  }

  lemma LowerHasNoLineFeed(s: string)
    requires forall k :: 0 <= k < |s| ==> s[k] != '\n'
    ensures '\n' !in Lower(s)
  {
  }

  /** The old final files, or these with the verified file of one package. */
  ghost predicate AtMostPlaced(finals: Disk, base: Disk, p: Package, codec: Codec) {
    finals == base || (InPlace(finals, p, codec) && finals == base[RelativePath(p) := finals[RelativePath(p)]])
  }

  /** What becomes of a package; `Broken` is an error of the file system, which ends the run. */
  datatype Outcome = Present | Downloaded | Failed | Broken

  method SyncPackage(v: Volume, p: Package, codec: Codec) returns (outcome: Outcome)
    requires v.Valid() && MatchesId(p.id)
    modifies v
    ensures v.Valid() && Extends(v.history, old(v.history)) && v.downloads >= old(v.downloads)
    ensures forall k :: |old(v.history)| <= k < |v.history| ==> AtMostPlaced(Finals(v.history[k]), old(Finals(v.disk)), p, codec)
    ensures AtMostPlaced(Finals(v.disk), old(Finals(v.disk)), p, codec)
    ensures outcome == Present || outcome == Downloaded ==> InPlace(Finals(v.disk), p, codec)
    ensures outcome == Failed || outcome == Broken ==> Finals(v.disk) == old(Finals(v.disk))
    ensures outcome == Failed ==> !InPlace(Finals(v.disk), p, codec)
    ensures outcome == Failed || outcome == Downloaded ==> v.downloads == old(v.downloads) + 1
    ensures var answer := v.world.answer(p, old(v.downloads));
            && (outcome == Failed ==> answer == None || !Matches(answer.value, p, codec))
            && (outcome == Downloaded ==> answer == Some(Finals(v.disk)[RelativePath(p)]))
    ensures v.troubles >= old(v.troubles) && (outcome == Broken ==> v.troubles > old(v.troubles))
    ensures InPlace(old(Finals(v.disk)), p, codec) ==>
      (outcome == Present || outcome == Broken) && v.downloads == old(v.downloads) && v.history == old(v.history)
  {
    PathIsFinal(p);
    var path := RelativePath(p);
    if path in v.disk {
      var read := v.Attempt();
      if !read {
        return Broken;
      }
      if Matches(v.disk[path], p, codec) {
        return Present;
      }
    }
    var answer := v.world.answer(p, v.downloads);
    v.downloads := v.downloads + 1;
    if answer == None || !Matches(answer.value, p, codec) {
      return Failed;
    }
    var written := WriteAtomically(v, path, answer.value);
    outcome := if written then Downloaded else Broken;
  }

  /** Every final file is the old one or the verified file of a package of the list, and none is lost. */
  ghost predicate Safe(finals: Disk, base: Disk, packages: seq<Package>, codec: Codec) {
    && (forall path :: path in base ==> path in finals)
    && forall path :: path in finals ==>
         (path in base && finals[path] == base[path])
         || exists i :: 0 <= i < |packages| && path == RelativePath(packages[i]) && Matches(finals[path], packages[i], codec)
  }

  lemma PlacingIsSafe(next: Disk, finals: Disk, base: Disk, packages: seq<Package>, n: nat, codec: Codec)
    requires n < |packages| && Safe(finals, base, packages, codec) && AtMostPlaced(next, finals, packages[n], codec)
    ensures Safe(next, base, packages, codec)
  {
    forall path | path in next
      ensures (path in base && next[path] == base[path])
        || exists i :: 0 <= i < |packages| && path == RelativePath(packages[i]) && Matches(next[path], packages[i], codec) {
      if path != RelativePath(packages[n]) || next == finals {
        assert path in finals && next[path] == finals[path];
      }
    }
  }

  lemma PlacingKeepsOthers(next: Disk, finals: Disk, p: Package, q: Package, codec: Codec)
    requires AtMostPlaced(next, finals, q, codec) && Lower(p.id) != Lower(q.id)
    ensures InPlace(next, p, codec) <==> InPlace(finals, p, codec)
  {
    PathsDiffer(p, q);
  }

  ghost predicate AllInPlace(disk: Disk, packages: seq<Package>, n: nat, codec: Codec)
    requires n <= |packages|
  {
    forall i :: 0 <= i < n ==> InPlace(disk, packages[i], codec)
  }

  lemma PlacingAll(next: Disk, finals: Disk, packages: seq<Package>, n: nat, codec: Codec)
    requires n < |packages| && DistinctIds(packages) && AtMostPlaced(next, finals, packages[n], codec)
    ensures AllInPlace(next, packages, n + 1, codec) <==> AllInPlace(finals, packages, n, codec) && InPlace(next, packages[n], codec)
  {
    forall i | 0 <= i < n ensures InPlace(next, packages[i], codec) <==> InPlace(finals, packages[i], codec) {
      PlacingKeepsOthers(next, finals, packages[i], packages[n], codec);
    }
  }

  /** All states of the disk from `n` on are safe. */
  ghost predicate AllSafe(history: seq<Disk>, n: nat, base: Disk, packages: seq<Package>, codec: Codec) {
    n <= |history| && forall k :: n <= k < |history| ==> Safe(Finals(history[k]), base, packages, codec)
  }

  ghost predicate Extends(history: seq<Disk>, before: seq<Disk>) {
    |before| <= |history| && history[..|before|] == before
  }

  lemma StillSafe(history: seq<Disk>, before: seq<Disk>, n: nat, finals: Disk, base: Disk, packages: seq<Package>,
                                     m: nat, codec: Codec)
    requires Extends(history, before) && AllSafe(before, n, base, packages, codec)
    requires m < |packages| && Safe(finals, base, packages, codec)
    requires forall k :: |before| <= k < |history| ==> AtMostPlaced(Finals(history[k]), finals, packages[m], codec)
    ensures AllSafe(history, n, base, packages, codec)
  {
    forall k | n <= k < |history| ensures Safe(Finals(history[k]), base, packages, codec) {
      if k < |before| {
        assert history[..|before|][k] == before[k];
      } else {
        PlacingIsSafe(Finals(history[k]), finals, base, packages, m, codec);
      }
    }
  }

  /** Synchronises the set; no value if an error of the file system ends the run. */
  method SyncPackages(v: Volume, packages: seq<Package>, codec: Codec) returns (done: Option<bool>)
    requires v.Valid() && DistinctIds(packages) && forall i :: 0 <= i < |packages| ==> MatchesId(packages[i].id)
    modifies v
    ensures v.Valid() && Extends(v.history, old(v.history)) && v.downloads >= old(v.downloads)
    ensures AllSafe(v.history, |old(v.history)|, old(Finals(v.disk)), packages, codec)
    ensures Safe(Finals(v.disk), old(Finals(v.disk)), packages, codec)
    ensures v.troubles >= old(v.troubles) && (done == None ==> v.troubles > old(v.troubles))
    ensures done.Some? ==> (done.value <==> AllInPlace(Finals(v.disk), packages, |packages|, codec))
    ensures AllInPlace(old(Finals(v.disk)), packages, |packages|, codec) ==>
      done != Some(false) && v.downloads == old(v.downloads) && v.history == old(v.history)
  {
    ghost var base, before := Finals(v.disk), v.history;
    var ok := true;
    for n := 0 to |packages|
      invariant v.Valid() && Extends(v.history, before) && v.downloads >= old(v.downloads) && v.troubles >= old(v.troubles)
      invariant AllSafe(v.history, |before|, base, packages, codec) && Safe(Finals(v.disk), base, packages, codec)
      invariant ok <==> AllInPlace(Finals(v.disk), packages, n, codec)
      invariant AllInPlace(base, packages, |packages|, codec) ==> ok && v.downloads == old(v.downloads) && v.history == before
    {
      ghost var finals, so_far := Finals(v.disk), v.history;
      var outcome := SyncPackage(v, packages[n], codec);
      StillSafe(v.history, so_far, |before|, finals, base, packages, n, codec);
      PlacingIsSafe(Finals(v.disk), finals, base, packages, n, codec);
      if outcome == Broken {
        return None;
      }
      PlacingAll(Finals(v.disk), finals, packages, n, codec);
      ok := ok && outcome != Failed;
    }
    done := Some(ok);
  }

  /** A package whose digest is not in the form in which digests are printed is accepted by the parser,
      but no file ever is in place for it. */
  lemma NeverInPlace(disk: Disk, p: Package, codec: Codec)
    requires Faithful(codec) && WellFormed(p, codec) && codec.encode(codec.decode(p.sha512).value) != p.sha512
    ensures !InPlace(disk, p, codec)
  {
    if InPlace(disk, p, codec) {
      MatchIffCanonical(p.sha512, disk[RelativePath(p)], codec);
    }
  }

  /** A second run after a successful one downloads nothing and changes nothing. */
  method SyncTwice(v: Volume, packages: seq<Package>, codec: Codec) returns (first: Option<bool>, second: Option<bool>, again: nat)
    requires v.Valid() && DistinctIds(packages) && forall i :: 0 <= i < |packages| ==> MatchesId(packages[i].id)
    modifies v
    ensures first == Some(true) ==> again == 0 && second != Some(false)
  {
    first := SyncPackages(v, packages, codec);
    var downloads := v.downloads;
    second := SyncPackages(v, packages, codec);
    again := v.downloads - downloads;
  }
}
