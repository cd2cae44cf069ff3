/** The offline package set between its two programs: what the download puts in place is what the validator of
    the sandbox looks for. */
module OfflineSet {
  import opened Common
  import opened Characters
  import opened PackageList
  import opened PackageLines
  import opened PackageSync
  import V = Validator

  /** The validator asks for this file of the folder of packages: `<id>/<version>/<id>.<version>.nupkg`. */
  function StoreOf(disk: Disk): (string, string) -> bool {
    (id, version) => [id, version, id + "." + version + ".nupkg"] in disk
  }

  /** The reference of a request to a package. */
  function Ref(id: string, version: string): V.PackageRef {
    V.PackageRef(Some(id), Some(version))
  }

  /** A package that is in place is known to the validator, however its id and version are written. */
  lemma InPlaceIsStored(disk: Disk, p: Package, codec: Codec, id: string, version: string, o: V.Options)
    requires InPlace(disk, p, codec) && o.inStore == StoreOf(disk)
    requires Lower(id) == Lower(p.id) && Lower(version) == Lower(p.version)
    ensures V.IsStored(Ref(id, version), o)
  {
    assert RelativePath(p) == [Lower(id), Lower(version), Lower(id) + "." + Lower(version) + ".nupkg"];
  }

  predicate HasDots(s: string) {
    exists k :: 0 < k < |s| && s[k - 1] == '.' && s[k] == '.'
  }

  /** A package that the list may hold is one that a request may name exactly if its id and version are not too
      long and have no two dots in a row: the list does not check that. */
  lemma ListedCanBeNamed(p: Package)
    requires MatchesId(p.id) && MatchesVersion(p.version)
    ensures V.IsPackage(Some(Ref(p.id, p.version)))
       <==> |p.id| <= 100 && |p.version| <= 64 && !HasDots(p.id) && !HasDots(p.version)
  {
    FormsAre(p.id);
    FormsAre(p.version);
    assert p.id[|p.id| - 1] != '\n' && p.version[|p.version| - 1] != '\n';
  }

  /** After a successful download every package of the list that a request may name is accepted by the validator. */
  lemma SyncedIsAccepted(disk: Disk, packages: seq<Package>, i: nat, codec: Codec, o: V.Options)
    requires i < |packages| && AllInPlace(disk, packages, |packages|, codec) && o.inStore == StoreOf(disk)
    requires WellFormed(packages[i], codec)
    requires |packages[i].id| <= 100 && |packages[i].version| <= 64 && !HasDots(packages[i].id) && !HasDots(packages[i].version)
    ensures V.ArePackages([Some(Ref(packages[i].id, packages[i].version))], 1, o)
  {
    ListedCanBeNamed(packages[i]);
    InPlaceIsStored(disk, packages[i], codec, packages[i].id, packages[i].version, o);
  }
}
