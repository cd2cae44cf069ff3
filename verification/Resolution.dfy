/** Where the libraries of packages go when a compilation resolves them: the server's own copies come first. */
module Resolution {
  import opened Common
  import opened Pieces
  import opened Sdk

  datatype Library = Library(fileName: string, image: bytes)

  /** What a compilation takes from the packages so far, and the names that it has seen. */
  datatype Resolved = Resolved(references: seq<Library>, bundle: seq<Library>, onServer: seq<string>, seen: set<string>)

  const NOTHING := Resolved([], [], [], {})

  function BundleNames(libraries: seq<Library>, n: nat, fold: string -> string): set<string>
    requires n <= |libraries|
  {
    if n == 0 then {} else BundleNames(libraries, n - 1, fold) + {fold(libraries[n - 1].fileName)}
  }

  /** Every distinct name is in exactly one of the bundle and the list of the server; nothing that the
      server has is bundled, and nothing that it replaces is referenced. */
  ghost predicate Parted(bundled: set<string>, listed: set<string>, referenced: set<string>, seen: set<string>, state: State) {
    && bundled + listed == seen && bundled !! listed
    && bundled !! state.onServer && bundled !! state.serverCopies && listed <= state.onServer + state.serverCopies
    && referenced == seen - state.serverCopies
  }

  ghost predicate Sorted(r: Resolved, state: State, fold: string -> string) {
    && Parted(BundleNames(r.bundle, |r.bundle|, fold), Folds(r.onServer, |r.onServer|, fold),
              BundleNames(r.references, |r.references|, fold), r.seen, state)
    && |r.bundle| + |r.onServer| == |r.seen|
  }

  /** The bundle and the references hold the first library of each of their names. */
  ghost predicate FirstsOf(taken: seq<Library>, libraries: seq<Library>, fold: string -> string) {
    forall k :: 0 <= k < |taken| ==> IsFirst(taken[k], libraries, |libraries|, fold)
  }

  predicate IsFirst(l: Library, libraries: seq<Library>, n: nat, fold: string -> string)
    requires n <= |libraries|
  {
    n > 0 && (IsFirst(l, libraries, n - 1, fold)
              || (l == libraries[n - 1] && fold(l.fileName) !in BundleNames(libraries, n - 1, fold)))
  }

  lemma {:induction false} FirstStays(l: Library, libraries: seq<Library>, more: Library, n: nat, fold: string -> string)
    requires n <= |libraries|
    ensures IsFirst(l, libraries + [more], n, fold) == IsFirst(l, libraries, n, fold)
    ensures BundleNames(libraries + [more], n, fold) == BundleNames(libraries, n, fold)
  {
    if n > 0 {
      FirstStays(l, libraries, more, n - 1, fold);
    }
  }

  lemma NamesMore(libraries: seq<Library>, more: Library, fold: string -> string)
    ensures BundleNames(libraries + [more], |libraries| + 1, fold) == BundleNames(libraries, |libraries|, fold) + {fold(more.fileName)}
  {
    FirstStays(more, libraries, more, |libraries|, fold);
  }

  lemma {:induction false} FoldsMore(names: seq<string>, more: string, n: nat, fold: string -> string)
    requires n <= |names|
    ensures Folds(names + [more], n, fold) == Folds(names, n, fold)
    ensures n == |names| ==> Folds(names + [more], n + 1, fold) == Folds(names, n, fold) + {fold(more)}
  {
    if n > 0 {
      FoldsMore(names, more, n - 1, fold);
    }
  }

  /** One library: skipped if its name was seen; else the server's copy, or it, is taken. */
  function Take(r: Resolved, l: Library, state: State, fold: string -> string): Resolved {
    var key := fold(l.fileName);
    if key in r.seen then r
    else if key in state.serverCopies then r.(onServer := r.onServer + [l.fileName], seen := r.seen + {key})
    else if key in state.onServer then
      r.(references := r.references + [l], onServer := r.onServer + [l.fileName], seen := r.seen + {key})
    else r.(references := r.references + [l], bundle := r.bundle + [l], seen := r.seen + {key})
  }

  lemma TakeKeepsSorted(r: Resolved, l: Library, state: State, fold: string -> string)
    requires Sorted(r, state, fold)
    ensures Sorted(Take(r, l, state, fold), state, fold)
  {
    NamesMore(r.references, l, fold);
    NamesMore(r.bundle, l, fold);
    FoldsMore(r.onServer, l.fileName, |r.onServer|, fold);
    var bundled, listed := BundleNames(r.bundle, |r.bundle|, fold), Folds(r.onServer, |r.onServer|, fold);
    if fold(l.fileName) !in r.seen {
      PartMore(bundled, listed, BundleNames(r.references, |r.references|, fold), r.seen, state, fold(l.fileName));
    }
  }

  lemma PartMore(bundled: set<string>, listed: set<string>, referenced: set<string>, seen: set<string>,
                                    state: State, key: string)
    requires Parted(bundled, listed, referenced, seen, state) && key !in seen
    ensures key in state.serverCopies ==> Parted(bundled, listed + {key}, referenced, seen + {key}, state)
    ensures key !in state.serverCopies && key in state.onServer
        ==> Parted(bundled, listed + {key}, referenced + {key}, seen + {key}, state)
    ensures key !in state.serverCopies && key !in state.onServer
        ==> Parted(bundled + {key}, listed, referenced + {key}, seen + {key}, state)
  {
  }

  lemma {:induction false} FirstsMore(taken: seq<Library>, libraries: seq<Library>, more: Library, fold: string -> string)
    requires FirstsOf(taken, libraries, fold)
    ensures FirstsOf(taken, libraries + [more], fold)
    ensures fold(more.fileName) !in BundleNames(libraries, |libraries|, fold) ==> FirstsOf(taken + [more], libraries + [more], fold)
  {
    forall k | 0 <= k < |taken| ensures IsFirst(taken[k], libraries + [more], |libraries| + 1, fold) {
      FirstStays(taken[k], libraries, more, |libraries|, fold);
    }
    FirstStays(more, libraries, more, |libraries|, fold);
  }

  /** What is true after every library. */
  ghost predicate Resolving(r: Resolved, libraries: seq<Library>, state: State, fold: string -> string) {
    && Sorted(r, state, fold) && r.seen == BundleNames(libraries, |libraries|, fold)
    && FirstsOf(r.bundle, libraries, fold) && FirstsOf(r.references, libraries, fold)
    && Selected(r, libraries, state, fold)
  }

  lemma TakeKeepsFirsts(r: Resolved, l: Library, libraries: seq<Library>, state: State, fold: string -> string)
    requires r.seen == BundleNames(libraries, |libraries|, fold)
    requires FirstsOf(r.bundle, libraries, fold) && FirstsOf(r.references, libraries, fold)
    ensures FirstsOf(Take(r, l, state, fold).bundle, libraries + [l], fold)
    ensures FirstsOf(Take(r, l, state, fold).references, libraries + [l], fold)
  {
    FirstsMore(r.bundle, libraries, l, fold);
    FirstsMore(r.references, libraries, l, fold);
  }

  lemma TakeSees(r: Resolved, l: Library, libraries: seq<Library>, state: State, fold: string -> string)
    requires r.seen == BundleNames(libraries, |libraries|, fold)
    ensures Take(r, l, state, fold).seen == BundleNames(libraries + [l], |libraries| + 1, fold)
  {
    NamesMore(libraries, l, fold);
  }

  lemma TakeResolves(r: Resolved, l: Library, libraries: seq<Library>, state: State, fold: string -> string, r': Resolved)
    requires Resolving(r, libraries, state, fold) && r' == Take(r, l, state, fold)
    ensures Resolving(r', libraries + [l], state, fold)
  {
    TakeKeepsSorted(r, l, state, fold);
    TakeKeepsFirsts(r, l, libraries, state, fold);
    TakeSees(r, l, libraries, state, fold);
    TakeSelects(r, l, libraries, state, fold);
  }

  function TakeFirst(r: Resolved, libraries: seq<Library>, n: nat, state: State, fold: string -> string): Resolved
    requires n <= |libraries|
  {
    if n == 0 then r else Take(TakeFirst(r, libraries, n - 1, state, fold), libraries[n - 1], state, fold)
  }

  function TakeAll(packages: seq<seq<Library>>, n: nat, state: State, fold: string -> string): Resolved
    requires n <= |packages|
  {
    if n == 0 then NOTHING
    else TakeFirst(TakeAll(packages, n - 1, state, fold), packages[n - 1], |packages[n - 1]|, state, fold)
  }

  ghost predicate Stays(holds: (Resolved, seq<Library>) -> bool, state: State, fold: string -> string) {
    forall r, libraries, l {:trigger holds(r, libraries), Take(r, l, state, fold)} ::
      holds(r, libraries) ==> holds(Take(r, l, state, fold), libraries + [l])
  }

  lemma StaysOnce(r: Resolved, libraries: seq<Library>, l: Library, more: seq<Library>, state: State, fold: string -> string,
                  holds: (Resolved, seq<Library>) -> bool)
    requires Stays(holds, state, fold) && holds(r, libraries) && more == libraries + [l]
    ensures holds(Take(r, l, state, fold), more)
  {
  }

  lemma UpToNext(before: seq<Library>, libraries: seq<Library>, n: nat)
    requires n < |libraries|
    ensures before + libraries[..n + 1] == before + libraries[..n] + [libraries[n]]
  {
  }

  /** What holds before the first library, and stays with every one, holds of all. */
  lemma {:induction false} FirstHold(r: Resolved, before: seq<Library>, libraries: seq<Library>, n: nat, state: State,
                                     fold: string -> string, holds: (Resolved, seq<Library>) -> bool)
    requires n <= |libraries| && holds(r, before) && Stays(holds, state, fold)
    ensures holds(TakeFirst(r, libraries, n, state, fold), before + libraries[..n])
  {
    if n == 0 {
      assert before + libraries[..0] == before;
    } else {
      FirstHold(r, before, libraries, n - 1, state, fold, holds);
      UpToNext(before, libraries, n - 1);
      StaysOnce(TakeFirst(r, libraries, n - 1, state, fold), before + libraries[..n - 1], libraries[n - 1], before + libraries[..n],
                state, fold, holds);
    }
  }

  lemma {:induction false} AllHold(packages: seq<seq<Library>>, n: nat, state: State, fold: string -> string,
                                   holds: (Resolved, seq<Library>) -> bool)
    requires n <= |packages| && holds(NOTHING, []) && Stays(holds, state, fold)
    ensures holds(TakeAll(packages, n, state, fold), Concat(packages, n))
  {
    if n > 0 {
      AllHold(packages, n - 1, state, fold, holds);
      var libraries := packages[n - 1];
      FirstHold(TakeAll(packages, n - 1, state, fold), Concat(packages, n - 1), libraries, |libraries|, state, fold, holds);
      assert libraries[..|libraries|] == libraries;
    }
  }

  lemma NothingResolves(state: State, fold: string -> string)
    ensures Resolving(NOTHING, [], state, fold)
  {
  }

  /** Every library name goes to the bundle or to the server's list, by its first library. */
  lemma AllResolve(packages: seq<seq<Library>>, state: State, fold: string -> string)
    ensures Resolving(TakeAll(packages, |packages|, state, fold), Concat(packages, |packages|), state, fold)
  {
    var holds := (r: Resolved, libraries: seq<Library>) => Resolving(r, libraries, state, fold);
    NothingResolves(state, fold);
    forall r, libraries, l {:trigger holds(r, libraries), Take(r, l, state, fold)} | holds(r, libraries)
      ensures holds(Take(r, l, state, fold), libraries + [l]) {
      TakeResolves(r, l, libraries, state, fold, Take(r, l, state, fold));
    }
    AllHold(packages, |packages|, state, fold, holds);
  }

  // ----- which libraries are taken, and in what order -----

  /** No library before it has its name, whatever its case. */
  ghost predicate IsFirstAt(libraries: seq<Library>, i: nat, fold: string -> string)
    requires i < |libraries|
  {
    forall j :: 0 <= j < i ==> fold(libraries[j].fileName) != fold(libraries[i].fileName)
  }

  /** The first libraries of their names among the first `n`, of some kind, in order. */
  ghost function FirstsAt(libraries: seq<Library>, n: nat, wanted: string -> bool, fold: string -> string): seq<nat>
    requires n <= |libraries|
  {
    if n == 0 then []
    else
      FirstsAt(libraries, n - 1, wanted, fold)
      + if IsFirstAt(libraries, n - 1, fold) && wanted(fold(libraries[n - 1].fileName)) then [n - 1] else []
  }

  lemma {:induction false} FirstsAtIff(libraries: seq<Library>, n: nat, wanted: string -> bool, fold: string -> string, i: nat)
    requires n <= |libraries|
    ensures i in FirstsAt(libraries, n, wanted, fold) <==> i < n && IsFirstAt(libraries, i, fold) && wanted(fold(libraries[i].fileName))
  {
    if n > 0 {
      FirstsAtIff(libraries, n - 1, wanted, fold, i);
    }
  }

  lemma {:induction false} FirstsAscend(libraries: seq<Library>, n: nat, wanted: string -> bool, fold: string -> string, j: nat, k: nat)
    requires n <= |libraries| && j < k < |FirstsAt(libraries, n, wanted, fold)|
    ensures FirstsAt(libraries, n, wanted, fold)[j] < FirstsAt(libraries, n, wanted, fold)[k]
  {
    var before := FirstsAt(libraries, n - 1, wanted, fold);
    if k < |before| {
      FirstsAscend(libraries, n - 1, wanted, fold, j, k);
    } else {
      FirstsAtIff(libraries, n - 1, wanted, fold, before[j]);
    }
  }

  ghost predicate AreTaken(taken: seq<Library>, libraries: seq<Library>, at: seq<nat>) {
    |taken| == |at| && forall k :: 0 <= k < |at| ==> at[k] < |libraries| && taken[k] == libraries[at[k]]
  }

  ghost predicate AreNamed(names: seq<string>, libraries: seq<Library>, at: seq<nat>) {
    |names| == |at| && forall k :: 0 <= k < |at| ==> at[k] < |libraries| && names[k] == libraries[at[k]].fileName
  }

  /** The server has no copy: what is referenced. */
  function Uncopied(state: State): string -> bool { key => key !in state.serverCopies }

  /** It is not on the server in any way: what is bundled. */
  function Unknown(state: State): string -> bool { key => key !in state.serverCopies && key !in state.onServer }

  /** What is listed as being there. */
  function Known(state: State): string -> bool { key => key in state.serverCopies || key in state.onServer }

  /** The three lists, each with the first libraries of its names. */
  ghost predicate Selected(r: Resolved, libraries: seq<Library>, state: State, fold: string -> string) {
    && AreTaken(r.references, libraries, FirstsAt(libraries, |libraries|, Uncopied(state), fold))
    && AreTaken(r.bundle, libraries, FirstsAt(libraries, |libraries|, Unknown(state), fold))
    && AreNamed(r.onServer, libraries, FirstsAt(libraries, |libraries|, Known(state), fold))
  }

  lemma {:induction false} FirstsStay(libraries: seq<Library>, more: seq<Library>, n: nat, wanted: string -> bool, fold: string -> string)
    requires n <= |libraries| && n <= |more| && forall k :: 0 <= k < n ==> libraries[k] == more[k]
    ensures FirstsAt(more, n, wanted, fold) == FirstsAt(libraries, n, wanted, fold)
  {
    if n > 0 {
      FirstsStay(libraries, more, n - 1, wanted, fold);
      FirstStill(libraries, more, n - 1, fold);
    }
  }

  lemma FirstStill(libraries: seq<Library>, more: seq<Library>, i: nat, fold: string -> string)
    requires i < |libraries| && i < |more| && forall k :: 0 <= k <= i ==> libraries[k] == more[k]
    ensures IsFirstAt(more, i, fold) <==> IsFirstAt(libraries, i, fold)
  {
  }

  lemma {:induction false} NamesAre(libraries: seq<Library>, n: nat, name: string, fold: string -> string)
    requires n <= |libraries|
    ensures name in BundleNames(libraries, n, fold) <==> exists i :: 0 <= i < n && fold(libraries[i].fileName) == name
  {
    if n > 0 {
      NamesAre(libraries, n - 1, name, fold);
    }
  }

  lemma LastIsFirst(libraries: seq<Library>, l: Library, fold: string -> string)
    ensures IsFirstAt(libraries + [l], |libraries|, fold) <==> fold(l.fileName) !in BundleNames(libraries, |libraries|, fold)
  {
    NamesAre(libraries, |libraries|, fold(l.fileName), fold);
    var more := libraries + [l];
    forall j | 0 <= j < |libraries| ensures more[j] == libraries[j] {
    }
  }

  /** A library with a new name. */
  predicate IsNew(libraries: seq<Library>, l: Library, fold: string -> string) {
    fold(l.fileName) !in BundleNames(libraries, |libraries|, fold)
  }

  /** What one more library adds to the places of the firsts. */
  lemma FirstsMoreAt(libraries: seq<Library>, l: Library, wanted: string -> bool, fold: string -> string)
    ensures FirstsAt(libraries + [l], |libraries| + 1, wanted, fold)
         == FirstsAt(libraries, |libraries|, wanted, fold)
            + if IsNew(libraries, l, fold) && wanted(fold(l.fileName)) then [|libraries|] else []
  {
    FirstsStay(libraries, libraries + [l], |libraries|, wanted, fold);
    LastIsFirst(libraries, l, fold);
  }

  lemma TakenMore(taken: seq<Library>, libraries: seq<Library>, l: Library, at: seq<nat>, isTaken: bool)
    requires AreTaken(taken, libraries, at)
    ensures AreTaken(if isTaken then taken + [l] else taken, libraries + [l], at + if isTaken then [|libraries|] else [])
  {
  }

  lemma NamedMore(names: seq<string>, libraries: seq<Library>, l: Library, at: seq<nat>, isTaken: bool)
    requires AreNamed(names, libraries, at)
    ensures AreNamed(if isTaken then names + [l.fileName] else names, libraries + [l], at + if isTaken then [|libraries|] else [])
  {
  }

  lemma TakeSelects(r: Resolved, l: Library, libraries: seq<Library>, state: State, fold: string -> string)
    requires Selected(r, libraries, state, fold) && r.seen == BundleNames(libraries, |libraries|, fold)
    ensures Selected(Take(r, l, state, fold), libraries + [l], state, fold)
  {
    var key, n := fold(l.fileName), |libraries|;
    var isNew := IsNew(libraries, l, fold);
    FirstsMoreAt(libraries, l, Uncopied(state), fold);
    FirstsMoreAt(libraries, l, Unknown(state), fold);
    FirstsMoreAt(libraries, l, Known(state), fold);
    TakenMore(r.references, libraries, l, FirstsAt(libraries, n, Uncopied(state), fold), isNew && Uncopied(state)(key));
    TakenMore(r.bundle, libraries, l, FirstsAt(libraries, n, Unknown(state), fold), isNew && Unknown(state)(key));
    NamedMore(r.onServer, libraries, l, FirstsAt(libraries, n, Known(state), fold), isNew && Known(state)(key));
  }

  /** Sorts the libraries of the packages. */
  method ResolvePackages(packages: seq<seq<Library>>, state: State, fold: string -> string)
    returns (references: seq<Library>, bundle: seq<Library>, onServer: seq<string>)
    ensures var libraries := Concat(packages, |packages|);
      Resolving(Resolved(references, bundle, onServer, BundleNames(libraries, |libraries|, fold)), libraries, state, fold)
  {
    references, bundle, onServer := [], [], [];
    var seen: set<string> := {};
    for p := 0 to |packages|
      invariant Resolved(references, bundle, onServer, seen) == TakeAll(packages, p, state, fold)
    {
      for i := 0 to |packages[p]|
        invariant Resolved(references, bundle, onServer, seen) == TakeFirst(TakeAll(packages, p, state, fold), packages[p], i, state, fold)
      {
        var library := packages[p][i];
        var key := fold(library.fileName);
        if key in seen {
          continue;
        }
        seen := seen + {key};
        if key in state.serverCopies {
          onServer := onServer + [library.fileName];
          continue;
        }
        references := references + [library];
        if key in state.onServer {
          onServer := onServer + [library.fileName];
        } else {
          bundle := bundle + [library];
        }
      }
    }
    AllResolve(packages, state, fold);
  }
}
