/** How an observable array tells its subscribers what changed: the diffs of known operations are
    computed from their arguments, all others by comparing the array with its previous contents. */
module ArrayTracking {
  import opened Common
  import opened ArrayDiff

  // ----- the operations -----

  /** The arguments of `splice`: none, a start only, or a start, a delete count that may be missing, and items.
      A start that is no number (`undefined`, say) is `None`. */
  datatype SpliceArgs<T> = NoArgs | From(start: Option<int>) | Counted(start: Option<int>, count: Option<int>, items: seq<T>)

  /** A method of the array. `Other` stands for `sort` and `reverse`, whatever they make of the array. */
  datatype Operation<T> =
    | Push(items: seq<T>)
    | Unshift(items: seq<T>)
    | Pop
    | Shift
    | Splice(args: SpliceArgs<T>)
    | Other(result: seq<T>)

  /** Where a splice starts: a negative start counts from the end, and what is no number is 0. */
  function SpliceStart(length: nat, start: Option<int>): (at: nat)
    ensures at <= length
  {
    match start
    case None => 0
    case Some(n) => if n < 0 then Max(length + n, 0) else Min(n, length)
  }

  /** What the array method leaves of an array of these contents. */
  function Apply<T>(op: Operation<T>, a: seq<T>): seq<T> {
    match op
    case Push(items) => a + items
    case Unshift(items) => items + a
    case Pop => if |a| == 0 then a else a[..|a| - 1]
    case Shift => if |a| == 0 then a else a[1..]
    case Splice(NoArgs) => a
    case Splice(From(start)) => a[..SpliceStart(|a|, start)]
    case Splice(Counted(start, count, items)) =>
      var at := SpliceStart(|a|, start);
      var deleteCount := match count case None => 0 case Some(c) => Min(Max(c, 0), |a| - at);
      a[..at] + items + a[at + deleteCount..]
    case Other(result) => result
  }

  // ----- blocks of changes -----

  /** Changes of one status for consecutive values. */
  function Block<T>(status: Status, values: seq<T>, from: nat): (block: seq<Change<T>>)
    ensures |block| == |values|
    ensures forall k :: 0 <= k < |values| ==> block[k] == Change(status, values[k], from + k)
  {
    seq(|values|, k requires 0 <= k < |values| => Change(status, values[k], from + k))
  }

  lemma {:induction false} ReplayRest<T>(source: seq<T>, i: nat, j: nat)
    requires i <= |source|
    ensures Replay(source, i, j, [], []) == source[i..]
    decreases |source| - i
  {
    if i < |source| {
      ReplayRest(source, i + 1, j + 1);
      assert source[i..] == [source[i]] + source[i + 1..];
    }
  }

  lemma {:induction false} ReplayLeaving<T>(source: seq<T>, i: nat, e: nat, j: nat, leaving: seq<Change<T>>)
    requires i <= e <= |source| && |leaving| == e - i
    requires forall k :: 0 <= k < |leaving| ==> leaving[k].index == i + k
    ensures Replay(source, i, j, leaving, []) == source[e..]
    decreases e - i
  {
    if i < e {
      ReplayLeaving(source, i + 1, e, j, leaving[1..]);
    } else {
      ReplayRest(source, i, j);
    }
  }

  lemma {:induction false} ReplayComing<T>(source: seq<T>, i: nat, e: nat, j: nat, leaving: seq<Change<T>>, coming: seq<Change<T>>, items: seq<T>)
    requires i <= e <= |source| && |leaving| == e - i && |coming| == |items|
    requires forall k :: 0 <= k < |leaving| ==> leaving[k].index == i + k
    requires forall k :: 0 <= k < |coming| ==> coming[k].index == j + k && coming[k].value == items[k]
    ensures Replay(source, i, j, leaving, coming) == items + source[e..]
    decreases |coming|
  {
    if coming != [] {
      ReplayComing(source, i, e, j + 1, leaving, coming[1..], items[1..]);
      assert items + source[e..] == [items[0]] + (items[1..] + source[e..]);
    } else {
      ReplayLeaving(source, i, e, j, leaving);
      assert items + source[e..] == source[e..];
    }
  }

  /** Replacing one stretch of an array: `source[s..e]` leaves, `items` come in. */
  lemma {:induction false} ReplayBlocks<T>(source: seq<T>, i: nat, s: nat, e: nat, leaving: seq<Change<T>>, coming: seq<Change<T>>, items: seq<T>)
    requires i <= s <= e <= |source| && |leaving| == e - s && |coming| == |items|
    requires forall k :: 0 <= k < |leaving| ==> leaving[k].index == s + k
    requires forall k :: 0 <= k < |coming| ==> coming[k].index == s + k && coming[k].value == items[k]
    ensures Replay(source, i, i, leaving, coming) == source[i..s] + items + source[e..]
    decreases s - i
  {
    if i < s {
      ReplayBlocks(source, i + 1, s, e, leaving, coming, items);
      FirstOfThree(source, i, s, items, source[e..]);
    } else {
      ReplayComing(source, s, e, s, leaving, coming, items);
      assert source[i..s] + items + source[e..] == items + source[e..];
    }
  }

  lemma FirstOfThree<T>(source: seq<T>, i: nat, s: nat, items: seq<T>, rest: seq<T>)
    requires i < s <= |source|
    ensures source[i..s] + items + rest == [source[i]] + (source[i + 1..s] + items + rest)
  {
    assert source[i..s] == [source[i]] + source[i + 1..s];
  }

  lemma {:induction false} ChangesMore<T>(script: seq<Item<T>>, c: Change<T>, status: Status)
    ensures Changes(script + [Edit(c)], status) == Changes(script, status) + (if c.status == status then [c] else [])
  {
    if script != [] {
      ChangesMore(script[1..], c, status);
      assert (script + [Edit(c)])[1..] == script[1..] + [Edit(c)];
    }
  }

  /** The script replaces `a[s..e]` by `items` and holds nothing but those changes. */
  ghost predicate Replaces<T>(script: seq<Item<T>>, a: seq<T>, s: nat, e: nat, items: seq<T>)
    requires s <= e <= |a|
  {
    && Changes(script, Deleted) == Block(Deleted, a[s..e], s)
    && Changes(script, Added) == Block(Added, items, s)
  }

  /** Such a script turns the array into the one with the stretch replaced, and back. */
  lemma ReplacesRelates<T>(script: seq<Item<T>>, a: seq<T>, s: nat, e: nat, items: seq<T>)
    requires s <= e <= |a| && Replaces(script, a, s, e, items)
    ensures Relates(script, a, a[..s] + items + a[e..])
  {
    var b := a[..s] + items + a[e..];
    ReplayBlocks(a, 0, s, e, Changes(script, Deleted), Changes(script, Added), items);
    ReplayBlocks(b, 0, s, s + |items|, Changes(script, Added), Changes(script, Deleted), a[s..e]);
    assert a[0..s] == a[..s] && b[0..s] == a[..s] && b[s + |items|..] == a[e..];
    assert a[..s] + a[s..e] + a[e..] == a;
  }

  /** The block of a stretch that is one longer. */
  lemma BlockMore<T>(status: Status, values: seq<T>, s: nat, i: nat, from: nat)
    requires s <= i < |values|
    ensures Block(status, values[s..i + 1], from) == Block(status, values[s..i], from) + [Change(status, values[i], from + i - s)]
  {
  }

  // ----- the cached diff -----

  /** A script and the objects of its changes. */
  datatype Diff<T> = Diff(script: seq<Item<T>>, deleted: seq<Entry<T>>, added: seq<Entry<T>>)

  /** The script holds changes only. */
  predicate AllEdits<T>(script: seq<Item<T>>) {
    forall k :: 0 <= k < |script| ==> script[k].Edit?
  }

  /** Writes the changes of a splice, deletions and additions side by side. */
  method SpliceScript<T>(rawArray: seq<T>, start: nat, end: nat, items: seq<T>) returns (script: seq<Item<T>>)
    requires start <= end <= |rawArray|
    ensures Replaces(script, rawArray, start, end, items) && AllEdits(script)
    ensures |script| == end - start + |items|
  {
    script := [];
    var endAdd := start + |items|;
    var index, argsIndex := start, 0;
    while index < Max(end, endAdd)
      invariant start <= index <= Max(end, endAdd) && argsIndex == index - start
      invariant Changes(script, Deleted) == Block(Deleted, rawArray[start..Min(index, end)], start)
      invariant Changes(script, Added) == Block(Added, items[..Min(argsIndex, |items|)], start)
      invariant |script| == Min(index, end) - start + Min(argsIndex, |items|) && AllEdits(script)
    {
      if index < end {
        var change := Change(Deleted, rawArray[index], index);
        ChangesMore(script, change, Deleted);
        ChangesMore(script, change, Added);
        BlockMore(Deleted, rawArray, start, index, start);
        script := script + [Edit(change)];
      }
      if index < endAdd {
        var change := Change(Added, items[argsIndex], index);
        ChangesMore(script, change, Deleted);
        ChangesMore(script, change, Added);
        BlockMore(Added, items, 0, argsIndex, start);
        script := script + [Edit(change)];
      }
      index, argsIndex := index + 1, argsIndex + 1;
    }
    assert rawArray[start..end] == rawArray[start..Min(index, end)];
    assert items[..Min(argsIndex, |items|)] == items;
  }

  /** Writes the additions of `push` and `unshift`. */
  method AddedScript<T>(items: seq<T>, from: nat) returns (script: seq<Item<T>>)
    ensures Changes(script, Added) == Block(Added, items, from) && Changes(script, Deleted) == []
    ensures |script| == |items| && AllEdits(script)
  {
    script := [];
    for c := 0 to |items|
      invariant Changes(script, Added) == Block(Added, items[..c], from) && Changes(script, Deleted) == []
      invariant |script| == c && AllEdits(script)
    {
      var change := Change(Added, items[c], from + c);
      ChangesMore(script, change, Deleted);
      ChangesMore(script, change, Added);
      script := script + [Edit(change)];
    }
    assert items[..|items|] == items;
  }

  /** The stretch of the array that a known operation replaces, and what it puts there. */
  function Stretch<T>(op: Operation<T>, length: nat): (r: (nat, nat, seq<T>))
    requires !op.Other?
    ensures r.0 <= r.1 <= length
  {
    match op
    case Push(items) => (length, length, items)
    case Unshift(items) => (0, 0, items)
    case Pop => (Max(length - 1, 0), length, [])
    case Shift => (0, Min(1, length), [])
    case Splice(NoArgs) => (0, 0, [])
    case Splice(From(start)) => (SpliceStart(length, start), length, [])
    case Splice(Counted(start, count, items)) =>
      var at := SpliceStart(length, start);
      (at, at + (match count case None => 0 case Some(c) => Min(Max(c, 0), length - at)), items)
  }

  /** A splice whose start is no number. */
  predicate IsUnnumbered<T>(op: Operation<T>) {
    op.Splice? && ((op.args.From? && op.args.start == None) || (op.args.Counted? && op.args.start == None))
  }

  /** A splice whose start is no number, and which puts other values in place of those it takes away. */
  predicate Misleads<T(==)>(op: Operation<T>, a: seq<T>) {
    IsUnnumbered(op) && Stretch(op, |a|).2 != a[..Stretch(op, |a|).1]
  }

  lemma UnnumberedApplies<T>(op: Operation<T>, a: seq<T>)
    requires IsUnnumbered(op)
    ensures Apply(op, a) == a <==> !Misleads(op, a)
  {
    var (s, e, items) := Stretch(op, |a|);
    assert Apply(op, a) == items + a[e..];
    if items + a[e..] == a {
      assert |items| == e;
      assert (items + a[e..])[..e] == items;
    }
    assert a[..e] + a[e..] == a;
  }

  lemma ApplyReplaces<T>(op: Operation<T>, a: seq<T>)
    requires !op.Other?
    ensures var (s, e, items) := Stretch(op, |a|); Apply(op, a) == a[..s] + items + a[e..]
  {
  }

  /** Writes the script of a known operation from its arguments alone. Without a number to start from, the
      loop over the changes of a splice does not begin. */
  method KnownScript<T>(rawArray: seq<T>, op: Operation<T>) returns (script: seq<Item<T>>)
    requires !op.Other?
    ensures var (s, e, items) := Stretch(op, |rawArray|); !IsUnnumbered(op) ==> Replaces(script, rawArray, s, e, items)
    ensures !IsUnnumbered(op) ==> Relates(script, rawArray, Apply(op, rawArray))
    ensures IsUnnumbered(op) ==> script == []
    ensures AllEdits(script)
  {
    if IsUnnumbered(op) {
      return [];
    }
    var length := |rawArray|;
    match op {
      case Push(items) =>
        script := AddedScript(items, length);
      case Unshift(items) =>
        script := AddedScript(items, 0);
      case Pop =>
        script := if length != 0 then [Edit(Change(Deleted, rawArray[length - 1], length - 1))] else [];
      case Shift =>
        script := if length != 0 then [Edit(Change(Deleted, rawArray[0], 0))] else [];
      case Splice(args) =>
        match args {
          case NoArgs =>
            script := [];
          case From(number) =>
            var first := number.value;
            var start := Min(Max(0, if first < 0 then length + first else first), length);
            script := SpliceScript(rawArray, start, length, []);
          case Counted(number, count, items) =>
            var first := number.value;
            var start := Min(Max(0, if first < 0 then length + first else first), length);
            var end := Min(start + (match count case None => 0 case Some(c) => c), length);
            script := SpliceScript(rawArray, start, Max(start, end), items);
        }
    }
    var (s, e, items) := Stretch(op, length);
    ReplacesRelates(script, rawArray, s, e, items);
    ApplyReplaces(op, rawArray);
  }

  lemma {:induction false} PlaceBlock<T>(entries: seq<Entry<T>>, from: nat) returns (place: map<nat, nat>)
    requires forall k :: 0 <= k < |entries| ==> entries[k].change.index == from + k
    ensures Placed(entries, place)
    ensures forall i :: i in place ==> from <= i < from + |entries|
  {
    place := map[];
    if entries != [] {
      place := PlaceBlock(entries[..|entries| - 1], from);
      place := place[from + |entries| - 1 := |entries| - 1];
    }
  }

  /** The objects of a script's changes of one status, in script order. */
  ghost predicate Holds<T>(entries: seq<Entry<T>>, script: seq<Item<T>>, status: Status) {
    && |entries| == |Changes(script, status)|
    && forall k :: 0 <= k < |entries| ==> entries[k].change == Changes(script, status)[k]
  }

  lemma EmptyScriptRelates<T>(old_: seq<T>, new_: seq<T>)
    ensures Relates([], old_, new_) <==> old_ == new_
  {
    ReplayRest(old_, 0, 0);
    ReplayRest(new_, 0, 0);
  }

  lemma KnownScriptRelates<T>(script: seq<Item<T>>, rawArray: seq<T>, op: Operation<T>)
    requires if IsUnnumbered(op) then script == [] else Relates(script, rawArray, Apply(op, rawArray))
    ensures Relates(script, rawArray, Apply(op, rawArray)) <==> !Misleads(op, rawArray)
    ensures Misleads(op, rawArray) ==> script == [] && Apply(op, rawArray) != rawArray
  {
    if IsUnnumbered(op) {
      UnnumberedApplies(op, rawArray);
      EmptyScriptRelates(rawArray, Apply(op, rawArray));
    }
  }

  /** The diff of an operation that is about to be done to `rawArray`; `sort` and `reverse` have none.
      The script leads to what the operation makes of the array exactly if the operation does not mislead.
      Its moves are all that there are; only a splice has any. */
  method KnownDiff<T(==)>(rawArray: seq<T>, op: Operation<T>)
    returns (diff: Option<Diff<T>>, ghost to: map<int, int>, ghost back: map<int, int>)
    ensures diff == None <==> op.Other?
    ensures diff.Some? ==>
              var Diff(script, deleted, added) := diff.value;
              && (Relates(script, rawArray, Apply(op, rawArray)) <==> !Misleads(op, rawArray))
              && (Misleads(op, rawArray) ==> script == [] && Apply(op, rawArray) != rawArray)
              && Holds(deleted, script, Deleted) && Holds(added, script, Added)
              && fresh(deleted) && fresh(added)
              && AllEdits(script) && IsPairing(deleted, added, Moves(deleted), Moves(added), to, back, |deleted|, 0)
              && (!op.Splice? ==> AllNone(Moves(deleted)) && AllNone(Moves(added)))
  {
    diff, to, back := None, map[], map[];
    if !op.Other? {
      var script := KnownScript(rawArray, op);
      KnownScriptRelates(script, rawArray, op);
      var deleted := MakeEntries(Changes(script, Deleted));
      var added := MakeEntries(Changes(script, Added));
      if op.Splice? {
        ghost var (s, e, items) := Stretch(op, |rawArray|);
        ghost var deletedPlace := PlaceBlock(deleted, s);
        ghost var addedPlace := PlaceBlock(added, s);
        ghost var tried;
        tried, to, back := FindMoves(deleted, added, 0, deletedPlace, addedPlace);
      } else {
        NothingToPair(deleted, added, Moves(deleted), Moves(added), 0);
      }
      diff := Some(Diff(script, deleted, added));
    }
  }

  // ----- what a diff says of moves -----

  /** A diff from the arguments of an operation: every equal deleted and added value is a move. */
  ghost predicate MarkedByArguments<T>(diff: Diff<T>, deletedMoves: seq<Option<nat>>, addedMoves: seq<Option<nat>>) {
    && |deletedMoves| == |diff.deleted| && |addedMoves| == |diff.added|
    && Holds(diff.deleted, diff.script, Deleted) && Holds(diff.added, diff.script, Added)
    && exists to, back :: IsPairing(diff.deleted, diff.added, deletedMoves, addedMoves, to, back, |diff.deleted|, 0)
  }

  /** A diff from a comparison: the pairing of the changes that the walk meets, with its limit. */
  ghost predicate MarkedByComparison<T>(diff: Diff<T>, deletedMoves: seq<Option<nat>>, addedMoves: seq<Option<nat>>,
                                        old_: seq<T>, new_: seq<T>)
  {
    && |deletedMoves| == |diff.deleted| && |addedMoves| == |diff.added|
    && ObjectsOf(diff.deleted, diff.script, Deleted) && ObjectsOf(diff.added, diff.script, Added)
    && exists to, back, tried ::
         if |old_| < |new_|
         then IsPairing(diff.deleted, diff.added, deletedMoves, addedMoves, to, back, tried, 10 * |old_|)
         else IsPairing(diff.added, diff.deleted, addedMoves, deletedMoves, back, to, tried, 10 * |new_|)
  }

  // ----- the tracker -----

  /** An observable array with change tracking. `contents` is the array itself, the other variables
      belong to the tracker. `mirror` is what a subscriber holds who starts from a copy of the array
      and applies to it every script that it is notified of; `misled` says that the cached diff is that of
      an operation that misleads, and `told` that no such diff has been relied on. */
  class Tracker<T(==)> {
    var contents: seq<T>
    var subscribers: nat
    var trackingChanges: bool
    var cachedDiff: Option<Diff<T>>
    var pendingChanges: nat
    var previousContents: seq<T>
    ghost var mirror: seq<T>
    ghost var misled: bool
    ghost var told: bool

    /** While somebody listens, the mirror is the array as last notified; it is the array itself when
        nothing is pending, and a cached diff leads from it to the array when one change is. */
    ghost predicate Valid()
      reads this, if cachedDiff.Some? then cachedDiff.value.deleted else [], if cachedDiff.Some? then cachedDiff.value.added else []
    {
      && (trackingChanges && pendingChanges == 1 && cachedDiff.Some? ==>
            AllEdits(cachedDiff.value.script) && MarkedByArguments(cachedDiff.value, Moves(cachedDiff.value.deleted), Moves(cachedDiff.value.added)))
      && (trackingChanges <==> subscribers > 0)
      && (trackingChanges && told ==> mirror == previousContents)
      && (trackingChanges && pendingChanges == 0 ==> cachedDiff == None && previousContents == contents)
      && (trackingChanges && cachedDiff == None ==> !misled)
      && (trackingChanges && pendingChanges == 1 && cachedDiff.Some? ==>
            if misled then cachedDiff.value.script == [] && previousContents != contents
            else Relates(cachedDiff.value.script, previousContents, contents))
    }

    constructor (initial: seq<T>)
      ensures Valid() && contents == initial && subscribers == 0 && !trackingChanges && pendingChanges == 0
    {
      contents, subscribers, trackingChanges, cachedDiff, pendingChanges := initial, 0, false, None, 0;
      previousContents, mirror, misled, told := [], [], false, true;
    }

    /** The array is about to be changed by one of its methods: caches the diff if nothing is pending. */
    method CacheDiffForKnownOperation(op: Operation<T>)
      requires Valid()
      modifies this`cachedDiff, this`misled
      ensures trackingChanges && pendingChanges == 0 && !op.Other? ==>
                && cachedDiff.Some? && misled == Misleads(op, contents)
                && AllEdits(cachedDiff.value.script) && MarkedByArguments(cachedDiff.value, Moves(cachedDiff.value.deleted), Moves(cachedDiff.value.added))
                && fresh(cachedDiff.value.deleted) && fresh(cachedDiff.value.added)
                && (Relates(cachedDiff.value.script, contents, Apply(op, contents)) <==> !misled)
                && (misled ==> cachedDiff.value.script == [] && Apply(op, contents) != contents)
      ensures !(trackingChanges && pendingChanges == 0 && !op.Other?) ==> cachedDiff == old(cachedDiff) && misled == old(misled)
    {
      if trackingChanges && pendingChanges == 0 {
        var diff, to, back := KnownDiff(contents, op);
        if diff.Some? {
          cachedDiff := diff;
          misled := Misleads(op, contents);
        }
      }
    }

    /** Calls a method of the array. The change is pending until `NotifyChanges`, which follows at once
        unless notifications are deferred. */
    method Mutate(op: Operation<T>)
      requires Valid()
      modifies this
      ensures Valid()
      ensures contents == Apply(op, old(contents)) && mirror == old(mirror)
      ensures subscribers == old(subscribers) && trackingChanges == old(trackingChanges)
      ensures pendingChanges == old(pendingChanges) + (if trackingChanges then 1 else 0)
      ensures told == old(told) && previousContents == old(previousContents)
      ensures trackingChanges ==> misled == (old(misled) || (old(pendingChanges) == 0 && Misleads(op, old(contents))))
    {
      CacheDiffForKnownOperation(op);
      contents := Apply(op, contents);
      if trackingChanges {
        pendingChanges := pendingChanges + 1;
      }
    }

    /** Writes a new array, or changes the array without one of its methods and says so. */
    method Write(value: seq<T>)
      requires Valid()
      modifies this
      ensures Valid()
      ensures contents == value && mirror == old(mirror)
      ensures subscribers == old(subscribers) && trackingChanges == old(trackingChanges)
      ensures pendingChanges == old(pendingChanges) + (if trackingChanges then 1 else 0)
      ensures told == old(told) && misled == old(misled) && previousContents == old(previousContents)
    {
      contents := value;
      if trackingChanges {
        pendingChanges := pendingChanges + 1;
      }
    }

    /** The diff to tell: the cached one for a single pending change, else a new comparison. */
    method GetChanges() returns (diff: Diff<T>)
      requires Valid() && trackingChanges && pendingChanges != 0
      modifies this`cachedDiff
      ensures if pendingChanges == 1 && misled then diff.script == [] && previousContents != contents
              else Relates(diff.script, previousContents, contents)
      ensures pendingChanges > 1 || old(cachedDiff) == None ==> Edits(diff.script) == Distance(previousContents, contents)
      ensures AllEdits(diff.script)
      ensures if pendingChanges > 1 || old(cachedDiff) == None then MarkedByComparison(diff, Moves(diff.deleted), Moves(diff.added), previousContents, contents)
              else MarkedByArguments(diff, Moves(diff.deleted), Moves(diff.added))
    {
      if cachedDiff == None || pendingChanges > 1 {
        var script, deleted, added, to, back, tried := CompareArrays(previousContents, contents, true, false);
        cachedDiff := Some(Diff(script, deleted, added));
      }
      diff := cachedDiff.value;
    }

    /** Takes note that a diff is told, unless it is empty: nothing is pending any more. */
    method Settle(diff: Diff<T>) returns (changes: Option<Diff<T>>)
      requires (trackingChanges <==> subscribers > 0) && trackingChanges && pendingChanges != 0
      requires told ==> mirror == previousContents
      requires if pendingChanges == 1 && misled then diff.script == [] && previousContents != contents
               else Relates(diff.script, previousContents, contents)
      modifies this
      ensures Valid() && trackingChanges && subscribers == old(subscribers)
      ensures contents == old(contents) && pendingChanges == 0 && !misled
      ensures told == (old(told) && !(old(pendingChanges) == 1 && old(misled)))
      ensures changes == if diff.script != [] then Some(diff) else None
      ensures told ==> mirror == contents
      ensures old(told) && !told ==> mirror == old(mirror)
    {
      changes := None;
      var currentContents := contents;
      if pendingChanges == 1 && misled {
        told := false;
      }
      if |diff.script| != 0 {
        mirror := Patch(mirror, diff.script);
        changes := Some(diff);
      } else {
        EmptyScriptRelates(previousContents, contents);
      }
      previousContents := currentContents;
      cachedDiff, misled := None, false;
      pendingChanges := 0;
    }

    /** Handles the `change` event. A notification carries a script that patches what was notified before
        into the array as it is; without one there was nothing to tell. Either way nothing is pending.
        A change by an operation that misleads is not told exactly if it is the only one pending. */
    method NotifyChanges() returns (changes: Option<Diff<T>>)
      requires Valid() && trackingChanges
      modifies this
      ensures Valid() && trackingChanges && subscribers == old(subscribers)
      ensures contents == old(contents) && pendingChanges == 0 && !misled
      ensures told == (old(told) && !(old(pendingChanges) == 1 && old(misled)))
      ensures changes.Some? ==>
                changes.value.script != [] && Relates(changes.value.script, old(previousContents), contents)
      ensures told ==> mirror == contents
      ensures told && changes.Some? ==> Relates(changes.value.script, old(mirror), contents)
      ensures told && changes == None ==> old(mirror) == contents
      ensures old(told) && !told ==> changes == None && mirror == old(mirror) != contents
      ensures changes.Some? && (old(pendingChanges) > 1 || old(cachedDiff) == None) ==>
                Edits(changes.value.script) == Distance(old(previousContents), contents)
      ensures changes.Some? ==> AllEdits(changes.value.script)
      ensures changes.Some? ==>
                if old(pendingChanges) > 1 || old(cachedDiff) == None
                then MarkedByComparison(changes.value, Moves(changes.value.deleted), Moves(changes.value.added), old(previousContents), contents)
                else MarkedByArguments(changes.value, Moves(changes.value.deleted), Moves(changes.value.added))
    {
      changes := None;
      if pendingChanges != 0 {
        EmptyScriptRelates(previousContents, contents);
        var diff := GetChanges();
        changes := Settle(diff);
      }
    }

    /** Adds a subscriber: the first one starts the tracking, for a later one pending changes are notified. */
    method Subscribe() returns (changes: Option<Diff<T>>)
      requires Valid()
      modifies this
      ensures Valid() && subscribers == old(subscribers) + 1
      ensures contents == old(contents) && (told ==> mirror == contents)
      ensures told == (!old(trackingChanges) || (old(told) && !(old(pendingChanges) == 1 && old(misled))))
      ensures told && changes.Some? ==> old(trackingChanges) && Relates(changes.value.script, old(mirror), contents)
      ensures told && changes == None && old(trackingChanges) ==> old(mirror) == contents
      ensures !misled && pendingChanges == if old(trackingChanges) then 0 else old(pendingChanges)
    {
      changes := None;
      if trackingChanges {
        changes := NotifyChanges();
      } else {
        trackingChanges := true;
        previousContents := contents;
        mirror, misled, told := contents, false, true;
        cachedDiff := None;
      }
      subscribers := subscribers + 1;
    }

    /** Removes a subscriber; after the last one the tracking stops, a pending count stays as it is. */
    method Unsubscribe()
      requires Valid() && subscribers > 0
      modifies this
      ensures Valid() && subscribers == old(subscribers) - 1
      ensures contents == old(contents) && pendingChanges == old(pendingChanges)
    {
      subscribers := subscribers - 1;
      if subscribers == 0 {
        trackingChanges, previousContents := false, [];
      }
    }
  }

  /** `splice(undefined)` empties an array of one element, and its subscriber is not told. */
  method SilentSplice<T(==)>(value: T) returns (tracker: Tracker<T>, changes: Option<Diff<T>>)
    ensures changes == None && tracker.contents == [] && tracker.mirror == [value] && fresh(tracker)
  {
    tracker := new Tracker([value]);
    var before := tracker.Subscribe();
    tracker.Mutate(Splice(From(None)));
    changes := tracker.NotifyChanges();
  }
}
