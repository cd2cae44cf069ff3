/** When the banded comparison of arrays finds a shortest script, over all full scripts. */
module DiffIsLeast {
  import opened Common
  import opened ArrayDiff

  /** From `(l, q)` on, the script never leaves the band of the table. */
  predicate Stays<T>(p: nat, n: nat, l: nat, q: nat, script: seq<Item<T>>, leaving: Status)
    requires p <= n
    decreases |script|
  {
    && InBand(p, n, l, q)
    && (script == []
        || Stays(p, n, l + Uses(script[0], leaving), q + Uses(script[0], Other(leaving)), script[1..], leaving))
  }

  /** A script that stays in the band has at least as many changes as the table says. */
  lemma {:induction false} BandedScriptCosts<T>(x: seq<T>, y: seq<T>, l: nat, q: nat, script: seq<Item<T>>, leaving: Status)
    requires |x| <= |y| && l <= |x| && q <= |y| && Spells(x, y, l, q, script, leaving)
    requires Stays(|x|, |y|, l, q, script, leaving)
    ensures Edits(script) + Cell(x, y, l, q) >= Cell(x, y, |x|, |y|)
    decreases |script|
  {
    if script != [] {
      var l', q' := l + Uses(script[0], leaving), q + Uses(script[0], Other(leaving));
      BandedScriptCosts(x, y, l', q', script[1..], leaving);
      if script[0].Edit? {
        if l' > l { SmoothUp(x, y, l', q'); } else { SmoothLeft(x, y, l', q'); }
      }
    }
  }

  /** A script that leaves the band drops or brings in many elements. */
  lemma {:induction false} LeavingCosts<T>(x: seq<T>, y: seq<T>, l: nat, q: nat, script: seq<Item<T>>, leaving: Status)
    requires |x| <= |y| && l <= |x| && q <= |y| && Spells(x, y, l, q, script, leaving)
    requires !Stays(|x|, |y|, l, q, script, leaving)
    ensures |Changes(script, leaving)| >= 2 + q - l
         || |Changes(script, Other(leaving))| >= Range(|x|, |y|) + 1 + l - q
    decreases |script|
  {
    if InBand(|x|, |y|, l, q) {
      LeavingCosts(x, y, l + Uses(script[0], leaving), q + Uses(script[0], Other(leaving)), script[1..], leaving);
    }
  }

  /** What is brought in beyond what is dropped makes up for the lengths. */
  lemma {:induction false} ChangesBalance<T>(x: seq<T>, y: seq<T>, l: nat, q: nat, script: seq<Item<T>>, leaving: Status)
    requires l <= |x| && q <= |y| && Spells(x, y, l, q, script, leaving)
    ensures |Changes(script, Other(leaving))| - |Changes(script, leaving)| == (|y| - q) - (|x| - l)
    decreases |script|
  {
    if script != [] {
      ChangesBalance(x, y, l + Uses(script[0], leaving), q + Uses(script[0], Other(leaving)), script[1..], leaving);
    }
  }

  /** The changes of the table for the shorter array `x` and the longer one `y`. */
  function Banded<T(==)>(x: seq<T>, y: seq<T>): int
    requires |x| <= |y|
  {
    Cell(x, y, |x|, |y|) - 1
  }

  /** No full script has fewer changes than the table says. */
  ghost predicate IsLeast<T(!new)>(x: seq<T>, y: seq<T>, leaving: Status)
    requires |x| <= |y|
  {
    forall script: seq<Item<T>> :: Spells(x, y, 0, 0, script, leaving) ==> Edits(script) >= Banded(x, y)
  }

  /** A script that leaves the band has at least so many changes. */
  function OutsideCost(p: nat, n: nat): nat
    requires p <= n
  {
    if p == n then 4 else n - p + 2
  }

  lemma OutsideCosts<T>(x: seq<T>, y: seq<T>, script: seq<Item<T>>, leaving: Status)
    requires |x| <= |y| && Spells(x, y, 0, 0, script, leaving)
    ensures Stays(|x|, |y|, 0, 0, script, leaving) ==> Edits(script) >= Banded(x, y)
    ensures !Stays(|x|, |y|, 0, 0, script, leaving) ==> Edits(script) >= OutsideCost(|x|, |y|)
  {
    if Stays(|x|, |y|, 0, 0, script, leaving) {
      BandedScriptCosts(x, y, 0, 0, script, leaving);
    } else {
      LeavingCosts(x, y, 0, 0, script, leaving);
      ChangesBalance(x, y, 0, 0, script, leaving);
      EditsByStatus(script, leaving);
    }
  }

  /** A comparison that finds no more changes than a script outside the band must have finds a shortest script:
      at most four for arrays of one length, at most two more than the lengths differ by for others. */
  lemma LeastIfFew<T(!new)>(x: seq<T>, y: seq<T>, leaving: Status)
    requires |x| <= |y| && Banded(x, y) <= OutsideCost(|x|, |y|)
    ensures IsLeast(x, y, leaving)
  {
    forall script: seq<Item<T>> | Spells(x, y, 0, 0, script, leaving) ensures Edits(script) >= Banded(x, y) {
      OutsideCosts(x, y, script, leaving);
    }
  }

  /** So it does if the shorter array can be made into the other without dropping anything, or, for one
      length, by dropping one element at most. */
  lemma LeastIfLittleIsDropped<T(!new)>(x: seq<T>, y: seq<T>, script: seq<Item<T>>, leaving: Status)
    requires |x| <= |y| && Spells(x, y, 0, 0, script, leaving)
    requires |Changes(script, leaving)| <= if |x| == |y| then 1 else 0
    ensures IsLeast(x, y, leaving) && Banded(x, y) <= Edits(script)
  {
    ChangesBalance(x, y, 0, 0, script, leaving);
    EditsByStatus(script, leaving);
    OutsideCosts(x, y, script, leaving);
    LeastIfFew(x, y, leaving);
  }

  // ----- the exact condition -----

  /** What an alignment of the first elements does, done before a script for the rest. */
  lemma Lead<T>(x: seq<T>, y: seq<T>, steps: seq<Step>, l: nat, q: nat, script: seq<Item<T>>, leaving: Status)
    returns (full: seq<Item<T>>)
    requires |x| <= |y| && l <= |x| && q <= |y| && Aligns(x, y, steps, l, q)
    requires Spells(x, y, l, q, script, leaving) && Stays(|x|, |y|, l, q, script, leaving)
    ensures Spells(x, y, 0, 0, full, leaving) && Stays(|x|, |y|, 0, 0, full, leaving)
    ensures Edits(full) == Cost(steps) + Edits(script)
    decreases |steps|, 0
  {
    full := script;
    if steps != [] {
      var before := steps[..|steps| - 1];
      match steps[|steps| - 1] {
        case Add => full := LeadWith(x, y, before, l, q - 1, Edit(Change(Other(leaving), y[q - 1], q - 1)), script, leaving);
        case Delete => full := LeadWith(x, y, before, l - 1, q, Edit(Change(leaving, x[l - 1], l - 1)), script, leaving);
        case Keep => full := LeadWith(x, y, before, l - 1, q - 1, Retained(x[l - 1]), script, leaving);
      }
    }
  }

  lemma LeadWith<T>(x: seq<T>, y: seq<T>, steps: seq<Step>, l: nat, q: nat, item: Item<T>, script: seq<Item<T>>,
                                       leaving: Status)
    returns (full: seq<Item<T>>)
    requires |x| <= |y| && l <= |x| && q <= |y| && Aligns(x, y, steps, l, q) && Fits(x, y, l, q, item, leaving)
    requires var l', q' := l + Uses(item, leaving), q + Uses(item, Other(leaving));
      Spells(x, y, l', q', script, leaving) && Stays(|x|, |y|, l', q', script, leaving)
    ensures Spells(x, y, 0, 0, full, leaving) && Stays(|x|, |y|, 0, 0, full, leaving)
    ensures Edits(full) == Cost(steps) + Edits(script) + if item.Edit? then 1 else 0
    decreases |steps|, 1
  {
    var longer := [item] + script;
    assert longer[1..] == script;
    full := Lead(x, y, steps, l, q, longer, leaving);
  }

  /** Some full script in the band has exactly the changes of the table. */
  lemma BandedScript<T>(x: seq<T>, y: seq<T>, leaving: Status) returns (script: seq<Item<T>>)
    requires |x| <= |y|
    ensures Spells(x, y, 0, 0, script, leaving) && Stays(|x|, |y|, 0, 0, script, leaving) && Edits(script) == Banded(x, y)
  {
    var steps := TableIsAttained(x, y, |x|, |y|);
    script := Lead(x, y, steps, |x|, |y|, [], leaving);
  }

  ghost predicate IsShortest<T(!new)>(x: seq<T>, y: seq<T>, script: seq<Item<T>>, leaving: Status) {
    && Spells(x, y, 0, 0, script, leaving)
    && forall other: seq<Item<T>> :: Spells(x, y, 0, 0, other, leaving) ==> Edits(other) >= Edits(script)
  }

  /** The comparison finds a shortest script exactly if some shortest script stays in the band. */
  lemma LeastIffShortestStays<T(!new)>(x: seq<T>, y: seq<T>, leaving: Status)
    requires |x| <= |y|
    ensures IsLeast(x, y, leaving)
       <==> exists script: seq<Item<T>> :: IsShortest(x, y, script, leaving) && Stays(|x|, |y|, 0, 0, script, leaving)
  {
    if IsLeast(x, y, leaving) {
      var script := BandedScript(x, y, leaving);
      assert IsShortest(x, y, script, leaving);
    }
    if script: seq<Item<T>> :| IsShortest(x, y, script, leaving) && Stays(|x|, |y|, 0, 0, script, leaving) {
      BandedScriptCosts(x, y, 0, 0, script, leaving);
    }
  }

  // ----- for the arrays as they are compared -----

  /** The comparison of `old_` and `new_` finds a shortest script. */
  ghost predicate FindsShortest<T(!new)>(old_: seq<T>, new_: seq<T>) {
    forall script: seq<Item<T>> :: Spells(old_, new_, 0, 0, script, Deleted) ==> Edits(script) >= Distance(old_, new_)
  }

  lemma ShortestIffLeast<T(!new)>(old_: seq<T>, new_: seq<T>)
    ensures FindsShortest(old_, new_)
       <==> if |old_| < |new_| then IsLeast(old_, new_, Deleted) else IsLeast(new_, old_, Added)
  {
    if |old_| >= |new_| {
      forall script: seq<Item<T>>
        ensures Spells(old_, new_, 0, 0, script, Deleted) <==> Spells(new_, old_, 0, 0, script, Added) {
        if Spells(old_, new_, 0, 0, script, Deleted) { SpellsFlip(old_, new_, 0, 0, script, Deleted); }
        if Spells(new_, old_, 0, 0, script, Added) { SpellsFlip(new_, old_, 0, 0, script, Added); }
      }
    }
  }

  /** The changes that `x[l..]` and `y[q..]` need, without a band. */
  function Least<T(==)>(x: seq<T>, y: seq<T>, l: nat, q: nat): nat
    requires l <= |x| && q <= |y|
    decreases |x| - l + |y| - q
  {
    if l == |x| then |y| - q
    else if q == |y| then |x| - l
    else
      var change := 1 + Min(Least(x, y, l + 1, q), Least(x, y, l, q + 1));
      if x[l] == y[q] then Min(change, Least(x, y, l + 1, q + 1)) else change
  }

  lemma {:induction false} NoneBelowLeast<T>(x: seq<T>, y: seq<T>, l: nat, q: nat, script: seq<Item<T>>, leaving: Status)
    requires l <= |x| && q <= |y| && Spells(x, y, l, q, script, leaving)
    ensures Edits(script) >= Least(x, y, l, q)
    decreases |script|
  {
    if script != [] {
      NoneBelowLeast(x, y, l + Uses(script[0], leaving), q + Uses(script[0], Other(leaving)), script[1..], leaving);
    }
  }

  lemma OneMoreItem<T>(x: seq<T>, y: seq<T>, l: nat, q: nat, item: Item<T>, script: seq<Item<T>>, leaving: Status)
    requires l <= |x| && q <= |y| && Fits(x, y, l, q, item, leaving)
    requires Spells(x, y, l + Uses(item, leaving), q + Uses(item, Other(leaving)), script, leaving)
    ensures Spells(x, y, l, q, [item] + script, leaving)
    ensures Edits([item] + script) == Edits(script) + if item.Edit? then 1 else 0
  {
    assert ([item] + script)[1..] == script;
  }

  lemma {:induction false} LeastScript<T>(x: seq<T>, y: seq<T>, l: nat, q: nat, leaving: Status) returns (script: seq<Item<T>>)
    requires l <= |x| && q <= |y|
    ensures Spells(x, y, l, q, script, leaving) && Edits(script) == Least(x, y, l, q)
    decreases |x| - l + |y| - q
  {
    if l == |x| && q == |y| {
      script := [];
    } else if l < |x| && q < |y| && x[l] == y[q] && Least(x, y, l, q) == Least(x, y, l + 1, q + 1) {
      var rest := LeastScript(x, y, l + 1, q + 1, leaving);
      OneMoreItem(x, y, l, q, Retained(x[l]), rest, leaving);
      script := [Retained(x[l])] + rest;
    } else if l < |x| && Least(x, y, l, q) == 1 + Least(x, y, l + 1, q) {
      var rest := LeastScript(x, y, l + 1, q, leaving);
      var item := Edit(Change(leaving, x[l], l));
      OneMoreItem(x, y, l, q, item, rest, leaving);
      script := [item] + rest;
    } else {
      var rest := LeastScript(x, y, l, q + 1, leaving);
      var item := Edit(Change(Other(leaving), y[q], q));
      OneMoreItem(x, y, l, q, item, rest, leaving);
      script := [item] + rest;
    }
  }

  /** Decided by counting: a shortest script is found exactly if the table has as few changes with its band as
      without it. */
  lemma FindsShortestIff<T(!new)>(old_: seq<T>, new_: seq<T>)
    ensures FindsShortest(old_, new_) <==> Distance(old_, new_) <= Least(old_, new_, 0, 0)
  {
    var script := LeastScript(old_, new_, 0, 0, Deleted);
    forall other: seq<Item<T>> | Spells(old_, new_, 0, 0, other, Deleted) ensures Edits(other) >= Least(old_, new_, 0, 0) {
      NoneBelowLeast(old_, new_, 0, 0, other, Deleted);
    }
  }

  /** A script of at most four changes for arrays of one length, or of at most two more changes than the
      lengths differ by, is a shortest one. */
  lemma FewChangesAreLeast<T(!new)>(old_: seq<T>, new_: seq<T>)
    requires Distance(old_, new_) <= if |old_| == |new_| then 4 else Max(|old_|, |new_|) - Min(|old_|, |new_|) + 2
    ensures FindsShortest(old_, new_)
  {
    ShortestIffLeast(old_, new_);
    if |old_| < |new_| { LeastIfFew(old_, new_, Deleted); } else { LeastIfFew(new_, old_, Added); }
  }

  /** With four more than the lengths differ by it need not be: five changes are found where three would do. */
  lemma FiveForThree(x: seq<int>, y: seq<int>, script: seq<Item<int>>)
    requires x == [1, 2] && y == [3, 3, 1]
    requires script == [Edit(Change(Added, 3, 0)), Edit(Change(Added, 3, 1)), Retained(1), Edit(Change(Deleted, 2, 1))]
    ensures Distance(x, y) == 5 && Spells(x, y, 0, 0, script, Deleted) && Edits(script) == 3
  {
    assert Cell(x, y, 0, 0) == 1 && Cell(x, y, 0, 1) == 2 && Cell(x, y, 1, 0) == 2;
    assert Cell(x, y, 1, 1) == 3;
    assert Cell(x, y, 1, 2) == 4 && Cell(x, y, 2, 1) == 4;
    assert Cell(x, y, 2, 2) == 5;
    assert Cell(x, y, 2, 3) == 6;
    var s1, s2, s3 := script[1..], script[2..], script[3..];
    assert s1[1..] == s2 && s2[1..] == s3 && s3[1..] == [];
    assert Spells(x, y, 2, 3, [], Deleted) && Edits(s3) == 1;
    assert Spells(x, y, 1, 3, s3, Deleted);
    assert Spells(x, y, 0, 2, s2, Deleted) && Edits(s2) == 1;
    assert Spells(x, y, 0, 1, s1, Deleted) && Edits(s1) == 2;
  }
}
