/** The array comparison of the map client: a banded edit-distance table, the walk back
    through it that yields an edit script, and the pairing of moved values. */
module ArrayDiff {

  import opened Common

  datatype Status = Added | Deleted

  /** One change: `value` stands at `index` of the new array if added, of the old one if deleted. */
  datatype Change<T> = Change(status: Status, value: T, index: nat)

  /** An element of a script; `Retained` occurs only when the caller did not ask for a sparse one. */
  datatype Item<T> = Edit(change: Change<T>) | Retained(value: T)

  /** The object that carries a change; the pairing writes `moved`. */
  class Entry<T> {
    const change: Change<T>
    var moved: Option<nat>

    constructor (change: Change<T>)
      ensures this.change == change && moved == None
    {
      this.change, moved := change, None;
    }
  }

  // ----- what a script means -----

  /** The changes of one status, in script order. */
  function Changes<T>(script: seq<Item<T>>, status: Status): seq<Change<T>> {
    if script == [] then []
    else if script[0].Edit? && script[0].change.status == status then
      [script[0].change] + Changes(script[1..], status)
    else
      Changes(script[1..], status)
  }

  /** The array that a full script spells on the side of `status`: its retained values and those changes. */
  function Side<T>(script: seq<Item<T>>, status: Status): seq<T> {
    if script == [] then []
    else match script[0]
      case Retained(v) => [v] + Side(script[1..], status)
      case Edit(e) => (if e.status == status then [e.value] else []) + Side(script[1..], status)
  }

  /** Rebuilds the other array from `source[i..]`, the entries that leave it and the entries that
      come in, with `j` elements already written. Only `source` and the entries are read. */
  function Replay<T>(source: seq<T>, i: nat, j: nat, leaving: seq<Change<T>>, coming: seq<Change<T>>): seq<T>
    decreases |source| - i, |coming|
  {
    if coming != [] && coming[0].index == j then
      [coming[0].value] + Replay(source, i, j + 1, leaving, coming[1..])
    else if i >= |source| then []
    else if leaving != [] && leaving[0].index == i then
      Replay(source, i + 1, j, leaving[1..], coming)
    else
      [source[i]] + Replay(source, i + 1, j + 1, leaving, coming)
  }

  /** Applies a script to an array. */
  function Patch<T>(source: seq<T>, script: seq<Item<T>>): seq<T> {
    Replay(source, 0, 0, Changes(script, Deleted), Changes(script, Added))
  }

  /** Undoes a script. */
  function Unpatch<T>(target: seq<T>, script: seq<Item<T>>): seq<T> {
    Replay(target, 0, 0, Changes(script, Added), Changes(script, Deleted))
  }

  /** A script turns `old` into `new`, and back. */
  predicate Relates<T(==)>(script: seq<Item<T>>, old_: seq<T>, new_: seq<T>) {
    Patch(old_, script) == new_ && Unpatch(new_, script) == old_
  }

  /** An entry that leaves at the current position is skipped whatever comes in before it. */
  lemma {:induction false} SkipLeaving<T>(source: seq<T>, i: nat, j: nat, leaving: seq<Change<T>>, coming: seq<Change<T>>)
    requires leaving != [] && leaving[0].index == i < |source|
    ensures Replay(source, i, j, leaving, coming) == Replay(source, i + 1, j, leaving[1..], coming)
    decreases |coming|
  {
    if coming != [] && coming[0].index == j {
      SkipLeaving(source, i, j + 1, leaving, coming[1..]);
    }
  }

  // ----- the banded table -----

  /** How far right of the diagonal a row of the table reaches. */
  function Range(p: nat, n: nat): nat
    requires p <= n
  {
    if n - p != 0 then n - p else 1
  }

  predicate InBand(p: nat, n: nat, l: int, q: int)
    requires p <= n
  {
    0 <= l <= p && 0 <= q <= n && l - 1 <= q <= l + Range(p, n)
  }

  /** The banded distance plus one: the value the table holds at row `l`, column `q`. */
  function Cell<T(==)>(x: seq<T>, y: seq<T>, l: nat, q: nat): (c: nat)
    requires |x| <= |y| && InBand(|x|, |y|, l, q)
    ensures 1 <= c <= l + q + 1
    decreases l + q
  {
    if q == 0 then l + 1
    else if l == 0 then q + 1
    else if x[l - 1] == y[q - 1] then Cell(x, y, l - 1, q - 1)
    else if !InBand(|x|, |y|, l - 1, q) then Cell(x, y, l, q - 1) + 1
    else if !InBand(|x|, |y|, l, q - 1) then Cell(x, y, l - 1, q) + 1
    else Min(Cell(x, y, l - 1, q), Cell(x, y, l, q - 1)) + 1
  }

  // ----- the least number of changes -----

  datatype Step = Add | Delete | Keep

  /** An alignment of `x[..l]` with `y[..q]` that never leaves the band. */
  predicate Aligns<T(==)>(x: seq<T>, y: seq<T>, steps: seq<Step>, l: int, q: int)
    requires |x| <= |y|
  {
    InBand(|x|, |y|, l, q) &&
    if steps == [] then l == 0 && q == 0
    else
      var before := steps[..|steps| - 1];
      match steps[|steps| - 1]
      case Add => Aligns(x, y, before, l, q - 1)
      case Delete => Aligns(x, y, before, l - 1, q)
      case Keep => l > 0 && q > 0 && x[l - 1] == y[q - 1] && Aligns(x, y, before, l - 1, q - 1)
  }

  function Cost(steps: seq<Step>): nat {
    if steps == [] then 0
    else Cost(steps[..|steps| - 1]) + (if steps[|steps| - 1] == Keep then 0 else 1)
  }

  /** Cells above each other differ by at most one. */
  lemma {:induction false} SmoothUp<T>(x: seq<T>, y: seq<T>, l: nat, q: nat)
    requires |x| <= |y| && InBand(|x|, |y|, l, q) && InBand(|x|, |y|, l - 1, q)
    ensures -1 <= Cell(x, y, l, q) - Cell(x, y, l - 1, q) <= 1
    decreases l + q
  {
    if q > 0 {
      if InBand(|x|, |y|, l - 1, q - 1) { SmoothLeft(x, y, l - 1, q); }
      if InBand(|x|, |y|, l, q - 1) { SmoothUp(x, y, l, q - 1); }
    }
  }

  /** Cells beside each other differ by at most one. */
  lemma {:induction false} SmoothLeft<T>(x: seq<T>, y: seq<T>, l: nat, q: nat)
    requires |x| <= |y| && InBand(|x|, |y|, l, q) && InBand(|x|, |y|, l, q - 1)
    ensures -1 <= Cell(x, y, l, q) - Cell(x, y, l, q - 1) <= 1
    decreases l + q
  {
    if l > 0 {
      if InBand(|x|, |y|, l - 1, q) { SmoothLeft(x, y, l - 1, q); }
      if InBand(|x|, |y|, l - 1, q - 1) { SmoothUp(x, y, l, q - 1); }
    }
  }

  /** No alignment inside the band is cheaper than the table says. */
  lemma {:induction false} TableIsLeast<T>(x: seq<T>, y: seq<T>, steps: seq<Step>, l: nat, q: nat)
    requires |x| <= |y| && Aligns(x, y, steps, l, q)
    ensures Cost(steps) >= Cell(x, y, l, q) - 1
    decreases |steps|
  {
    if steps != [] {
      var before := steps[..|steps| - 1];
      if InBand(|x|, |y|, l - 1, q) { SmoothUp(x, y, l, q); }
      if InBand(|x|, |y|, l, q - 1) { SmoothLeft(x, y, l, q); }
      match steps[|steps| - 1]
      case Add => TableIsLeast(x, y, before, l, q - 1);
      case Delete => TableIsLeast(x, y, before, l - 1, q);
      case Keep => TableIsLeast(x, y, before, l - 1, q - 1);
    }
  }

  /** Some alignment inside the band costs exactly what the table says. */
  lemma {:induction false} TableIsAttained<T>(x: seq<T>, y: seq<T>, l: nat, q: nat) returns (steps: seq<Step>)
    requires |x| <= |y| && InBand(|x|, |y|, l, q)
    ensures Aligns(x, y, steps, l, q) && Cost(steps) == Cell(x, y, l, q) - 1
    decreases l + q
  {
    if l == 0 && q == 0 {
      return [];
    }
    var before, last;
    if q > 0 && InBand(|x|, |y|, l, q - 1) && Cell(x, y, l, q) == Cell(x, y, l, q - 1) + 1 {
      before := TableIsAttained(x, y, l, q - 1);
      last := Add;
    } else if l > 0 && InBand(|x|, |y|, l - 1, q) && Cell(x, y, l, q) == Cell(x, y, l - 1, q) + 1 {
      before := TableIsAttained(x, y, l - 1, q);
      last := Delete;
    } else {
      before := TableIsAttained(x, y, l - 1, q - 1);
      last := Keep;
    }
    steps := before + [last];
    assert steps[..|steps| - 1] == before;
  }

  // ----- pairing of moved values -----

  /** The indices of the changes are distinct: `place` leads from each back to where it stands. */
  ghost predicate Placed<T>(entries: seq<Entry<T>>, place: map<nat, nat>) {
    forall k :: 0 <= k < |entries| ==> entries[k].change.index in place && place[entries[k].change.index] == k
  }

  /** The two lists hold changes of different status. */
  predicate Opposite<T>(left: seq<Entry<T>>, right: seq<Entry<T>>) {
    left != [] && right != [] ==>
      && left[0].change.status != right[0].change.status
      && (forall k :: 0 <= k < |left| ==> left[k].change.status == left[0].change.status)
      && (forall j :: 0 <= j < |right| ==> right[j].change.status == right[0].change.status)
  }

  /** The marks that a list of changes carries. */
  ghost function Moves<T>(entries: seq<Entry<T>>): (moves: seq<Option<nat>>)
    reads entries
    ensures |moves| == |entries|
    ensures forall k :: 0 <= k < |entries| ==> moves[k] == entries[k].moved
  {
    seq(|entries|, k requires 0 <= k < |entries| reads entries => entries[k].moved)
  }

  ghost predicate AllNone(moves: seq<Option<nat>>) {
    forall k :: 0 <= k < |moves| ==> moves[k] == None
  }

  /** How the entries of two lists are paired: `to` leads from places in the left list to places in the
      right one, `back` the other way. `at` are the places of the unpaired part of the right list and
      `slot` their numbers there; `missed` are the values of the left list that found no partner. */
  datatype Pairing<T> = Pairing(to: map<int, int>, back: map<int, int>, at: seq<int>, slot: map<int, int>, missed: set<T>)

  /** The marks are a matching of equal values: `to` and `back` are inverse to each other, they are
      defined exactly on the marked changes, and partners name each other by index. */
  ghost predicate Matched<T>(left: seq<Entry<T>>, right: seq<Entry<T>>, leftMoves: seq<Option<nat>>,
                             rightMoves: seq<Option<nat>>, to: map<int, int>, back: map<int, int>)
    requires |left| == |leftMoves| && |right| == |rightMoves|
  {
    && (forall k :: k in to ==> 0 <= k < |left| && to[k] in back && back[to[k]] == k)
    && (forall j :: j in back ==> 0 <= j < |right| && back[j] in to && to[back[j]] == j)
    && (forall k :: 0 <= k < |left| ==> (leftMoves[k].Some? <==> k in to))
    && (forall j :: 0 <= j < |right| ==> (rightMoves[j].Some? <==> j in back))
    && (forall k :: k in to ==>
          && left[k].change.value == right[to[k]].change.value
          && leftMoves[k] == Some(right[to[k]].change.index)
          && rightMoves[to[k]] == Some(left[k].change.index))
  }

  /** `free` is the unmarked part of `right`. */
  ghost predicate Free<T>(right: seq<Entry<T>>, rightMoves: seq<Option<nat>>, free: seq<Entry<T>>, at: seq<int>, slot: map<int, int>)
    requires |right| == |rightMoves|
  {
    && |free| == |at| <= |right|
    && (forall g :: 0 <= g < |free| ==> 0 <= at[g] < |right| && free[g] == right[at[g]] && at[g] in slot && slot[at[g]] == g)
    && (forall j :: 0 <= j < |right| ==> (rightMoves[j] == None <==> j in slot))
    && (forall j :: j in slot ==> 0 <= slot[j] < |free| && at[slot[j]] == j)
  }

  /** Between two turns of the pairing, when the first `l` entries of `left` have been compared. */
  ghost predicate Turn<T>(left: seq<Entry<T>>, right: seq<Entry<T>>, leftMoves: seq<Option<nat>>, rightMoves: seq<Option<nat>>,
                          p: Pairing<T>, free: seq<Entry<T>>, l: nat)
    requires |left| == |leftMoves| && |right| == |rightMoves| && l <= |left|
  {
    && Free(right, rightMoves, free, p.at, p.slot)
    && Matched(left, right, leftMoves, rightMoves, p.to, p.back)
    && (forall k :: 0 <= k < l && leftMoves[k] == None ==> left[k].change.value in p.missed)
    && (forall g :: 0 <= g < |free| ==> free[g].change.value !in p.missed)
    && (forall k :: l <= k < |left| ==> leftMoves[k] == None)
  }

  /** No unmarked change of `left[..l]` has the value of an unmarked change of `right`. */
  ghost predicate Exhausted<T>(left: seq<Entry<T>>, right: seq<Entry<T>>, leftMoves: seq<Option<nat>>,
                               rightMoves: seq<Option<nat>>, l: nat)
    requires |left| == |leftMoves| && |right| == |rightMoves| && l <= |left|
  {
    forall k, j :: 0 <= k < l && 0 <= j < |right| && leftMoves[k] == None && rightMoves[j] == None ==>
      left[k].change.value != right[j].change.value
  }

  function Identity(n: nat): (m: map<int, int>)
    ensures forall j :: j in m <==> 0 <= j < n
    ensures forall j :: j in m ==> m[j] == j
  {
    if n == 0 then map[] else Identity(n - 1)[n - 1 := n - 1]
  }

  lemma TurnStart<T>(left: seq<Entry<T>>, right: seq<Entry<T>>, leftMoves: seq<Option<nat>>, rightMoves: seq<Option<nat>>)
    returns (p: Pairing<T>)
    requires |left| == |leftMoves| && |right| == |rightMoves| && AllNone(leftMoves) && AllNone(rightMoves)
    ensures Turn(left, right, leftMoves, rightMoves, p, right, 0) && p.to == map[] && p.back == map[] && IsSorted(p.at)
  {
    p := Pairing(map[], map[], seq(|right|, j => j), Identity(|right|), {});
  }

  /** The list without its element `g`, as `splice(g, 1)` leaves it. */
  function Without<A>(list: seq<A>, g: nat): (rest: seq<A>)
    requires g < |list|
    ensures |rest| == |list| - 1
    ensures forall k :: 0 <= k < |rest| ==> rest[k] == list[if k < g then k else k + 1]
  {
    list[..g] + list[g + 1..]
  }

  lemma FreeWithout<T>(right: seq<Entry<T>>, moves: seq<Option<nat>>, free: seq<Entry<T>>, at: seq<int>, slot: map<int, int>,
                       g: nat, mark: nat)
    returns (slot': map<int, int>)
    requires |right| == |moves| && Free(right, moves, free, at, slot) && g < |free|
    ensures Free(right, moves[at[g] := Some(mark)], Without(free, g), Without(at, g), slot')
  {
    var free', at' := Without(free, g), Without(at, g);
    slot' := map i | i in slot && i != at[g] :: if slot[i] < g then slot[i] else slot[i] - 1;
    forall h | 0 <= h < |free'|
      ensures 0 <= at'[h] < |right| && free'[h] == right[at'[h]] && at'[h] in slot' && slot'[at'[h]] == h
    {
      var h' := if h < g then h else h + 1;
      assert slot[at[h']] == h';
    }
    forall j | j in slot' ensures 0 <= slot'[j] < |free'| && at'[slot'[j]] == j {
      assert slot[j] != g;
    }
  }

  lemma MatchedMore<T>(left: seq<Entry<T>>, right: seq<Entry<T>>, leftMoves: seq<Option<nat>>, rightMoves: seq<Option<nat>>,
                       to: map<int, int>, back: map<int, int>, l: nat, j: nat)
    requires |left| == |leftMoves| && |right| == |rightMoves| && l < |left| && j < |right|
    requires Matched(left, right, leftMoves, rightMoves, to, back)
    requires leftMoves[l] == None && rightMoves[j] == None && left[l].change.value == right[j].change.value
    ensures Matched(left, right, leftMoves[l := Some(right[j].change.index)], rightMoves[j := Some(left[l].change.index)],
                    to[l := j], back[j := l])
  {
  }

  lemma TurnFound<T>(left: seq<Entry<T>>, right: seq<Entry<T>>, leftMoves: seq<Option<nat>>, rightMoves: seq<Option<nat>>,
                     p: Pairing<T>, free: seq<Entry<T>>, l: nat, g: nat)
    returns (p': Pairing<T>)
    requires |left| == |leftMoves| && |right| == |rightMoves| && l < |left| && g < |free|
    requires Turn(left, right, leftMoves, rightMoves, p, free, l)
    requires left[l].change.value == free[g].change.value
    ensures |p.at| == |free| && 0 <= p.at[g] < |right| && right[p.at[g]] == free[g]
    ensures Turn(left, right, leftMoves[l := Some(free[g].change.index)], rightMoves[p.at[g] := Some(left[l].change.index)],
                 p', Without(free, g), l + 1)
    ensures p'.to == p.to[l := p.at[g]] && p'.back == p.back[p.at[g] := l] && p'.at == Without(p.at, g)
  {
    var j := p.at[g];
    MatchedMore(left, right, leftMoves, rightMoves, p.to, p.back, l, j);
    var slot := FreeWithout(right, rightMoves, free, p.at, p.slot, g, left[l].change.index);
    p' := Pairing(p.to[l := j], p.back[j := l], Without(p.at, g), slot, p.missed);
  }

  lemma TurnMissed<T>(left: seq<Entry<T>>, right: seq<Entry<T>>, leftMoves: seq<Option<nat>>, rightMoves: seq<Option<nat>>,
                      p: Pairing<T>, free: seq<Entry<T>>, l: nat)
    returns (p': Pairing<T>)
    requires |left| == |leftMoves| && |right| == |rightMoves| && l < |left|
    requires Turn(left, right, leftMoves, rightMoves, p, free, l)
    requires forall g :: 0 <= g < |free| ==> free[g].change.value != left[l].change.value
    ensures Turn(left, right, leftMoves, rightMoves, p', free, l + 1)
    ensures p'.to == p.to && p'.back == p.back && p'.at == p.at
  {
    p' := p.(missed := p.missed + {left[l].change.value});
  }

  /** The first of `free` with the value of `a`, or their number. */
  method FirstEqual<T(==)>(a: Entry<T>, free: seq<Entry<T>>) returns (g: nat)
    ensures g <= |free| && (g < |free| ==> free[g].change.value == a.change.value)
    ensures forall k :: 0 <= k < g ==> free[k].change.value != a.change.value
  {
    g := 0;
    while g < |free|
      invariant g <= |free|
      invariant forall k :: 0 <= k < g ==> free[k].change.value != a.change.value
    {
      var b := free[g];
      if a.change.value == b.change.value {
        break;
      }
      g := g + 1;
    }
  }

  /** Makes two changes name each other. */
  method Pair<T>(a: Entry<T>, b: Entry<T>, ghost left: seq<Entry<T>>, ghost l: nat, ghost right: seq<Entry<T>>, ghost j: nat,
                 ghost leftPlace: map<nat, nat>, ghost rightPlace: map<nat, nat>)
    requires l < |left| && j < |right| && left[l] == a && right[j] == b
    requires Placed(left, leftPlace) && Placed(right, rightPlace) && Opposite(left, right)
    modifies a, b
    ensures Moves(left) == old(Moves(left))[l := Some(b.change.index)]
    ensures Moves(right) == old(Moves(right))[j := Some(a.change.index)]
  {
    a.moved, b.moved := Some(b.change.index), Some(a.change.index);
  }

  /** The most comparisons that `turns` entries of one list need with `width` entries of the other. */
  function Comparisons(turns: nat, width: nat): nat {
    if turns == 0 then 0 else Comparisons(turns - 1, width) + width
  }

  // ----- which entries are paired -----

  /** Every entry of `left[..tried]` takes the first entry of `right` that has its value and that no entry
      before it has taken, and goes without only if there is none. */
  ghost predicate Greedy<T>(left: seq<Entry<T>>, right: seq<Entry<T>>, to: map<int, int>, back: map<int, int>, tried: nat) {
    && (forall k :: k in to ==> k < tried)
    && (forall k, j :: (0 <= k < tried && k < |left| && 0 <= j < |right| && left[k].change.value == right[j].change.value
                         && (j !in back || back[j] >= k)) ==> (k in to && to[k] <= j))
  }

  /** How many of the first `l` entries are paired. */
  function PairedBefore(to: map<int, int>, l: nat): nat {
    if l == 0 then 0 else PairedBefore(to, l - 1) + if l - 1 in to then 1 else 0
  }

  /** The comparisons that have failed since the last pair: each entry without a partner is compared with all
      of `width` that are free. */
  function Failed(to: map<int, int>, l: nat, width: int): int {
    if l == 0 || l - 1 in to then 0 else Failed(to, l - 1, width) + width - PairedBefore(to, l - 1)
  }

  /** Before turn `l` the failures have never reached the limit. */
  ghost predicate GoesOn(to: map<int, int>, l: nat, width: int, limit: nat) {
    limit == 0 || forall m :: 0 <= m < l ==> Failed(to, m, width) < limit
  }

  /** The pairing stops after `tried` of `count` entries: after all, or as soon as the failures reach the limit. */
  ghost predicate StopsAfter(to: map<int, int>, tried: nat, count: nat, width: int, limit: nat) {
    tried <= count && GoesOn(to, tried, width, limit) && (tried == count || 0 < limit <= Failed(to, tried, width))
  }

  lemma {:induction false} LaterPair(to: map<int, int>, l: nat, j: int, m: nat, width: int)
    requires m <= l
    ensures PairedBefore(to[l := j], m) == PairedBefore(to, m) && Failed(to[l := j], m, width) == Failed(to, m, width)
  {
    if m > 0 {
      LaterPair(to, l, j, m - 1, width);
    }
  }

  lemma GoesOnPast(to: map<int, int>, l: nat, j: int, width: int, limit: nat)
    requires GoesOn(to, l, width, limit) && (limit == 0 || Failed(to, l, width) < limit)
    ensures GoesOn(to, l + 1, width, limit) && GoesOn(to[l := j], l + 1, width, limit)
  {
    if limit != 0 {
      forall m {:trigger Failed(to[l := j], m, width)} | 0 <= m < l + 1 ensures Failed(to[l := j], m, width) < limit {
        LaterPair(to, l, j, m, width);
      }
    }
  }

  lemma {:induction false} NothingFails(l: nat)
    ensures Failed(map[], l, 0) == 0 && PairedBefore(map[], l) == 0
  {
    if l > 0 {
      NothingFails(l - 1);
    }
  }

  predicate IsSorted(at: seq<int>) {
    forall g, h :: 0 <= g < h < |at| ==> at[g] < at[h]
  }

  lemma SortedWithout(at: seq<int>, g: nat)
    requires g < |at| && IsSorted(at)
    ensures IsSorted(Without(at, g))
  {
  }

  lemma NoneAfter<T>(left: seq<Entry<T>>, right: seq<Entry<T>>, leftMoves: seq<Option<nat>>, rightMoves: seq<Option<nat>>,
                     p: Pairing<T>, free: seq<Entry<T>>, l: nat)
    requires |left| == |leftMoves| && |right| == |rightMoves| && l < |left|
    requires Turn(left, right, leftMoves, rightMoves, p, free, l)
    ensures forall k :: k in p.to ==> k < l
    ensures forall j :: 0 <= j < |right| && (j in p.back ==> p.back[j] >= l) ==> j in p.slot && free[p.slot[j]] == right[j]
  {
  }

  lemma GreedyMissed<T>(left: seq<Entry<T>>, right: seq<Entry<T>>, leftMoves: seq<Option<nat>>, rightMoves: seq<Option<nat>>,
                        p: Pairing<T>, free: seq<Entry<T>>, l: nat)
    requires |left| == |leftMoves| && |right| == |rightMoves| && l < |left|
    requires Turn(left, right, leftMoves, rightMoves, p, free, l) && Greedy(left, right, p.to, p.back, l)
    requires forall g :: 0 <= g < |free| ==> free[g].change.value != left[l].change.value
    ensures Greedy(left, right, p.to, p.back, l + 1)
  {
    NoneAfter(left, right, leftMoves, rightMoves, p, free, l);
  }

  lemma GreedyFound<T>(left: seq<Entry<T>>, right: seq<Entry<T>>, leftMoves: seq<Option<nat>>, rightMoves: seq<Option<nat>>,
                       p: Pairing<T>, free: seq<Entry<T>>, l: nat, g: nat)
    requires |left| == |leftMoves| && |right| == |rightMoves| && l < |left| && g < |free|
    requires Turn(left, right, leftMoves, rightMoves, p, free, l) && Greedy(left, right, p.to, p.back, l)
    requires IsSorted(p.at) && left[l].change.value == free[g].change.value
    requires forall h :: 0 <= h < g ==> free[h].change.value != left[l].change.value
    ensures Greedy(left, right, p.to[l := p.at[g]], p.back[p.at[g] := l], l + 1)
  {
    NoneAfter(left, right, leftMoves, rightMoves, p, free, l);
  }

  /** The pairing of two lists, complete: it determines every mark. */
  ghost predicate IsPairing<T>(left: seq<Entry<T>>, right: seq<Entry<T>>, leftMoves: seq<Option<nat>>, rightMoves: seq<Option<nat>>,
                               to: map<int, int>, back: map<int, int>, tried: nat, limit: nat)
    requires |left| == |leftMoves| && |right| == |rightMoves|
  {
    && Matched(left, right, leftMoves, rightMoves, to, back)
    && Greedy(left, right, to, back, tried)
    && StopsAfter(to, tried, |left|, |right|, limit)
  }

  lemma PairingExhausts<T>(left: seq<Entry<T>>, right: seq<Entry<T>>, leftMoves: seq<Option<nat>>, rightMoves: seq<Option<nat>>,
                           to: map<int, int>, back: map<int, int>, tried: nat, limit: nat)
    requires |left| == |leftMoves| && |right| == |rightMoves|
    requires IsPairing(left, right, leftMoves, rightMoves, to, back, tried, limit)
    ensures Exhausted(left, right, leftMoves, rightMoves, tried)
  {
  }

  lemma {:induction false} FailedAtMost(to: map<int, int>, l: nat, width: nat)
    ensures Failed(to, l, width) <= l * width
  {
    if l > 0 {
      FailedAtMost(to, l - 1, width);
    }
  }

  /** Where so many comparisons cannot fail, every equal pair is found. */
  lemma PairingIsFull<T>(left: seq<Entry<T>>, right: seq<Entry<T>>, leftMoves: seq<Option<nat>>, rightMoves: seq<Option<nat>>,
                         to: map<int, int>, back: map<int, int>, tried: nat, limit: nat)
    requires |left| == |leftMoves| && |right| == |rightMoves|
    requires IsPairing(left, right, leftMoves, rightMoves, to, back, tried, limit)
    requires limit == 0 || |left| * |right| < limit
    ensures tried == |left| && Exhausted(left, right, leftMoves, rightMoves, |left|)
  {
    FailedAtMost(to, tried, |right|);
    TriedTimesWidth(tried, |left|, |right|);
    PairingExhausts(left, right, leftMoves, rightMoves, to, back, tried, limit);
  }

  lemma TriedTimesWidth(m: nat, n: nat, width: nat)
    requires m <= n
    ensures m * width <= n * width
  {
  }

  lemma {:induction false} FailedComparisons(to: map<int, int>, l: nat, width: nat)
    ensures Failed(to, l, width) <= Comparisons(l, width)
  {
    if l > 0 {
      FailedComparisons(to, l - 1, width);
    }
  }

  /** Between two turns, with all that has been decided. */
  ghost predicate InTurn<T>(left: seq<Entry<T>>, right: seq<Entry<T>>, leftMoves: seq<Option<nat>>, rightMoves: seq<Option<nat>>,
                            p: Pairing<T>, free: seq<Entry<T>>, l: nat, failed: nat, limit: nat)
    requires |left| == |leftMoves| && |right| == |rightMoves| && l <= |left|
  {
    && Turn(left, right, leftMoves, rightMoves, p, free, l)
    && IsSorted(p.at) && Greedy(left, right, p.to, p.back, l)
    && |free| == |right| - PairedBefore(p.to, l) && failed == Failed(p.to, l, |right|)
    && GoesOn(p.to, l, |right|, limit)
  }

  lemma InTurnStart<T>(left: seq<Entry<T>>, right: seq<Entry<T>>, leftMoves: seq<Option<nat>>, rightMoves: seq<Option<nat>>,
                       limit: nat)
    returns (p: Pairing<T>)
    requires |left| == |leftMoves| && |right| == |rightMoves| && AllNone(leftMoves) && AllNone(rightMoves)
    ensures InTurn(left, right, leftMoves, rightMoves, p, right, 0, 0, limit)
  {
    p := TurnStart(left, right, leftMoves, rightMoves);
  }

  lemma InTurnFound<T>(left: seq<Entry<T>>, right: seq<Entry<T>>, leftMoves: seq<Option<nat>>, rightMoves: seq<Option<nat>>,
                       p: Pairing<T>, free: seq<Entry<T>>, l: nat, g: nat, failed: nat, limit: nat)
    returns (p': Pairing<T>)
    requires |left| == |leftMoves| && |right| == |rightMoves| && l < |left| && g < |free|
    requires InTurn(left, right, leftMoves, rightMoves, p, free, l, failed, limit) && (limit == 0 || failed < limit)
    requires left[l].change.value == free[g].change.value
    requires forall h :: 0 <= h < g ==> free[h].change.value != left[l].change.value
    ensures |p.at| == |free| && 0 <= p.at[g] < |right| && right[p.at[g]] == free[g]
    ensures InTurn(left, right, leftMoves[l := Some(free[g].change.index)], rightMoves[p.at[g] := Some(left[l].change.index)],
                   p', Without(free, g), l + 1, 0, limit)
  {
    var j := p.at[g];
    GoesOnPast(p.to, l, j, |right|, limit);
    LaterPair(p.to, l, j, l, |right|);
    GreedyFound(left, right, leftMoves, rightMoves, p, free, l, g);
    SortedWithout(p.at, g);
    p' := TurnFound(left, right, leftMoves, rightMoves, p, free, l, g);
  }

  lemma InTurnMissed<T>(left: seq<Entry<T>>, right: seq<Entry<T>>, leftMoves: seq<Option<nat>>, rightMoves: seq<Option<nat>>,
                        p: Pairing<T>, free: seq<Entry<T>>, l: nat, failed: nat, limit: nat)
    returns (p': Pairing<T>)
    requires |left| == |leftMoves| && |right| == |rightMoves| && l < |left|
    requires InTurn(left, right, leftMoves, rightMoves, p, free, l, failed, limit) && (limit == 0 || failed < limit)
    requires forall g :: 0 <= g < |free| ==> free[g].change.value != left[l].change.value
    ensures InTurn(left, right, leftMoves, rightMoves, p', free, l + 1, failed + |free|, limit)
  {
    NoneAfter(left, right, leftMoves, rightMoves, p, free, l);
    GoesOnPast(p.to, l, 0, |right|, limit);
    GreedyMissed(left, right, leftMoves, rightMoves, p, free, l);
    p' := TurnMissed(left, right, leftMoves, rightMoves, p, free, l);
  }

  lemma InTurnEnds<T>(left: seq<Entry<T>>, right: seq<Entry<T>>, leftMoves: seq<Option<nat>>, rightMoves: seq<Option<nat>>,
                      p: Pairing<T>, free: seq<Entry<T>>, l: nat, failed: nat, limit: nat)
    requires |left| == |leftMoves| && |right| == |rightMoves| && l <= |left|
    requires InTurn(left, right, leftMoves, rightMoves, p, free, l, failed, limit) && (l == |left| || 0 < limit <= failed)
    ensures IsPairing(left, right, leftMoves, rightMoves, p.to, p.back, l, limit)
  {
  }

  lemma PairingEnds<T>(left: seq<Entry<T>>, right: seq<Entry<T>>, leftMoves: seq<Option<nat>>, rightMoves: seq<Option<nat>>,
                       to: map<int, int>, back: map<int, int>, tried: nat, limit: nat)
    requires |left| == |leftMoves| && |right| == |rightMoves|
    requires IsPairing(left, right, leftMoves, rightMoves, to, back, tried, limit)
    ensures tried <= |left| && forall k :: tried <= k < |left| ==> leftMoves[k] == None
    ensures Exhausted(left, right, leftMoves, rightMoves, tried)
    ensures tried == |left| || 0 < limit <= Comparisons(tried, |right|)
  {
    PairingExhausts(left, right, leftMoves, rightMoves, to, back, tried, limit);
    FailedComparisons(to, tried, |right|);
  }

  lemma NothingToPair<T>(left: seq<Entry<T>>, right: seq<Entry<T>>, leftMoves: seq<Option<nat>>, rightMoves: seq<Option<nat>>,
                         limit: nat)
    requires |left| == |leftMoves| && |right| == |rightMoves| && AllNone(leftMoves) && AllNone(rightMoves)
    requires left == [] || right == []
    ensures IsPairing(left, right, leftMoves, rightMoves, map[], map[], |left|, limit)
  {
    forall m: nat | m <= |left| ensures Failed(map[], m, 0) == 0 {
      NothingFails(m);
    }
  }

  /** Pairs entry `l` of `left` with free entry `g`. */
  method PairTurn<T>(left: seq<Entry<T>>, l: nat, right: seq<Entry<T>>, free: seq<Entry<T>>, g: nat, ghost p: Pairing<T>,
                     ghost failed: nat, ghost limit: nat, ghost leftPlace: map<nat, nat>, ghost rightPlace: map<nat, nat>)
    returns (rest: seq<Entry<T>>, ghost p': Pairing<T>)
    requires l < |left| && g < |free|
    requires Placed(left, leftPlace) && Placed(right, rightPlace) && Opposite(left, right)
    requires InTurn(left, right, Moves(left), Moves(right), p, free, l, failed, limit) && (limit == 0 || failed < limit)
    requires left[l].change.value == free[g].change.value
    requires forall h :: 0 <= h < g ==> free[h].change.value != left[l].change.value
    modifies left, right
    ensures |rest| < |free|
    ensures InTurn(left, right, Moves(left), Moves(right), p', rest, l + 1, 0, limit)
  {
    p' := InTurnFound(left, right, Moves(left), Moves(right), p, free, l, g, failed, limit);
    Pair(left[l], free[g], left, l, right, p.at[g], leftPlace, rightPlace);
    rest := Without(free, g);
  }

  /** One turn of the pairing: the comparisons that have failed since the last pair, and what is still free. */
  method OneTurn<T(==)>(left: seq<Entry<T>>, l: nat, right: seq<Entry<T>>, free: seq<Entry<T>>, failed: nat, ghost p: Pairing<T>,
                        ghost limit: nat, ghost leftPlace: map<nat, nat>, ghost rightPlace: map<nat, nat>)
    returns (rest: seq<Entry<T>>, failures: nat, ghost p': Pairing<T>)
    requires l < |left| && Placed(left, leftPlace) && Placed(right, rightPlace) && Opposite(left, right)
    requires InTurn(left, right, Moves(left), Moves(right), p, free, l, failed, limit) && (limit == 0 || failed < limit)
    modifies left, right
    ensures InTurn(left, right, Moves(left), Moves(right), p', rest, l + 1, failures, limit)
  {
    var a := left[l];
    var g := FirstEqual(a, free);
    if g < |free| {
      rest, p' := PairTurn(left, l, right, free, g, p, failed, limit, leftPlace, rightPlace);
      return rest, 0, p';
    }
    p' := InTurnMissed(left, right, Moves(left), Moves(right), p, free, l, failed, limit);
    return free, failed + g, p';
  }

  /** The turns of the pairing. */
  method PairAll<T(==)>(left: seq<Entry<T>>, right: seq<Entry<T>>, limit: nat,
                        ghost leftPlace: map<nat, nat>, ghost rightPlace: map<nat, nat>)
    returns (ghost tried: nat, ghost to: map<int, int>, ghost back: map<int, int>)
    requires Placed(left, leftPlace) && Placed(right, rightPlace) && Opposite(left, right)
    requires AllNone(Moves(left)) && AllNone(Moves(right))
    modifies left, right
    ensures IsPairing(left, right, Moves(left), Moves(right), to, back, tried, limit)
  {
    ghost var p := InTurnStart(left, right, Moves(left), Moves(right), limit);
    var free := right;
    var l, failed := 0, 0;
    while (limit == 0 || failed < limit) && l < |left|
      invariant l <= |left| && failed >= 0
      invariant InTurn(left, right, Moves(left), Moves(right), p, free, l, failed, limit)
    {
      free, failed, p := OneTurn(left, l, right, free, failed, p, limit, leftPlace, rightPlace);
      l := l + 1;
    }
    tried, to, back := l, p.to, p.back;
    InTurnEnds(left, right, Moves(left), Moves(right), p, free, l, failed, limit);
  }

  /** Pairs deleted with added entries of equal value. `limit` bounds the comparisons that fail in
      a row, 0 means no bound; the first `tried` entries of `left` have been compared. */
  method FindMoves<T(==)>(left: seq<Entry<T>>, right: seq<Entry<T>>, limit: nat,
                          ghost leftPlace: map<nat, nat>, ghost rightPlace: map<nat, nat>)
    returns (ghost tried: nat, ghost to: map<int, int>, ghost back: map<int, int>)
    requires Placed(left, leftPlace) && Placed(right, rightPlace) && Opposite(left, right)
    requires AllNone(Moves(left)) && AllNone(Moves(right))
    modifies left, right
    ensures Matched(left, right, Moves(left), Moves(right), to, back)
    ensures tried <= |left| && forall k :: tried <= k < |left| ==> left[k].moved == None
    ensures Exhausted(left, right, Moves(left), Moves(right), tried)
    ensures tried == |left| || right == [] || 0 < limit <= Comparisons(tried, |right|)
    ensures IsPairing(left, right, Moves(left), Moves(right), to, back, tried, limit)
  {
    tried, to, back := |left|, map[], map[];
    if |left| != 0 && |right| != 0 {
      tried, to, back := PairAll(left, right, limit, leftPlace, rightPlace);
    } else {
      NothingToPair(left, right, Moves(left), Moves(right), limit);
    }
    PairingEnds(left, right, Moves(left), Moves(right), to, back, tried, limit);
  }

  // ----- the comparison -----

  /** Row `l` of the table holds the cells of the band left of column `end`, and no others. */
  ghost predicate IsRow<T>(x: seq<T>, y: seq<T>, l: int, row: map<int, int>, end: int)
    requires |x| <= |y| && 0 <= l <= |x|
  {
    && (forall q {:trigger q in row} :: q in row <==> InBand(|x|, |y|, l, q) && q < end)
    && (forall q {:trigger row[q]} :: q in row ==> row[q] == Cell(x, y, l, q))
  }

  ghost predicate IsTable<T>(x: seq<T>, y: seq<T>, table: seq<map<int, int>>, rows: int)
    requires |x| <= |y| && rows <= |x| + 1
  {
    |table| == rows && forall l :: 0 <= l < rows ==> IsRow(x, y, l, table[l], |y| + 1)
  }

  /** A table entry, or `default` where the row has none. */
  function Or(row: map<int, int>, q: int, default: int): int {
    if q in row then row[q] else default
  }

  lemma RowGrows<T>(x: seq<T>, y: seq<T>, l: nat, q: nat, row: map<int, int>)
    requires |x| <= |y| && InBand(|x|, |y|, l, q) && IsRow(x, y, l, row, q)
    ensures IsRow(x, y, l, row[q := Cell(x, y, l, q)], q + 1)
  {
  }

  /** The cell computed from the row above and the row so far is the banded distance plus one. */
  lemma NextCell<T>(x: seq<T>, y: seq<T>, l: nat, q: nat, above: map<int, int>, row: map<int, int>)
    requires |x| <= |y| && InBand(|x|, |y|, l, q)
    requires IsRow(x, y, l, row, q) && (l > 0 ==> IsRow(x, y, l - 1, above, |y| + 1))
    ensures l > 0 && q > 0 && x[l - 1] == y[q - 1] ==> q - 1 in above && above[q - 1] == Cell(x, y, l, q)
    ensures l > 0 && q > 0 && x[l - 1] != y[q - 1] ==>
              Min(Or(above, q, |x| + |y| + 1), Or(row, q - 1, |x| + |y| + 1)) + 1 == Cell(x, y, l, q)
    ensures IsRow(x, y, l, row[q := Cell(x, y, l, q)], q + 1)
  {
    RowGrows(x, y, l, q, row);
    if l > 0 && q > 0 && x[l - 1] != y[q - 1] {
      assert q in above <==> InBand(|x|, |y|, l - 1, q);
      assert q - 1 in row <==> InBand(|x|, |y|, l, q - 1);
    }
  }

  /** Fills one row of the band from the row above; a missing neighbour counts as `maxDistance`. */
  method FillRow<T(==)>(sml: seq<T>, big: seq<T>, l: nat, lastRow: map<int, int>) returns (thisRow: map<int, int>)
    requires |sml| <= |big| && l <= |sml| && (l > 0 ==> IsRow(sml, big, l - 1, lastRow, |big| + 1))
    ensures IsRow(sml, big, l, thisRow, |big| + 1)
  {
    var smlMax, bigMax := |sml|, |big|;
    var compareRange := if bigMax - smlMax != 0 then bigMax - smlMax else 1;
    var maxDistance := smlMax + bigMax + 1;
    thisRow := map[];
    var last := Min(bigMax, l + compareRange);
    var q := Max(0, l - 1);
    while q <= last
      invariant Max(0, l - 1) <= q <= last + 1
      invariant IsRow(sml, big, l, thisRow, q)
    {
      NextCell(sml, big, l, q, lastRow, thisRow);
      var cell :=
        if q != 0 then
          if l != 0 then
            if sml[l - 1] == big[q - 1] then lastRow[q - 1]
            else Min(Or(lastRow, q, maxDistance), Or(thisRow, q - 1, maxDistance)) + 1
          else q + 1
        else l + 1;
      thisRow := thisRow[q := cell];
      q := q + 1;
    }
  }

  /** Fills the band row by row. */
  method FillTable<T(==)>(sml: seq<T>, big: seq<T>) returns (table: seq<map<int, int>>)
    requires |sml| <= |big|
    ensures IsTable(sml, big, table, |sml| + 1)
  {
    table := [];
    var thisRow: map<int, int> := map[];
    for l := 0 to |sml| + 1
      invariant IsTable(sml, big, table, l)
      invariant l > 0 ==> thisRow == table[l - 1]
    {
      thisRow := FillRow(sml, big, l, thisRow);
      table := table + [thisRow];
    }
  }

  /** 1 if the item takes an element of the array that `status` changes belong to, else 0. */
  function Uses<T>(item: Item<T>, status: Status): nat {
    if item.Retained? || item.change.status == status then 1 else 0
  }

  /** The item retains, drops or brings in the elements at hand, at their own indices. */
  predicate Fits<T(==)>(x: seq<T>, y: seq<T>, l: nat, q: nat, item: Item<T>, leaving: Status)
    requires l <= |x| && q <= |y|
  {
    match item
    case Retained(v) => l < |x| && q < |y| && v == x[l] == y[q]
    case Edit(e) =>
      if e.status == leaving then e.index == l < |x| && e.value == x[l]
      else e.index == q < |y| && e.value == y[q]
  }

  /** `script` is the end of a full edit script: in order, its items retain, drop or bring in exactly
      the elements of `x[l..]` and `y[q..]`. */
  predicate Spells<T(==)>(x: seq<T>, y: seq<T>, l: nat, q: nat, script: seq<Item<T>>, leaving: Status)
    requires l <= |x| && q <= |y|
    decreases |script|
  {
    if script == [] then l == |x| && q == |y|
    else
      && Fits(x, y, l, q, script[0], leaving)
      && Spells(x, y, l + Uses(script[0], leaving), q + Uses(script[0], Other(leaving)), script[1..], leaving)
  }

  function Other(status: Status): Status {
    if status == Added then Deleted else Added
  }

  predicate Ascending<T>(entries: seq<Change<T>>, from: nat) {
    && (forall i :: 0 <= i < |entries| ==> from <= entries[i].index)
    && (forall i, j :: 0 <= i < j < |entries| ==> entries[i].index < entries[j].index)
  }

  /** The changes of a full script come in the order of their indices. */
  lemma {:induction false} SpellsAscends<T>(x: seq<T>, y: seq<T>, l: nat, q: nat, script: seq<Item<T>>, leaving: Status)
    requires l <= |x| && q <= |y| && Spells(x, y, l, q, script, leaving)
    ensures Ascending(Changes(script, leaving), l) && Ascending(Changes(script, Other(leaving)), q)
    decreases |script|
  {
    if script != [] {
      match script[0]
      case Retained(v) => SpellsAscends(x, y, l + 1, q + 1, script[1..], leaving);
      case Edit(e) =>
        if e.status == leaving { SpellsAscends(x, y, l + 1, q, script[1..], leaving); }
        else { SpellsAscends(x, y, l, q + 1, script[1..], leaving); }
    }
  }

  /** Seen from the other array, the script spells the same pair. */
  lemma {:induction false} SpellsFlip<T>(x: seq<T>, y: seq<T>, l: nat, q: nat, script: seq<Item<T>>, leaving: Status)
    requires l <= |x| && q <= |y| && Spells(x, y, l, q, script, leaving)
    ensures Spells(y, x, q, l, script, Other(leaving))
    decreases |script|
  {
    if script != [] {
      SpellsFlip(x, y, l + Uses(script[0], leaving), q + Uses(script[0], Other(leaving)), script[1..], leaving);
    }
  }

  /** A full script, replayed, carries the one array to the other. */
  lemma {:induction false} SpellsCarries<T>(x: seq<T>, y: seq<T>, l: nat, q: nat, script: seq<Item<T>>, leaving: Status)
    requires l <= |x| && q <= |y| && Spells(x, y, l, q, script, leaving)
    ensures Replay(x, l, q, Changes(script, leaving), Changes(script, Other(leaving))) == y[q..]
    decreases |script|
  {
    if script != [] {
      var rest, l', q' := script[1..], l + Uses(script[0], leaving), q + Uses(script[0], Other(leaving));
      var xs, ys := Changes(rest, leaving), Changes(rest, Other(leaving));
      SpellsCarries(x, y, l', q', rest, leaving);
      SpellsAscends(x, y, l', q', rest, leaving);
      if script[0].Edit? {
        var e := script[0].change;
        if e.status == leaving {
          assert ([e] + xs)[1..] == xs;
          SkipLeaving(x, l, q, [e] + xs, ys);
        } else {
          assert ([e] + ys)[1..] == ys;
        }
      }
    }
  }

  /** A full script spells the array that its `leaving` changes belong to. */
  lemma {:induction false} SpellsSide<T>(x: seq<T>, y: seq<T>, l: nat, q: nat, script: seq<Item<T>>, leaving: Status)
    requires l <= |x| && q <= |y| && Spells(x, y, l, q, script, leaving)
    ensures Side(script, leaving) == x[l..]
    decreases |script|
  {
    if script != [] {
      var l', q' := l + Uses(script[0], leaving), q + Uses(script[0], Other(leaving));
      SpellsSide(x, y, l', q', script[1..], leaving);
      if script[0].Retained? || script[0].change.status == leaving {
        assert x[l..] == [x[l]] + x[l'..];
      }
    }
  }

  /** A script without its retained items. */
  function Sparse<T>(script: seq<Item<T>>): seq<Item<T>> {
    if script == [] then []
    else (if script[0].Edit? then [script[0]] else []) + Sparse(script[1..])
  }

  /** What of a full script is written down. */
  function Written<T>(full: seq<Item<T>>, sparse: bool): seq<Item<T>> {
    if sparse then Sparse(full) else full
  }

  /** The number of changes in a script. */
  function Edits<T>(script: seq<Item<T>>): nat {
    if script == [] then 0 else (if script[0].Edit? then 1 else 0) + Edits(script[1..])
  }

  lemma {:induction false} EditsByStatus<T>(script: seq<Item<T>>, status: Status)
    ensures Edits(script) == |Changes(script, status)| + |Changes(script, Other(status))|
  {
    if script != [] {
      EditsByStatus(script[1..], status);
    }
  }

  lemma {:induction false} SparseChanges<T>(script: seq<Item<T>>, status: Status)
    ensures Changes(Sparse(script), status) == Changes(script, status)
  {
    if script != [] {
      SparseChanges(script[1..], status);
      var rest := Sparse(script[1..]);
      assert script[0].Edit? ==> ([script[0]] + rest)[1..] == rest;
      assert !script[0].Edit? ==> Sparse(script) == rest;
    }
  }

  /** Where the walk goes from row `l`, column `q`, by the values that the table has there. */
  function NextStep(table: seq<map<int, int>>, l: nat, q: nat): Step
    requires l < |table| && q in table[l]
  {
    var meMinusOne := table[l][q] - 1;
    if q != 0 && q - 1 in table[l] && meMinusOne == table[l][q - 1] then Add
    else if l != 0 && q in table[l - 1] && meMinusOne == table[l - 1][q] then Delete
    else Keep
  }

  /** From row `l`, column `q` the walk stays in the band, pays one for a change and nothing for a pair,
      and keeps a pair only if both indices are positive and the values are equal. */
  predicate StepsWell<T(==)>(x: seq<T>, y: seq<T>, table: seq<map<int, int>>, l: nat, q: nat)
    requires |x| <= |y| && |table| == |x| + 1 && l <= |x| && q <= |y|
  {
    && q in table[l]
    && match NextStep(table, l, q)
       case Add => q > 0 && InBand(|x|, |y|, l, q - 1) && q - 1 in table[l] && table[l][q] == table[l][q - 1] + 1
       case Delete => l > 0 && InBand(|x|, |y|, l - 1, q) && q in table[l - 1] && table[l][q] == table[l - 1][q] + 1
       case Keep =>
         && l > 0 && q > 0 && InBand(|x|, |y|, l - 1, q - 1) && x[l - 1] == y[q - 1]
         && q - 1 in table[l - 1] && table[l][q] == table[l - 1][q - 1]
  }

  /** The walk can start at the corner and go on from everywhere in the band until it is at the origin. */
  ghost predicate Walkable<T>(x: seq<T>, y: seq<T>, table: seq<map<int, int>>)
    requires |x| <= |y|
  {
    && |table| == |x| + 1
    && 0 in table[0] && table[0][0] == 1 && |y| in table[|x|]
    && forall l, q {:trigger NextStep(table, l, q)} ::
         InBand(|x|, |y|, l, q) && (l > 0 || q > 0) ==> StepsWell(x, y, table, l, q)
  }

  lemma TableIsWalkable<T>(x: seq<T>, y: seq<T>, table: seq<map<int, int>>)
    requires |x| <= |y| && IsTable(x, y, table, |x| + 1)
    ensures Walkable(x, y, table) && table[|x|][|y|] == Cell(x, y, |x|, |y|)
  {
    forall l, q | InBand(|x|, |y|, l, q) && (l > 0 || q > 0) ensures StepsWell(x, y, table, l, q) {
      assert IsRow(x, y, l, table[l], |y| + 1);
      assert q - 1 in table[l] <==> InBand(|x|, |y|, l, q - 1);
      if l > 0 {
        assert IsRow(x, y, l - 1, table[l - 1], |y| + 1);
        assert q in table[l - 1] <==> InBand(|x|, |y|, l - 1, q);
        assert q - 1 in table[l - 1] <==> InBand(|x|, |y|, l - 1, q - 1);
      }
    }
    assert IsRow(x, y, 0, table[0], |y| + 1) && IsRow(x, y, |x|, table[|x|], |y| + 1);
    assert 0 in table[0] <==> InBand(|x|, |y|, 0, 0);
    assert |y| in table[|x|] <==> InBand(|x|, |y|, |x|, |y|);
  }

  /** What the walk has written when it stands at row `l`, column `q`, first item first: `full` is the
      script from there on, with the retained items that a sparse one leaves out. */
  ghost predicate Walked<T>(x: seq<T>, y: seq<T>, l: nat, q: nat, full: seq<Item<T>>, script: seq<Item<T>>,
                            leaving: Status, sparse: bool, edits: int)
    requires l <= |x| && q <= |y|
  {
    && Spells(x, y, l, q, full, leaving)
    && script == Written(full, sparse)
    && edits == Edits(full)
  }

  lemma WalkedComing<T>(x: seq<T>, y: seq<T>, l: nat, q: nat, full: seq<Item<T>>, script: seq<Item<T>>,
                        leaving: Status, sparse: bool, edits: nat, e: Change<T>)
    returns (more: seq<Item<T>>)
    requires l <= |x| && 0 < q <= |y|
    requires e.status == Other(leaving) && e.index == q - 1 && e.value == y[q - 1]
    requires Walked(x, y, l, q, full, script, leaving, sparse, edits)
    ensures Walked(x, y, l, q - 1, more, [Edit(e)] + script, leaving, sparse, edits + 1)
  {
    more := [Edit(e)] + full;
    assert more[1..] == full;
  }

  lemma WalkedLeaving<T>(x: seq<T>, y: seq<T>, l: nat, q: nat, full: seq<Item<T>>, script: seq<Item<T>>,
                         leaving: Status, sparse: bool, edits: nat, e: Change<T>)
    returns (more: seq<Item<T>>)
    requires 0 < l <= |x| && q <= |y|
    requires e.status == leaving && e.index == l - 1 && e.value == x[l - 1]
    requires Walked(x, y, l, q, full, script, leaving, sparse, edits)
    ensures Walked(x, y, l - 1, q, more, [Edit(e)] + script, leaving, sparse, edits + 1)
  {
    more := [Edit(e)] + full;
    assert more[1..] == full;
  }

  lemma WalkedBoth<T>(x: seq<T>, y: seq<T>, l: nat, q: nat, full: seq<Item<T>>, script: seq<Item<T>>,
                      leaving: Status, sparse: bool, edits: int, script': seq<Item<T>>)
    returns (more: seq<Item<T>>)
    requires 0 < l <= |x| && 0 < q <= |y|
    requires x[l - 1] == y[q - 1] && Walked(x, y, l, q, full, script, leaving, sparse, edits)
    requires script' == if sparse then script else [Retained(y[q - 1])] + script
    ensures Walked(x, y, l - 1, q - 1, more, script', leaving, sparse, edits)
  {
    more := [Retained(y[q - 1])] + full;
    assert more[1..] == full;
    assert more[0] == Retained(y[q - 1]);
    assert Sparse(more) == Sparse(full) && Edits(more) == Edits(full);
  }

  /** Walks the table back from its corner and writes the edit script; each item goes before those
      already written, so that the script needs no reversal at the end. */
  method WalkBack<T(==)>(sml: seq<T>, big: seq<T>, table: seq<map<int, int>>, notInSml: Status, notInBig: Status, sparse: bool)
    returns (script: seq<Item<T>>, ghost full: seq<Item<T>>)
    requires |sml| <= |big| && Walkable(sml, big, table) && notInSml == Other(notInBig)
    ensures Walked(sml, big, 0, 0, full, script, notInBig, sparse, table[|sml|][|big|] - 1)
  {
    script, full := [], [];
    ghost var edits := 0;
    var l, q := |sml|, |big|;
    while l != 0 || q != 0
      invariant InBand(|sml|, |big|, l, q) && q in table[l] && edits == table[|sml|][|big|] - table[l][q]
      invariant Walked(sml, big, l, q, full, script, notInBig, sparse, edits)
      decreases l + q
    {
      assert StepsWell(sml, big, table, l, q);
      match NextStep(table, l, q)
      case Add =>
        var change := Change(notInSml, big[q - 1], q - 1);
        full := WalkedComing(sml, big, l, q, full, script, notInBig, sparse, edits, change);
        script, edits := [Edit(change)] + script, edits + 1;
        q := q - 1;
      case Delete =>
        var change := Change(notInBig, sml[l - 1], l - 1);
        full := WalkedLeaving(sml, big, l, q, full, script, notInBig, sparse, edits, change);
        script, edits := [Edit(change)] + script, edits + 1;
        l := l - 1;
      case Keep =>
        ghost var before := script;
        if !sparse {
          script := [Retained(big[q - 1])] + script;
        }
        full := WalkedBoth(sml, big, l, q, full, before, notInBig, sparse, edits, script);
        q, l := q - 1, l - 1;
    }
  }

  /** Makes the objects of some changes. */
  method MakeEntries<T>(changes: seq<Change<T>>) returns (entries: seq<Entry<T>>)
    ensures |entries| == |changes| && forall k :: 0 <= k < |entries| ==> entries[k].change == changes[k]
    ensures fresh(entries) && AllNone(Moves(entries))
  {
    entries := [];
    for n := 0 to |changes|
      invariant |entries| == n && forall k :: 0 <= k < n ==> entries[k].change == changes[k]
      invariant forall k :: 0 <= k < n ==> fresh(entries[k]) && entries[k].moved == None
    {
      var entry := new Entry(changes[n]);
      entries := entries + [entry];
    }
  }

  /** The list in reverse order. */
  function Reversed<A>(s: seq<A>): (r: seq<A>)
    ensures |r| == |s| && forall k :: 0 <= k < |s| ==> r[k] == s[|s| - 1 - k]
  {
    seq(|s|, k requires 0 <= k < |s| => s[|s| - 1 - k])
  }

  lemma {:induction false} PlaceAll<T>(entries: seq<Entry<T>>) returns (place: map<nat, nat>)
    requires forall i, j :: 0 <= i < j < |entries| ==> entries[i].change.index > entries[j].change.index
    ensures Placed(entries, place)
    ensures forall i :: i in place ==> place[i] < |entries| && entries[place[i]].change.index == i
  {
    place := map[];
    if entries != [] {
      var before := entries[..|entries| - 1];
      var last := |entries| - 1;
      place := PlaceAll(before);
      assert entries[last].change.index !in place;
      place := place[entries[last].change.index := last];
    }
  }

  lemma MatchedFlip<T>(left: seq<Entry<T>>, right: seq<Entry<T>>, leftMoves: seq<Option<nat>>, rightMoves: seq<Option<nat>>,
                       to: map<int, int>, back: map<int, int>)
    requires |left| == |leftMoves| && |right| == |rightMoves| && Matched(left, right, leftMoves, rightMoves, to, back)
    ensures Matched(right, left, rightMoves, leftMoves, back, to)
  {
  }

  /** The objects of a script's changes of one status, in the order in which the walk meets them. */
  ghost predicate ObjectsOf<T>(entries: seq<Entry<T>>, script: seq<Item<T>>, status: Status) {
    && |entries| == |Changes(script, status)|
    && forall k :: 0 <= k < |entries| ==> entries[k].change == Reversed(Changes(script, status))[k]
  }

  lemma {:induction false} ChangesHaveStatus<T>(script: seq<Item<T>>, status: Status)
    ensures forall k :: 0 <= k < |Changes(script, status)| ==> Changes(script, status)[k].status == status
  {
    if script != [] {
      ChangesHaveStatus(script[1..], status);
    }
  }

  lemma ReadyToPair<T>(left: seq<Entry<T>>, right: seq<Entry<T>>, script: seq<Item<T>>, leaving: Status)
    returns (leftPlace: map<nat, nat>, rightPlace: map<nat, nat>)
    requires ObjectsOf(left, script, leaving) && ObjectsOf(right, script, Other(leaving))
    requires Ascending(Changes(script, leaving), 0) && Ascending(Changes(script, Other(leaving)), 0)
    ensures Placed(left, leftPlace) && Placed(right, rightPlace) && Opposite(left, right)
  {
    ChangesHaveStatus(script, leaving);
    ChangesHaveStatus(script, Other(leaving));
    leftPlace := PlaceAll(left);
    rightPlace := PlaceAll(right);
  }

  /** What the script of a comparison promises: it patches and unpatches, and its changes are as many
      as the table says; a full one spells both arrays, a sparse one has nothing but changes. */
  ghost predicate IsDiff<T>(sml: seq<T>, big: seq<T>, script: seq<Item<T>>, leaving: Status, sparse: bool)
    requires |sml| <= |big|
  {
    var xs, ys := Changes(script, leaving), Changes(script, Other(leaving));
    && Replay(sml, 0, 0, xs, ys) == big && Replay(big, 0, 0, ys, xs) == sml
    && Ascending(xs, 0) && Ascending(ys, 0) && |xs| <= |sml|
    && Edits(script) == Cell(sml, big, |sml|, |big|) - 1
    && if sparse then forall k :: 0 <= k < |script| ==> script[k].Edit?
       else Side(script, leaving) == sml && Side(script, Other(leaving)) == big
  }

  lemma {:induction false} ChangesFit<T>(x: seq<T>, y: seq<T>, l: nat, q: nat, script: seq<Item<T>>, leaving: Status)
    requires l <= |x| && q <= |y| && Spells(x, y, l, q, script, leaving)
    ensures |Changes(script, leaving)| <= |x| - l
    decreases |script|
  {
    if script != [] {
      ChangesFit(x, y, l + Uses(script[0], leaving), q + Uses(script[0], Other(leaving)), script[1..], leaving);
    }
  }

  lemma WalkedIsDiff<T>(sml: seq<T>, big: seq<T>, full: seq<Item<T>>, script: seq<Item<T>>, leaving: Status, sparse: bool)
    requires |sml| <= |big|
    requires Walked(sml, big, 0, 0, full, script, leaving, sparse, Cell(sml, big, |sml|, |big|) - 1)
    ensures IsDiff(sml, big, script, leaving, sparse)
  {
    SpellsFlip(sml, big, 0, 0, full, leaving);
    SpellsCarries(sml, big, 0, 0, full, leaving);
    SpellsCarries(big, sml, 0, 0, full, Other(leaving));
    SpellsAscends(sml, big, 0, 0, full, leaving);
    SpellsSide(sml, big, 0, 0, full, leaving);
    SpellsSide(big, sml, 0, 0, full, Other(leaving));
    ChangesFit(sml, big, 0, 0, full, leaving);
    assert sml[0..] == sml && big[0..] == big;
    if sparse {
      SparseChanges(full, leaving);
      SparseChanges(full, Other(leaving));
      EditsByStatus(full, leaving);
      EditsByStatus(script, leaving);
      SparseEdits(full);
    }
  }

  lemma {:induction false} SparseEdits<T>(script: seq<Item<T>>)
    ensures forall k :: 0 <= k < |Sparse(script)| ==> Sparse(script)[k].Edit?
  {
    if script != [] {
      SparseEdits(script[1..]);
    }
  }

  /** Fewer than ten changes of the longer array cannot reach the limit. */
  lemma FewArePaired<T>(left: seq<Entry<T>>, right: seq<Entry<T>>, leftMoves: seq<Option<nat>>, rightMoves: seq<Option<nat>>,
                        to: map<int, int>, back: map<int, int>, tried: nat, shorter: nat, limit: nat)
    requires |left| == |leftMoves| && |right| == |rightMoves| && |left| <= shorter
    requires IsPairing(left, right, leftMoves, rightMoves, to, back, tried, limit)
    requires limit == 0 || (limit == 10 * shorter && |right| < 10)
    ensures tried == |left| && Exhausted(left, right, leftMoves, rightMoves, |left|)
  {
    if limit > 0 {
      TriedTimesWidth(|right|, 9, |left|);
    }
    PairingIsFull(left, right, leftMoves, rightMoves, to, back, tried, limit);
  }

  /** Compares the shorter array with the longer one. */
  method CompareSmallToBig<T(==)>(sml: seq<T>, big: seq<T>, notInSml: Status, notInBig: Status, sparse: bool, dontLimitMoves: bool)
    returns (script: seq<Item<T>>, onlySml: seq<Entry<T>>, onlyBig: seq<Entry<T>>, ghost to: map<int, int>, ghost back: map<int, int>,
             ghost tried: nat)
    requires |sml| <= |big| && notInSml == Other(notInBig)
    ensures IsDiff(sml, big, script, notInBig, sparse)
    ensures ObjectsOf(onlySml, script, notInBig) && ObjectsOf(onlyBig, script, notInSml)
    ensures fresh(onlySml) && fresh(onlyBig)
    ensures Matched(onlySml, onlyBig, Moves(onlySml), Moves(onlyBig), to, back)
    ensures IsPairing(onlySml, onlyBig, Moves(onlySml), Moves(onlyBig), to, back, tried, if dontLimitMoves then 0 else 10 * |sml|)
    ensures dontLimitMoves || sml == [] || |onlyBig| < 10 ==>
              tried == |onlySml| && Exhausted(onlySml, onlyBig, Moves(onlySml), Moves(onlyBig), |onlySml|)
  {
    var table := FillTable(sml, big);
    TableIsWalkable(sml, big, table);
    ghost var full;
    script, full := WalkBack(sml, big, table, notInSml, notInBig, sparse);
    WalkedIsDiff(sml, big, full, script, notInBig, sparse);
    onlySml := MakeEntries(Reversed(Changes(script, notInBig)));
    onlyBig := MakeEntries(Reversed(Changes(script, notInSml)));
    ghost var smlPlace, bigPlace := ReadyToPair(onlySml, onlyBig, script, notInBig);
    var limit := if dontLimitMoves then 0 else 10 * |sml|;
    tried, to, back := FindMoves(onlySml, onlyBig, limit, smlPlace, bigPlace);
    if limit == 0 || |onlyBig| < 10 {
      FewArePaired(onlySml, onlyBig, Moves(onlySml), Moves(onlyBig), to, back, tried, |sml|, limit);
    }
  }

  /** The changes that a comparison of two arrays makes. */
  function Distance<T(==)>(old_: seq<T>, new_: seq<T>): int {
    if |old_| < |new_| then Cell(old_, new_, |old_|, |new_|) - 1
    else Cell(new_, old_, |new_|, |old_|) - 1
  }

  /** Compares two arrays; the shorter one takes the rows of the table. */
  method CompareArrays<T(==)>(old_: seq<T>, new_: seq<T>, sparse: bool, dontLimitMoves: bool)
    returns (script: seq<Item<T>>, deleted: seq<Entry<T>>, added: seq<Entry<T>>, ghost to: map<int, int>, ghost back: map<int, int>,
             ghost tried: nat)
    ensures Relates(script, old_, new_) && Edits(script) == Distance(old_, new_)
    ensures Ascending(Changes(script, Deleted), 0) && Ascending(Changes(script, Added), 0)
    ensures if sparse then forall k :: 0 <= k < |script| ==> script[k].Edit?
            else Side(script, Deleted) == old_ && Side(script, Added) == new_
    ensures ObjectsOf(deleted, script, Deleted) && ObjectsOf(added, script, Added)
    ensures fresh(deleted) && fresh(added)
    ensures Matched(deleted, added, Moves(deleted), Moves(added), to, back)
    ensures var limit := if dontLimitMoves then 0 else 10 * Min(|old_|, |new_|);
            if |old_| < |new_| then IsPairing(deleted, added, Moves(deleted), Moves(added), to, back, tried, limit)
            else IsPairing(added, deleted, Moves(added), Moves(deleted), back, to, tried, limit)
    ensures dontLimitMoves || old_ == [] || new_ == [] || |if |old_| < |new_| then added else deleted| < 10 ==>
              Exhausted(deleted, added, Moves(deleted), Moves(added), |deleted|)
  {
    if |old_| < |new_| {
      script, deleted, added, to, back, tried := CompareSmallToBig(old_, new_, Added, Deleted, sparse, dontLimitMoves);
    } else {
      script, added, deleted, back, to, tried := CompareSmallToBig(new_, old_, Deleted, Added, sparse, dontLimitMoves);
      MatchedFlip(added, deleted, Moves(added), Moves(deleted), back, to);
    }
  }

  /** The band can miss the shortest script: six changes are found where four would do. */
  lemma BandMissesShorter()
    ensures var x, y := [1, 2, 3], [4, 5, 1];
            && Distance(x, y) == 6
            && exists script :: Spells(x, y, 0, 0, script, Deleted) && Edits(script) == 4
  {
    var x, y := [1, 2, 3], [4, 5, 1];
    assert Cell(x, y, 0, 0) == 1 && Cell(x, y, 0, 1) == 2 && Cell(x, y, 1, 0) == 2;
    assert Cell(x, y, 1, 1) == 3;
    assert Cell(x, y, 1, 2) == 4 && Cell(x, y, 2, 1) == 4;
    assert Cell(x, y, 2, 2) == 5;
    assert Cell(x, y, 2, 3) == 6 && Cell(x, y, 3, 2) == 6;
    assert Cell(x, y, 3, 3) == 7;
    var s5: seq<Item<int>> := [];
    var s4 := [Edit(Change(Deleted, 3, 2))] + s5;
    var s3 := [Edit(Change(Deleted, 2, 1))] + s4;
    var s2 := [Retained(1)] + s3;
    var s1 := [Edit(Change(Added, 5, 1))] + s2;
    var s0 := [Edit(Change(Added, 4, 0))] + s1;
    assert s4[1..] == s5 && s3[1..] == s4 && s2[1..] == s3 && s1[1..] == s2 && s0[1..] == s1;
    assert Spells(x, y, 3, 3, s5, Deleted) && Edits(s5) == 0;
    assert Spells(x, y, 2, 3, s4, Deleted) && Edits(s4) == 1;
    assert Spells(x, y, 1, 3, s3, Deleted) && Edits(s3) == 2;
    assert Spells(x, y, 0, 2, s2, Deleted) && Edits(s2) == 2;
    assert Spells(x, y, 0, 1, s1, Deleted) && Edits(s1) == 3;
    assert Spells(x, y, 0, 0, s0, Deleted) && Edits(s0) == 4;
  }
}
