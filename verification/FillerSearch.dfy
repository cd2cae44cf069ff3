/** The document of a given size: a filler stream, and the search for its length. */
module FillerSearch {
  import opened Characters
  import opened Pieces
  import opened Decimal
  import opened Pdf
  import opened PdfText

  // ----- a document of a given size -----

  function PageObjects(text: string): (objects: seq<string>)
    ensures |objects| == 5
  {
    [CATALOG, ONE_PAGE, FONT, PAGE + Num(5) + " 0 R >>", Stream(LENGTH, Content(text, " Tj ET"))]
  }

  lemma OffsetsWithLast(parts: seq<string>, last: string, offsets: seq<nat>)
    requires |offsets| + 1 == |parts| && forall k :: 0 <= k < |offsets| ==> offsets[k] == |Concat(parts, k + 1)|
    ensures var all := offsets + [|Concat(parts, |parts|)|];
            forall k :: 0 <= k < |all| ==> all[k] == |Concat(parts + [last], k + 1)|
  {
    var all := offsets + [|Concat(parts, |parts|)|];
    forall k | 0 <= k < |all| ensures all[k] == |Concat(parts + [last], k + 1)| {
      ConcatMore(parts, last, k + 1);
    }
  }

  lemma LastObject(id: nat, start: string, data: string)
    ensures ObjectText(id, start + data + ENDSTREAM) == Num(id) + OBJ + start + data + (ENDSTREAM + ENDOBJ)
  {
    assert Num(id) + OBJ + (start + data + ENDSTREAM) + ENDOBJ == Num(id) + OBJ + start + data + (ENDSTREAM + ENDOBJ);
  }

  /** The document around a filler of a length. */
  function PaddedDocument(objects: seq<string>, filler: nat): string {
    Document(Parts(objects + [Stream(LENGTH, Repeat(' ', filler))]))
  }

  /** Puts the document together around the filler, with the place of the table computed from the lengths. */
  method Assemble(objects: seq<string>, fillerLength: nat) returns (pdf: string)
    requires |objects| == 5
    ensures pdf == PaddedDocument(objects, fillerLength)
  {
    var dictionary := LENGTH + Num(fillerLength) + STREAM;
    var filler := Num(6) + OBJ + dictionary;
    var head, offsets := WriteBody(objects);
    var afterFiller := ENDSTREAM + ENDOBJ;
    var xrefAt := |head| + |filler| + fillerLength + |afterFiller|;
    ghost var parts, content := Parts(objects), dictionary + Repeat(' ', fillerLength) + ENDSTREAM;
    OffsetsWithLast(parts, ObjectText(6, content), offsets);
    offsets := offsets + [|head|];
    PartsMore(objects, content);
    ConcatMore(parts, ObjectText(6, content), 6);
    LastObject(6, dictionary, Repeat(' ', fillerLength));
    var table := WriteEntries(parts + [ObjectText(6, content)], offsets);
    var body := head + (filler + Repeat(' ', fillerLength) + afterFiller);
    pdf := body + (XREF + Num(7) + table) + Trailer(7, xrefAt);
  }

  /** Where its table starts. */
  function XrefAt(objects: seq<string>, filler: nat): nat {
    |Concat(Parts(objects), |objects| + 1)| + |ObjectText(|objects| + 1, Stream(LENGTH, Repeat(' ', filler)))|
  }

  lemma XrefAtIs(objects: seq<string>, filler: nat)
    ensures XrefAt(objects, filler) == XrefAt(objects, 0) + filler + |Num(filler)| - 1
  {
    assert |Num(0)| == 1;
  }

  lemma {:induction false} EntriesOfFirst(parts: seq<string>, x: string, y: string, n: nat)
    requires 0 < n <= |parts| + 1
    ensures Entries(parts + [x], n) == Entries(parts + [y], n)
  {
    if n > 1 {
      EntriesOfFirst(parts, x, y, n - 1);
      ConcatMore(parts, x, n - 1);
      ConcatMore(parts, y, n - 1);
    }
  }

  lemma FinishedLength(body: string, entries: string, count: nat)
    ensures |Finished(body, entries, count)|
         == |body| + |entries| + |Num(|body|)| + 2 * |Num(count)| + |XREF| + |SIZE| + |STARTXREF| + |EOF|
  {
  }

  /** The size of the document: the length of the filler appears in it twice as a number. */
  lemma SizeIs(objects: seq<string>, filler: nat)
    ensures |PaddedDocument(objects, filler)| - |PaddedDocument(objects, 0)|
         == filler + |Num(filler)| - 1 + |Num(XrefAt(objects, filler))| - |Num(XrefAt(objects, 0))|
  {
    SizeParts(objects, filler);
    SizeParts(objects, 0);
    var n, parts := |objects| + 1, Parts(objects);
    var x, y := ObjectText(n, Stream(LENGTH, Repeat(' ', filler))), ObjectText(n, Stream(LENGTH, Repeat(' ', 0)));
    EntriesOfFirst(parts, x, y, n + 1);
    XrefAtIs(objects, filler);
  }

  lemma SizeParts(objects: seq<string>, filler: nat)
    ensures |PaddedDocument(objects, filler)| - XrefAt(objects, filler) - |Num(XrefAt(objects, filler))|
         == |Entries(Parts(objects) + [ObjectText(|objects| + 1, Stream(LENGTH, Repeat(' ', filler)))], |objects| + 2)|
            + 2 * |Num(|objects| + 2)| + |XREF| + |SIZE| + |STARTXREF| + |EOF|
  {
    var n, content := |objects| + 1, Stream(LENGTH, Repeat(' ', filler));
    PartsMore(objects, content);
    ConcatMore(Parts(objects), ObjectText(n, content), n);
    var parts := Parts(objects) + [ObjectText(n, content)];
    FinishedLength(Concat(parts, n + 1), Entries(parts, n + 1), n + 1);
  }

  /** The next length that the loop tries. */
  function Next(objects: seq<string>, total: int, filler: nat): int {
    filler + total - |PaddedDocument(objects, filler)|
  }

  /** A longer filler never leads to a longer next one. */
  lemma NextFalls(objects: seq<string>, total: int, f: nat, g: nat)
    requires f <= g
    ensures Next(objects, total, f) >= Next(objects, total, g)
  {
    SizeIs(objects, f);
    SizeIs(objects, g);
    XrefAtIs(objects, f);
    XrefAtIs(objects, g);
    NumLonger(f, g);
    NumLonger(XrefAt(objects, f), XrefAt(objects, g));
  }

  /** How a search for a length ends: at a length that leads to itself, below zero, or not yet. */
  datatype Search = Found(filler: nat) | Negative | Moving

  function Run(next: nat -> int, filler: int, rounds: nat): Search
    decreases rounds
  {
    if filler < 0 then Negative
    else if next(filler) == filler then Found(filler)
    else if rounds == 0 then Moving
    else Run(next, next(filler), rounds - 1)
  }

  function NextOf(objects: seq<string>, total: int): nat -> int {
    (filler: nat) => Next(objects, total, filler)
  }

  lemma RunMoves(next: nat -> int, filler: nat, rounds: nat, then_: int)
    requires next(filler) == then_ && then_ != filler && rounds > 0
    ensures Run(next, filler, rounds) == Run(next, then_, rounds - 1)
  {
  }

  /** `next` is the step of the search for a document of these objects. */
  ghost predicate IsStep(next: nat -> int, objects: seq<string>, total: int) {
    forall f: nat {:trigger PaddedDocument(objects, f)} :: next(f) == f + total - |PaddedDocument(objects, f)|
  }

  /** How much a filler is short of the total. */
  method Missing(objects: seq<string>, total: int, filler: nat, ghost next: nat -> int) returns (missing: int)
    requires |objects| == 5 && IsStep(next, objects, total)
    ensures next(filler) == filler + missing
  {
    var pdf := Assemble(objects, filler);
    missing := total - |pdf|;
  }

  /** Looks for the filler that makes the size exact, for so many rounds. */
  method FindFiller(objects: seq<string>, total: int, rounds: nat, ghost next: nat -> int) returns (search: Search)
    requires |objects| == 5 && IsStep(next, objects, total)
    ensures search == Run(next, next(0), rounds)
  {
    var filler := Missing(objects, total, 0, next);
    var left := rounds;
    while filler >= 0
      invariant Run(next, next(0), rounds) == Run(next, filler, left)
      decreases left
    {
      var missing := Missing(objects, total, filler, next);
      if missing == 0 {
        return Found(filler);
      }
      if left == 0 {
        return Moving;
      }
      RunMoves(next, filler, left, filler + missing);
      filler := filler + missing;
      left := left - 1;
    }
    search := Negative;
  }

  method PaddedPdf(text: string, total: int, rounds: nat) returns (search: Search, file: string)
    ensures search == Run(NextOf(PageObjects(text), total), NextOf(PageObjects(text), total)(0), rounds)
    ensures search.Found? ==> file == Latin1(PaddedDocument(PageObjects(text), search.filler)) && |file| == total
  {
    var objects := PageObjects(text);
    search := FindFiller(objects, total, rounds, NextOf(objects, total));
    file := [];
    if search.Found? {
      var pdf := Assemble(objects, search.filler);
      file := Latin1(pdf);
      FoundIsExact(objects, total, NextOf(objects, total)(0), rounds);
    }
  }

  ghost predicate Falls(next: nat -> int) {
    forall f: nat, g: nat :: f <= g ==> next(f) >= next(g)
  }

  /** Once two lengths lead to each other, the search goes on for ever. */
  lemma {:induction false} Alternates(next: nat -> int, x: nat, y: nat, rounds: nat)
    requires x != y && next(x) == y && next(y) == x
    ensures Run(next, x, rounds) == Moving
    decreases rounds
  {
    if rounds > 0 {
      Alternates(next, y, x, rounds - 1);
    }
  }

  lemma TwoRounds(next: nat -> int, x: nat, y: nat, rounds: nat)
    requires y == next(x) && x != y && y != next(y)
    ensures Run(next, x, rounds) == if rounds < 2 then Moving else Run(next, next(y), rounds - 2)
  {
    assert rounds > 0 ==> Run(next, x, rounds) == Run(next, y, rounds - 1);
  }

  /** The lengths close in on each other: a search that does not end within twice the width never ends. */
  lemma {:induction false} ClosesIn(next: nat -> int, x: nat, y: nat, rounds: nat, more: nat)
    requires Falls(next) && y == next(x) && y <= x && next(y) <= x && rounds >= 2 * (x - y)
    ensures Run(next, x, more) != Negative
    ensures Run(next, x, rounds) == Moving ==> Run(next, x, more) == Moving
    decreases x
  {
    var z := next(y);
    assert y <= z;
    if x == y {
    } else if z == x {
      Alternates(next, x, y, rounds);
      Alternates(next, x, y, more);
    } else if z == y {
      assert more > 0 ==> Run(next, x, more) == Run(next, y, more - 1);
      assert Run(next, x, rounds) == Run(next, y, rounds - 1);
    } else {
      assert next(z) >= next(x) && next(z) <= next(y);
      var w: nat := next(z);
      assert next(w) <= next(y);
      TwoRounds(next, x, y, rounds);
      TwoRounds(next, x, y, more);
      ClosesIn(next, z, w, rounds - 2, if more >= 2 then more - 2 else 0);
    }
  }

  /** Whether the search for a size ever ends is known after a bounded number of rounds: it falls below zero in
      the first two, or it ends within twice the distance of the first two lengths, or it never does. */
  lemma SearchIsDecided(objects: seq<string>, total: int, rounds: nat, more: nat)
    requires Next(objects, total, 0) >= 0 ==>
      rounds >= 2 * (Next(objects, total, 0) - Next(objects, total, Next(objects, total, 0)))
    ensures var next, first := NextOf(objects, total), Next(objects, total, 0);
            && (Run(next, first, more) == Negative <==> first < 0 || (next(first) < 0 && more > 0))
            && (Run(next, first, rounds) == Moving ==> Run(next, first, more) == Moving)
  {
    var next, first := NextOf(objects, total), Next(objects, total, 0);
    if first >= 0 {
      NextFalls(objects, total, 0, first);
      var second := next(first);
      if second >= 0 {
        NextFallsAll(objects, total);
        assert next(second) <= next(0);
        ClosesIn(next, first, second, rounds, more);
      } else {
        BelowZero(next, first, rounds);
        BelowZero(next, first, more);
      }
    }
  }

  lemma NextFallsAll(objects: seq<string>, total: int)
    ensures Falls(NextOf(objects, total))
  {
    forall f: nat, g: nat | f <= g ensures NextOf(objects, total)(f) >= NextOf(objects, total)(g) {
      NextFalls(objects, total, f, g);
    }
  }

  lemma BelowZero(next: nat -> int, first: nat, rounds: nat)
    requires next(first) < 0
    ensures Run(next, first, rounds) == if rounds == 0 then Moving else Negative
  {
  }

  lemma {:induction false} FoundLeadsToItself(next: nat -> int, filler: int, rounds: nat)
    ensures var r := Run(next, filler, rounds); r.Found? ==> next(r.filler) == r.filler
    decreases rounds
  {
    if filler >= 0 && rounds > 0 {
      FoundLeadsToItself(next, next(filler), rounds - 1);
    }
  }

  /** A search that ends has found the size: only sizes that exist are found. */
  lemma FoundIsExact(objects: seq<string>, total: int, filler: int, rounds: nat)
    ensures var r := Run(NextOf(objects, total), filler, rounds);
            r.Found? ==> |PaddedDocument(objects, r.filler)| == total
  {
    FoundLeadsToItself(NextOf(objects, total), filler, rounds);
  }

  // ----- which sizes are found -----

  /** Two numbers that differ by `a` digits are at least `9 * (a - 1) + 1` apart. */
  lemma {:induction false} DigitsGrowSlowly(m: nat, n: nat)
    requires m <= n
    ensures |Num(m)| <= |Num(n)| && 9 * (|Num(n)| - |Num(m)|) < n - m + 9
  {
    NumLonger(m, n);
    if m >= 10 {
      DigitsGrowSlowly(m / 10, n / 10);
    } else if n >= 10 {
      DigitsGrowSlowly(0, n / 10);
      NumLength(n / 10, 1);
      assert Pow10(1) == 10 * Pow10(0);
    }
  }

  /** The next length falls by what two numbers of digits gain, which is little; numbers below ten have one digit. */
  ghost predicate Slow(next: nat -> int, d: nat -> nat, e: nat -> nat) {
    && (forall n: nat :: n < 10 ==> d(n) == 1)
    && forall f: nat, g: nat :: f <= g ==> SlowBetween(next, d, e, f, g)
  }

  ghost predicate SlowBetween(next: nat -> int, d: nat -> nat, e: nat -> nat, f: nat, g: nat) {
    && next(f) - next(g) == d(g) - d(f) + e(g) - e(f)
    && d(f) <= d(g) && 9 * (d(g) - d(f)) < g - f + 9
    && e(f) <= e(g) && 9 * (e(g) - e(f)) < g - f + d(g) - d(f) + 9
  }

  lemma SlowFalls(next: nat -> int, d: nat -> nat, e: nat -> nat)
    requires Slow(next, d, e)
    ensures Falls(next)
  {
    forall f: nat, g: nat | f <= g ensures next(f) >= next(g) {
      assert SlowBetween(next, d, e, f, g);
    }
  }

  /** Two lengths that lead to each other. */
  ghost predicate IsCycle(next: nat -> int, x: nat, y: nat) {
    x > y && next(x) == y && next(y) == x
  }

  /** A search that closes in ends, or comes to two lengths that lead to each other. */
  lemma {:induction false} EndsOrCycles(next: nat -> int, x: nat, y: nat) returns (rounds: nat, u: nat, v: nat)
    requires Falls(next) && y == next(x) && y <= x && next(y) <= x
    ensures Run(next, x, rounds).Found? || IsCycle(next, u, v)
    decreases x
  {
    rounds, u, v := 0, x, y;
    var z := next(y);
    assert y <= z;
    if x != y && z == y {
      rounds := 1;
      assert Run(next, x, 1) == Run(next, y, 0);
    } else if x != y && z != x {
      assert next(z) >= next(x) && next(z) <= next(y);
      var w: nat := next(z);
      assert next(w) <= next(y);
      rounds, u, v := EndsOrCycles(next, z, w);
      rounds := rounds + 2;
      TwoRounds(next, x, y, rounds);
    }
  }

  /** Two lengths that lead to each other have exactly one between them, if there is a length that leads to itself. */
  lemma CycleIsAround(next: nat -> int, d: nat -> nat, e: nat -> nat, f: nat, x: nat, y: nat)
    requires Slow(next, d, e) && next(f) == f && IsCycle(next, x, y)
    ensures x == f + 1 && f == y + 1
  {
    SlowFalls(next, d, e);
    assert f >= x ==> next(x) >= next(f);
    assert f <= y ==> next(f) >= next(y);
    assert SlowBetween(next, d, e, y, x);
  }

  /** From one side of such a length the search goes to the other, and never to it. */
  lemma {:induction false} GoesPast(next: nat -> int, f: nat, x: nat, rounds: nat)
    requires Falls(next) && f > 0 && IsCycle(next, f + 1, f - 1) && x != f && next(f) == f
    ensures !Run(next, x, rounds).Found?
    decreases rounds
  {
    if x > f {
      assert next(x) <= next(f + 1);
    } else {
      assert next(x) >= next(f - 1);
    }
    if rounds > 0 && next(x) >= 0 {
      GoesPast(next, f, next(x), rounds - 1);
    }
  }

  lemma OneReaches(next: nat -> int, f: nat, g: nat)
    requires Falls(next) && next(f) == f && next(g) == g
    ensures f == g
  {
    assert if f <= g then next(f) >= next(g) else next(g) >= next(f);
  }

  lemma FallsLittle(f: nat, a: nat, b: nat, c: nat, d: nat)
    requires f >= 2 && 9 * a < f + 9 && 9 * b < f + a + 9 && 9 * c < a + b + 9 && 9 * d < a + b + c + 9
    ensures c + d <= f
  {
  }

  /** The first two lengths that are tried are not negative if there is a length that leads to itself. */
  lemma StartsWell(next: nat -> int, d: nat -> nat, e: nat -> nat, f: nat)
    requires Slow(next, d, e) && next(f) == f
    ensures next(0) >= f && next(next(0)) >= 0
  {
    assert SlowBetween(next, d, e, 0, f);
    var first: nat := next(0);
    assert SlowBetween(next, d, e, f, first);
    if f >= 2 {
      FallsLittle(f, d(f) - d(0), e(f) - e(0), d(first) - d(f), e(first) - e(f));
    }
  }

  lemma NeverNegative(next: nat -> int, d: nat -> nat, e: nat -> nat, f: nat, rounds: nat)
    requires Slow(next, d, e) && next(f) == f
    ensures Run(next, next(0), rounds) != Negative
  {
    SlowFalls(next, d, e);
    StartsWell(next, d, e, f);
    var first: nat := next(0);
    var second: nat := next(first);
    assert next(0) >= next(first) && next(second) <= next(0);
    ClosesIn(next, first, second, 2 * (first - second), rounds);
  }

  lemma CycleIsNotFound(next: nat -> int, d: nat -> nat, e: nat -> nat, f: nat, rounds: nat)
    requires Slow(next, d, e) && next(f) == f && f > 0 && IsCycle(next, f + 1, f - 1)
    ensures Run(next, next(0), rounds) == Moving
  {
    SlowFalls(next, d, e);
    StartsWell(next, d, e, f);
    assert next(0) >= next(f - 1);
    GoesPast(next, f, next(0), rounds);
    NeverNegative(next, d, e, f, rounds);
  }

  lemma OtherIsFound(next: nat -> int, d: nat -> nat, e: nat -> nat, f: nat) returns (rounds: nat)
    requires Slow(next, d, e) && next(f) == f && !(f > 0 && IsCycle(next, f + 1, f - 1))
    ensures Run(next, next(0), rounds) == Found(f)
  {
    SlowFalls(next, d, e);
    StartsWell(next, d, e, f);
    var first: nat := next(0);
    var second: nat := next(first);
    assert next(0) >= next(first) && next(second) <= next(0);
    var u, v;
    rounds, u, v := EndsOrCycles(next, first, second);
    if IsCycle(next, u, v) {
      CycleIsAround(next, d, e, f, u, v);
    } else {
      FoundLeadsToItself(next, first, rounds);
      OneReaches(next, f, Run(next, first, rounds).filler);
    }
  }

  // ----- of a document -----

  function LengthDigits(): nat -> nat {
    n => |Num(n)|
  }

  function TableDigits(objects: seq<string>): nat -> nat {
    n => |Num(XrefAt(objects, n))|
  }

  /** How the next length falls between two lengths: by the digits that the length of the filler and the
      place of the table gain, which is little. */
  lemma FallIsSmall(objects: seq<string>, total: int, f: nat, g: nat)
    requires f <= g
    ensures SlowBetween(NextOf(objects, total), LengthDigits(), TableDigits(objects), f, g)
  {
    SizeIs(objects, f);
    SizeIs(objects, g);
    XrefAtIs(objects, f);
    XrefAtIs(objects, g);
    DigitsGrowSlowly(f, g);
    DigitsGrowSlowly(XrefAt(objects, f), XrefAt(objects, g));
  }

  lemma DocumentIsSlow(objects: seq<string>, total: int)
    ensures Slow(NextOf(objects, total), LengthDigits(), TableDigits(objects))
  {
    forall f: nat, g: nat | f <= g
      ensures SlowBetween(NextOf(objects, total), LengthDigits(), TableDigits(objects), f, g) {
      FallIsSmall(objects, total, f, g);
    }
  }

  /** With one space more and with one less, the size changes by two instead of one. */
  predicate IsSkipped(objects: seq<string>, f: nat) {
    && f > 0
    && |PaddedDocument(objects, f)| - |PaddedDocument(objects, f - 1)| == 2
    && |PaddedDocument(objects, f + 1)| - |PaddedDocument(objects, f)| == 2
  }

  lemma NextIs(objects: seq<string>, total: int, f: nat)
    ensures NextOf(objects, total)(f) == f + total - |PaddedDocument(objects, f)|
  {
  }

  lemma SkippedIffCycle(objects: seq<string>, total: int, f: nat)
    requires |PaddedDocument(objects, f)| == total
    ensures NextOf(objects, total)(f) == f
    ensures IsSkipped(objects, f) <==> f > 0 && IsCycle(NextOf(objects, total), f + 1, f - 1)
  {
    NextIs(objects, total, f);
    if f > 0 {
      NextIs(objects, total, f - 1);
      NextIs(objects, total, f + 1);
      CycleOfSizes(NextOf(objects, total), total, f, |PaddedDocument(objects, f - 1)|, |PaddedDocument(objects, f + 1)|);
    }
  }

  lemma CycleOfSizes(next: nat -> int, total: int, f: nat, less: int, more: int)
    requires f > 0 && next(f - 1) == f - 1 + total - less && next(f + 1) == f + 1 + total - more
    ensures total - less == 2 && more - total == 2 <==> IsCycle(next, f + 1, f - 1)
  {
  }

  /** The search for a size that can be reached, with filler `f`, finds `f` exactly if the size does not jump
      by two on both sides of it; else it goes on for ever. */
  lemma FindsIff(objects: seq<string>, total: int, f: nat)
    requires |PaddedDocument(objects, f)| == total
    ensures IsFound(NextOf(objects, total), f) <==> !IsSkipped(objects, f)
    ensures IsSkipped(objects, f) ==> GoesOn(NextOf(objects, total))
  {
    SkippedIffCycle(objects, total, f);
    DocumentIsSlow(objects, total);
    SlowFindsIff(NextOf(objects, total), LengthDigits(), TableDigits(objects), f);
  }

  /** The search ends with a length after some number of rounds. */
  ghost predicate IsFound(next: nat -> int, f: nat) {
    exists rounds: nat :: Run(next, next(0), rounds) == Found(f)
  }

  /** The search ends after no number of rounds. */
  ghost predicate GoesOn(next: nat -> int) {
    forall rounds: nat :: Run(next, next(0), rounds) == Moving
  }

  lemma SlowFindsIff(next: nat -> int, d: nat -> nat, e: nat -> nat, f: nat)
    requires Slow(next, d, e) && next(f) == f
    ensures IsFound(next, f) <==> !(f > 0 && IsCycle(next, f + 1, f - 1))
    ensures f > 0 && IsCycle(next, f + 1, f - 1) ==> GoesOn(next)
  {
    if f > 0 && IsCycle(next, f + 1, f - 1) {
      forall rounds: nat ensures Run(next, next(0), rounds) == Moving {
        CycleIsNotFound(next, d, e, f, rounds);
      }
    } else {
      var rounds := OtherIsFound(next, d, e, f);
    }
  }

  // ----- a size that is skipped -----

  lemma DigitsNear(n: nat)
    ensures 10 <= n < 100 ==> |Num(n)| == 2
    ensures 100 <= n < 1000 ==> |Num(n)| == 3
    ensures 1000 <= n < 10000 ==> |Num(n)| == 4
  {
    NumLength(n, 1);
    NumLength(n, 2);
    NumLength(n, 3);
    NumLength(n, 4);
    assert Pow10(1) == 10 && Pow10(2) == 100 && Pow10(3) == 1000 && Pow10(4) == 10000;
  }

  /** Where the table starts at 999 with a filler of 100 spaces, that size is skipped, and the search for it
      goes on for ever. */
  lemma MissesASize(objects: seq<string>)
    requires XrefAt(objects, 100) == 999
    ensures IsSkipped(objects, 100) && GoesOn(NextOf(objects, |PaddedDocument(objects, 100)|))
  {
    StepNear(objects, 99);
    StepNear(objects, 100);
    StepNear(objects, 101);
    FindsIff(objects, |PaddedDocument(objects, 100)|, 100);
  }

  lemma StepNear(objects: seq<string>, f: nat)
    requires XrefAt(objects, 100) == 999 && 99 <= f <= 101
    ensures |PaddedDocument(objects, f)| - |PaddedDocument(objects, 0)| + |Num(XrefAt(objects, 0))|
         == f - 1 + (if f == 99 then 2 else 3) + (if f == 101 then 4 else 3)
  {
    SizeIs(objects, f);
    XrefAtIs(objects, f);
    XrefAtIs(objects, 100);
    DigitsNear(f);
    DigitsNear(100);
    DigitsNear(XrefAt(objects, f));
  }

  lemma NextLength(parts: seq<string>, k: nat, length: nat)
    requires k < |parts| && |parts[k]| == length
    ensures |Concat(parts, k + 1)| == |Concat(parts, k)| + length
  {
  }

  /** Such a document exists: its page shows a text of 455 plain characters. */
  lemma TheSizeExists(text: string)
    requires |Escape(text)| == 455
    ensures XrefAt(PageObjects(text), 100) == 999
  {
    var content := Content(text, " Tj ET");
    assert |content| == 486;
    NumLength(486, 2);
    NumLength(486, 3);
    NumLength(100, 2);
    NumLength(100, 3);
    assert Pow10(2) == 100 && Pow10(3) == 1000;
    PageLength(PageObjects(text), Stream(LENGTH, content));
    assert |Stream(LENGTH, content)| == 486 + 35;
  }

  lemma PageLength(objects: seq<string>, content: string)
    requires objects == [CATALOG, ONE_PAGE, FONT, PAGE + Num(5) + " 0 R >>", content]
    ensures |Concat(Parts(objects), 6)| == 327 + |content|
  {
    var parts := Parts(objects);
    assert |Num(1)| == 1 && |Num(2)| == 1 && |Num(3)| == 1 && |Num(4)| == 1 && |Num(5)| == 1;
    assert Concat(parts, 0) == [];
    NextLength(parts, 0, |HEAD|);
    NextLength(parts, 1, |CATALOG| + 16);
    NextLength(parts, 2, |ONE_PAGE| + 16);
    NextLength(parts, 3, |FONT| + 16);
    NextLength(parts, 4, |PAGE| + 24);
    NextLength(parts, 5, |content| + 16);
  }
}
