/** The check that the portal's statements are read-only transactions, and the records it is made on. */
module ReadOnlyTx {
  import opened Common
  import opened Characters
  import opened Pieces

  // ----- statements -----

  predicate StartsWith(s: string, start: string) {
    |start| <= |s| && s[..|start|] == start
  }

  predicate Contains(s: string, part: string) {
    StartsWith(s, part) || (s != "" && Contains(s[1..], part))
  }

  lemma {:induction false} ContainsAt(s: string, k: nat, part: string)
    requires k <= |s| && StartsWith(s[k..], part)
    ensures Contains(s, part)
  {
    if k > 0 {
      assert s[1..][k - 1..] == s[k..];
      ContainsAt(s[1..], k - 1, part);
    } else {
      assert s[0..] == s;
    }
  }

  /** `/^(SELECT|WITH)\b/`: the word ends there. */
  predicate IsQuery(upper: string) {
    StartsWithWord(upper, "SELECT") || StartsWithWord(upper, "WITH")
  }

  predicate StartsWithWord(s: string, word: string) {
    StartsWith(s, word) && (|s| == |word| || !IsWord(s[|word|]))
  }

  /** `/;\s*\S/`: a semicolon, white space, and something else. */
  ghost predicate MatchesSecond(text: string) {
    exists i, j :: 0 <= i < j < |text| && text[i] == ';' && !IsJsSpace(text[j]) && forall k :: i < k < j ==> IsJsSpace(text[k])
  }

  /** Something comes after a semicolon. */
  predicate HasSecond(text: string) {
    exists i {:trigger text[i]} :: 0 <= i < |text| && text[i] == ';' && !AllSpace(text, i + 1)
  }

  predicate AllSpace(text: string, from: nat)
    decreases |text| - from
  {
    from >= |text| || (IsJsSpace(text[from]) && AllSpace(text, from + 1))
  }

  lemma {:induction false} FirstNotSpace(text: string, from: nat) returns (j: nat)
    requires !AllSpace(text, from)
    ensures from <= j < |text| && !IsJsSpace(text[j]) && forall k :: from <= k < j ==> IsJsSpace(text[k])
    decreases |text| - from
  {
    j := from;
    if IsJsSpace(text[from]) {
      j := FirstNotSpace(text, from + 1);
    }
  }

  lemma {:induction false} NotAllSpace(text: string, from: nat, j: nat)
    requires from <= j < |text| && !IsJsSpace(text[j])
    ensures !AllSpace(text, from)
    decreases j - from
  {
    if from < j {
      NotAllSpace(text, from + 1, j);
    }
  }

  /** The pattern finds exactly the texts with something after a semicolon. */
  lemma SecondIff(text: string)
    ensures MatchesSecond(text) <==> HasSecond(text)
  {
    if HasSecond(text) {
      var i: nat :| 0 <= i < |text| && text[i] == ';' && !AllSpace(text, i + 1);
      var j := FirstNotSpace(text, i + 1);
    }
    if MatchesSecond(text) {
      var i, j :| 0 <= i < j < |text| && text[i] == ';' && !IsJsSpace(text[j]) && forall k :: i < k < j ==> IsJsSpace(text[k]);
      NotAllSpace(text, i + 1, j);
    }
  }

  /** How the check takes a statement. */
  datatype Kind = BeginReadOnly | OtherBegin | Rollback | Read | Forbidden

  function Classify(text: string, upper: string): Kind {
    if StartsWith(upper, "BEGIN") then if Contains(upper, "READ ONLY") then BeginReadOnly else OtherBegin
    else if StartsWith(upper, "ROLLBACK") then Rollback
    else if IsQuery(upper) && !HasSecond(text) then Read
    else Forbidden
  }

  type Classifier = string -> Kind

  // ----- the check -----

  /** The state of the check after `n` statements: whether a transaction is open, unless something has failed. */
  function Run(statements: seq<string>, n: nat, kind: Classifier): Option<bool>
    requires n <= |statements|
  {
    if n == 0 then Some(false)
    else match Run(statements, n - 1, kind)
      case None => None
      case Some(open) =>
        match kind(statements[n - 1])
        case BeginReadOnly => if open then None else Some(true)
        case OtherBegin => None
        case Rollback => if open then Some(false) else None
        case Read => if open then Some(true) else None
        case Forbidden => None
  }

  lemma {:induction false} FailureStays(statements: seq<string>, k: nat, n: nat, kind: Classifier)
    requires k <= n <= |statements| && Run(statements, k, kind) == None
    ensures Run(statements, n, kind) == None
    decreases n
  {
    if k < n {
      FailureStays(statements, k, n - 1, kind);
    }
  }

  /** Passes if every expectation holds. */
  method ExpectReadOnlyTransactions(statements: seq<string>, kind: Classifier) returns (passes: bool)
    ensures passes <==> Run(statements, |statements|, kind) == Some(false)
  {
    var open := false;
    for n := 0 to |statements|
      invariant Run(statements, n, kind) == Some(open)
    {
      var failed;
      match kind(statements[n]) {
        case BeginReadOnly => failed, open := open, true;
        case OtherBegin => failed := true;
        case Rollback => failed, open := !open, false;
        case Read => failed := !open;
        case Forbidden => failed := true;
      }
      if failed {
        FailureStays(statements, n + 1, |statements|, kind);
        return false;
      }
    }
    passes := !open;
  }

  /** A transaction from `i` to `j`: it begins read-only, reads, and is rolled back. */
  ghost predicate IsTransaction(statements: seq<string>, i: nat, j: nat, kind: Classifier)
    requires j <= |statements|
  {
    && i + 1 < j && kind(statements[i]) == BeginReadOnly && kind(statements[j - 1]) == Rollback
    && forall k :: i < k < j - 1 ==> kind(statements[k]) == Read
  }

  /** Cuts `bounds` of the statements into transactions, one after the other. */
  ghost predicate IsCut(statements: seq<string>, bounds: seq<nat>, n: nat, kind: Classifier)
    requires n <= |statements|
  {
    && |bounds| > 0 && bounds[0] == 0 && bounds[|bounds| - 1] == n
    && (forall b {:trigger bounds[b]} :: 0 <= b < |bounds| ==> bounds[b] <= n)
    && forall b {:trigger bounds[b]} :: 0 < b < |bounds| ==> IsTransaction(statements, bounds[b - 1], bounds[b], kind)
  }

  /** The open part of a trace: where its transaction began. */
  ghost predicate IsOpen(statements: seq<string>, begin: nat, n: nat, kind: Classifier)
    requires n <= |statements|
  {
    begin < n && kind(statements[begin]) == BeginReadOnly && forall k :: begin < k < n ==> kind(statements[k]) == Read
  }

  lemma CutMore(statements: seq<string>, bounds: seq<nat>, i: nat, n: nat, kind: Classifier)
    requires i <= n <= |statements| && IsCut(statements, bounds, i, kind) && IsTransaction(statements, i, n, kind)
    ensures IsCut(statements, bounds + [n], n, kind)
  {
    var more := bounds + [n];
    forall b {:trigger more[b]} | 0 < b < |more| ensures IsTransaction(statements, more[b - 1], more[b], kind) {
      if b < |bounds| {
        assert IsTransaction(statements, bounds[b - 1], bounds[b], kind);
      }
    }
  }

  /** What the automaton accepts is cut into transactions, up to `last`, where one may be open. */
  lemma {:induction false} AcceptedIsCut(statements: seq<string>, n: nat, kind: Classifier) returns (bounds: seq<nat>, last: nat)
    requires n <= |statements| && Run(statements, n, kind).Some?
    ensures last <= n && IsCut(statements, bounds, last, kind)
    ensures if Run(statements, n, kind).value then IsOpen(statements, last, n, kind) else last == n
  {
    if n == 0 {
      bounds, last := [0], 0;
    } else {
      bounds, last := AcceptedIsCut(statements, n - 1, kind);
      if kind(statements[n - 1]) == Rollback {
        CutMore(statements, bounds, last, n, kind);
        bounds, last := bounds + [n], n;
      }
    }
  }

  /** Within a transaction the automaton is open. */
  lemma {:induction false} TransactionRuns(statements: seq<string>, i: nat, j: nat, n: nat, kind: Classifier)
    requires i < n < j <= |statements| && IsTransaction(statements, i, j, kind) && Run(statements, i, kind) == Some(false)
    ensures Run(statements, n, kind) == Some(true)
  {
    if n > i + 1 {
      TransactionRuns(statements, i, j, n - 1, kind);
    }
  }

  lemma {:induction false} CutRuns(statements: seq<string>, bounds: seq<nat>, b: nat, n: nat, kind: Classifier)
    requires n <= |statements| && IsCut(statements, bounds, n, kind) && b < |bounds|
    ensures Run(statements, bounds[b], kind) == Some(false)
  {
    if b > 0 {
      CutRuns(statements, bounds, b - 1, n, kind);
      assert IsTransaction(statements, bounds[b - 1], bounds[b], kind);
      TransactionRuns(statements, bounds[b - 1], bounds[b], bounds[b] - 1, kind);
    }
  }

  /** The check passes exactly on traces that are read-only transactions one after the other. */
  lemma PassesIffTransactions(statements: seq<string>, kind: Classifier)
    ensures Run(statements, |statements|, kind) == Some(false)
       <==> exists bounds :: IsCut(statements, bounds, |statements|, kind)
  {
    if Run(statements, |statements|, kind) == Some(false) {
      var bounds, last := AcceptedIsCut(statements, |statements|, kind);
    }
    if bounds :| IsCut(statements, bounds, |statements|, kind) {
      CutRuns(statements, bounds, |bounds| - 1, |statements|, kind);
    }
  }

  // ----- what that says of the texts -----

  /** The check as it is called; `up` is the upper-casing of the language. */
  function ClassifierOf(up: string -> string): Classifier {
    text => Classify(text, up(text))
  }

  /** The word stands at place `k`. */
  predicate StandsAt(s: string, k: nat, word: string) {
    k + |word| <= |s| && s[k..k + |word|] == word
  }

  /** A word of letters, digits and underscores cannot go on at place `k`. */
  predicate EndsWord(s: string, k: nat) {
    k >= |s| || !('A' <= s[k] <= 'Z' || 'a' <= s[k] <= 'z' || '0' <= s[k] <= '9' || s[k] == '_')
  }

  ghost predicate Begins(upper: string) {
    StandsAt(upper, 0, "BEGIN") && exists k: nat :: StandsAt(upper, k, "READ ONLY")
  }

  ghost predicate RollsBack(upper: string) { StandsAt(upper, 0, "ROLLBACK") }

  ghost predicate ReadsOnce(text: string, upper: string) {
    && ((StandsAt(upper, 0, "SELECT") && EndsWord(upper, 6)) || (StandsAt(upper, 0, "WITH") && EndsWord(upper, 4)))
    && !MatchesSecond(text)
  }

  lemma StartsIff(s: string, start: string)
    ensures StartsWith(s, start) <==> StandsAt(s, 0, start)
  {
  }

  /** A text contains another exactly if that stands somewhere in it. */
  lemma {:induction false} ContainsIff(s: string, part: string)
    ensures Contains(s, part) <==> exists k: nat :: StandsAt(s, k, part)
  {
    if Contains(s, part) {
      if StartsWith(s, part) {
        StartsIff(s, part);
      } else {
        ContainsIff(s[1..], part);
        var k: nat :| StandsAt(s[1..], k, part);
        assert s[k + 1..k + 1 + |part|] == s[1..][k..k + |part|];
        assert StandsAt(s, k + 1, part);
      }
    }
    if k: nat :| StandsAt(s, k, part) {
      assert s[k..][..|part|] == s[k..k + |part|];
      ContainsAt(s, k, part);
    }
  }

  lemma QueryIff(upper: string)
    ensures IsQuery(upper)
       <==> (StandsAt(upper, 0, "SELECT") && EndsWord(upper, 6)) || (StandsAt(upper, 0, "WITH") && EndsWord(upper, 4))
  {
    StartsIff(upper, "SELECT");
    StartsIff(upper, "WITH");
  }

  lemma FirstLetter(upper: string, word: string)
    requires StartsWith(upper, word) && word != ""
    ensures upper != "" && upper[0] == word[0]
  {
    assert upper[..|word|][0] == word[0];
  }

  /** No text is taken in two ways: the order of the tests does not matter. */
  lemma KindsAreDisjoint(text: string, upper: string)
    ensures Classify(text, upper) == BeginReadOnly <==> Begins(upper)
    ensures Classify(text, upper) == Rollback <==> RollsBack(upper)
    ensures Classify(text, upper) == Read <==> ReadsOnce(text, upper)
  {
    ContainsIff(upper, "READ ONLY");
    QueryIff(upper);
    SecondIff(text);
    StartsIff(upper, "BEGIN");
    StartsIff(upper, "ROLLBACK");
    if StartsWith(upper, "BEGIN") { FirstLetter(upper, "BEGIN"); }
    if StartsWith(upper, "ROLLBACK") { FirstLetter(upper, "ROLLBACK"); }
    if StartsWith(upper, "SELECT") { FirstLetter(upper, "SELECT"); }
    if StartsWith(upper, "WITH") { FirstLetter(upper, "WITH"); }
  }

  /** The statements from `i` to `j` by their texts: BEGIN with READ ONLY, single queries, ROLLBACK. */
  ghost predicate IsReadOnlyBlock(statements: seq<string>, i: nat, j: nat, up: string -> string)
    requires j <= |statements|
  {
    && i + 1 < j && Begins(up(statements[i])) && RollsBack(up(statements[j - 1]))
    && forall k {:trigger statements[k]} :: i < k < j - 1 ==> ReadsOnce(statements[k], up(statements[k]))
  }

  ghost predicate IsReadOnlyTrace(statements: seq<string>, bounds: seq<nat>, up: string -> string) {
    && |bounds| > 0 && bounds[0] == 0 && bounds[|bounds| - 1] == |statements|
    && (forall b {:trigger bounds[b]} :: 0 <= b < |bounds| ==> bounds[b] <= |statements|)
    && forall b {:trigger bounds[b]} :: 0 < b < |bounds| ==> IsReadOnlyBlock(statements, bounds[b - 1], bounds[b], up)
  }

  lemma BlockIsTransaction(statements: seq<string>, i: nat, j: nat, up: string -> string)
    requires j <= |statements|
    ensures IsTransaction(statements, i, j, ClassifierOf(up)) <==> IsReadOnlyBlock(statements, i, j, up)
  {
    var kind := ClassifierOf(up);
    forall k {:trigger statements[k]} | 0 <= k < |statements|
      ensures kind(statements[k]) == Read <==> ReadsOnce(statements[k], up(statements[k])) {
      KindsAreDisjoint(statements[k], up(statements[k]));
    }
    if i + 1 < j {
      KindsAreDisjoint(statements[i], up(statements[i]));
      KindsAreDisjoint(statements[j - 1], up(statements[j - 1]));
    }
  }

  lemma CutIsTrace(statements: seq<string>, bounds: seq<nat>, up: string -> string)
    ensures IsCut(statements, bounds, |statements|, ClassifierOf(up)) <==> IsReadOnlyTrace(statements, bounds, up)
  {
    if forall b {:trigger bounds[b]} :: 0 <= b < |bounds| ==> bounds[b] <= |statements| {
      forall b {:trigger bounds[b]} | 0 < b < |bounds|
        ensures IsTransaction(statements, bounds[b - 1], bounds[b], ClassifierOf(up))
           <==> IsReadOnlyBlock(statements, bounds[b - 1], bounds[b], up) {
        BlockIsTransaction(statements, bounds[b - 1], bounds[b], up);
      }
    }
  }

  /** The check passes exactly on such traces. */
  lemma PassesIffReadOnly(statements: seq<string>, up: string -> string)
    ensures Run(statements, |statements|, ClassifierOf(up)) == Some(false)
       <==> exists bounds :: IsReadOnlyTrace(statements, bounds, up)
  {
    PassesIffTransactions(statements, ClassifierOf(up));
    forall bounds ensures IsCut(statements, bounds, |statements|, ClassifierOf(up)) <==> IsReadOnlyTrace(statements, bounds, up) {
      CutIsTrace(statements, bounds, up);
    }
  }

  lemma {:induction false} AcceptedKinds(statements: seq<string>, n: nat, kind: Classifier)
    requires n <= |statements| && Run(statements, n, kind).Some?
    ensures forall k :: 0 <= k < n ==> kind(statements[k]) in {BeginReadOnly, Rollback, Read}
  {
    if n > 0 {
      AcceptedKinds(statements, n - 1, kind);
    }
  }

  /** A statement that begins or ends a transaction, which the check does not hold to be single. */
  predicate IsBoundary(text: string, up: string -> string) {
    StandsAt(up(text), 0, "BEGIN") || StandsAt(up(text), 0, "ROLLBACK")
  }

  /** All statements of a trace that passes are single exactly if those are that start with BEGIN or ROLLBACK. */
  lemma SingleIffBoundariesAre(statements: seq<string>, up: string -> string)
    requires Run(statements, |statements|, ClassifierOf(up)) == Some(false)
    ensures (forall k :: 0 <= k < |statements| ==> !HasSecond(statements[k]))
       <==> (forall k :: 0 <= k < |statements| && IsBoundary(statements[k], up) ==> !HasSecond(statements[k]))
  {
    AcceptedKinds(statements, |statements|, ClassifierOf(up));
    forall k | 0 <= k < |statements| ensures IsBoundary(statements[k], up) || !HasSecond(statements[k]) {
      assert ClassifierOf(up)(statements[k]) == Classify(statements[k], up(statements[k]));
      StartsIff(up(statements[k]), "BEGIN");
      StartsIff(up(statements[k]), "ROLLBACK");
    }
  }

  // ----- traces that pass with a second statement -----

  lemma UpperAfter(word: string, rest: string)
    requires forall k :: 0 <= k < |word| ==> UpperChar(word[k]) == word[k]
    ensures Upper(word + rest) == word + Upper(rest)
  {
  }

  lemma BeginsWell(upper: string, rest: string)
    requires upper == "BEGIN " + ("READ ONLY" + rest)
    ensures Begins(upper)
  {
    assert upper[6..] == "READ ONLY" + rest;
    assert upper[6..15] == ("READ ONLY" + rest)[..9] == "READ ONLY";
    assert StandsAt(upper, 6, "READ ONLY");
    assert upper[0..5] == "BEGIN";
  }

  lemma BeginIsBegin(text: string, rest: string)
    requires text == "BEGIN " + ("READ ONLY" + rest)
    ensures ClassifierOf(Upper)(text) == BeginReadOnly
  {
    UpperAfter("READ ONLY", rest);
    UpperAfter("BEGIN ", "READ ONLY" + rest);
    BeginsWell(Upper(text), Upper(rest));
    KindsAreDisjoint(text, Upper(text));
  }

  lemma RollsBackWell(upper: string, rest: string)
    requires upper == "ROLLBACK" + rest
    ensures RollsBack(upper)
  {
    assert upper[0..8] == "ROLLBACK";
  }

  lemma RollbackIsRollback(text: string, rest: string)
    requires text == "ROLLBACK" + rest
    ensures ClassifierOf(Upper)(text) == Rollback
  {
    UpperAfter("ROLLBACK", rest);
    RollsBackWell(Upper(text), Upper(rest));
    KindsAreDisjoint(text, Upper(text));
  }

  lemma SecondAfter(text: string, start: nat)
    requires start + 2 < |text| && text[start] == ';' && text[start + 2] == 'D'
    ensures HasSecond(text)
  {
    NotAllSpace(text, start + 1, start + 2);
  }

  lemma TwoStatementsPass(statements: seq<string>, kind: Classifier)
    requires |statements| == 2 && kind(statements[0]) == BeginReadOnly && kind(statements[1]) == Rollback
    ensures Run(statements, 2, kind) == Some(false)
  {
    assert Run(statements, 0, kind) == Some(false);
    assert Run(statements, 1, kind) == Some(true);
  }

  /** A second statement after BEGIN passes. */
  lemma BeginMaySayMore(statements: seq<string>)
    requires statements == ["BEGIN " + ("READ ONLY" + "; DROP TABLE t"), "ROLLBACK" + ""]
    ensures Run(statements, 2, ClassifierOf(Upper)) == Some(false) && HasSecond(statements[0])
  {
    BeginIsBegin(statements[0], "; DROP TABLE t");
    RollbackIsRollback(statements[1], "");
    TwoStatementsPass(statements, ClassifierOf(Upper));
    SecondAfter(statements[0], 15);
  }

  /** A second statement after ROLLBACK passes too. */
  lemma RollbackMaySayMore(statements: seq<string>)
    requires statements == ["BEGIN " + ("READ ONLY" + ""), "ROLLBACK" + "; DROP TABLE t"]
    ensures Run(statements, 2, ClassifierOf(Upper)) == Some(false) && HasSecond(statements[1])
  {
    BeginIsBegin(statements[0], "");
    RollbackIsRollback(statements[1], "; DROP TABLE t");
    TwoStatementsPass(statements, ClassifierOf(Upper));
    SecondAfter(statements[1], 8);
  }

  // ----- records of the log -----

  function JoinLines(lines: seq<string>, n: nat): string
    requires n <= |lines|
  {
    if n == 0 then "" else if n == 1 then lines[0] else JoinLines(lines, n - 1) + "\n" + lines[n - 1]
  }

  /** The lines of every record: a line starts one if it has the form of a first line, or if there is none yet. */
  function Groups(lines: seq<string>, n: nat, starts: string -> bool): seq<seq<string>>
    requires n <= |lines|
  {
    if n == 0 then []
    else
      var groups, line := Groups(lines, n - 1, starts), lines[n - 1];
      if starts(line) || groups == [] then groups + [[line]]
      else groups[..|groups| - 1] + [groups[|groups| - 1] + [line]]
  }

  /** Extends the last record in place. */
  method GroupRecords(lines: seq<string>, starts: string -> bool) returns (records: seq<string>)
    ensures var groups := Groups(lines, |lines|, starts);
            |records| == |groups| && forall r :: 0 <= r < |records| ==> records[r] == JoinLines(groups[r], |groups[r]|)
  {
    records := [];
    for n := 0 to |lines|
      invariant AreJoined(records, Groups(lines, n, starts))
    {
      var line := lines[n];
      ghost var groups := Groups(lines, n, starts);
      GroupsFull(lines, n, starts);
      if starts(line) || |records| == 0 {
        records := records + [line];
      } else {
        var last := |records| - 1;
        JoinFirst(groups[last], groups[last] + [line], |groups[last]|);
        records := records[last := records[last] + "\n" + line];
      }
    }
  }

  ghost predicate AreJoined(records: seq<string>, groups: seq<seq<string>>) {
    |records| == |groups| && forall r :: 0 <= r < |records| ==> records[r] == JoinLines(groups[r], |groups[r]|)
  }

  lemma {:induction false} JoinFirst(lines: seq<string>, more: seq<string>, n: nat)
    requires n <= |lines| && n <= |more| && forall k :: 0 <= k < n ==> lines[k] == more[k]
    ensures JoinLines(lines, n) == JoinLines(more, n)
  {
    if n > 1 {
      JoinFirst(lines, more, n - 1);
    }
  }

  lemma {:induction false} GroupsFull(lines: seq<string>, n: nat, starts: string -> bool)
    requires n <= |lines|
    ensures forall r :: 0 <= r < |Groups(lines, n, starts)| ==> Groups(lines, n, starts)[r] != []
  {
    if n > 0 {
      GroupsFull(lines, n - 1, starts);
    }
  }

  lemma {:induction false} ConcatFirst(groups: seq<seq<string>>, more: seq<seq<string>>, n: nat)
    requires n <= |groups| && n <= |more| && forall k :: 0 <= k < n ==> groups[k] == more[k]
    ensures Concat(groups, n) == Concat(more, n)
  {
    if n > 0 {
      ConcatFirst(groups, more, n - 1);
    }
  }

  lemma {:induction false} ConcatLonger(groups: seq<seq<string>>, line: string)
    requires groups != []
    ensures var last := |groups| - 1;
            Concat(groups[..last] + [groups[last] + [line]], |groups|) == Concat(groups, |groups|) + [line]
  {
    var last := |groups| - 1;
    ConcatFirst(groups, groups[..last] + [groups[last] + [line]], last);
    assert Concat(groups, last) + (groups[last] + [line]) == Concat(groups, last) + groups[last] + [line];
  }

  lemma OneMore(lines: seq<string>, n: nat)
    requires 0 < n <= |lines|
    ensures lines[..n] == lines[..n - 1] + [lines[n - 1]]
  {
  }

  /** Grouping loses and reorders no line. */
  lemma {:induction false} GroupsKeepLines(lines: seq<string>, n: nat, starts: string -> bool)
    requires n <= |lines|
    ensures Concat(Groups(lines, n, starts), |Groups(lines, n, starts)|) == lines[..n]
  {
    if n > 0 {
      GroupsKeepLines(lines, n - 1, starts);
      var groups, line := Groups(lines, n - 1, starts), lines[n - 1];
      OneMore(lines, n);
      if starts(line) || groups == [] {
        ConcatMore(groups, [line], |groups|);
      } else {
        ConcatLonger(groups, line);
      }
    }
  }

  /** A record starts with a first line, unless it is the first record, and has no other. */
  predicate IsRecord(group: seq<string>, first: bool, starts: string -> bool) {
    group != [] && (first || starts(group[0])) && forall k :: 0 < k < |group| ==> !starts(group[k])
  }

  ghost predicate AreRecords(groups: seq<seq<string>>, starts: string -> bool) {
    forall r {:trigger groups[r]} :: 0 <= r < |groups| ==> IsRecord(groups[r], r == 0, starts)
  }

  lemma LongerRecord(group: seq<string>, first: bool, line: string, starts: string -> bool)
    requires IsRecord(group, first, starts) && !starts(line)
    ensures IsRecord(group + [line], first, starts)
  {
  }

  lemma {:induction false} GroupsStart(lines: seq<string>, n: nat, starts: string -> bool)
    requires n <= |lines|
    ensures AreRecords(Groups(lines, n, starts), starts)
  {
    if n > 0 {
      GroupsStart(lines, n - 1, starts);
      var groups, line := Groups(lines, n - 1, starts), lines[n - 1];
      if groups != [] && !starts(line) {
        LongerRecord(groups[|groups| - 1], |groups| == 1, line, starts);
      }
    }
  }
}
