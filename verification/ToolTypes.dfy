/** The rule on the list of tool types: it is clean exactly if the list is a permutation of the tools. */
module ToolTypes {
  import opened Common

  // ----- the list in the source -----

  /** An expression as the rule sees it; the type of a `typeof` may be unknown. */
  datatype Expression<T> = Parenthesized(inner: Expression<T>) | TypeOf(type_: Option<T>) | Other

  /** What a method body returns: the items of an array (a spread is no expression), or something else. */
  datatype Returned<T> = Items(items: seq<Option<Expression<T>>>) | Parens(inner: Returned<T>) | NoArray

  function Unwrapped<T>(e: Expression<T>): Expression<T> {
    if e.Parenthesized? then Unwrapped(e.inner) else e
  }

  method Unwrap<T>(e: Expression<T>) returns (r: Expression<T>)
    ensures r == Unwrapped(e) && !r.Parenthesized?
  {
    r := e;
    while r.Parenthesized?
      invariant Unwrapped(r) == Unwrapped(e)
      decreases r
    {
      r := r.inner;
    }
  }

  function Array<T>(r: Returned<T>): Returned<T> {
    if r.Parens? then Array(r.inner) else r
  }

  /** The types of the array, if all its items are `typeof`; nothing for a body of another kind. */
  method ArrayElements<T>(returned: Returned<T>) returns (r: Option<seq<Option<T>>>)
    ensures r.Some? <==>
      && Array(returned).Items?
      && forall i :: 0 <= i < |Array(returned).items| ==>
           Array(returned).items[i].Some? && Unwrapped(Array(returned).items[i].value).TypeOf?
    ensures r.Some? ==>
      && |r.value| == |Array(returned).items|
      && forall i :: 0 <= i < |r.value| ==> Unwrapped(Array(returned).items[i].value) == TypeOf(r.value[i])
  {
    var unwrapped := returned;
    while unwrapped.Parens?
      invariant Array(unwrapped) == Array(returned)
      decreases unwrapped
    {
      unwrapped := unwrapped.inner;
    }
    if !unwrapped.Items? {
      return None;
    }
    var items, types := unwrapped.items, [];
    for i := 0 to |items|
      invariant |types| == i
      invariant forall j :: 0 <= j < i ==> items[j].Some? && Unwrapped(items[j].value) == TypeOf(types[j])
    {
      if items[i] == None {
        return None;
      }
      var item := Unwrap(items[i].value);
      if !item.TypeOf? {
        return None;
      }
      types := types + [item.type_];
    }
    r := Some(types);
  }

  // ----- the rule -----

  datatype Finding<T> = NoTool(element: nat) | Repeated(element: nat) | Missing(tool: T)

  /** The tools among the first `n` elements. */
  function Listed<T(==)>(elements: seq<Option<T>>, n: nat, tools: seq<T>): set<T>
    requires n <= |elements|
  {
    if n == 0 then {}
    else Listed(elements, n - 1, tools)
         + if elements[n - 1].Some? && elements[n - 1].value in tools then {elements[n - 1].value} else {}
  }

  function Faults<T(==)>(elements: seq<Option<T>>, n: nat, tools: seq<T>): seq<Finding<T>>
    requires n <= |elements|
  {
    if n == 0 then []
    else
      var e := elements[n - 1];
      Faults(elements, n - 1, tools)
      + if e == None || e.value !in tools then [NoTool(n - 1)]
        else if e.value in Listed(elements, n - 1, tools) then [Repeated(n - 1)]
        else []
  }

  function Absent<T(==)>(tools: seq<T>, n: nat, listed: set<T>): seq<Finding<T>>
    requires n <= |tools|
  {
    if n == 0 then [] else Absent(tools, n - 1, listed) + if tools[n - 1] in listed then [] else [Missing(tools[n - 1])]
  }

  /** What each finding says. */
  ghost predicate IsFinding<T>(f: Finding<T>, elements: seq<Option<T>>, tools: seq<T>) {
    match f
    case NoTool(i) => i < |elements| && (elements[i] == None || elements[i].value !in tools)
    case Repeated(i) => i < |elements| && elements[i].Some? && elements[i].value in tools && elements[i] in elements[..i]
    case Missing(t) => t in tools && Some(t) !in elements
  }

  /** The element that a finding is about; those that miss a tool come after all. */
  function Place<T>(f: Finding<T>, elements: seq<Option<T>>): nat {
    match f case NoTool(i) => i case Repeated(i) => i case Missing(_) => |elements|
  }

  lemma {:induction false} ListedAre<T>(elements: seq<Option<T>>, n: nat, tools: seq<T>, t: T)
    requires n <= |elements|
    ensures t in Listed(elements, n, tools) <==> t in tools && Some(t) in elements[..n]
  {
    if n > 0 {
      ListedAre(elements, n - 1, tools, t);
      assert elements[..n] == elements[..n - 1] + [elements[n - 1]];
    }
  }

  /** What element `n` adds. */
  function FaultOf<T(==)>(elements: seq<Option<T>>, n: nat, tools: seq<T>): seq<Finding<T>>
    requires n < |elements|
  {
    var e := elements[n];
    if e == None || e.value !in tools then [NoTool(n)]
    else if e.value in Listed(elements, n, tools) then [Repeated(n)]
    else []
  }

  lemma FaultIs<T>(elements: seq<Option<T>>, n: nat, tools: seq<T>, f: Finding<T>)
    requires n < |elements|
    ensures f in FaultOf(elements, n, tools) <==> !f.Missing? && f.element == n && IsFinding(f, elements, tools)
  {
    if elements[n].Some? {
      ListedAre(elements, n, tools, elements[n].value);
    }
  }

  lemma {:induction false} FaultsAre<T>(elements: seq<Option<T>>, n: nat, tools: seq<T>, f: Finding<T>)
    requires n <= |elements|
    ensures f in Faults(elements, n, tools) <==> !f.Missing? && f.element < n && IsFinding(f, elements, tools)
  {
    if n > 0 {
      FaultsAre(elements, n - 1, tools, f);
      FaultIs(elements, n - 1, tools, f);
      assert Faults(elements, n, tools) == Faults(elements, n - 1, tools) + FaultOf(elements, n - 1, tools);
    }
  }

  lemma {:induction false} FaultsInOrder<T>(elements: seq<Option<T>>, n: nat, tools: seq<T>, j: nat, k: nat)
    requires n <= |elements| && j < k < |Faults(elements, n, tools)|
    ensures Place(Faults(elements, n, tools)[j], elements) < Place(Faults(elements, n, tools)[k], elements) < n
  {
    var before := Faults(elements, n - 1, tools);
    FaultsAre(elements, n - 1, tools, before[j]);
    if k < |before| {
      FaultsInOrder(elements, n - 1, tools, j, k);
    }
  }

  lemma {:induction false} AbsentAre<T>(tools: seq<T>, n: nat, listed: set<T>, f: Finding<T>)
    requires n <= |tools|
    ensures f in Absent(tools, n, listed) <==> f.Missing? && f.tool in tools[..n] && f.tool !in listed
  {
    if n > 0 {
      AbsentAre(tools, n - 1, listed, f);
      assert tools[..n] == tools[..n - 1] + [tools[n - 1]];
    }
  }

  lemma FindingsAre<T>(elements: seq<Option<T>>, tools: seq<T>, f: Finding<T>)
    ensures f in Faults(elements, |elements|, tools) + Absent(tools, |tools|, Listed(elements, |elements|, tools))
       <==> IsFinding(f, elements, tools)
  {
    FaultsAre(elements, |elements|, tools, f);
    AbsentAre(tools, |tools|, Listed(elements, |elements|, tools), f);
    assert tools[..|tools|] == tools && elements[..|elements|] == elements;
    if f.Missing? {
      ListedAre(elements, |elements|, tools, f.tool);
    }
  }

  lemma InOrder<T>(elements: seq<Option<T>>, tools: seq<T>, faults: seq<Finding<T>>, absent: seq<Finding<T>>, j: nat, k: nat)
    requires faults == Faults(elements, |elements|, tools) && j < k < |faults| + |absent| && !(faults + absent)[k].Missing?
    requires forall f :: f in absent ==> f.Missing?
    ensures Place((faults + absent)[j], elements) < Place((faults + absent)[k], elements)
  {
    if k < |faults| {
      FaultsInOrder(elements, |elements|, tools, j, k);
    }
  }

  lemma FindingsInOrder<T>(elements: seq<Option<T>>, tools: seq<T>, findings: seq<Finding<T>>)
    requires findings == Faults(elements, |elements|, tools) + Absent(tools, |tools|, Listed(elements, |elements|, tools))
    ensures forall j, k :: 0 <= j < k < |findings| && !findings[k].Missing? ==>
      Place(findings[j], elements) < Place(findings[k], elements)
  {
    var faults, absent := Faults(elements, |elements|, tools), Absent(tools, |tools|, Listed(elements, |elements|, tools));
    forall f | f in absent ensures f.Missing? {
      AbsentAre(tools, |tools|, Listed(elements, |elements|, tools), f);
    }
    forall j, k | 0 <= j < k < |findings| && !findings[k].Missing? ensures Place(findings[j], elements) < Place(findings[k], elements) {
      InOrder(elements, tools, faults, absent, j, k);
    }
  }

  /** Checks the list of the factory against the tools of the project: first its elements in order, then the
      tools that it lacks. */
  method CheckToolTypes<T(==)>(elements: seq<Option<T>>, tools: seq<T>) returns (findings: seq<Finding<T>>)
    ensures forall f :: f in findings <==> IsFinding(f, elements, tools)
    ensures forall j, k :: 0 <= j < k < |findings| && !findings[k].Missing? ==>
      Place(findings[j], elements) < Place(findings[k], elements)
    ensures findings == Faults(elements, |elements|, tools) + Absent(tools, |tools|, Listed(elements, |elements|, tools))
  {
    findings := [];
    var listed: set<T> := {};
    for n := 0 to |elements|
      invariant findings == Faults(elements, n, tools) && listed == Listed(elements, n, tools)
    {
      var e := elements[n];
      if e == None || e.value !in tools {
        findings := findings + [NoTool(n)];
      } else if e.value in listed {
        findings := findings + [Repeated(n)];
      } else {
        listed := listed + {e.value};
      }
    }
    ghost var faults := findings;
    for n := 0 to |tools|
      invariant findings == faults + Absent(tools, n, listed)
    {
      if tools[n] !in listed {
        findings := findings + [Missing(tools[n])];
      }
    }
    forall f ensures f in findings <==> IsFinding(f, elements, tools) {
      FindingsAre(elements, tools, f);
    }
    FindingsInOrder(elements, tools, findings);
  }

  predicate Distinct<T(==)>(s: seq<T>) {
    forall i, j :: 0 <= i < j < |s| ==> s[i] != s[j]
  }

  lemma {:induction false} FaultCount<T>(elements: seq<Option<T>>, n: nat, tools: seq<T>)
    requires n <= |elements|
    ensures |Faults(elements, n, tools)| + |Listed(elements, n, tools)| == n
  {
    if n > 0 {
      FaultCount(elements, n - 1, tools);
      var e, before := elements[n - 1], Listed(elements, n - 1, tools);
      if e.Some? && e.value in tools && e.value in before {
        assert before + {e.value} == before;
      }
    }
  }

  function Firsts<T(==)>(tools: seq<T>, n: nat): set<T>
    requires n <= |tools|
  {
    if n == 0 then {} else Firsts(tools, n - 1) + {tools[n - 1]}
  }

  lemma {:induction false} InFirsts<T>(tools: seq<T>, n: nat, t: T)
    requires n <= |tools|
    ensures t in Firsts(tools, n) <==> exists i :: 0 <= i < n && tools[i] == t
  {
    if n > 0 {
      InFirsts(tools, n - 1, t);
    }
  }

  lemma OneMore<T>(s: set<T>, t: T, listed: set<T>)
    requires t !in s
    ensures |s + {t}| == |s| + 1
    ensures |(s + {t}) * listed| == |s * listed| + if t in listed then 1 else 0
  {
    if t in listed {
      assert (s + {t}) * listed == s * listed + {t};
    } else {
      assert (s + {t}) * listed == s * listed;
    }
  }

  lemma {:induction false} AbsentCount<T>(tools: seq<T>, n: nat, listed: set<T>)
    requires n <= |tools| && Distinct(tools)
    ensures |Absent(tools, n, listed)| + |Firsts(tools, n) * listed| == n && |Firsts(tools, n)| == n
  {
    if n > 0 {
      AbsentCount(tools, n - 1, listed);
      InFirsts(tools, n - 1, tools[n - 1]);
      OneMore(Firsts(tools, n - 1), tools[n - 1], listed);
    }
  }

  lemma {:induction false} ListedAreTools<T>(elements: seq<Option<T>>, n: nat, tools: seq<T>)
    requires n <= |elements|
    ensures Listed(elements, n, tools) <= Firsts(tools, |tools|)
  {
    if n > 0 {
      ListedAreTools(elements, n - 1, tools);
      if elements[n - 1].Some? && elements[n - 1].value in tools {
        InFirsts(tools, |tools|, elements[n - 1].value);
      }
    }
  }

  /** How many findings there are: every element and every tool, less two for every tool that is listed. */
  lemma FindingCount<T>(elements: seq<Option<T>>, tools: seq<T>)
    requires Distinct(tools)
    ensures var listed := Listed(elements, |elements|, tools);
            |Faults(elements, |elements|, tools) + Absent(tools, |tools|, listed)| == |elements| + |tools| - 2 * |listed|
    ensures |Listed(elements, |elements|, tools)| <= |elements| && |Listed(elements, |elements|, tools)| <= |tools|
  {
    var listed := Listed(elements, |elements|, tools);
    FaultCount(elements, |elements|, tools);
    AbsentCount(tools, |tools|, listed);
    ListedAreTools(elements, |elements|, tools);
    assert Firsts(tools, |tools|) * listed == listed;
  }

  function Somes<T(==)>(tools: seq<T>, n: nat): (r: multiset<Option<T>>)
    requires n <= |tools|
    ensures |r| == n
  {
    if n == 0 then multiset{} else Somes(tools, n - 1) + multiset{Some(tools[n - 1])}
  }

  function Bag<T(==)>(elements: seq<Option<T>>, n: nat): (r: multiset<Option<T>>)
    requires n <= |elements|
    ensures |r| == n
  {
    if n == 0 then multiset{} else Bag(elements, n - 1) + multiset{elements[n - 1]}
  }

  lemma {:induction false} SomesCount<T>(tools: seq<T>, n: nat, t: T)
    requires n <= |tools| && Distinct(tools)
    ensures Somes(tools, n)[Some(t)] == (if t in Firsts(tools, n) then 1 else 0) && Somes(tools, n)[None] == 0
  {
    if n > 0 {
      SomesCount(tools, n - 1, t);
      InFirsts(tools, n - 1, t);
    }
  }

  lemma {:induction false} ListedIff<T>(elements: seq<Option<T>>, n: nat, tools: seq<T>, t: T)
    requires n <= |elements|
    ensures t in Listed(elements, n, tools) <==> t in tools && Bag(elements, n)[Some(t)] > 0
  {
    if n > 0 {
      ListedIff(elements, n - 1, tools, t);
    }
  }

  /** Without faults the elements are the listed tools, each once. */
  lemma {:induction false} CleanBag<T>(elements: seq<Option<T>>, n: nat, tools: seq<T>, t: T)
    requires n <= |elements| && Faults(elements, n, tools) == []
    ensures Bag(elements, n)[Some(t)] == (if t in Listed(elements, n, tools) then 1 else 0) && Bag(elements, n)[None] == 0
  {
    if n > 0 {
      CleanBag(elements, n - 1, tools, t);
    }
  }

  lemma {:induction false} CleanIsPermutation<T>(elements: seq<Option<T>>, tools: seq<T>)
    requires Distinct(tools) && Faults(elements, |elements|, tools) == []
    requires Listed(elements, |elements|, tools) == Firsts(tools, |tools|)
    ensures Bag(elements, |elements|) == Somes(tools, |tools|)
  {
    FaultCount(elements, |elements|, tools);
    AbsentCount(tools, |tools|, {});
    assert |elements| == |tools|;
    var bag, somes := Bag(elements, |elements|), Somes(tools, |tools|);
    if bag - somes != multiset{} {
      var x :| x in bag - somes;
      var t := if x.Some? then x.value else tools[0];
      CleanBag(elements, |elements|, tools, t);
      SomesCount(tools, |tools|, t);
    }
    assert |somes - bag| == |somes| - |somes * bag|;
  }

  /** There are no findings exactly if the list is a permutation of the tools. */
  lemma CleanIffPermutation<T>(elements: seq<Option<T>>, tools: seq<T>)
    requires Distinct(tools)
    ensures Faults(elements, |elements|, tools) + Absent(tools, |tools|, Listed(elements, |elements|, tools)) == []
       <==> Bag(elements, |elements|) == Somes(tools, |tools|)
  {
    var faults, listed, all := Faults(elements, |elements|, tools), Listed(elements, |elements|, tools), Firsts(tools, |tools|);
    var absent := Absent(tools, |tools|, listed);
    FindingCount(elements, tools);
    AbsentCount(tools, |tools|, listed);
    if |faults + absent| == 0 {
      assert |faults| == 0;
      ListedAreTools(elements, |elements|, tools);
      SameSize(listed, all);
      CleanIsPermutation(elements, tools);
    } else if Bag(elements, |elements|) == Somes(tools, |tools|) {
      PermutationListsAll(elements, tools);
      assert false;
    }
  }

  lemma PermutationListsAll<T>(elements: seq<Option<T>>, tools: seq<T>)
    requires Distinct(tools) && Bag(elements, |elements|) == Somes(tools, |tools|)
    ensures Listed(elements, |elements|, tools) == Firsts(tools, |tools|) && |elements| == |tools|
  {
    ListedAreTools(elements, |elements|, tools);
    forall t | t in Firsts(tools, |tools|) ensures t in Listed(elements, |elements|, tools) {
      SomesCount(tools, |tools|, t);
      InFirsts(tools, |tools|, t);
      ListedIff(elements, |elements|, tools, t);
    }
    assert |Bag(elements, |elements|)| == |Somes(tools, |tools|)|;
  }

  lemma SameSize<T>(a: set<T>, b: set<T>)
    requires a <= b && |a| == |b|
    ensures a == b
  {
    assert |b - a| == |b| - |a|;
  }

  // ----- names -----

  /** A class: at the top of a namespace (the global one has no name), or in another class. */
  datatype Symbol = Top(name: string, namespace_: Option<string>) | Nested(name: string, outer: Symbol)

  /** Namespace, outer classes and name, as reflection shows them. */
  function Reflected(t: Symbol): string {
    match t
    case Top(name, None) => name
    case Top(name, Some(space)) => space + "." + name
    case Nested(name, outer) => Reflected(outer) + "+" + name
  }

  function Outermost(t: Symbol): (r: Symbol)
    ensures r.Top?
  {
    if t.Nested? then Outermost(t.outer) else t
  }

  function Prefix(t: Symbol): string {
    match Outermost(t).namespace_ case None => "" case Some(space) => space + "."
  }

  /** The names of the classes from the outermost in. */
  function Classes(t: Symbol): string {
    if t.Nested? then Classes(t.outer) + "+" + t.name else t.name
  }

  lemma {:induction false} ReflectedIs(t: Symbol)
    ensures Reflected(t) == Prefix(t) + Classes(t)
  {
    if t.Nested? {
      ReflectedIs(t.outer);
      assert Prefix(t) + Classes(t.outer) + "+" + t.name == Prefix(t) + (Classes(t.outer) + "+" + t.name);
    }
  }

  /** Built from the inside out, the name is the one that reflection builds from the outside in. */
  method ReflectionName(t: Symbol) returns (r: string)
    ensures r == Reflected(t)
  {
    ReflectedIs(t);
    r := t.name;
    var current := t;
    ghost var rest := "";
    while current.Nested?
      invariant r == current.name + rest && Classes(t) == Classes(current) + rest && Outermost(current) == Outermost(t)
      decreases current
    {
      ghost var more := "+" + current.name + rest;
      assert Classes(t) == Classes(current.outer) + more;
      r := current.outer.name + "+" + r;
      assert r == current.outer.name + more;
      rest := more;
      current := current.outer;
    }
    if current.namespace_.Some? {
      r := current.namespace_.value + "." + r;
    }
  }
}
