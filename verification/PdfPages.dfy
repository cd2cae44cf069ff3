/** The page tree of the documents, followed as a reader of the file does: from the catalog to the pages, from
    a page to its content stream, and to the text that this shows. */
module PdfPages {
  import opened Common
  import opened Pieces
  import opened Decimal
  import opened Pdf
  import opened PdfText

  // ----- the reader -----

  /** Where the content of an object starts, by the table. */
  function ContentAt(b: string, id: nat): Option<nat> {
    match Locate(b, id)
    case None => None
    case Some(at) => if Holds(b, at, Num(id) + OBJ) then Some(at + |Num(id) + OBJ|) else None
  }

  /** The number of a reference `N 0 R` at `at`. */
  function RefAt(b: string, at: nat): Option<nat> {
    var end := NumberEnd(b, at);
    if end == at || end > |b| || !Holds(b, end, " 0 R") then None else Some(ValueIn(b, at, end))
  }

  /** The `k`-th of some references with a space between two. */
  function KidAt(b: string, at: nat, k: nat): Option<nat>
    decreases k
  {
    if k == 0 then RefAt(b, at)
    else
      var space := NumberEnd(b, at) + 4;
      if RefAt(b, at) == None || space >= |b| || b[space] != ' ' then None else KidAt(b, space + 1, k - 1)
  }

  /** The reference after a prefix of an object. */
  function RefAfter(b: string, id: nat, prefix: string): Option<nat> {
    match ContentAt(b, id)
    case None => None
    case Some(at) => if Holds(b, at, prefix) then RefAt(b, at + |prefix|) else None
  }

  const PAGES_OF := "<< /Type /Catalog /Pages "
  const KIDS_OF := "<< /Type /Pages /Kids ["

  /** The number of page `k`: from the catalog to the list of the pages. */
  function PageId(b: string, k: nat): Option<nat> {
    match RefAfter(b, 1, PAGES_OF)
    case None => None
    case Some(pages) =>
      match ContentAt(b, pages)
      case None => None
      case Some(at) => if Holds(b, at, KIDS_OF) then KidAt(b, at + |KIDS_OF|, k) else None
  }

  /** The text that page `k` shows; `page` is what a page says before the number of its content stream. */
  ghost function ShownText(b: string, k: nat, page: string): Option<string> {
    match PageId(b, k)
    case None => None
    case Some(id) =>
      match RefAfter(b, id, page)
      case None => None
      case Some(contents) => PageText(b, contents)
  }

  // ----- references -----

  lemma RefRead(b: string, at: nat, n: nat, after: string)
    requires Holds(b, at, Num(n) + " 0 R" + after)
    ensures RefAt(b, at) == Some(n) && NumberEnd(b, at) == at + |Num(n)|
  {
    var end := at + |Num(n)|;
    HoldsPair(b, at, Num(n) + " 0 R", after);
    HoldsPair(b, at, Num(n), " 0 R");
    NumValue(n, b, at);
    CharHeld(b, end, " 0 R", 0);
    NumberEnds(b, at, end);
  }

  /** The references from page `k` on, to the end of the list. */
  function Tail(k: nat, n: nat): string
    requires k < n
    decreases n - k
  {
    Num(4 + k * 2) + " 0 R" + if k + 1 == n then "]" else " " + Tail(k + 1, n)
  }

  lemma Reassociate(before: string, ref: string, space: string, rest: string)
    ensures before + ref + space + rest == before + (ref + (space + rest))
  {
  }

  lemma KidsNext(k: nat)
    ensures Kids(k + 1) == (if k == 0 then "" else Kids(k) + " ") + (Num(4 + k * 2) + " 0 R")
  {
    var before := if k == 0 then "" else Kids(k) + " ";
    assert before + Num(4 + k * 2) + " 0 R" == before + (Num(4 + k * 2) + " 0 R");
  }

  lemma {:induction false} KidsSplit(k: nat, n: nat)
    requires k < n
    ensures Kids(n) + "]" == (if k == 0 then "" else Kids(k) + " ") + Tail(k, n)
    decreases n - k
  {
    var before, ref := if k == 0 then "" else Kids(k) + " ", Num(4 + k * 2) + " 0 R";
    KidsNext(k);
    if k + 1 < n {
      KidsSplit(k + 1, n);
      Reassociate(before, ref, " ", Tail(k + 1, n));
    } else {
      assert before + ref + "]" == before + (ref + "]");
    }
  }

  lemma FirstKid(b: string, at: nat, k: nat, n: nat) returns (space: nat)
    requires k < n && Holds(b, at, Tail(k, n))
    ensures RefAt(b, at) == Some(4 + k * 2) && space == NumberEnd(b, at) + 4 < |b|
    ensures if k + 1 == n then b[space] == ']' else b[space] == ' ' && Holds(b, space + 1, Tail(k + 1, n))
  {
    var ref, rest := Num(4 + k * 2) + " 0 R", if k + 1 == n then "]" else " " + Tail(k + 1, n);
    RefRead(b, at, 4 + k * 2, rest);
    HoldsPair(b, at, ref, rest);
    space := at + |ref|;
    CharHeld(b, space, rest, 0);
    if k + 1 < n {
      HoldsPair(b, space, " ", Tail(k + 1, n));
    }
  }

  lemma NextKid(b: string, at: nat, j: nat)
    requires j > 0 && RefAt(b, at).Some? && NumberEnd(b, at) + 4 < |b|
    ensures KidAt(b, at, j) == if b[NumberEnd(b, at) + 4] == ' ' then KidAt(b, NumberEnd(b, at) + 5, j - 1) else None
  {
  }

  /** The references of the list, and no more. */
  lemma {:induction false} KidRead(b: string, at: nat, k: nat, n: nat, j: nat)
    requires k < n && Holds(b, at, Tail(k, n))
    ensures KidAt(b, at, j) == if k + j < n then Some(4 + (k + j) * 2) else None
    decreases j
  {
    var space := FirstKid(b, at, k, n);
    if j > 0 {
      NextKid(b, at, j);
      if k + 1 < n {
        KidRead(b, space + 1, k + 1, n, j - 1);
      }
    }
  }

  // ----- objects -----

  lemma {:induction false} ObjectStartsIn(b: string, parts: seq<string>, objects: seq<string>, id: nat)
    requires parts == Parts(objects) && 0 < id <= |objects|
    requires Locate(b, id) == Some(|Concat(parts, id)|) && Holds(b, |Concat(parts, id)|, parts[id])
    ensures var r := ContentAt(b, id); r.Some? && Holds(b, r.value, objects[id - 1])
  {
    ContentStarts(b, id, |Concat(parts, id)|, parts[id], objects[id - 1]);
  }

  lemma {:induction false} ObjectStarts(objects: seq<string>, id: nat)
    requires 0 < id <= |objects| && Addressable(Parts(objects))
    ensures var r := ContentAt(Document(Parts(objects)), id);
            r.Some? && Holds(Document(Parts(objects)), r.value, objects[id - 1])
  {
    EveryOffsetIsRight(Parts(objects), id);
    ObjectStartsIn(Document(Parts(objects)), Parts(objects), objects, id);
  }

  lemma ContentStarts(b: string, id: nat, offset: nat, part: string, content: string)
    requires Locate(b, id) == Some(offset) && Holds(b, offset, part) && part == ObjectText(id, content)
    ensures ContentAt(b, id) == Some(offset + |Num(id) + OBJ|) && Holds(b, offset + |Num(id) + OBJ|, content)
  {
    ContentHeld(b, offset, Num(id) + OBJ, content);
  }

  lemma {:induction false} ObjectAt(objects: seq<string>, file: string, id: nat) returns (at: nat)
    requires 0 < id <= |objects| && IsFile(file, objects)
    ensures ContentAt(file, id) == Some(at) && Holds(file, at, Latin1(objects[id - 1]))
  {
    FileIsDocument(objects);
    ObjectStarts(Latin1All(objects), id);
    at := ContentAt(file, id).value;
  }

  lemma RefHeld(b: string, at: nat, prefix: string, n: nat, after: string)
    requires Holds(b, at, prefix + (Num(n) + " 0 R" + after))
    ensures Holds(b, at, prefix) && RefAt(b, at + |prefix|) == Some(n)
  {
    HoldsPair(b, at, prefix, Num(n) + " 0 R" + after);
    RefRead(b, at + |prefix|, n, after);
  }

  lemma LatinPair(x: string, y: string)
    requires IsLatin(x) && IsLatin(y)
    ensures IsLatin(x + y)
  {
  }

  lemma RefIsLatin(prefix: string, n: nat, after: string)
    requires IsLatin(prefix) && IsLatin(after)
    ensures Latin1(prefix + (Num(n) + " 0 R" + after)) == prefix + (Num(n) + " 0 R" + after)
  {
    NumIsLatin(n);
    LatinPair(Num(n), " 0 R");
    LatinPair(Num(n) + " 0 R", after);
    LatinPair(prefix, Num(n) + " 0 R" + after);
    Latin1Same(prefix + (Num(n) + " 0 R" + after));
  }

  lemma RefFollows(b: string, id: nat, at: nat, prefix: string, n: nat, after: string)
    requires ContentAt(b, id) == Some(at) && Holds(b, at, prefix + (Num(n) + " 0 R" + after))
    ensures RefAfter(b, id, prefix) == Some(n)
  {
    RefHeld(b, at, prefix, n, after);
  }

  lemma {:induction false} RefInObject(objects: seq<string>, file: string, id: nat, prefix: string, n: nat, after: string)
    requires 0 < id <= |objects| && IsFile(file, objects) && objects[id - 1] == prefix + (Num(n) + " 0 R" + after)
    requires IsLatin(prefix) && IsLatin(after)
    ensures RefAfter(file, id, prefix) == Some(n)
  {
    var at := ObjectAt(objects, file, id);
    RefIsLatin(prefix, n, after);
    RefFollows(file, id, at, prefix, n, after);
  }

  // ----- documents -----

  lemma {:induction false} KidsAreLatin(n: nat)
    ensures IsLatin(Kids(n))
  {
    if n > 0 {
      KidsNext(n - 1);
      NumIsLatin(4 + (n - 1) * 2);
      LatinPair(Num(4 + (n - 1) * 2), " 0 R");
      if n > 1 {
        KidsAreLatin(n - 1);
        LatinPair(Kids(n - 1), " ");
        LatinPair(Kids(n - 1) + " ", Num(4 + (n - 1) * 2) + " 0 R");
      }
    }
  }

  /** The object that lists the pages. */
  function ListOf(kids: string, n: nat, after: string): string {
    kids + (Kids(n) + "]") + after
  }

  lemma ListIsLatin(kids: string, n: nat, after: string)
    requires IsLatin(kids) && IsLatin(after)
    ensures Latin1(ListOf(kids, n, after)) == ListOf(kids, n, after)
  {
    KidsAreLatin(n);
    LatinPair(Kids(n), "]");
    LatinPair(kids, Kids(n) + "]");
    LatinPair(kids + (Kids(n) + "]"), after);
    Latin1Same(ListOf(kids, n, after));
  }

  lemma NoKid(b: string, at: nat, k: nat)
    requires Holds(b, at, "]")
    ensures KidAt(b, at, k) == None
  {
    CharHeld(b, at, "]", 0);
  }

  lemma AllKids(n: nat)
    requires n > 0
    ensures Kids(n) + "]" == Tail(0, n)
  {
    KidsSplit(0, n);
    assert "" + Tail(0, n) == Tail(0, n);
  }

  lemma NoKids()
    ensures Kids(0) + "]" == "]"
  {
  }

  lemma KidsRead(b: string, at: nat, n: nat, k: nat, list: string)
    requires Holds(b, at, list) && list == Kids(n) + "]"
    ensures KidAt(b, at, k) == if k < n then Some(4 + k * 2) else None
  {
    if n == 0 {
      NoKids();
      NoKid(b, at, k);
    } else {
      AllKids(n);
      KidRead(b, at, 0, n, k);
    }
  }

  lemma KidInList(b: string, at: nat, kids: string, n: nat, after: string, k: nat)
    requires Holds(b, at, ListOf(kids, n, after))
    ensures Holds(b, at, kids) && KidAt(b, at + |kids|, k) == if k < n then Some(4 + k * 2) else None
  {
    HoldsPair(b, at, kids + (Kids(n) + "]"), after);
    HoldsPair(b, at, kids, Kids(n) + "]");
    KidsRead(b, at + |kids|, n, k, Kids(n) + "]");
  }

  lemma WordsAreLatin()
    ensures IsLatin(PAGES_OF) && IsLatin(KIDS_OF) && IsLatin(" >>")
  {
  }

  lemma ListedPage(b: string, pages: nat, at: nat, n: nat, after: string, k: nat)
    requires RefAfter(b, 1, PAGES_OF) == Some(pages) && ContentAt(b, pages) == Some(at)
    requires Holds(b, at, ListOf(KIDS_OF, n, after))
    ensures PageId(b, k) == if k < n then Some(4 + k * 2) else None
  {
    KidInList(b, at, KIDS_OF, n, after, k);
  }

  lemma {:induction false} ListHeld(objects: seq<string>, file: string, kids: string, n: nat, after: string) returns (at: nat)
    requires |objects| >= 2 && IsFile(file, objects) && IsLatin(kids) && IsLatin(after) && objects[1] == ListOf(kids, n, after)
    ensures ContentAt(file, 2) == Some(at) && Holds(file, at, ListOf(kids, n, after))
  {
    at := ObjectAt(objects, file, 2);
    ListIsLatin(kids, n, after);
  }

  /** The catalog leads to the pages, and these list all pages by their numbers. */
  lemma {:induction false} PagesRead(objects: seq<string>, file: string, n: nat, after: string, k: nat)
    requires |objects| >= 2 && IsFile(file, objects) && IsLatin(after)
    requires objects[0] == PAGES_OF + (Num(2) + " 0 R" + " >>") && objects[1] == ListOf(KIDS_OF, n, after)
    ensures PageId(file, k) == if k < n then Some(4 + k * 2) else None
  {
    WordsAreLatin();
    RefInObject(objects, file, 1, PAGES_OF, 2, " >>");
    var at := ListHeld(objects, file, KIDS_OF, n, after);
    ListedPage(file, 2, at, n, after, k);
  }

  lemma TextPagesHaveObjects(pages: seq<string>, n: nat, k: nat)
    requires k < n <= |pages|
    ensures TextObjects(pages, n)[3 + 2 * k] == PAGE + (Num(5 + 2 * k) + " 0 R" + " >>")
  {
    if k < n - 1 {
      TextPagesHaveObjects(pages, n - 1, k);
    } else {
      assert PAGE + Num(5 + 2 * k) + " 0 R >>" == PAGE + (Num(5 + 2 * k) + " 0 R" + " >>");
    }
  }

  lemma CatalogIs()
    ensures CATALOG == PAGES_OF + (Num(2) + " 0 R" + " >>")
  {
    assert Num(2) == "2";
    assert PAGES_OF + ("2" + " 0 R" + " >>") == "<< /Type /Catalog /Pages 2 0 R >>";
  }

  lemma JoinList(a: string, kids: string, end: string, count: string, n: string, z: string)
    ensures a + kids + (end + count) + n + z == a + (kids + end) + (count + n + z)
  {
  }

  lemma EndOfList()
    ensures "] /Count " == "]" + " /Count "
  {
  }

  lemma PagesAre(list: string, n: nat)
    requires list == "<< /Type /Pages /Kids [" + Kids(n) + "] /Count " + Num(n) + " >>"
    ensures list == ListOf(KIDS_OF, n, " /Count " + Num(n) + " >>")
  {
    EndOfList();
    JoinList(KIDS_OF, Kids(n), "]", " /Count ", Num(n), " >>");
  }

  lemma {:induction false} TextFirsts(pages: seq<string>, n: nat)
    requires n <= |pages|
    ensures TextObjects(pages, n)[0] == CATALOG
    ensures TextObjects(pages, n)[1] == "<< /Type /Pages /Kids [" + Kids(|pages|) + "] /Count " + Num(|pages|) + " >>"
  {
    if n > 0 {
      TextFirsts(pages, n - 1);
    }
  }

  lemma PageIsLatin()
    ensures IsLatin(PAGE)
  {
    BoxIsLatin();
    LatinPair(PAGE_TYPE, PAGE_BOX);
    LatinPair(PAGE_TYPE + PAGE_BOX, PAGE_FONT);
  }

  lemma BoxIsLatin()
    ensures IsLatin(PAGE_TYPE) && IsLatin(PAGE_BOX) && IsLatin(PAGE_FONT)
  {
  }

  lemma CountIsLatin(n: nat)
    ensures IsLatin(" /Count " + Num(n) + " >>")
  {
    NumIsLatin(n);
    LatinPair(" /Count ", Num(n));
    LatinPair(" /Count " + Num(n), " >>");
  }

  /** From a page to its text. */
  lemma {:induction false} PageShows(objects: seq<string>, file: string, id: nat, text: string)
    requires 0 < id < |objects| && IsFile(file, objects)
    requires objects[id - 1] == PAGE + (Num(id + 1) + " 0 R" + " >>") && objects[id] == Stream(LENGTH, Content(text, " Tj ET"))
    ensures RefAfter(file, id, PAGE) == Some(id + 1) && (PageText(file, id + 1) == Some(text) <==> IsReadable(text))
  {
    PageIsLatin();
    WordsAreLatin();
    RefInObject(objects, file, id, PAGE, id + 1, " >>");
    PageRead(objects, file, id + 1, text);
  }

  lemma ShownBy(b: string, k: nat, id: nat, contents: nat)
    requires PageId(b, k) == Some(id) && RefAfter(b, id, PAGE) == Some(contents)
    ensures ShownText(b, k, PAGE) == PageText(b, contents)
  {
  }

  /** The objects are a tree of text pages: catalog, list, pages and content streams. */
  ghost predicate IsTree(objects: seq<string>, pages: seq<string>) {
    && |objects| == 3 + 2 * |pages| && objects[0] == PAGES_OF + (Num(2) + " 0 R" + " >>")
    && objects[1] == ListOf(KIDS_OF, |pages|, " /Count " + Num(|pages|) + " >>")
    && forall k {:trigger pages[k]} :: 0 <= k < |pages| ==>
         && objects[3 + 2 * k] == PAGE + (Num(5 + 2 * k) + " 0 R" + " >>")
         && objects[4 + 2 * k] == Stream(LENGTH, Content(pages[k], " Tj ET"))
  }

  lemma {:induction false} TextPageObjects(pages: seq<string>, k: nat)
    requires k < |pages|
    ensures TextObjects(pages, |pages|)[3 + 2 * k] == PAGE + (Num(5 + 2 * k) + " 0 R" + " >>")
    ensures TextObjects(pages, |pages|)[4 + 2 * k] == Stream(LENGTH, Content(pages[k], " Tj ET"))
  {
    TextPagesHaveObjects(pages, |pages|, k);
    TextObjectsHavePages(pages, |pages|);
    assert pages[k] == pages[k];
  }

  lemma {:induction false} TextIsTree(pages: seq<string>)
    ensures IsTree(TextObjects(pages, |pages|), pages)
  {
    var objects, n := TextObjects(pages, |pages|), |pages|;
    TextFirsts(pages, n);
    CatalogIs();
    PagesAre(objects[1], n);
    forall k {:trigger pages[k]} | 0 <= k < n
      ensures objects[3 + 2 * k] == PAGE + (Num(5 + 2 * k) + " 0 R" + " >>")
      ensures objects[4 + 2 * k] == Stream(LENGTH, Content(pages[k], " Tj ET")) {
      TextPageObjects(pages, k);
    }
  }

  lemma {:induction false} TreePage(objects: seq<string>, pages: seq<string>, k: nat)
    requires IsTree(objects, pages) && k < |pages|
    ensures objects[3 + k * 2] == PAGE + (Num(5 + k * 2) + " 0 R" + " >>")
    ensures objects[4 + k * 2] == Stream(LENGTH, Content(pages[k], " Tj ET"))
  {
    assert pages[k] == pages[k];
  }

  lemma {:induction false} TreePageIds(pages: seq<string>, objects: seq<string>, file: string, k: nat)
    requires IsTree(objects, pages) && IsFile(file, objects)
    ensures PageId(file, k) == if k < |pages| then Some(4 + k * 2) else None
  {
    CountIsLatin(|pages|);
    PagesRead(objects, file, |pages|, " /Count " + Num(|pages|) + " >>", k);
  }

  /** Followed from the catalog, the file has the pages in order and no others, and each shows its text exactly if
      the file can hold it. */
  lemma {:induction false} TreeRead(pages: seq<string>, objects: seq<string>, file: string, k: nat)
    requires IsTree(objects, pages) && IsFile(file, objects)
    ensures if k < |pages| then ShownText(file, k, PAGE) == Some(pages[k]) <==> IsReadable(pages[k]) else PageId(file, k) == None
  {
    TreePageIds(pages, objects, file, k);
    if k < |pages| {
      TreePage(objects, pages, k);
      PageIsShown(objects, file, 4 + k * 2, pages[k], k);
    }
  }

  lemma {:induction false} PageIsShown(objects: seq<string>, file: string, id: nat, text: string, k: nat)
    requires 0 < id < |objects| && IsFile(file, objects) && PageId(file, k) == Some(id)
    requires objects[id - 1] == PAGE + (Num(id + 1) + " 0 R" + " >>") && objects[id] == Stream(LENGTH, Content(text, " Tj ET"))
    ensures ShownText(file, k, PAGE) == Some(text) <==> IsReadable(text)
  {
    PageShows(objects, file, id, text);
    ShownBy(file, k, id, id + 1);
  }

  /** So it is for the file of a text document. */
  lemma {:induction false} TextPdfPages(pages: seq<string>, file: string, k: nat)
    requires Addressable(Parts(TextObjects(pages, |pages|)))
    requires file == Latin1(Document(Parts(TextObjects(pages, |pages|))))
    ensures if k < |pages| then ShownText(file, k, PAGE) == Some(pages[k]) <==> IsReadable(pages[k]) else PageId(file, k) == None
  {
    TextIsTree(pages);
    TreeRead(pages, TextObjects(pages, |pages|), file, k);
  }
}
