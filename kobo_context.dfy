/** Where a bookmark lies in its book (kobo.py:129-229): the anchor elements its container
    paths name, the top-level containers of the book's text they span, and the heading
    of the chapter they are in. */
module KoboContext {
  import opened Wrappers
  import opened Seqs
  import opened Web
  import opened KoboPaths
  import opened KoboTables
  import opened KoboKepub

  /** `CHAPTER_TAGS` (kobo.py:153). */
  const ChapterTags: set<string> := {"h1", "h2", "h3", "h4", "h5", "h6"}

  /** The id of the `div` that holds a book page's text (kobo.py:160). */
  const InnerDivId := "book-inner"

  /** `BookmarkContext` (kobo.py:129-149); elements are node ids of the page. */
  datatype BookmarkContext = BookmarkContext(
    chapter: nat,
    containers: seq<nat>,
    start: nat,
    startOffset: int,
    end: nat,
    endOffset: int)

  // ---------------------------------------------------------------------------
  // Anchors (`_extract`)

  predicate IsChildOf(d: Html, x: nat, a: nat) {
    x < |d.nodes| && d.nodes[x].parent == Some(a)
  }

  /** The child of `a` on the path from `a` down to `y` (`y` itself when it is one). */
  function ContainerOf(d: Html, a: nat, y: nat): (c: nat)
    requires y < |d.nodes| && IsAncestor(d, a, y)
    ensures c < |d.nodes| && d.nodes[c].parent == Some(a)
    ensures c == y || IsAncestor(d, c, y)
    ensures IsElement(d, y) ==> IsElement(d, c)
    decreases y
  {
    var p := ParentOf(d, y);
    if p == a then y
    else
      var c := ContainerOf(d, a, p);
      assert IsAncestor(d, c, y) by {
        assert IsAncestor(d, p, y);
        if c != p {
          AncestorTransitive(d, c, p, y);
        }
      }
      c
  }

  /** What the climb of kobo.py:225-227 yields for an element strictly below `a`: the
      child of `a` above the element's parent; when the element is itself a child of `a`,
      the climb passes `a`, runs off the document root and raises AttributeError. */
  function ClimbOf(d: Html, a: nat, x: nat): (r: Result<nat>)
    requires x < |d.nodes| && IsAncestor(d, a, x)
  {
    var p := ParentOf(d, x);
    if p == a then Fail(AttributeError) else Ok(ContainerOf(d, a, p))
  }

  /** The climb of kobo.py:225-227: from the element's parent, up while the parent is
      not `innerDiv`; `parent()` on the document root gives None, and calling it on None
      raises AttributeError. */
  method Climb(d: Html, innerDiv: nat, element: nat) returns (r: Result<nat>)
    requires element < |d.nodes| && IsAncestor(d, innerDiv, element)
    ensures r == ClimbOf(d, innerDiv, element)
  {
    var first := ParentOf(d, element);
    var container: Option<nat> := Some(first);
    ghost var nested := first != innerDiv;
    AncestorBefore(d, innerDiv, element);
    while true
      invariant container.Some? ==> container.value < |d.nodes|
      invariant nested ==>
        && container.Some? && IsAncestor(d, innerDiv, container.value)
        && ContainerOf(d, innerDiv, container.value) == ContainerOf(d, innerDiv, first)
      invariant !nested ==> container.None? || container.value <= innerDiv
      decreases if container.Some? then container.value + 1 else 0
    {
      if container.None? {
        return Fail(AttributeError);
      }
      var c := container.value;
      RootFacts(d, c);
      if c != 0 {
        ParentFacts(d, c);
      }
      var parent := Parent(d, c);
      if parent == Some(innerDiv) {
        return Ok(c);
      }
      container := parent;
    }
  }

  /** `BookmarkContext._extract` (kobo.py:198-229): the first (or last) element below
      `innerDiv` with the tag and id of the container path, and the child of `innerDiv`
      that holds it. */
  function AnchorOf(d: Html, path: string, innerDiv: nat, first: bool): (r: Result<(nat, nat)>)
    requires innerDiv < |d.nodes|
    ensures r.Ok? ==> ParseContainerPath(path).Ok?
    ensures r.Ok? ==> var (tag, id) := ParseContainerPath(path).value;
      var found := FindAllWithId(d, innerDiv, tag, id);
      && |found| > 0
      && r.value.0 == (if first then found[0] else found[|found| - 1])
      && HasId(d, r.value.0, tag, id)
    ensures r.Ok? ==> var (element, container) := r.value;
      && IsElement(d, container) && d.nodes[container].parent == Some(innerDiv)
      && element < |d.nodes| && IsAncestor(d, container, element)
  {
    var parsed :- ParseContainerPath(path);
    var tag, id := parsed.0, parsed.1;
    var elements := FindAllWithId(d, innerDiv, tag, id);
    if |elements| == 0 then Fail(AssertionError)
    else
      var element := if first then elements[0] else elements[|elements| - 1];
      assert element in elements;
      var container :- ClimbOf(d, innerDiv, element);
      assert IsAncestor(d, container, element) by {
        var p := ParentOf(d, element);
        assert IsAncestor(d, p, element);
        if container != p {
          AncestorTransitive(d, container, p, element);
        }
      }
      Ok((element, container))
  }

  /** The anchor lookup fails exactly when the path does not parse, nothing has its tag
      and id, or the chosen element is a child of `innerDiv` itself. */
  lemma AnchorFails(d: Html, path: string, innerDiv: nat, first: bool)
    requires innerDiv < |d.nodes|
    ensures AnchorOf(d, path, innerDiv, first).Fail? <==>
      || ParseContainerPath(path).Fail?
      || (var (tag, id) := ParseContainerPath(path).value;
          var found := FindAllWithId(d, innerDiv, tag, id);
          || |found| == 0
          || IsChildOf(d, if first then found[0] else found[|found| - 1], innerDiv))
  {
    if ParseContainerPath(path).Ok? {
      var (tag, id) := ParseContainerPath(path).value;
      var found := FindAllWithId(d, innerDiv, tag, id);
      if |found| > 0 {
        var element := if first then found[0] else found[|found| - 1];
        assert element in found;
        ParentFacts(d, element);
      }
    }
  }

  /** `BookmarkContext._extract` (kobo.py:198-229). */
  method Anchor(d: Html, path: string, innerDiv: nat, first: bool) returns (r: Result<(nat, nat)>)
    requires innerDiv < |d.nodes|
    ensures r == AnchorOf(d, path, innerDiv, first)
  {
    var parsed :- ParseContainerPath(path);
    var tag, id := parsed.0, parsed.1;
    var elements := FindAllWithId(d, innerDiv, tag, id);
    if |elements| == 0 {
      return Fail(AssertionError);
    }
    var element := if first then elements[0] else elements[|elements| - 1];
    assert element in elements;
    var container :- Climb(d, innerDiv, element);
    r := Ok((element, container));
  }

  // ---------------------------------------------------------------------------
  // Trimming the containers

  /** What kobo.py:167-175 leaves of the children `ch`: from the start container on, up to
      the last occurrence of the end container past it, or the start container alone when
      there is none; an absent start container empties the list and raises IndexError. */
  function TrimmedOf(ch: seq<nat>, s: nat, e: nat): (r: Result<seq<nat>>)
    ensures r.Ok? <==> s in ch
    ensures r.Fail? ==> r.error == IndexError
    ensures r.Ok? ==> |r.value| > 0 && r.value[0] == s && forall x :: x in r.value ==> x in ch
  {
    if s !in ch then Fail(IndexError)
    else
      var c0 := ch[IndexOf(ch, s)..];
      assert forall x :: x in c0 ==> x in ch;
      match LastIndexOf(c0, e, |c0|)
      case Some(q) => if q >= 1 then Ok(c0[..q + 1]) else Ok(c0[..1])
      case None => Ok(c0[..1])
  }

  /** The two deletion loops of kobo.py:167-175. */
  method Trim(ch: seq<nat>, s: nat, e: nat) returns (r: Result<seq<nat>>)
    ensures r == TrimmedOf(ch, s, e)
  {
    var containers := ch;
    ghost var k := 0;
    while true
      invariant k <= |ch| && containers == ch[k..]
      invariant s !in ch[..k]
      decreases |containers|
    {
      if |containers| == 0 {
        assert ch[..k] == ch;
        return Fail(IndexError);
      }
      if containers[0] == s {
        break;
      }
      assert ch[..k + 1] == ch[..k] + [ch[k]];
      containers := containers[1..];
      k := k + 1;
    }
    IndexOfFirst(ch, s, k);
    ghost var c0 := containers;
    var i := |containers| - 1;
    while i >= 1
      invariant 0 <= i < |c0|
      invariant containers == c0[..i + 1]
      invariant forall j :: i < j < |c0| ==> c0[j] != e
      decreases i
    {
      if containers[i] == e {
        break;
      }
      containers := containers[..i];
      i := i - 1;
    }
    r := Ok(containers);
  }

  /** On a list without repetitions, the trimmed list is the contiguous slice from the
      start container to the end container when that lies strictly after it, and the
      start container alone otherwise. */
  lemma TrimmedSlice(ch: seq<nat>, s: nat, e: nat)
    requires StrictlyIncreasing(ch) && s in ch
    ensures var i := IndexOf(ch, s);
      TrimmedOf(ch, s, e) == Ok(if e in ch && IndexOf(ch, e) > i then ch[i..IndexOf(ch, e) + 1] else [s])
  {
    var i := IndexOf(ch, s);
    if e in ch && IndexOf(ch, e) > i {
      TrimmedToEnd(ch, s, e, i, IndexOf(ch, e));
    } else {
      TrimmedToStart(ch, s, e, i);
    }
  }

  lemma TrimmedToEnd(ch: seq<nat>, s: nat, e: nat, i: nat, j: nat)
    requires StrictlyIncreasing(ch) && i < j < |ch| && ch[i] == s && ch[j] == e
    ensures TrimmedOf(ch, s, e) == Ok(ch[i..j + 1])
  {
    IndexOfIncreasing(ch, i);
    TrimmedAt(ch, i, e, j - i);
    TrimmedOfCut(ch, s, e, i, j);
  }

  /** Where the start is first found at i and the end last after it at j > i, the trimmed
      list runs from i to j. */
  lemma TrimmedOfCut(ch: seq<nat>, s: nat, e: nat, i: nat, j: nat)
    requires i < j < |ch| && ch[i] == s && IndexOf(ch, s) == i
    requires LastIndexOf(ch[i..], e, |ch[i..]|) == Some(j - i)
    ensures TrimmedOf(ch, s, e) == Ok(ch[i..j + 1])
  {
    SliceOfSuffix(ch, i, j + 1 - i);
  }

  /** In a strictly increasing list an element is the last of its value in any suffix
      that holds it. */
  lemma TrimmedAt(ch: seq<nat>, i: nat, e: nat, q: nat)
    requires StrictlyIncreasing(ch) && i + q < |ch| && ch[i + q] == e
    ensures LastIndexOf(ch[i..], e, |ch[i..]|) == Some(q)
  {
    var c0 := ch[i..];
    forall k | q < k < |c0| ensures c0[k] != e {
      assert c0[k] == ch[i + k] && ch[i + q] < ch[i + k];
    }
    assert c0[q] == e;
    LastIndexOfIs(c0, e, |c0|, q);
  }

  lemma TrimmedToStart(ch: seq<nat>, s: nat, e: nat, i: nat)
    requires StrictlyIncreasing(ch) && s in ch && IndexOf(ch, s) == i
    requires !(e in ch && IndexOf(ch, e) > i)
    ensures TrimmedOf(ch, s, e) == Ok([s])
  {
    forall q | i < q < |ch|
      ensures ch[q] != e
    {
      IndexOfIncreasing(ch, q);
    }
    var c0 := ch[i..];
    assert forall q :: 0 < q < |c0| ==> c0[q] != e;
    assert c0[..1] == [s];
  }

  // ---------------------------------------------------------------------------
  // The chapter heading

  predicate IsHeading(d: Html, x: nat) {
    IsElement(d, x) && Name(d, x) in ChapterTags
  }

  function Heading(d: Html): nat -> bool {
    (x: nat) => IsHeading(d, x)
  }

  /** The first heading of `siblings`. */
  function FirstHeading(d: Html, siblings: seq<nat>): Option<nat> {
    match FirstWhere(siblings, Heading(d))
    case None => None
    case Some(k) => Some(siblings[k])
  }

  /** The heading scan of kobo.py:181-187: the first element of `siblings` whose name is
      one of h1 to h6. */
  method FindChapter(d: Html, siblings: seq<nat>) returns (chapter: Option<nat>)
    requires forall x :: x in siblings ==> IsElement(d, x)
    ensures chapter.None? <==> forall k :: 0 <= k < |siblings| ==> !IsHeading(d, siblings[k])
    ensures chapter.Some? ==>
      exists k :: 0 <= k < |siblings| && siblings[k] == chapter.value
        && IsHeading(d, chapter.value) && forall j :: 0 <= j < k ==> !IsHeading(d, siblings[j])
    ensures chapter == FirstHeading(d, siblings)
  {
    chapter := None;
    var i := 0;
    while i < |siblings|
      invariant i <= |siblings|
      invariant forall j :: 0 <= j < i ==> !IsHeading(d, siblings[j])
    {
      var sibling := siblings[i];
      assert sibling in siblings;
      if Name(d, sibling) in ChapterTags {
        chapter := Some(sibling);
        break;
      }
      i := i + 1;
    }
    if chapter.Some? {
      assert Heading(d)(siblings[i]);
      assert forall j :: 0 <= j < i ==> !Heading(d)(siblings[j]);
    } else {
      assert forall j :: 0 <= j < |siblings| ==> !Heading(d)(siblings[j]);
    }
  }

  // ---------------------------------------------------------------------------
  // `BookmarkContext.extract`

  /** What remains of kobo.py:177-196 once the containers, children of `innerDiv`, are
      trimmed: the chapter is the first heading among the first container and its earlier
      element siblings, nearest first; then the assertions of kobo.py:148-149 that both
      anchors are spans. */
  function ContextAfterTrim(d: Html, innerDiv: nat, containers: seq<nat>, start: nat, startOffset: int,
                            end: nat, endOffset: int): Result<BookmarkContext>
    requires |containers| > 0
    requires forall x :: x in containers ==> IsElement(d, x) && IsChildOf(d, x, innerDiv)
    requires IsElement(d, start) && IsElement(d, end)
  {
    var top := containers[0];
    assert top in containers && IsChildOf(d, top, innerDiv);
    RootFacts(d, top);
    match FirstHeading(d, [top] + PrevSiblings(d, top).value)
    case None => Fail(AssertionError)
    case Some(chapter) =>
      if Name(d, start) != "span" || Name(d, end) != "span" then Fail(AssertionError)
      else Ok(BookmarkContext(chapter, containers, start, startOffset, end, endOffset))
  }

  /** The chapter is the nearest heading among the children of `innerDiv` at or before the
      first container; the lookup fails exactly when there is no such heading or an anchor
      is not a span. */
  lemma ChapterIsNearestHeading(d: Html, innerDiv: nat, containers: seq<nat>, start: nat, startOffset: int,
                                end: nat, endOffset: int)
    requires |containers| > 0
    requires forall x :: x in containers ==> IsElement(d, x) && IsChildOf(d, x, innerDiv)
    requires IsElement(d, start) && IsElement(d, end)
    ensures var r := ContextAfterTrim(d, innerDiv, containers, start, startOffset, end, endOffset);
      r.Ok? ==> var c := r.value.chapter;
        && IsHeading(d, c) && IsChildOf(d, c, innerDiv) && c <= containers[0]
        && forall x: nat :: IsChildOf(d, x, innerDiv) && c < x <= containers[0] ==> !IsHeading(d, x)
    ensures var r := ContextAfterTrim(d, innerDiv, containers, start, startOffset, end, endOffset);
      r.Fail? <==>
        || (forall x: nat :: IsChildOf(d, x, innerDiv) && x <= containers[0] ==> !IsHeading(d, x))
        || Name(d, start) != "span" || Name(d, end) != "span"
  {
    var top := containers[0];
    assert top in containers;
    RootFacts(d, top);
    ParentFacts(d, top);
    var prev := PrevSiblings(d, top).value;
    var siblings := [top] + prev;
    SiblingsAreChildren(d, innerDiv, top, prev);
    var f := FirstWhere(siblings, Heading(d));
    if f.Some? {
      NoHeadingBetween(d, innerDiv, top, prev, f.value);
    } else {
      NoHeadingBefore(d, innerDiv, top, prev);
    }
  }

  lemma NoHeadingBetween(d: Html, innerDiv: nat, top: nat, prev: seq<nat>, k: nat)
    requires IsElement(d, top) && IsChildOf(d, top, innerDiv) && top != 0
    requires PrevSiblings(d, top) == Ok(prev)
    requires k < |[top] + prev| && forall j :: 0 <= j < k ==> !Heading(d)(([top] + prev)[j])
    ensures forall x: nat :: IsChildOf(d, x, innerDiv) && ([top] + prev)[k] < x <= top ==> !IsHeading(d, x)
  {
    var siblings := [top] + prev;
    SiblingsAreChildren(d, innerDiv, top, prev);
    forall x: nat | IsChildOf(d, x, innerDiv) && siblings[k] < x <= top
      ensures !IsHeading(d, x)
    {
      if IsElement(d, x) {
        var j := SiblingIndex(d, innerDiv, top, prev, x);
        DecreasingIndex(siblings, j, k);
        assert !Heading(d)(siblings[j]);
      }
    }
  }

  lemma NoHeadingBefore(d: Html, innerDiv: nat, top: nat, prev: seq<nat>)
    requires IsElement(d, top) && IsChildOf(d, top, innerDiv) && top != 0
    requires PrevSiblings(d, top) == Ok(prev)
    requires forall j :: 0 <= j < |[top] + prev| ==> !Heading(d)(([top] + prev)[j])
    ensures forall x: nat :: IsChildOf(d, x, innerDiv) && x <= top ==> !IsHeading(d, x)
  {
    forall x: nat | IsChildOf(d, x, innerDiv) && x <= top
      ensures !IsHeading(d, x)
    {
      if IsElement(d, x) {
        var j := SiblingIndex(d, innerDiv, top, prev, x);
        assert !Heading(d)(([top] + prev)[j]);
      }
    }
  }

  /** The first container and its earlier siblings, nearest first, are exactly the element
      children of `innerDiv` up to the first container, in decreasing order. */
  lemma SiblingsAreChildren(d: Html, innerDiv: nat, top: nat, prev: seq<nat>)
    requires IsElement(d, top) && IsChildOf(d, top, innerDiv) && top != 0
    requires PrevSiblings(d, top) == Ok(prev)
    ensures forall x :: x in [top] + prev ==> IsChildOf(d, x, innerDiv) && IsElement(d, x) && x <= top
    ensures forall j, k :: 0 <= j < k < |[top] + prev| ==> ([top] + prev)[j] > ([top] + prev)[k]
  {
    var siblings := [top] + prev;
    forall j, k | 0 <= j < k < |siblings|
      ensures siblings[j] > siblings[k]
    {
      assert siblings[k] == prev[k - 1];
      assert prev[k - 1] in prev;
      if j > 0 {
        assert siblings[j] == prev[j - 1];
      }
    }
  }

  /** Where an element child of `innerDiv` up to the first container sits among them. */
  lemma SiblingIndex(d: Html, innerDiv: nat, top: nat, prev: seq<nat>, x: nat) returns (j: nat)
    requires IsElement(d, top) && IsChildOf(d, top, innerDiv) && top != 0
    requires PrevSiblings(d, top) == Ok(prev)
    requires IsElement(d, x) && IsChildOf(d, x, innerDiv) && x <= top
    ensures j < |[top] + prev| && ([top] + prev)[j] == x
  {
    if x == top {
      j := 0;
    } else {
      ParentFacts(d, x);
      assert x in prev;
      j := IndexOf(prev, x) + 1;
    }
  }

  /** In a strictly decreasing list a larger element sits earlier. */
  lemma DecreasingIndex(s: seq<nat>, j: nat, k: nat)
    requires forall a, b :: 0 <= a < b < |s| ==> s[a] > s[b]
    requires j < |s| && k < |s| && s[k] < s[j]
    ensures j < k
  {
  }

  /** `BookmarkContext.extract` (kobo.py:177-196) from the trimmed containers on. */
  method ResolveChapter(d: Html, innerDiv: nat, containers: seq<nat>, start: nat, startOffset: int,
                        end: nat, endOffset: int) returns (r: Result<BookmarkContext>)
    requires |containers| > 0
    requires forall x :: x in containers ==> IsElement(d, x) && IsChildOf(d, x, innerDiv)
    requires IsElement(d, start) && IsElement(d, end)
    ensures r == ContextAfterTrim(d, innerDiv, containers, start, startOffset, end, endOffset)
  {
    var top := containers[0];
    assert top in containers;
    RootFacts(d, top);
    var siblings := [top] + PrevSiblings(d, top).value;
    SiblingsAreChildren(d, innerDiv, top, PrevSiblings(d, top).value);
    var chapter := FindChapter(d, siblings);
    if chapter.None? {
      return Fail(AssertionError);
    }
    if Name(d, start) != "span" || Name(d, end) != "span" {
      return Fail(AssertionError);
    }
    r := Ok(BookmarkContext(chapter.value, containers, start, startOffset, end, endOffset));
  }

  /** `BookmarkContext.extract` (kobo.py:151-196) for a bookmark of the book opened as
      `file` (with that volume id, encoding and archive). */
  function ContextOf(os: Platform, b: BookmarkRow, file: string, volumeId: string, encoding: string,
                     archive: Archive, decode: (string, seq<byte>) -> string, parse: string -> Html)
    : Result<BookmarkContext>
  {
    var content :- ParseContentId(os, b.contentId);
    if !(b.volumeId == volumeId && content.file == file) then Fail(AssertionError)
    else if content.xhtml !in archive then Fail(KeyError)
    else
      var d := parse(decode(encoding, archive[content.xhtml]));
      var innerDiv :- FindWithId(d, 0, "div", InnerDivId);
      var start :- AnchorOf(d, b.startContainerPath, innerDiv, true);
      var end :- AnchorOf(d, b.endContainerPath, innerDiv, false);
      var ch := ElementChildren(d, innerDiv);
      var containers :- TrimmedOf(ch, start.1, end.1);
      ContextAfterTrim(d, innerDiv, containers, start.0, b.startOffset, end.0, b.endOffset)
  }

  /** `BookmarkContext.extract` (kobo.py:151-196). */
  method ExtractContext(os: Platform, b: BookmarkRow, kepub: Kepub,
                        decode: (string, seq<byte>) -> string, parse: string -> Html)
    returns (r: Result<BookmarkContext>)
    requires kepub.Valid()
    modifies kepub
    ensures kepub.Valid()
    ensures r == ContextOf(os, b, kepub.file, kepub.volumeId, kepub.encoding, kepub.archive, decode, parse)
    ensures var c := ParseContentId(os, b.contentId);
      if c.Ok? && b.volumeId == kepub.volumeId && c.value.file == kepub.file
         && c.value.xhtml !in old(kepub.zipCache) && c.value.xhtml in kepub.archive
      then kepub.zipCache == old(kepub.zipCache)[c.value.xhtml := kepub.archive[c.value.xhtml]]
           && kepub.zipReads == old(kepub.zipReads) + [c.value.xhtml]
      else kepub.zipCache == old(kepub.zipCache) && kepub.zipReads == old(kepub.zipReads)
  {
    var content :- ParseContentId(os, b.contentId);
    if !(b.volumeId == kepub.volumeId && content.file == kepub.file) {
      return Fail(AssertionError);
    }
    var xhtml :- kepub.ReadStr(content.xhtml, decode);
    var d := parse(xhtml);
    var innerDiv :- FindWithId(d, 0, "div", InnerDivId);
    var start :- Anchor(d, b.startContainerPath, innerDiv, true);
    var end :- Anchor(d, b.endContainerPath, innerDiv, false);
    var children := Children(d, innerDiv);
    var containers :- Trim(children, start.1, end.1);
    r := ResolveChapter(d, innerDiv, containers, start.0, b.startOffset, end.0, b.endOffset);
  }
}
