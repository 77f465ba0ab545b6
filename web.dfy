/** The parsed-document accessor (`Element` in web.py), over an arena of nodes.

    A parsed document is a sequence of nodes; a node's id is its index, and two
    accessors are the same element exactly when they have the same id. Node 0 is
    the document itself (the parser names it "[document]"); every other node has a
    parent with a smaller id, and lists its children in document order. */
module Web {
  import opened Wrappers
  import opened Strings
  import opened Seqs

  const DocumentName := "[document]"

  /** An element (tag) or a piece of text between elements. The parser keeps the
      multi-valued `class` attribute apart, as the list of its classes. */
  datatype Kind =
    | TagNode(name: string, attrs: map<string, string>, classes: Option<seq<string>>)
    | StringNode(text: string)

  datatype Node = Node(kind: Kind, parent: Option<nat>, children: seq<nat>)

  datatype Document = Document(nodes: seq<Node>)

  /** The shape every parsed document has: the document at node 0, and every node
      well formed. */
  predicate Wf(d: Document) {
    && |d.nodes| > 0
    && d.nodes[0].kind.TagNode? && d.nodes[0].kind.name == DocumentName && d.nodes[0].parent.None?
    && WfFrom(d, 0)
  }

  /** Every node from the `i`-th on is well formed (stated by recursion so that the
      facts about one node are brought in only where `WfAt` is called). */
  predicate WfFrom(d: Document, i: nat)
    decreases |d.nodes| - i
  {
    i >= |d.nodes| || (WfNode(d, i) && WfFrom(d, i + 1))
  }

  predicate WfNode(d: Document, i: nat)
    requires i < |d.nodes|
  {
    (i > 0 ==> WfParent(d, i)) && WfChildren(d, i)
  }

  lemma {:induction false} WfAt(d: Document, j: nat, i: nat)
    requires WfFrom(d, j) && j <= i < |d.nodes|
    ensures WfNode(d, i)
    decreases i - j
  {
    if j < i {
      WfAt(d, j + 1, i);
    }
  }

  /** A node other than the document has an earlier parent that lists it. */
  predicate WfParent(d: Document, i: nat)
    requires 0 < i < |d.nodes|
  {
    var n := d.nodes[i];
    && n.parent.Some? && n.parent.value < i
    && i in d.nodes[n.parent.value].children
    && !(n.kind.TagNode? && n.kind.name == DocumentName)
  }

  /** Children are later nodes that point back, listed once each in order; text has none. */
  predicate WfChildren(d: Document, i: nat)
    requires i < |d.nodes|
  {
    var ch := d.nodes[i].children;
    && (d.nodes[i].kind.StringNode? ==> ch == [])
    && (forall k | 0 <= k < |ch| :: i < ch[k] < |d.nodes| && d.nodes[ch[k]].parent == Some(i))
    && StrictlyIncreasing(ch)
  }

  type Html = d: Document | Wf(d)
    witness Document([Node(TagNode(DocumentName, map[], None), None, [])])

  predicate IsElement(d: Html, e: nat) {
    e < |d.nodes| && d.nodes[e].kind.TagNode?
  }

  function Elem(d: Html): nat -> bool {
    (x: nat) => IsElement(d, x)
  }

  /** `Element.name` (web.py:17): the tag name. */
  function Name(d: Html, e: nat): string
    requires IsElement(d, e)
  {
    d.nodes[e].kind.name
  }

  function Parent(d: Html, e: nat): Option<nat>
    requires e < |d.nodes|
  {
    d.nodes[e].parent
  }

  lemma ChildrenFacts(d: Html, i: nat)
    requires i < |d.nodes|
    ensures WfChildren(d, i)
  {
    WfAt(d, 0, i);
  }

  lemma ParentWf(d: Html, i: nat)
    requires 0 < i < |d.nodes|
    ensures WfParent(d, i)
  {
    WfAt(d, 0, i);
  }

  /** Every node but the document has an element parent that lists it among its children. */
  lemma ParentFacts(d: Html, x: nat)
    requires 0 < x < |d.nodes|
    ensures d.nodes[x].parent.Some?
    ensures var p := d.nodes[x].parent.value;
      p < x && x in d.nodes[p].children && IsElement(d, p) && WfChildren(d, p)
  {
    ParentWf(d, x);
    var p := d.nodes[x].parent.value;
    ChildrenFacts(d, p);
  }

  /** The parent element of a node other than the document (the `parent()` that
      kobo.py:225-226 calls). */
  function ParentOf(d: Html, x: nat): (p: nat)
    requires 0 < x < |d.nodes|
    ensures p < x && d.nodes[x].parent == Some(p) && IsElement(d, p)
    ensures x in d.nodes[p].children
  {
    ParentFacts(d, x);
    d.nodes[x].parent.value
  }

  /** The document is the only node named "[document]", and the only one without parent. */
  lemma RootFacts(d: Html, x: nat)
    requires x < |d.nodes|
    ensures x == 0 <==> d.nodes[x].parent.None?
    ensures IsElement(d, x) ==> (x == 0 <==> Name(d, x) == DocumentName)
  {
    if x > 0 {
      ParentWf(d, x);
    }
  }

  // ---------------------------------------------------------------------------
  // Ancestry and document order

  /** `a` is a strict ancestor of `x`. */
  predicate IsAncestor(d: Html, a: nat, x: nat)
    requires x < |d.nodes|
    decreases x
  {
    if x == 0 then false
    else
      ParentWf(d, x);
      var p := d.nodes[x].parent.value;
      p == a || IsAncestor(d, a, p)
  }

  lemma {:induction false} AncestorTransitive(d: Html, a: nat, b: nat, x: nat)
    requires b < |d.nodes| && x < |d.nodes|
    requires IsAncestor(d, a, b) && IsAncestor(d, b, x)
    ensures IsAncestor(d, a, x)
    decreases x
  {
    ParentWf(d, x);
    var p := d.nodes[x].parent.value;
    if p != b {
      AncestorTransitive(d, a, b, p);
    }
  }

  /** Ancestors come before their descendants. */
  lemma {:induction false} AncestorBefore(d: Html, a: nat, x: nat)
    requires x < |d.nodes| && IsAncestor(d, a, x)
    ensures a < x
    decreases x
  {
    ParentWf(d, x);
    var p := d.nodes[x].parent.value;
    if p != a {
      AncestorBefore(d, a, p);
    }
  }

  /** A node followed by its descendants, in document order. */
  function Subtree(d: Html, i: nat): seq<nat>
    requires i < |d.nodes|
    decreases |d.nodes| - i, |d.nodes[i].children| + 1
  {
    [i] + Forest(d, i, 0)
  }

  /** The subtrees of the children of `i` from the `k`-th on, in document order. */
  function Forest(d: Html, i: nat, k: nat): seq<nat>
    requires i < |d.nodes| && k <= |d.nodes[i].children|
    decreases |d.nodes| - i, |d.nodes[i].children| - k
  {
    if k == |d.nodes[i].children| then []
    else
      ChildrenFacts(d, i);
      Subtree(d, d.nodes[i].children[k]) + Forest(d, i, k + 1)
  }

  /** All strict descendants of `e`, in document order (what a recursive search scans). */
  function Descendants(d: Html, e: nat): seq<nat>
    requires e < |d.nodes|
  {
    Forest(d, e, 0)
  }

  lemma {:induction false} SubtreeBelow(d: Html, i: nat)
    requires i < |d.nodes|
    ensures forall y :: y in Subtree(d, i) ==> y < |d.nodes| && (y == i || IsAncestor(d, i, y))
    decreases |d.nodes| - i, |d.nodes[i].children| + 1
  {
    ForestBelow(d, i, 0);
  }

  lemma {:induction false} ForestBelow(d: Html, i: nat, k: nat)
    requires i < |d.nodes| && k <= |d.nodes[i].children|
    ensures forall y :: y in Forest(d, i, k) ==> y < |d.nodes| && IsAncestor(d, i, y)
    decreases |d.nodes| - i, |d.nodes[i].children| - k
  {
    if k < |d.nodes[i].children| {
      ChildrenFacts(d, i);
      var c := d.nodes[i].children[k];
      SubtreeBelow(d, c);
      ForestBelow(d, i, k + 1);
      assert IsAncestor(d, i, c) by { ParentWf(d, c); }
      forall y | y in Subtree(d, c) && y != c
        ensures IsAncestor(d, i, y)
      {
        AncestorTransitive(d, i, c, y);
      }
    }
  }

  /** Every node `Descendants` lists lies strictly below `e`. */
  lemma DescendantsBelow(d: Html, e: nat)
    requires e < |d.nodes|
    ensures forall y :: y in Descendants(d, e) ==> y < |d.nodes| && IsAncestor(d, e, y)
  {
    ForestBelow(d, e, 0);
  }

  // ---------------------------------------------------------------------------
  // Text

  /** The concatenated text of all text nodes below `i` (`Tag.text`). */
  function Content(d: Html, i: nat): string
    requires i < |d.nodes|
    decreases |d.nodes| - i, |d.nodes[i].children| + 1
  {
    match d.nodes[i].kind
    case StringNode(t) => t
    case TagNode(_, _, _) => ForestContent(d, i, 0)
  }

  function ForestContent(d: Html, i: nat, k: nat): string
    requires i < |d.nodes| && k <= |d.nodes[i].children|
    decreases |d.nodes| - i, |d.nodes[i].children| - k
  {
    if k == |d.nodes[i].children| then ""
    else
      ChildrenFacts(d, i);
      Content(d, d.nodes[i].children[k]) + ForestContent(d, i, k + 1)
  }

  /** `Element.text` (web.py:18): the text content with surrounding white space stripped. */
  function TextOf(d: Html, e: nat): (t: string)
    requires IsElement(d, e)
    ensures IsStripped(t, Content(d, e))
  {
    Strip(Content(d, e))
  }

  // ---------------------------------------------------------------------------
  // Classes and attributes

  /** `Element.cls_or_none()` (web.py:26-32). */
  function ClsOrNone(d: Html, e: nat): (r: Result<Option<string>>)
    requires IsElement(d, e)
    ensures r == Ok(None) <==> d.nodes[e].kind.classes.None?
    ensures forall c :: r == Ok(Some(c)) <==> d.nodes[e].kind.classes == Some([c])
  {
    match d.nodes[e].kind.classes
    case None => Ok(None)
    case Some(cs) => if |cs| == 1 then assert cs == [cs[0]]; Ok(Some(cs[0])) else Fail(AssertionError)
  }

  /** `Element.cls()` (web.py:20-24). */
  function Cls(d: Html, e: nat): (r: Result<string>)
    requires IsElement(d, e)
    ensures forall c :: r == Ok(c) <==> d.nodes[e].kind.classes == Some([c])
  {
    var c :- ClsOrNone(d, e);
    if c.None? then Fail(AssertionError) else Ok(c.value)
  }

  /** The required-attribute lookup `get_attr` that kobo.py:91-99 calls. */
  function GetAttr(d: Html, e: nat, attr: string): (r: Result<string>)
    requires IsElement(d, e)
    ensures r.Ok? <==> attr in d.nodes[e].kind.attrs
    ensures r.Ok? ==> r.value == d.nodes[e].kind.attrs[attr]
  {
    if attr in d.nodes[e].kind.attrs then Ok(d.nodes[e].kind.attrs[attr]) else Fail(KeyError)
  }

  // ---------------------------------------------------------------------------
  // Navigation

  /** A child's position splits its siblings into the smaller ids before it and the
      larger ids after it. */
  lemma PositionFacts(d: Html, p: nat, pos: nat)
    requires p < |d.nodes| && pos < |d.nodes[p].children|
    ensures var ch := d.nodes[p].children;
      forall x :: x in ch[pos + 1..] <==> x in ch && ch[pos] < x
    ensures var ch := d.nodes[p].children;
      forall x :: x in ch[..pos] <==> x in ch && x < ch[pos]
  {
    var ch := d.nodes[p].children;
    ChildrenFacts(d, p);
    forall x | x in ch
      ensures x in ch[pos + 1..] <==> ch[pos] < x
      ensures x in ch[..pos] <==> x < ch[pos]
    {
      var k :| 0 <= k < |ch| && ch[k] == x;
      if k > pos {
        assert ch[pos + 1..][k - pos - 1] == x;
      } else if k < pos {
        assert ch[..pos][k] == x;
      }
    }
  }

  /** The element children of `e`, in document order. */
  function ElementChildren(d: Html, e: nat): (r: seq<nat>)
    requires IsElement(d, e)
    ensures forall x :: x in r <==> x in d.nodes[e].children && IsElement(d, x)
    ensures forall x :: x in r ==> IsElement(d, x) && d.nodes[x].parent == Some(e)
    ensures StrictlyIncreasing(r)
  {
    var ch := d.nodes[e].children;
    ChildrenFacts(d, e);
    FilterMembers(ch, Elem(d));
    FilterIncreasing(ch, Elem(d));
    Filter(ch, Elem(d))
  }

  /** `Element.children()` (web.py:57-63): the element children, text dropped. */
  method Children(d: Html, e: nat) returns (r: seq<nat>)
    requires IsElement(d, e)
    ensures r == ElementChildren(d, e)
  {
    var ch := d.nodes[e].children;
    r := [];
    var j := 0;
    while j < |ch|
      invariant 0 <= j <= |ch|
      invariant r == Filter(ch[..j], Elem(d))
    {
      assert ch[..j + 1] == ch[..j] + [ch[j]];
      FilterSnoc(ch[..j], ch[j], Elem(d));
      if IsElement(d, ch[j]) {
        r := r + [ch[j]];
      }
      j := j + 1;
    }
    assert ch[..j] == ch;
  }

  /** The element siblings that follow `e`: those with a larger id under the same parent. */
  function NextSiblingsOf(d: Html, e: nat): (r: seq<nat>)
    requires IsElement(d, e) && e != 0
    ensures var ch := d.nodes[ParentOf(d, e)].children;
      forall x :: x in r <==> x in ch && IsElement(d, x) && e < x
    ensures forall x :: x in r ==> d.nodes[x].parent == Some(ParentOf(d, e))
    ensures StrictlyIncreasing(r)
  {
    var p := ParentOf(d, e);
    var ch := d.nodes[p].children;
    var pos := IndexOf(ch, e);
    ChildrenFacts(d, p);
    PositionFacts(d, p, pos);
    IncreasingSlice(ch, pos + 1, |ch|);
    assert ch[pos + 1..|ch|] == ch[pos + 1..];
    FilterMembers(ch[pos + 1..], Elem(d));
    FilterIncreasing(ch[pos + 1..], Elem(d));
    Filter(ch[pos + 1..], Elem(d))
  }

  /** A child of `p` points back to it. */
  lemma ChildParent(d: Html, p: nat, j: nat)
    requires p < |d.nodes| && j < |d.nodes[p].children|
    ensures d.nodes[p].children[j] < |d.nodes|
    ensures d.nodes[d.nodes[p].children[j]].parent == Some(p)
  {
    ChildrenFacts(d, p);
  }

  /** `Element.next_siblings()` (web.py:65-80): the element siblings after `e`, in order,
      or a failed assertion on the document itself. The parent test of web.py:72 never
      fails in a parsed tree, so the walk ends at the last child. */
  method NextSiblings(d: Html, e: nat) returns (r: Result<seq<nat>>)
    requires IsElement(d, e)
    ensures e == 0 <==> r == Fail(AssertionError)
    ensures e != 0 ==> r == Ok(NextSiblingsOf(d, e))
  {
    RootFacts(d, e);
    var parent := d.nodes[e].parent;
    if parent.None? {
      return Fail(AssertionError);
    }
    var p := ParentOf(d, e);
    var ch := d.nodes[p].children;
    var pos := IndexOf(ch, e);
    var next: seq<nat> := [];
    var j := pos + 1;
    while j < |ch|
      invariant pos + 1 <= j <= |ch|
      invariant next == Filter(ch[pos + 1..j], Elem(d))
    {
      var element := ch[j];
      ChildParent(d, p, j);
      if d.nodes[element].parent != parent {
        break;
      }
      SliceSnoc(ch, pos + 1, j);
      FilterSnoc(ch[pos + 1..j], element, Elem(d));
      if IsElement(d, element) {
        next := next + [element];
      }
      j := j + 1;
    }
    assert ch[pos + 1..j] == ch[pos + 1..];
    r := Ok(next);
  }

  /** The element siblings before `e`, nearest first: what kobo.py:178 expects of
      `prev_siblings`, which the web.py accessor does not define. */
  function PrevSiblings(d: Html, e: nat): (r: Result<seq<nat>>)
    requires IsElement(d, e)
    ensures e == 0 <==> r.Fail?
    ensures e != 0 ==>
      var ch := d.nodes[ParentOf(d, e)].children;
      forall x :: x in r.value <==> x in ch && IsElement(d, x) && x < e
    ensures e != 0 ==> forall x :: x in r.value ==> d.nodes[x].parent == Some(ParentOf(d, e))
    ensures e != 0 ==> forall j, k :: 0 <= j < k < |r.value| ==> r.value[j] > r.value[k]
  {
    if e == 0 then Fail(AssertionError)
    else
      var p := ParentOf(d, e);
      var ch := d.nodes[p].children;
      var pos := IndexOf(ch, e);
      ChildrenFacts(d, p);
      PositionFacts(d, p, pos);
      IncreasingSlice(ch, 0, pos);
      assert ch[0..pos] == ch[..pos];
      var before := Filter(ch[..pos], Elem(d));
      FilterMembers(ch[..pos], Elem(d));
      FilterIncreasing(ch[..pos], Elem(d));
      ReverseMembers(before);
      Ok(Reverse(before))
  }

  // ---------------------------------------------------------------------------
  // Search

  function HasName(d: Html, name: string): nat -> bool {
    (x: nat) => IsElement(d, x) && Name(d, x) == name
  }

  /** The nodes a search from `e` scans: its descendants, or its children only. */
  function Scope(d: Html, e: nat, recursive: bool): seq<nat>
    requires e < |d.nodes|
  {
    if recursive then Descendants(d, e) else d.nodes[e].children
  }

  /** Every node a search scans lies below `e`. */
  lemma ScopeBelow(d: Html, e: nat, recursive: bool)
    requires e < |d.nodes|
    ensures forall x :: x in Scope(d, e, recursive) ==> x < |d.nodes| && IsAncestor(d, e, x)
  {
    if recursive {
      DescendantsBelow(d, e);
    } else {
      ChildrenFacts(d, e);
      forall x | x in d.nodes[e].children
        ensures x < |d.nodes| && IsAncestor(d, e, x)
      {
        ParentWf(d, x);
      }
    }
  }

  /** What the parser's own `find_all(name, recursive=...)` returns (web.py:89): the
      elements with that tag name in the scope, in document order. */
  function NameMatches(d: Html, e: nat, name: string, recursive: bool): seq<nat>
    requires e < |d.nodes|
  {
    Filter(Scope(d, e, recursive), HasName(d, name))
  }

  lemma NameMatchesFacts(d: Html, e: nat, name: string, recursive: bool)
    requires e < |d.nodes|
    ensures forall x :: x in NameMatches(d, e, name, recursive) <==>
      x in Scope(d, e, recursive) && IsElement(d, x) && Name(d, x) == name
    ensures forall x :: x in NameMatches(d, e, name, recursive) ==> IsAncestor(d, e, x)
  {
    ScopeBelow(d, e, recursive);
    FilterMembers(Scope(d, e, recursive), HasName(d, name));
  }

  /** The class test of web.py:93-96: an element with a `class` attribute is kept when its
      classes include every requested one; one without is kept only when none is requested. */
  predicate KeepsClasses(d: Html, classes: set<string>, x: nat) {
    && IsElement(d, x)
    && match d.nodes[x].kind.classes
       case Some(cs) => classes <= set c | c in cs
       case None => classes == {}
  }

  function ClassMatch(d: Html, classes: set<string>): nat -> bool {
    (x: nat) => KeepsClasses(d, classes, x)
  }

  /** The result of `Element.find_all`, as a function of the document. */
  function FindAllOf(d: Html, e: nat, name: string, classes: set<string>, recursive: bool): seq<nat>
    requires e < |d.nodes|
  {
    Filter(NameMatches(d, e, name, recursive), ClassMatch(d, classes))
  }

  /** What is found are elements of the name searched for. */
  lemma FoundElements(d: Html, e: nat, name: string, classes: set<string>, recursive: bool)
    requires e < |d.nodes|
    ensures forall x :: x in FindAllOf(d, e, name, classes, recursive) ==> IsElement(d, x) && Name(d, x) == name
  {
    FindAllOfFacts(d, e, name, classes, recursive);
  }

  /** A search finds exactly the named elements in its scope that carry every requested
      class (any element at all when no class is requested), in document order. */
  lemma FindAllOfFacts(d: Html, e: nat, name: string, classes: set<string>, recursive: bool)
    requires e < |d.nodes|
    ensures forall x :: x in FindAllOf(d, e, name, classes, recursive) <==>
      && x in Scope(d, e, recursive) && IsElement(d, x) && Name(d, x) == name
      && (classes == {} || (d.nodes[x].kind.classes.Some?
                            && classes <= set c | c in d.nodes[x].kind.classes.value))
    ensures forall x :: x in FindAllOf(d, e, name, classes, recursive) ==> IsAncestor(d, e, x)
    ensures Subsequence(FindAllOf(d, e, name, classes, recursive), NameMatches(d, e, name, recursive))
  {
    NameMatchesFacts(d, e, name, recursive);
    FilterMembers(NameMatches(d, e, name, recursive), ClassMatch(d, classes));
    FilterSubsequence(NameMatches(d, e, name, recursive), ClassMatch(d, classes));
  }

  /** `Element.find_all` (web.py:88-105): the name matches, then the class filter applied
      by deleting from the end of the list. */
  method FindAll(d: Html, e: nat, name: string, classes: set<string>, recursive: bool)
    returns (r: seq<nat>)
    requires IsElement(d, e)
    ensures r == FindAllOf(d, e, name, classes, recursive)
  {
    var tags := NameMatches(d, e, name, recursive);
    ghost var found := tags;
    ghost var keep := ClassMatch(d, classes);
    var i := |tags|;
    assert found[i..] == [];
    while i > 0
      invariant 0 <= i <= |found|
      invariant tags == found[..i] + Filter(found[i..], keep)
    {
      i := i - 1;
      FilterFromBack(found, i, keep, tags);
      var tag := tags[i];
      MatchIsElement(d, e, name, recursive, i);
      var delete := |classes| != 0;
      if d.nodes[tag].kind.classes.Some? {
        var icls := set c | c in d.nodes[tag].kind.classes.value;
        delete := !(classes <= icls);
      }
      if delete {
        tags := tags[..i] + tags[i + 1..];
      }
    }
    assert found[..0] == [];
    r := tags;
  }

  lemma MatchIsElement(d: Html, e: nat, name: string, recursive: bool, i: nat)
    requires e < |d.nodes| && i < |NameMatches(d, e, name, recursive)|
    ensures IsElement(d, NameMatches(d, e, name, recursive)[i])
  {
    NameMatchesFacts(d, e, name, recursive);
    assert NameMatches(d, e, name, recursive)[i] in NameMatches(d, e, name, recursive);
  }

  /** `Element.find` (web.py:82-86): the only match, or a failed assertion. */
  function Find(d: Html, e: nat, name: string, classes: set<string>, recursive: bool): (r: Result<nat>)
    requires e < |d.nodes|
    ensures r.Ok? <==> |FindAllOf(d, e, name, classes, recursive)| == 1
    ensures r.Ok? ==> FindAllOf(d, e, name, classes, recursive) == [r.value]
    ensures r.Ok? ==> IsElement(d, r.value) && Name(d, r.value) == name && IsAncestor(d, e, r.value)
  {
    var found := FindAllOf(d, e, name, classes, recursive);
    if |found| == 1 then
      FindAllOfFacts(d, e, name, classes, recursive);
      assert found[0] in found;
      Ok(found[0])
    else Fail(AssertionError)
  }

  /** The zero-or-one lookup `find_or_none` that kobo.py:80 calls: none when nothing
      matches, the match when exactly one does, a failed assertion otherwise. */
  function FindOrNone(d: Html, e: nat, name: string): (r: Result<Option<nat>>)
    requires e < |d.nodes|
    ensures r == Ok(None) <==> FindAllOf(d, e, name, {}, true) == []
    ensures forall x :: r == Ok(Some(x)) <==> FindAllOf(d, e, name, {}, true) == [x]
    ensures r.Ok? && r.value.Some? ==>
      IsElement(d, r.value.value) && Name(d, r.value.value) == name
  {
    var found := FindAllOf(d, e, name, {}, true);
    if |found| == 0 then Ok(None)
    else if |found| == 1 then
      FindAllOfFacts(d, e, name, {}, true);
      assert found == [found[0]] && found[0] in found;
      Ok(Some(found[0]))
    else Fail(AssertionError)
  }

  predicate HasId(d: Html, x: nat, tag: string, id: string) {
    IsElement(d, x) && Name(d, x) == tag && "id" in d.nodes[x].kind.attrs
    && d.nodes[x].kind.attrs["id"] == id
  }

  function TagWithId(d: Html, tag: string, id: string): nat -> bool {
    (x: nat) => HasId(d, x, tag, id)
  }

  /** The elements below `e` with this tag and id attribute, in document order: what
      kobo.py:217 expects of `find_all_with_id`, which the web.py accessor does not define. */
  function FindAllWithId(d: Html, e: nat, tag: string, id: string): (r: seq<nat>)
    requires e < |d.nodes|
    ensures forall x :: x in r <==> x in Descendants(d, e) && HasId(d, x, tag, id)
    ensures forall x :: x in r ==> HasId(d, x, tag, id) && IsAncestor(d, e, x)
    ensures Subsequence(r, Descendants(d, e))
  {
    DescendantsBelow(d, e);
    FilterMembers(Descendants(d, e), TagWithId(d, tag, id));
    FilterSubsequence(Descendants(d, e), TagWithId(d, tag, id));
    Filter(Descendants(d, e), TagWithId(d, tag, id))
  }

  /** The single element with this tag and id (kobo.py:160's `find_with_id`). */
  function FindWithId(d: Html, e: nat, tag: string, id: string): (r: Result<nat>)
    requires e < |d.nodes|
    ensures r.Ok? <==> |FindAllWithId(d, e, tag, id)| == 1
    ensures r.Ok? ==> FindAllWithId(d, e, tag, id) == [r.value]
    ensures r.Ok? ==> HasId(d, r.value, tag, id) && IsAncestor(d, e, r.value)
  {
    var found := FindAllWithId(d, e, tag, id);
    if |found| == 1 then
      assert found == [found[0]] && found[0] in found;
      Ok(found[0])
    else Fail(AssertionError)
  }

  // ---------------------------------------------------------------------------
  // Positional path

  function SameNameCount(d: Html, cs: seq<nat>, name: string): nat {
    |Filter(cs, HasName(d, name))|
  }

  /** The children of `t`'s parent, `t` among them. */
  function Siblings(d: Html, t: nat): seq<nat>
    requires IsElement(d, t) && t != 0
  {
    d.nodes[ParentOf(d, t)].children
  }

  /** The position of `t` among its parent's children. */
  function Position(d: Html, t: nat): (k: nat)
    requires IsElement(d, t) && t != 0
    ensures k < |Siblings(d, t)| && Siblings(d, t)[k] == t
  {
    IndexOf(Siblings(d, t), t)
  }

  /** How many siblings before `t` share its tag name. */
  function NamesakesBefore(d: Html, t: nat): nat
    requires IsElement(d, t) && t != 0
  {
    SameNameCount(d, Siblings(d, t)[..Position(d, t)], Name(d, t))
  }

  /** How many siblings after `t` share its tag name. */
  function NamesakesAfter(d: Html, t: nat): nat
    requires IsElement(d, t) && t != 0
  {
    SameNameCount(d, Siblings(d, t)[Position(d, t) + 1..], Name(d, t))
  }

  /** One step of an xpath (web.py:38-49): the tag name alone when no sibling shares it,
      else the name and its 1-based position among the siblings of that name. */
  function Step(d: Html, t: nat): string
    requires IsElement(d, t) && t != 0
  {
    if NamesakesBefore(d, t) + NamesakesAfter(d, t) == 0 then Name(d, t)
    else Name(d, t) + "[" + NatToString(NamesakesBefore(d, t) + 1) + "]"
  }

  /** The steps from `t` up to (not including) the document, nearest first. */
  function PathSteps(d: Html, t: nat): seq<string>
    requires IsElement(d, t)
    decreases t
  {
    if t == 0 then []
    else [Step(d, t)] + PathSteps(d, ParentOf(d, t))
  }

  /** The backward count of web.py:38-40 over the siblings before position `pos`. */
  method CountBefore(d: Html, ch: seq<nat>, pos: nat, name: string) returns (n: nat)
    requires pos <= |ch|
    ensures n == SameNameCount(d, ch[..pos], name)
  {
    n := 0;
    var j := pos;
    while j > 0
      invariant 0 <= j <= pos
      invariant n == SameNameCount(d, ch[j..pos], name)
    {
      assert ch[j - 1..pos][1..] == ch[j..pos];
      if IsElement(d, ch[j - 1]) && Name(d, ch[j - 1]) == name {
        n := n + 1;
      }
      j := j - 1;
    }
    assert ch[0..pos] == ch[..pos];
  }

  /** The forward count of web.py:42-44 over the siblings after position `pos`. */
  method CountAfter(d: Html, ch: seq<nat>, pos: nat, name: string) returns (n: nat)
    requires pos < |ch|
    ensures n == SameNameCount(d, ch[pos + 1..], name)
  {
    n := 0;
    var j := pos + 1;
    while j < |ch|
      invariant pos + 1 <= j <= |ch|
      invariant n == SameNameCount(d, ch[pos + 1..j], name)
    {
      assert ch[pos + 1..j + 1] == ch[pos + 1..j] + [ch[j]];
      FilterSnoc(ch[pos + 1..j], ch[j], HasName(d, name));
      if IsElement(d, ch[j]) && Name(d, ch[j]) == name {
        n := n + 1;
      }
      j := j + 1;
    }
    assert ch[pos + 1..j] == ch[pos + 1..];
  }

  /** One iteration of the loop of web.py:37-52: the step of `tag`. */
  method StepOf(d: Html, tag: nat) returns (step: string)
    requires IsElement(d, tag) && tag != 0
    ensures step == Step(d, tag)
  {
    var ch := Siblings(d, tag);
    var pos := Position(d, tag);
    var name := Name(d, tag);
    var nPrev := CountBefore(d, ch, pos, name);
    var nNext := CountAfter(d, ch, pos, name);
    if nPrev + nNext == 0 {
      step := name;
    } else {
      step := name + "[" + NatToString(nPrev + 1) + "]";
    }
  }

  /** `Element.xpath()` (web.py:34-55): the steps from the document down to `e`. */
  method XPath(d: Html, e: nat) returns (xpath: string)
    requires IsElement(d, e)
    ensures xpath == "/" + Join("/", Reverse(PathSteps(d, e)))
  {
    var tag := e;
    var paths: seq<string> := [];
    RootFacts(d, tag);
    while Name(d, tag) != DocumentName
      invariant IsElement(d, tag)
      invariant tag == 0 <==> Name(d, tag) == DocumentName
      invariant PathSteps(d, e) == paths + PathSteps(d, tag)
      decreases tag
    {
      var step := StepOf(d, tag);
      var parent := ParentOf(d, tag);
      assert PathSteps(d, tag) == [step] + PathSteps(d, parent);
      paths := paths + [step];
      tag := parent;
      RootFacts(d, tag);
    }
    assert PathSteps(d, tag) == [];
    assert paths == PathSteps(d, e);
    xpath := "/" + Join("/", Reverse(paths));
  }

  /** The tag name at the head of an xpath step. */
  function StepName(s: string): string {
    if '[' in s then s[..IndexOfChar(s, '[')] else s
  }

  lemma StepNameOf(d: Html, t: nat)
    requires IsElement(d, t) && t != 0 && '[' !in Name(d, t)
    ensures StepName(Step(d, t)) == Name(d, t)
  {
    var s := Step(d, t);
    var n := Name(d, t);
    if s != n {
      var rest := s[|n|..];
      assert s == n + rest && rest[0] == '[';
      var k := IndexOfChar(s, '[');
      assert forall m :: 0 <= m < |n| ==> s[m] == n[m];
      assert s[|n|] == '[';
      assert k == |n|;
    }
  }

  /** A same-named element earlier among the siblings raises the count before a later one. */
  lemma CountGrows(d: Html, ch: seq<nat>, px: nat, py: nat, name: string)
    requires px < py <= |ch| && IsElement(d, ch[px]) && Name(d, ch[px]) == name
    ensures SameNameCount(d, ch[..py], name) >= SameNameCount(d, ch[..px], name) + 1
  {
    var f := HasName(d, name);
    assert ch[..py] == ch[..px] + ch[px..py];
    FilterAppend(ch[..px], ch[px..py], f);
    assert ch[px..py][0] == ch[px];
  }

  /** A same-named element later among the siblings makes the count after an earlier one positive. */
  lemma CountPositive(d: Html, s: seq<nat>, k: nat, name: string)
    requires k < |s| && IsElement(d, s[k]) && Name(d, s[k]) == name
    ensures SameNameCount(d, s, name) > 0
  {
    FilterMembers(s, HasName(d, name));
    assert s[k] in Filter(s, HasName(d, name));
  }

  /** The number inside the brackets of an indexed step for tag `name`. */
  function StepIndex(s: string, name: string): nat {
    if |name| + 2 <= |s| then ParseNat(s[|name| + 1..|s| - 1]) else 0
  }

  /** The bracketed position of an indexed step is read back. */
  lemma StepIndexOf(name: string, a: nat)
    ensures StepIndex(name + "[" + NatToString(a) + "]", name) == a
  {
    var s := name + "[" + NatToString(a) + "]";
    assert s[|name| + 1..|s| - 1] == NatToString(a);
    ParseNatToString(a);
  }

  /** Of two same-named siblings, the later one has more namesakes before it, and the
      earlier one has at least one after it. */
  lemma NamesakesGrow(d: Html, x: nat, y: nat)
    requires IsElement(d, x) && IsElement(d, y) && x != 0 && y != 0
    requires ParentOf(d, x) == ParentOf(d, y) && Name(d, x) == Name(d, y)
    requires Position(d, x) < Position(d, y)
    ensures NamesakesBefore(d, y) >= NamesakesBefore(d, x) + 1
    ensures NamesakesAfter(d, x) > 0
  {
    var ch, name := Siblings(d, x), Name(d, x);
    var px, py := Position(d, x), Position(d, y);
    CountGrows(d, ch, px, py, name);
    assert ch[px + 1..][py - px - 1] == y;
    CountPositive(d, ch[px + 1..], py - px - 1, name);
  }

  /** A step with namesakes carries its 1-based position among them. */
  lemma StepIndexed(d: Html, t: nat)
    requires IsElement(d, t) && t != 0 && NamesakesBefore(d, t) + NamesakesAfter(d, t) > 0
    ensures StepIndex(Step(d, t), Name(d, t)) == NamesakesBefore(d, t) + 1
  {
    StepIndexOf(Name(d, t), NamesakesBefore(d, t) + 1);
  }

  /** For same-named siblings `x` before `y`, both steps carry an index and y's is larger. */
  lemma SameNameIndexed(d: Html, x: nat, y: nat)
    requires IsElement(d, x) && IsElement(d, y) && x != 0 && y != 0
    requires ParentOf(d, x) == ParentOf(d, y) && Name(d, x) == Name(d, y)
    requires Position(d, x) < Position(d, y)
    ensures Step(d, x) != Step(d, y)
  {
    NamesakesGrow(d, x, y);
    StepIndexed(d, x);
    StepIndexed(d, y);
  }

  /** Two distinct element siblings never get the same xpath step: the positional
      index tells apart the siblings that share a tag name. */
  lemma StepsDistinguishSiblings(d: Html, x: nat, y: nat)
    requires IsElement(d, x) && IsElement(d, y) && x != 0 && y != 0 && x != y
    requires ParentOf(d, x) == ParentOf(d, y)
    requires '[' !in Name(d, x) && '[' !in Name(d, y)
    ensures Step(d, x) != Step(d, y)
  {
    StepNameOf(d, x);
    StepNameOf(d, y);
    if Name(d, x) == Name(d, y) {
      if Position(d, x) < Position(d, y) {
        SameNameIndexed(d, x, y);
      } else {
        assert Position(d, x) != Position(d, y);
        SameNameIndexed(d, y, x);
      }
    }
  }

  /** Distinct elements have distinct paths, when no tag name holds a '['. */
  lemma {:induction false} PathStepsInjective(d: Html, x: nat, y: nat)
    requires IsElement(d, x) && IsElement(d, y)
    requires forall t :: 0 <= t < |d.nodes| && IsElement(d, t) ==> '[' !in Name(d, t)
    requires PathSteps(d, x) == PathSteps(d, y)
    ensures x == y
    decreases x + y
  {
    if x != 0 && y != 0 {
      var px, py := ParentOf(d, x), ParentOf(d, y);
      assert PathSteps(d, x)[1..] == PathSteps(d, px);
      assert PathSteps(d, y)[1..] == PathSteps(d, py);
      PathStepsInjective(d, px, py);
      if x != y {
        StepsDistinguishSiblings(d, x, y);
      }
    }
  }
}
