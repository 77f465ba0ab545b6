/** Flashcard notes made from the pages of the Spanish dictionary (anki_notes.py): the
    entries and articles read off a page, and the HTML fields of the note. */
module AnkiNotes {
  import opened Wrappers
  import opened Strings
  import opened Seqs
  import opened Web

  const SynonymsLabel := "Sin.:"
  const AntonymsLabel := "Ant.:"

  /** `RAENote.Entry` (anki_notes.py:35-40): one sense of a headword. */
  datatype Entry = Entry(definition: string, synonyms: seq<string>, antonyms: seq<string>)

  /** `RAENote.Article` (anki_notes.py:79-89). */
  datatype Article = Article(headword: string, supplementaryInfo: string, entries: seq<Entry>)

  /** `RAENote` (anki_notes.py:33, 138-142): the page address and its articles. */
  datatype RaeNote = RaeNote(url: string, articles: seq<Article>)

  /** The note type passed to `INote.__init__` (anki_notes.py:139). */
  const RaeNoteType := "RAE"

  /** The address `create` fetches (anki_notes.py:161). */
  const DictionaryUrl := "https://dle.rae.es/"

  const LemmaField := "lema"
  const SupplementaryField := "informacion_complementaria"
  const SensesField := "acepciones_simples"

  /** The texts of the elements `xs`, in order. */
  function Texts(d: Html, xs: seq<nat>): (r: seq<string>)
    requires forall x :: x in xs ==> IsElement(d, x)
    ensures |r| == |xs| && forall k :: 0 <= k < |xs| ==> r[k] == TextOf(d, xs[k])
  {
    seq(|xs|, k requires 0 <= k < |xs| => assert xs[k] in xs; TextOf(d, xs[k]))
  }

  // ---------------------------------------------------------------------------
  // `RAENote.Entry.create`

  /** The definition of an entry paragraph (anki_notes.py:44-49): its first element child
      must be the sense number, a `span` of class `n_acep`, and the texts of the others,
      joined by single spaces, are the definition. No child at all raises IndexError. */
  function DefinitionOf(d: Html, p: nat): (r: Result<string>)
    requires IsElement(d, p)
    ensures r.Ok? <==>
      var ch := ElementChildren(d, p);
      |ch| > 0 && Name(d, ch[0]) == "span" && Cls(d, ch[0]) == Ok("n_acep")
    ensures r.Ok? ==> r.value == Join(" ", Texts(d, ElementChildren(d, p)[1..]))
  {
    var children := ElementChildren(d, p);
    if |children| == 0 then Fail(IndexError)
    else
      var number := children[0];
      assert number in children;
      if Name(d, number) != "span" then Fail(AssertionError)
      else
        var c :- Cls(d, number);
        if c != "n_acep" then Fail(AssertionError)
        else
          assert forall x :: x in children[1..] ==> x in children;
          Ok(Join(" ", Texts(d, children[1..])))
  }

  /** The texts of the `span.sin` elements below a value cell (anki_notes.py:71-72). */
  function SpanTexts(d: Html, ul: nat): seq<string>
    requires ul < |d.nodes|
  {
    FoundElements(d, ul, "span", {"sin"}, true);
    Texts(d, FindAllOf(d, ul, "span", {"sin"}, true))
  }

  /** The (label, value) cell pairs `tds` (anki_notes.py:59-74), adding to the synonyms
      and antonyms gathered so far; a label without its value cell raises IndexError. */
  function PairsFrom(d: Html, tds: seq<nat>, syn: seq<string>, ant: seq<string>)
    : Result<(seq<string>, seq<string>)>
    requires forall x :: x in tds ==> IsElement(d, x)
    decreases |tds|
  {
    if tds == [] then Ok((syn, ant))
    else if |tds| == 1 then Fail(IndexError)
    else
      assert tds[0] in tds && tds[1] in tds;
      assert IsElement(d, tds[0]) && IsElement(d, tds[1]);
      assert forall x :: x in tds[2..] ==> x in tds;
      var caption := TextOf(d, tds[0]);
      var spans := SpanTexts(d, tds[1]);
      if caption == SynonymsLabel then
        if |syn + spans| == 0 then Fail(AssertionError) else PairsFrom(d, tds[2..], syn + spans, ant)
      else if caption == AntonymsLabel then
        if |ant + spans| == 0 then Fail(AssertionError) else PairsFrom(d, tds[2..], syn, ant + spans)
      else Fail(NotImplementedError(Name(d, tds[0])))
  }

  /** The texts of the value cells whose label is `caption`: an independent account of
      where the synonyms and antonyms come from. */
  function Collected(d: Html, tds: seq<nat>, caption: string): seq<string>
    requires forall x :: x in tds ==> IsElement(d, x)
    decreases |tds|
  {
    if |tds| < 2 then []
    else
      assert tds[0] in tds && tds[1] in tds;
      assert forall x :: x in tds[2..] ==> x in tds;
      assert IsElement(d, tds[0]) && IsElement(d, tds[1]);
      (if TextOf(d, tds[0]) == caption then SpanTexts(d, tds[1]) else []) + Collected(d, tds[2..], caption)
  }

  /** The cells pair up and every label is `Sin.:` or `Ant.:`. */
  predicate LabelsKnown(d: Html, tds: seq<nat>)
    requires forall x :: x in tds ==> IsElement(d, x)
    decreases |tds|
  {
    tds == [] || (
      && |tds| >= 2
      && (assert tds[0] in tds; TextOf(d, tds[0]) in {SynonymsLabel, AntonymsLabel})
      && (assert forall x :: x in tds[2..] ==> x in tds; LabelsKnown(d, tds[2..])))
  }

  /** Reading the pairs routes each value's span texts, in order, to the list its label
      names; the cells pair up and every label is one of the two. */
  lemma {:induction false} PairsCollect(d: Html, tds: seq<nat>, syn: seq<string>, ant: seq<string>)
    requires forall x :: x in tds ==> IsElement(d, x)
    requires PairsFrom(d, tds, syn, ant).Ok?
    ensures var r := PairsFrom(d, tds, syn, ant).value;
      && r.0 == syn + Collected(d, tds, SynonymsLabel)
      && r.1 == ant + Collected(d, tds, AntonymsLabel)
      && LabelsKnown(d, tds)
    decreases |tds|
  {
    if tds != [] {
      assert tds[0] in tds && tds[1] in tds;
      assert IsElement(d, tds[0]) && IsElement(d, tds[1]);
      assert forall x :: x in tds[2..] ==> x in tds;
      var spans := SpanTexts(d, tds[1]);
      var rest := tds[2..];
      var caption := TextOf(d, tds[0]);
      assert SynonymsLabel != AntonymsLabel;
      if caption == SynonymsLabel {
        assert PairsFrom(d, tds, syn, ant) == PairsFrom(d, rest, syn + spans, ant);
        assert Collected(d, tds, SynonymsLabel) == spans + Collected(d, rest, SynonymsLabel);
        assert Collected(d, tds, AntonymsLabel) == Collected(d, rest, AntonymsLabel);
        PairsCollect(d, rest, syn + spans, ant);
        AppendAssoc(syn, spans, Collected(d, rest, SynonymsLabel));
      } else {
        assert caption == AntonymsLabel;
        assert PairsFrom(d, tds, syn, ant) == PairsFrom(d, rest, syn, ant + spans);
        assert Collected(d, tds, AntonymsLabel) == spans + Collected(d, rest, AntonymsLabel);
        assert Collected(d, tds, SynonymsLabel) == Collected(d, rest, SynonymsLabel);
        PairsCollect(d, rest, syn, ant + spans);
        AppendAssoc(ant, spans, Collected(d, rest, AntonymsLabel));
      }
    }
  }

  /** The synonyms and antonyms of an entry paragraph (anki_notes.py:51-74): read only
      when the next element sibling is a `div`, whose `td` cells must be a non-empty,
      even number. */
  function SynonymsOf(d: Html, p: nat): Result<(seq<string>, seq<string>)>
    requires IsElement(d, p)
  {
    if p == 0 then Fail(AssertionError)
    else
      var siblings := NextSiblingsOf(d, p);
      if |siblings| == 0 then Ok(([], []))
      else
        assert siblings[0] in siblings;
        if Name(d, siblings[0]) != "div" then Ok(([], []))
        else
          var tds := FindAllOf(d, siblings[0], "td", {}, true);
          FoundElements(d, siblings[0], "td", {}, true);
          if |tds| == 0 || |tds| % 2 != 0 then Fail(AssertionError)
          else PairsFrom(d, tds, [], [])
  }

  /** `RAENote.Entry.create` (anki_notes.py:42-77). */
  function EntryOf(d: Html, p: nat): Result<Entry>
    requires IsElement(d, p)
  {
    var definition :- DefinitionOf(d, p);
    var lists :- SynonymsOf(d, p);
    Ok(Entry(definition, lists.0, lists.1))
  }

  /** `RAENote.Entry.create` (anki_notes.py:42-77): pops the sense number off the
      children, then gathers synonyms and antonyms pair by pair. */
  method CreateEntry(d: Html, p: nat) returns (r: Result<Entry>)
    requires IsElement(d, p)
    ensures r == EntryOf(d, p)
  {
    var children := Children(d, p);
    if |children| == 0 {
      return Fail(IndexError);
    }
    var number := children[0];
    assert number in children;
    children := children[1..];
    if Name(d, number) != "span" {
      return Fail(AssertionError);
    }
    var c :- Cls(d, number);
    if c != "n_acep" {
      return Fail(AssertionError);
    }
    assert forall x :: x in children ==> x in ElementChildren(d, p);
    var definition := Join(" ", Texts(d, children));
    assert DefinitionOf(d, p) == Ok(definition);
    var lists :- ReadSynonyms(d, p);
    r := Ok(Entry(definition, lists.0, lists.1));
  }

  /** The synonym and antonym part of `RAENote.Entry.create` (anki_notes.py:51-74). */
  method ReadSynonyms(d: Html, p: nat) returns (r: Result<(seq<string>, seq<string>)>)
    requires IsElement(d, p)
    ensures r == SynonymsOf(d, p)
  {
    var siblings :- NextSiblings(d, p);
    if |siblings| != 0 && Name(d, siblings[0]) == "div" {
      var tds := FindAll(d, siblings[0], "td", {}, true);
      FoundElements(d, siblings[0], "td", {}, true);
      if !(|tds| != 0 && |tds| % 2 == 0) {
        return Fail(AssertionError);
      }
      r := ReadPairs(d, tds);
    } else {
      r := Ok(([], []));
    }
  }

  /** The loop of anki_notes.py:59-74 over the (label, value) cell pairs. */
  method ReadPairs(d: Html, tds: seq<nat>) returns (r: Result<(seq<string>, seq<string>)>)
    requires forall x :: x in tds ==> IsElement(d, x)
    ensures r == PairsFrom(d, tds, [], [])
  {
    var synonyms: seq<string> := [];
    var antonyms: seq<string> := [];
    var i := 0;
    while i < |tds|
      invariant i <= |tds|
      invariant PairsFrom(d, tds, [], []) == PairsFrom(d, tds[i..], synonyms, antonyms)
      decreases |tds| - i
    {
      var abbr := tds[i];
      if i + 1 == |tds| {
        return Fail(IndexError);
      }
      var ul := tds[i + 1];
      assert abbr in tds && ul in tds;
      assert IsElement(d, abbr) && IsElement(d, ul);
      assert tds[i..][0] == abbr && tds[i..][1] == ul && tds[i..][2..] == tds[i + 2..];
      var caption := TextOf(d, abbr);
      var toSynonyms: bool;
      if caption == SynonymsLabel {
        toSynonyms := true;
      } else if caption == AntonymsLabel {
        toSynonyms := false;
      } else {
        return Fail(NotImplementedError(Name(d, abbr)));
      }
      var added := CollectSpans(d, ul);
      if toSynonyms {
        synonyms := synonyms + added;
        if |synonyms| == 0 {
          return Fail(AssertionError);
        }
      } else {
        antonyms := antonyms + added;
        if |antonyms| == 0 {
          return Fail(AssertionError);
        }
      }
      i := i + 2;
    }
    r := Ok((synonyms, antonyms));
  }

  /** The inner loop of anki_notes.py:71-72: the texts of the `span.sin` elements below a
      value cell, in order. */
  method CollectSpans(d: Html, ul: nat) returns (added: seq<string>)
    requires IsElement(d, ul)
    ensures added == SpanTexts(d, ul)
  {
    var spans := FindAll(d, ul, "span", {"sin"}, true);
    FoundElements(d, ul, "span", {"sin"}, true);
    added := [];
    var k := 0;
    while k < |spans|
      invariant k <= |spans|
      invariant added == Texts(d, spans[..k])
    {
      assert spans[k] in spans;
      assert spans[..k + 1] == spans[..k] + [spans[k]];
      added := added + [TextOf(d, spans[k])];
      k := k + 1;
    }
    assert spans[..k] == spans;
  }

  // ---------------------------------------------------------------------------
  // `RAENote.Article.create`

  /** The paragraph handling of anki_notes.py:116-134, from the first of `ps` on: a
      paragraph without a class must be empty; otherwise the first letter of its single
      class decides (`n` the supplementary information, `j` an entry, anything else an
      error). */
  function ParagraphsFrom(d: Html, ps: seq<nat>, info: string, entries: seq<Entry>)
    : Result<(string, seq<Entry>)>
    requires forall x :: x in ps ==> IsElement(d, x)
    decreases |ps|
  {
    if ps == [] then Ok((info, entries))
    else
      var p := ps[0];
      assert p in ps;
      assert forall x :: x in ps[1..] ==> x in ps;
      var c :- ClsOrNone(d, p);
      match c
      case None =>
        if |TextOf(d, p)| != 0 then Fail(AssertionError) else ParagraphsFrom(d, ps[1..], info, entries)
      case Some(cls) =>
        if |cls| == 0 then Fail(IndexError)
        else if cls[0] == 'n' then ParagraphsFrom(d, ps[1..], TextOf(d, p), entries)
        else if cls[0] == 'j' then
          var entry :- EntryOf(d, p);
          ParagraphsFrom(d, ps[1..], info, entries + [entry])
        else if cls[0] in {'k', 'm', 'l'} then Fail(NotImplementedError(Name(d, p)))
        else Fail(NotImplementedError(cls))
  }

  /** A paragraph whose single class starts with `letter`. */
  predicate ClassStarts(d: Html, p: nat, letter: char)
    requires IsElement(d, p)
  {
    match d.nodes[p].kind.classes
    case Some(cs) => |cs| == 1 && |cs[0]| > 0 && cs[0][0] == letter
    case None => false
  }

  /** A paragraph that the loop accepts. */
  predicate ParagraphOk(d: Html, p: nat)
    requires IsElement(d, p)
  {
    match d.nodes[p].kind.classes
    case None => |TextOf(d, p)| == 0
    case Some(cs) =>
      |cs| == 1 && |cs[0]| > 0 && (cs[0][0] == 'n' || (cs[0][0] == 'j' && EntryOf(d, p).Ok?))
  }

  /** The entries of the entry paragraphs of `ps`, in order. */
  function EntriesOf(d: Html, ps: seq<nat>): seq<Entry>
    requires forall x :: x in ps ==> IsElement(d, x)
  {
    if ps == [] then []
    else
      assert ps[0] in ps;
      assert forall x :: x in ps[1..] ==> x in ps;
      (if ClassStarts(d, ps[0], 'j') && EntryOf(d, ps[0]).Ok? then [EntryOf(d, ps[0]).value] else [])
      + EntriesOf(d, ps[1..])
  }

  /** The text of the last supplementary paragraph of `ps`, or `info` when there is none. */
  function LastInfo(d: Html, ps: seq<nat>, info: string): string
    requires forall x :: x in ps ==> IsElement(d, x)
  {
    if ps == [] then info
    else
      assert ps[0] in ps;
      assert forall x :: x in ps[1..] ==> x in ps;
      LastInfo(d, ps[1..], if ClassStarts(d, ps[0], 'n') then TextOf(d, ps[0]) else info)
  }

  /** One step of the paragraph loop: an acceptable first paragraph hands on the
      supplementary information and the entries it leaves; any other fails the loop. */
  lemma ParagraphStep(d: Html, ps: seq<nat>, info: string, entries: seq<Entry>)
    requires forall x :: x in ps ==> IsElement(d, x)
    requires ps != []
    ensures IsElement(d, ps[0]) && forall x :: x in ps[1..] ==> IsElement(d, x)
    ensures !ParagraphOk(d, ps[0]) ==> ParagraphsFrom(d, ps, info, entries).Fail?
    ensures ParagraphOk(d, ps[0]) ==>
      var p := ps[0];
      var next := if ClassStarts(d, p, 'n') then TextOf(d, p) else info;
      var more := if ClassStarts(d, p, 'j') && EntryOf(d, p).Ok? then [EntryOf(d, p).value] else [];
      ParagraphsFrom(d, ps, info, entries) == ParagraphsFrom(d, ps[1..], next, entries + more)
  {
    var p := ps[0];
    assert p in ps;
    assert IsElement(d, p);
    assert forall x :: x in ps[1..] ==> x in ps;
    var rest := ps[1..];
    match d.nodes[p].kind.classes
    case None =>
      assert ClsOrNone(d, p) == Ok(None);
      assert !ClassStarts(d, p, 'n') && !ClassStarts(d, p, 'j');
      assert entries + [] == entries;
      if |TextOf(d, p)| == 0 {
        assert ParagraphsFrom(d, ps, info, entries) == ParagraphsFrom(d, rest, info, entries);
      }
    case Some(cs) =>
      if |cs| == 1 && |cs[0]| > 0 {
        var c := cs[0];
        assert ClsOrNone(d, p) == Ok(Some(c));
        if c[0] == 'n' {
          assert !ClassStarts(d, p, 'j');
          assert entries + [] == entries;
          assert ParagraphsFrom(d, ps, info, entries) == ParagraphsFrom(d, rest, TextOf(d, p), entries);
        } else if c[0] == 'j' && EntryOf(d, p).Ok? {
          assert !ClassStarts(d, p, 'n');
          var entry := EntryOf(d, p).value;
          assert ParagraphsFrom(d, ps, info, entries) == ParagraphsFrom(d, rest, info, entries + [entry]);
        }
      }
  }

  /** The paragraphs are read without error exactly when each of them is acceptable. */
  lemma {:induction false} ParagraphsSucceed(d: Html, ps: seq<nat>, info: string, entries: seq<Entry>)
    requires forall x :: x in ps ==> IsElement(d, x)
    ensures ParagraphsFrom(d, ps, info, entries).Ok? <==> forall k :: 0 <= k < |ps| ==> ParagraphOk(d, ps[k])
    decreases |ps|
  {
    if ps != [] {
      ParagraphStep(d, ps, info, entries);
      var p := ps[0];
      var next := if ClassStarts(d, p, 'n') then TextOf(d, p) else info;
      var more := if ClassStarts(d, p, 'j') && EntryOf(d, p).Ok? then [EntryOf(d, p).value] else [];
      ParagraphsSucceed(d, ps[1..], next, entries + more);
      assert forall k :: 1 <= k < |ps| ==> ps[k] == ps[1..][k - 1];
    }
  }

  /** Read without error, the paragraphs give the entries of the entry paragraphs in
      order, and the supplementary information of the last supplementary paragraph. */
  lemma {:induction false} ParagraphsRead(d: Html, ps: seq<nat>, info: string, entries: seq<Entry>)
    requires forall x :: x in ps ==> IsElement(d, x)
    requires ParagraphsFrom(d, ps, info, entries).Ok?
    ensures ParagraphsFrom(d, ps, info, entries).value == (LastInfo(d, ps, info), entries + EntriesOf(d, ps))
    decreases |ps|
  {
    if ps != [] {
      ParagraphStep(d, ps, info, entries);
      var p := ps[0];
      var next := if ClassStarts(d, p, 'n') then TextOf(d, p) else info;
      var more := if ClassStarts(d, p, 'j') && EntryOf(d, p).Ok? then [EntryOf(d, p).value] else [];
      ParagraphsRead(d, ps[1..], next, entries + more);
      assert LastInfo(d, ps, info) == LastInfo(d, ps[1..], next);
      assert EntriesOf(d, ps) == more + EntriesOf(d, ps[1..]);
      AppendAssoc(entries, more, EntriesOf(d, ps[1..]));
    } else {
      assert entries + [] == entries;
    }
  }

  /** `RAENote.Article.create` (anki_notes.py:109-136): the single `header` gives the
      headword. */
  function ArticleOf(d: Html, a: nat): Result<Article>
    requires IsElement(d, a)
  {
    var header :- Find(d, a, "header", {}, true);
    var ps := FindAllOf(d, a, "p", {}, true);
    FoundElements(d, a, "p", {}, true);
    var read :- ParagraphsFrom(d, ps, "", []);
    Ok(Article(TextOf(d, header), read.0, read.1))
  }

  /** `RAENote.Article.create` (anki_notes.py:109-136). */
  method CreateArticle(d: Html, a: nat) returns (r: Result<Article>)
    requires IsElement(d, a)
    ensures r == ArticleOf(d, a)
  {
    var header :- Find(d, a, "header", {}, true);
    var paragraphs := FindAll(d, a, "p", {}, true);
    FoundElements(d, a, "p", {}, true);
    var info := "";
    var entries: seq<Entry> := [];
    var j := 0;
    while j < |paragraphs|
      invariant j <= |paragraphs|
      invariant ParagraphsFrom(d, paragraphs, "", []) == ParagraphsFrom(d, paragraphs[j..], info, entries)
    {
      var paragraph := paragraphs[j];
      assert paragraph in paragraphs;
      assert paragraphs[j..][0] == paragraph && paragraphs[j..][1..] == paragraphs[j + 1..];
      var c :- ClsOrNone(d, paragraph);
      if c.None? {
        if |TextOf(d, paragraph)| != 0 {
          return Fail(AssertionError);
        }
      } else {
        var cls := c.value;
        if |cls| == 0 {
          return Fail(IndexError);
        }
        if cls[0] == 'n' {
          info := TextOf(d, paragraph);
        } else if cls[0] == 'j' {
          var entry :- CreateEntry(d, paragraph);
          entries := entries + [entry];
        } else if cls[0] in {'k', 'm', 'l'} {
          return Fail(NotImplementedError(Name(d, paragraph)));
        } else {
          return Fail(NotImplementedError(cls));
        }
      }
      j := j + 1;
    }
    r := Ok(Article(TextOf(d, header), info, entries));
  }

  // ---------------------------------------------------------------------------
  // `RAENote.Article.format`

  function SynonymsItem(e: Entry): string {
    "<li>Sin.: " + Join(", ", e.synonyms) + "</li>"
  }

  function AntonymsItem(e: Entry): string {
    "<li>Ant.: " + Join(", ", e.antonyms) + "</li>"
  }

  /** The synonym and antonym block of anki_notes.py:94-102 as written: the antonym item
      is guarded by the synonyms being non-empty. */
  function SynAntAsWritten(e: Entry): (r: string)
    ensures r == "" <==> e.synonyms == [] && e.antonyms == []
    ensures r != "" ==> StartsWith(r, "<ul>") && EndsWith(r, "</ul>")
    ensures e.synonyms != [] ==>
      StartsWith(r, "<ul>" + SynonymsItem(e)) && EndsWith(r, AntonymsItem(e) + "</ul>")
    ensures e.synonyms == [] ==> r == "" || r == "<ul></ul>"
  {
    if e.synonyms != [] || e.antonyms != [] then
      "<ul>" + (if e.synonyms != [] then SynonymsItem(e) else "")
      + (if e.synonyms != [] then AntonymsItem(e) else "") + "</ul>"
    else ""
  }

  /** As written, an entry with antonyms and no synonyms gets an empty list, whatever
      its antonyms, and one with synonyms and no antonyms lists an empty antonym item. */
  lemma AntonymsLost(e: Entry)
    ensures e.synonyms == [] && e.antonyms != [] ==> SynAntAsWritten(e) == "<ul></ul>"
    ensures e.synonyms != [] && e.antonyms == [] ==>
      SynAntAsWritten(e) == "<ul>" + SynonymsItem(e) + "<li>Ant.: </li></ul>"
  {
  }

  /** Two entries that differ only in their antonyms format alike as written. */
  lemma AntonymsLostExample()
    ensures SynAntAsWritten(Entry("d", [], ["a"])) == SynAntAsWritten(Entry("d", [], ["b"]))
    ensures SynAntAsWritten(Entry("d", [], ["a"])) == "<ul></ul>"
  {
    AntonymsLost(Entry("d", [], ["a"]));
    AntonymsLost(Entry("d", [], ["b"]));
  }

  /** The block as evidently intended: each item guarded by its own list. */
  function SynAnt(e: Entry): string {
    if e.synonyms != [] || e.antonyms != [] then
      "<ul>" + (if e.synonyms != [] then SynonymsItem(e) else "")
      + (if e.antonyms != [] then AntonymsItem(e) else "") + "</ul>"
    else ""
  }

  /** The corrected block is what the code writes exactly when the entry has both lists
      or neither: an entry with only one of them is where the two differ. */
  lemma SynAntAgrees(e: Entry)
    ensures SynAnt(e) == SynAntAsWritten(e) <==> (e.synonyms == [] <==> e.antonyms == [])
  {
    if e.synonyms != [] && e.antonyms == [] {
      assert |SynAntAsWritten(e)| == |SynAnt(e)| + |"<li>Ant.: </li>"|;
    } else if e.synonyms == [] && e.antonyms != [] {
      assert |SynAnt(e)| == |"<ul></ul>"| + |AntonymsItem(e)|;
    }
  }

  /** The corrected block is empty exactly when both lists are; it opens with the synonym
      item when there are synonyms and closes with the antonym item when there are
      antonyms; with one list empty it holds the other list's item alone. */
  lemma SynAntItems(e: Entry)
    ensures SynAnt(e) == "" <==> e.synonyms == [] && e.antonyms == []
    ensures e.synonyms != [] ==> StartsWith(SynAnt(e), "<ul>" + SynonymsItem(e))
    ensures e.antonyms != [] ==> EndsWith(SynAnt(e), AntonymsItem(e) + "</ul>")
    ensures e.synonyms == [] && e.antonyms != [] ==> SynAnt(e) == "<ul>" + AntonymsItem(e) + "</ul>"
    ensures e.synonyms != [] && e.antonyms == [] ==> SynAnt(e) == "<ul>" + SynonymsItem(e) + "</ul>"
  {
    var s := SynAnt(e);
    if e.synonyms != [] {
      assert s == "<ul>" + SynonymsItem(e) + ((if e.antonyms != [] then AntonymsItem(e) else "") + "</ul>");
    }
    if e.antonyms != [] {
      var pre := "<ul>" + (if e.synonyms != [] then SynonymsItem(e) else "");
      assert s == pre + (AntonymsItem(e) + "</ul>");
    }
  }

  function EntryHtml(e: Entry): string {
    "<li>" + e.definition + SynAnt(e) + "</li>"
  }

  /** `RAENote.Article.format` (anki_notes.py:91-107): an ordered list with one item per
      entry, in order. */
  function ArticleHtml(a: Article): string {
    "<ol>" + Concat(a.entries, EntryHtml) + "</ol>"
  }

  /** The article's list opens and closes the list, and holds the item of each entry right
      after the items of the entries before it. */
  lemma ArticleItems(a: Article, k: nat)
    requires k < |a.entries|
    ensures StartsWith(ArticleHtml(a), "<ol>") && EndsWith(ArticleHtml(a), "</ol>")
    ensures var at := 4 + |Concat(a.entries[..k], EntryHtml)|;
      at + |EntryHtml(a.entries[k])| <= |ArticleHtml(a)|
      && ArticleHtml(a)[at..at + |EntryHtml(a.entries[k])|] == EntryHtml(a.entries[k])
  {
    var items := Concat(a.entries, EntryHtml);
    ConcatAt(a.entries, EntryHtml, k);
    var pre := Concat(a.entries[..k], EntryHtml);
    var item := EntryHtml(a.entries[k]);
    InnerSlice("<ol>", items, "</ol>", |pre|, |pre| + |item|);
  }

  /** The articles of a run of entries followed by another: the items of the first run,
      then those of the second. */
  lemma ArticleAppend(a: Article, more: seq<Entry>)
    ensures ArticleHtml(Article(a.headword, a.supplementaryInfo, a.entries + more))
      == "<ol>" + Concat(a.entries, EntryHtml) + Concat(more, EntryHtml) + "</ol>"
  {
    ConcatAppend(a.entries, more, EntryHtml);
  }

  /** The block the loop of anki_notes.py:93-103 builds for one entry, with the guard of
      line 99 corrected. */
  method FormatSynAnt(entry: Entry) returns (synAnt: string)
    ensures synAnt == SynAnt(entry)
  {
    synAnt := "";
    if |entry.synonyms| != 0 || |entry.antonyms| != 0 {
      if |entry.synonyms| != 0 {
        synAnt := synAnt + SynonymsItem(entry);
      }
      if |entry.antonyms| != 0 {
        synAnt := synAnt + AntonymsItem(entry);
      }
      synAnt := "<ul>" + synAnt + "</ul>";
    }
  }

  /** `RAENote.Article.format` (anki_notes.py:91-107), accumulating the items in a loop. */
  method FormatArticle(a: Article) returns (html: string)
    ensures html == ArticleHtml(a)
  {
    html := "<ol>";
    var j := 0;
    while j < |a.entries|
      invariant j <= |a.entries|
      invariant html == "<ol>" + Concat(a.entries[..j], EntryHtml)
    {
      var entry := a.entries[j];
      var synAnt := FormatSynAnt(entry);
      var item := "<li>" + entry.definition + synAnt + "</li>";
      assert item == EntryHtml(entry);
      ConcatPrefixSnoc(a.entries, EntryHtml, j);
      AppendAssoc("<ol>", Concat(a.entries[..j], EntryHtml), item);
      html := html + item;
      j := j + 1;
    }
    assert a.entries[..j] == a.entries;
    html := html + "</ol>";
  }

  // ---------------------------------------------------------------------------
  // `RAENote.format` and `RAENote.create`

  /** An article's list in a `div` (anki_notes.py:148). */
  function Div(a: Article): string {
    "<div>" + ArticleHtml(a) + "</div>"
  }

  /** Every article's list, each in a `div`, separated by `<br>` (anki_notes.py:148-149). */
  function Senses(arts: seq<Article>): string {
    Join("<br>", seq(|arts|, k requires 0 <= k < |arts| => Div(arts[k])))
  }

  /** The senses of one article are its list in a `div`; each further article adds `<br>`
      and its own. */
  lemma SensesJoined(arts: seq<Article>, more: Article)
    ensures Senses([more]) == Div(more)
    ensures |arts| > 0 ==> Senses(arts + [more]) == Senses(arts) + "<br>" + Div(more)
  {
    var divs := seq(|arts|, k requires 0 <= k < |arts| => Div(arts[k]));
    var all := arts + [more];
    assert seq(|[more]|, k requires 0 <= k < |[more]| => Div([more][k])) == [Div(more)];
    if |arts| > 0 {
      assert seq(|all|, k requires 0 <= k < |all| => Div(all[k])) == divs + [Div(more)];
      JoinSnoc("<br>", divs, Div(more));
    }
  }

  /** `RAENote.format` (anki_notes.py:144-155): exactly three fields: the headword of the
      first article linked to the page, its supplementary information, and the senses of
      every article. Without articles, indexing the first raises IndexError. */
  function NoteFields(n: RaeNote): (r: Result<map<string, string>>)
    ensures r.Ok? <==> |n.articles| > 0
    ensures r.Fail? ==> r.error == IndexError
    ensures r.Ok? ==> r.value.Keys == {LemmaField, SupplementaryField, SensesField}
    ensures r.Ok? ==> r.value[LemmaField] == "<a href=\"" + n.url + "\">" + n.articles[0].headword + "</a>"
    ensures r.Ok? ==> r.value[SupplementaryField] == n.articles[0].supplementaryInfo
    ensures r.Ok? ==> r.value[SensesField] == Senses(n.articles)
  {
    if |n.articles| == 0 then Fail(IndexError)
    else
      var main := n.articles[0];
      Ok(map[
        LemmaField := "<a href=\"" + n.url + "\">" + main.headword + "</a>",
        SupplementaryField := main.supplementaryInfo,
        SensesField := Senses(n.articles)])
  }

  /** `RAENote.Article.create` as a value to map over the `article` elements. */
  function ReadArticle(d: Html): (f: nat --> Result<Article>)
    ensures forall x: nat :: IsElement(d, x) ==> f.requires(x) && f(x) == ArticleOf(d, x)
  {
    (x: nat) requires IsElement(d, x) => ArticleOf(d, x)
  }

  /** `RAENote.create` (anki_notes.py:157-174) on the page `fetch` returns for an address:
      none when the page has no article. */
  function NoteOf(text: string, fetch: string -> string, parse: string -> Html): Result<Option<RaeNote>> {
    var url := DictionaryUrl + text;
    var d := parse(fetch(url));
    var xs := FindAllOf(d, 0, "article", {}, true);
    FoundElements(d, 0, "article", {}, true);
    if |xs| == 0 then Ok(None)
    else
      var arts :- MapAll(xs, ReadArticle(d), []);
      Ok(Some(RaeNote(url, arts)))
  }

  /** A note is made exactly when the page has articles, one per `article` element in
      order, and then its fields can be formatted. */
  lemma NoteArticles(text: string, fetch: string -> string, parse: string -> Html)
    ensures var d := parse(fetch(DictionaryUrl + text));
      var xs := FindAllOf(d, 0, "article", {}, true);
      && (NoteOf(text, fetch, parse) == Ok(None) <==> xs == [])
      && (NoteOf(text, fetch, parse).Fail? <==>
           exists k :: 0 <= k < |xs| && IsElement(d, xs[k]) && ArticleOf(d, xs[k]).Fail?)
      && (NoteOf(text, fetch, parse).Ok? && NoteOf(text, fetch, parse).value.Some? ==>
           var n := NoteOf(text, fetch, parse).value.value;
           && n.url == DictionaryUrl + text
           && |n.articles| == |xs| > 0
           && NoteFields(n).Ok?
           && forall k :: 0 <= k < |xs| ==> IsElement(d, xs[k]) && ArticleOf(d, xs[k]) == Ok(n.articles[k]))
  {
    var d := parse(fetch(DictionaryUrl + text));
    var xs := FindAllOf(d, 0, "article", {}, true);
    var f := ReadArticle(d);
    FoundElements(d, 0, "article", {}, true);
    forall k | 0 <= k < |xs|
      ensures IsElement(d, xs[k]) && f.requires(xs[k]) && f(xs[k]) == ArticleOf(d, xs[k])
    {
      assert xs[k] in xs;
    }
    MapAllValues(xs, f, []);
    var m := MapAll(xs, f, []);
    if xs != [] {
      assert NoteOf(text, fetch, parse) ==
        if m.Fail? then Fail(m.error) else Ok(Some(RaeNote(DictionaryUrl + text, m.value)));
      if m.Fail? {
        var k :| 0 <= k < |xs| && !f(xs[k]).Ok?;
        assert ArticleOf(d, xs[k]).Fail?;
      } else {
        forall k | 0 <= k < |xs|
          ensures ArticleOf(d, xs[k]) == Ok(m.value[k])
        {
          assert f(xs[k]) == Ok(m.value[k]);
        }
      }
    }
  }

  /** `RAENote.create` (anki_notes.py:157-174). */
  method CreateNote(text: string, fetch: string -> string, parse: string -> Html)
    returns (r: Result<Option<RaeNote>>)
    ensures r == NoteOf(text, fetch, parse)
  {
    var url := DictionaryUrl + text;
    var d := parse(fetch(url));
    var articles := FindAll(d, 0, "article", {}, true);
    FoundElements(d, 0, "article", {}, true);
    if |articles| == 0 {
      return Ok(None);
    }
    var arts: seq<Article> := [];
    var j := 0;
    while j < |articles|
      invariant j <= |articles|
      invariant MapAll(articles, ReadArticle(d), []) == MapAll(articles[j..], ReadArticle(d), arts)
    {
      assert articles[j] in articles;
      assert articles[j..][0] == articles[j] && articles[j..][1..] == articles[j + 1..];
      var article :- CreateArticle(d, articles[j]);
      arts := arts + [article];
      j := j + 1;
    }
    r := Ok(Some(RaeNote(url, arts)));
  }
}
