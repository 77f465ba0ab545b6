/** The reader's book archives (kobo.py:18-104): a cache of archive members, and the
    metadata and table of contents read from the package document `content.opf`. */
module KoboKepub {
  import opened Wrappers
  import opened Seqs
  import opened Web
  import opened KoboPaths

  newtype byte = x: int | 0 <= x < 256

  /** An archive's members by name: what a `ZipFile` would read. */
  type Archive = map<string, seq<byte>>

  /** The package document every book archive holds (kobo.py:66). */
  const PackageDocument := "content.opf"

  /** `KEPUB.Metadata` (kobo.py:20-32). */
  datatype Metadata = Metadata(
    title: Option<string>,
    author: Option<string>,
    publisher: Option<string>,
    tableOfContents: seq<string>)

  /** `KEPUB` (kobo.py:18-50): an opened book archive with a cache of the members read. */
  class Kepub {
    const file: string
    const volumeId: string
    const encoding: string
    /** The members of the archive at `file`. */
    const archive: Archive
    var zipCache: map<string, seq<byte>>
    /** The member names read from the archive, in order. */
    ghost var zipReads: seq<string>

    /** The cache holds exactly the members read so far, each with the archive's bytes,
        and no member was read from the archive twice. */
    ghost predicate Valid()
      reads this
    {
      && (forall n :: n in zipCache ==> n in archive && zipCache[n] == archive[n])
      && (forall n :: n in zipCache <==> n in zipReads)
      && NoDuplicates(zipReads)
    }

    /** kobo.py:34-40, with the archive already opened (see `Open`). */
    constructor (file: string, volumeId: string, encoding: string, archive: Archive)
      ensures this.file == file && this.volumeId == volumeId && this.encoding == encoding
      ensures this.archive == archive
      ensures zipCache == map[] && zipReads == []
      ensures Valid()
    {
      this.file := file;
      this.volumeId := volumeId;
      this.encoding := encoding;
      this.archive := archive;
      zipCache := map[];
      zipReads := [];
    }

    /** `KEPUB.read` (kobo.py:42-46): the member's bytes, read from the archive only the
        first time; a member the archive lacks raises KeyError. */
    method Read(name: string) returns (r: Result<seq<byte>>)
      requires Valid()
      modifies this
      ensures Valid()
      ensures r.Ok? <==> name in archive
      ensures r.Ok? ==> r.value == archive[name]
      ensures r.Fail? ==> r.error == KeyError
      ensures name in old(zipCache) || name !in archive ==>
        zipCache == old(zipCache) && zipReads == old(zipReads)
      ensures name !in old(zipCache) && name in archive ==>
        zipCache == old(zipCache)[name := archive[name]] && zipReads == old(zipReads) + [name]
    {
      if name !in zipCache {
        if name !in archive {
          return Fail(KeyError);
        }
        zipCache := zipCache[name := archive[name]];
        zipReads := zipReads + [name];
      }
      r := Ok(zipCache[name]);
    }

    /** `KEPUB.read_str` (kobo.py:48-50): the member decoded with the book's encoding. */
    method ReadStr(name: string, decode: (string, seq<byte>) -> string) returns (r: Result<string>)
      requires Valid()
      modifies this
      ensures Valid()
      ensures r.Ok? <==> name in archive
      ensures r.Ok? ==> r.value == decode(encoding, archive[name])
      ensures r.Fail? ==> r.error == KeyError
      ensures name in old(zipCache) || name !in archive ==>
        zipCache == old(zipCache) && zipReads == old(zipReads)
      ensures name !in old(zipCache) && name in archive ==>
        zipCache == old(zipCache)[name := archive[name]] && zipReads == old(zipReads) + [name]
    {
      var bytes :- Read(name);
      r := Ok(decode(encoding, bytes));
    }

    /** `KEPUB.open` (kobo.py:61-76) on the volume `fs` (archives by path): the book's
        archive, with the package document read, and the metadata parsed from it. */
    static method Open(os: Platform, volumeId: string, encoding: string, fs: map<string, Archive>,
                       decode: (string, seq<byte>) -> string, parse: string -> Html)
      returns (r: Result<(Kepub, Metadata)>)
      ensures r.Ok? <==> OpenedMetadata(os, volumeId, encoding, fs, decode, parse).Ok?
      ensures r.Fail? ==> r.error == OpenedMetadata(os, volumeId, encoding, fs, decode, parse).error
      ensures r.Ok? ==> r.value.1 == OpenedMetadata(os, volumeId, encoding, fs, decode, parse).value
      ensures r.Ok? ==> var k := r.value.0;
        && fresh(k) && k.Valid()
        && k.file == VolumeIdFile(os, volumeId).value && k.volumeId == volumeId && k.encoding == encoding
        && k.archive == fs[k.file]
        && k.zipCache == map[PackageDocument := k.archive[PackageDocument]]
    {
      var file :- VolumeIdFile(os, volumeId);
      if file !in fs {
        return Fail(FileNotFoundError);
      }
      var kepub := new Kepub(file, volumeId, encoding, fs[file]);
      var content :- kepub.ReadStr(PackageDocument, decode);
      var doc := parse(content);
      var metadata :- MetadataOf(doc);
      var toc := TableOfContents(doc);
      if toc.Fail? {
        return Fail(toc.error);
      }
      r := Ok((kepub, metadata.(tableOfContents := toc.value)));
    }
  }

  /** What `KEPUB.open` computes: the metadata of the book the volume id names. */
  function OpenedMetadata(os: Platform, volumeId: string, encoding: string, fs: map<string, Archive>,
                          decode: (string, seq<byte>) -> string, parse: string -> Html): Result<Metadata>
  {
    var file :- VolumeIdFile(os, volumeId);
    if file !in fs then Fail(FileNotFoundError)
    else if PackageDocument !in fs[file] then Fail(KeyError)
    else
      var doc := parse(decode(encoding, fs[file][PackageDocument]));
      var metadata :- MetadataOf(doc);
      var toc :- TableOfContentsOf(doc);
      Ok(metadata.(tableOfContents := toc))
  }

  /** The title, author and publisher of a package document (kobo.py:68-72), with
      the table of contents still empty. */
  function MetadataOf(doc: Html): Result<Metadata> {
    var meta :- Find(doc, 0, "metadata", {}, true);
    var title :- MetadataField(doc, meta, "dc:title");
    var author :- MetadataField(doc, meta, "dc:creator");
    var publisher :- MetadataField(doc, meta, "dc:publisher");
    Ok(Metadata(title, author, publisher, []))
  }

  /** `KEPUB._metadata` (kobo.py:78-84): the text of the one element with that name, or
      None when there is none. */
  function MetadataField(d: Html, metadata: nat, name: string): (r: Result<Option<string>>)
    requires metadata < |d.nodes|
    ensures r == Ok(None) <==> FindAllOf(d, metadata, name, {}, true) == []
    ensures forall t :: r == Ok(Some(t)) <==>
      exists x: nat :: FindAllOf(d, metadata, name, {}, true) == [x] && IsElement(d, x) && t == TextOf(d, x)
    ensures r.Fail? <==> |FindAllOf(d, metadata, name, {}, true)| > 1
  {
    var dc :- FindOrNone(d, metadata, name);
    if dc.None? then Ok(None) else Ok(Some(TextOf(d, dc.value)))
  }

  // ---------------------------------------------------------------------------
  // Table of contents

  /** The attribute of an element, when it has it. */
  function Attr(d: Html, x: nat, attr: string): string
    requires IsElement(d, x) && attr in d.nodes[x].kind.attrs
  {
    d.nodes[x].kind.attrs[attr]
  }

  predicate HasAttr(d: Html, x: nat, attr: string) {
    IsElement(d, x) && attr in d.nodes[x].kind.attrs
  }

  /** The manifest dictionary of kobo.py:88-94: each `item` in turn maps its `id` to its
      `href` in `acc`; an item without either raises KeyError. */
  function ManifestFrom(d: Html, items: seq<nat>, acc: map<string, string>): Result<map<string, string>>
    requires forall x :: x in items ==> IsElement(d, x)
    decreases |items|
  {
    if items == [] then Ok(acc)
    else
      var id :- GetAttr(d, items[0], "id");
      var href :- GetAttr(d, items[0], "href");
      ManifestFrom(d, items[1..], acc[id := href])
  }

  /** The table of contents of kobo.py:96-102: for each `itemref` in spine order, the
      href its `idref` names in the manifest, skipping unknown ids; an itemref without
      an `idref` raises KeyError. */
  function SpineFrom(d: Html, manifest: map<string, string>, refs: seq<nat>): Result<seq<string>>
    requires forall x :: x in refs ==> IsElement(d, x)
    decreases |refs|
  {
    if refs == [] then Ok([])
    else
      var id :- GetAttr(d, refs[0], "idref");
      var rest :- SpineFrom(d, manifest, refs[1..]);
      Ok((if id in manifest then [manifest[id]] else []) + rest)
  }

  /** `KEPUB._table_of_contents` (kobo.py:86-104), as a function of the package document. */
  function TableOfContentsOf(d: Html): Result<seq<string>> {
    var manifest :- Find(d, 0, "manifest", {}, true);
    FindAllOfFacts(d, manifest, "item", {}, true);
    var items := FindAllOf(d, manifest, "item", {}, true);
    var m :- ManifestFrom(d, items, map[]);
    var spine :- Find(d, 0, "spine", {}, true);
    FindAllOfFacts(d, spine, "itemref", {}, true);
    SpineFrom(d, m, FindAllOf(d, spine, "itemref", {}, true))
  }

  /** `done` prepended to the outcome of the rest of a loop. */
  function Prepend(done: seq<string>, rest: Result<seq<string>>): Result<seq<string>> {
    if rest.Fail? then rest else Ok(done + rest.value)
  }

  /** `KEPUB._table_of_contents` (kobo.py:86-104): fills the manifest dictionary, then
      walks the spine. */
  method TableOfContents(d: Html) returns (r: Result<seq<string>>)
    ensures r == TableOfContentsOf(d)
  {
    var manifest :- Find(d, 0, "manifest", {}, true);
    var items := FindAll(d, manifest, "item", {}, true);
    FindAllOfFacts(d, manifest, "item", {}, true);
    var manifestDict :- FillManifest(d, items);
    var spine :- Find(d, 0, "spine", {}, true);
    var refs := FindAll(d, spine, "itemref", {}, true);
    FindAllOfFacts(d, spine, "itemref", {}, true);
    r := WalkSpine(d, manifestDict, refs);
  }

  /** The manifest loop of kobo.py:90-94. */
  method FillManifest(d: Html, items: seq<nat>) returns (r: Result<map<string, string>>)
    requires forall x :: x in items ==> IsElement(d, x)
    ensures r == ManifestFrom(d, items, map[])
  {
    var manifestDict: map<string, string> := map[];
    var j := 0;
    while j < |items|
      invariant j <= |items|
      invariant ManifestFrom(d, items, map[]) == ManifestFrom(d, items[j..], manifestDict)
    {
      assert items[j] in items;
      var id :- GetAttr(d, items[j], "id");
      var href :- GetAttr(d, items[j], "href");
      manifestDict := manifestDict[id := href];
      assert items[j..][1..] == items[j + 1..];
      j := j + 1;
    }
    r := Ok(manifestDict);
  }

  /** The spine loop of kobo.py:97-102. */
  method WalkSpine(d: Html, manifest: map<string, string>, refs: seq<nat>) returns (r: Result<seq<string>>)
    requires forall x :: x in refs ==> IsElement(d, x)
    ensures r == SpineFrom(d, manifest, refs)
  {
    var toc: seq<string> := [];
    var j := 0;
    assert refs[0..] == refs;
    PrependStep([], [], SpineFrom(d, manifest, refs));
    while j < |refs|
      invariant j <= |refs|
      invariant SpineFrom(d, manifest, refs) == Prepend(toc, SpineFrom(d, manifest, refs[j..]))
    {
      assert refs[j] in refs && refs[j..][0] == refs[j];
      var id :- GetAttr(d, refs[j], "idref");
      assert refs[j..][1..] == refs[j + 1..];
      var found := if id in manifest then [manifest[id]] else [];
      PrependStep(toc, found, SpineFrom(d, manifest, refs[j + 1..]));
      toc := toc + found;
      j := j + 1;
    }
    assert refs[j..] == [] && toc + [] == toc;
    r := Ok(toc);
  }

  lemma PrependStep(done: seq<string>, found: seq<string>, rest: Result<seq<string>>)
    ensures Prepend(done, if rest.Fail? then rest else Ok(found + rest.value)) == Prepend(done + found, rest)
    ensures Prepend([], rest) == rest
  {
    if rest.Ok? {
      assert done + (found + rest.value) == done + found + rest.value;
      assert [] + rest.value == rest.value;
    }
  }

  /** Every item's id and href of a prefix of the items; the manifest is built exactly
      when every item has both. */
  lemma {:induction false} ManifestSucceeds(d: Html, items: seq<nat>, acc: map<string, string>)
    requires forall x :: x in items ==> IsElement(d, x)
    ensures ManifestFrom(d, items, acc).Ok? <==>
      forall k :: 0 <= k < |items| ==> HasAttr(d, items[k], "id") && HasAttr(d, items[k], "href")
    decreases |items|
  {
    if items != [] {
      assert forall y :: y in items[1..] ==> y in items;
      assert forall k :: 0 < k < |items| ==> items[k] == items[1..][k - 1];
      var x := items[0];
      if HasAttr(d, x, "id") && HasAttr(d, x, "href") {
        ManifestSucceeds(d, items[1..], acc[Attr(d, x, "id") := Attr(d, x, "href")]);
      }
    }
  }

  /** The manifest maps each id to the href of the last item with that id, keeps what
      `acc` held for ids no item has, and holds nothing else. */
  lemma ManifestLastWins(d: Html, items: seq<nat>, acc: map<string, string>)
    requires forall x :: x in items ==> IsElement(d, x)
    requires ManifestFrom(d, items, acc).Ok?
    ensures var m := ManifestFrom(d, items, acc).value;
      && (forall k :: 0 <= k < |items| ==> HasAttr(d, items[k], "id") && HasAttr(d, items[k], "href"))
      && (forall key :: key in m <==> key in acc || IdOfSome(d, items, key))
      && (forall k :: 0 <= k < |items| ==> Attr(d, items[k], "id") in m)
      && (forall k :: 0 <= k < |items| && LastWithId(d, items, k) ==> m[Attr(d, items[k], "id")] == Attr(d, items[k], "href"))
      && (forall key :: key in acc && !IdOfSome(d, items, key) ==> m[key] == acc[key])
  {
    ManifestKeys(d, items, acc);
    ManifestHrefs(d, items, acc);
    ManifestKept(d, items, acc);
    var m := ManifestFrom(d, items, acc).value;
    forall k | 0 <= k < |items| ensures Attr(d, items[k], "id") in m {
      assert IdOfSome(d, items, Attr(d, items[k], "id"));
    }
  }

  /** The ids of the manifest are those of `acc` and of the items. */
  lemma {:induction false} ManifestKeys(d: Html, items: seq<nat>, acc: map<string, string>)
    requires forall x :: x in items ==> IsElement(d, x)
    requires ManifestFrom(d, items, acc).Ok?
    ensures forall k :: 0 <= k < |items| ==> HasAttr(d, items[k], "id") && HasAttr(d, items[k], "href")
    ensures forall key :: key in ManifestFrom(d, items, acc).value <==> key in acc || IdOfSome(d, items, key)
    decreases |items|
  {
    ManifestSucceeds(d, items, acc);
    if items != [] {
      var x, rest := items[0], items[1..];
      assert forall y :: y in rest ==> y in items;
      assert HasAttr(d, x, "id") && HasAttr(d, x, "href");
      var acc' := acc[Attr(d, x, "id") := Attr(d, x, "href")];
      assert ManifestFrom(d, items, acc) == ManifestFrom(d, rest, acc');
      ManifestKeys(d, rest, acc');
      IdOfSomeCons(d, items);
    }
  }

  /** The href the manifest gives the id of an item that is the last with it is that
      item's. */
  lemma {:induction false} ManifestHrefs(d: Html, items: seq<nat>, acc: map<string, string>)
    requires forall x :: x in items ==> IsElement(d, x)
    requires ManifestFrom(d, items, acc).Ok?
    ensures forall k :: 0 <= k < |items| ==> HasAttr(d, items[k], "id") && HasAttr(d, items[k], "href")
    ensures var m := ManifestFrom(d, items, acc).value;
      forall k :: 0 <= k < |items| && LastWithId(d, items, k) ==>
        && HasAttr(d, items[k], "href") && Attr(d, items[k], "id") in m
        && m[Attr(d, items[k], "id")] == Attr(d, items[k], "href")
    decreases |items|
  {
    ManifestSucceeds(d, items, acc);
    if items != [] {
      var x, rest := items[0], items[1..];
      assert forall y :: y in rest ==> y in items;
      assert HasAttr(d, x, "id") && HasAttr(d, x, "href");
      var id, href := Attr(d, x, "id"), Attr(d, x, "href");
      var acc' := acc[id := href];
      assert ManifestFrom(d, items, acc) == ManifestFrom(d, rest, acc');
      ManifestHrefs(d, rest, acc');
      ManifestKept(d, rest, acc');
      LastWithIdCons(d, items);
      var m := ManifestFrom(d, rest, acc').value;
      forall k | 0 <= k < |items| && LastWithId(d, items, k)
        ensures HasAttr(d, items[k], "href") && Attr(d, items[k], "id") in m
          && m[Attr(d, items[k], "id")] == Attr(d, items[k], "href")
      {
        if k > 0 {
          assert items[k] == rest[k - 1] && LastWithId(d, rest, k - 1);
        } else {
          assert !IdOfSome(d, rest, id);
        }
      }
    }
  }

  /** `acc`'s entries for ids no item has are kept. */
  lemma {:induction false} ManifestKept(d: Html, items: seq<nat>, acc: map<string, string>)
    requires forall x :: x in items ==> IsElement(d, x)
    requires ManifestFrom(d, items, acc).Ok?
    ensures var m := ManifestFrom(d, items, acc).value;
      forall key :: key in acc && !IdOfSome(d, items, key) ==> key in m && m[key] == acc[key]
    decreases |items|
  {
    ManifestSucceeds(d, items, acc);
    if items != [] {
      var x, rest := items[0], items[1..];
      assert forall y :: y in rest ==> y in items;
      assert HasAttr(d, x, "id") && HasAttr(d, x, "href");
      var id, href := Attr(d, x, "id"), Attr(d, x, "href");
      var acc' := acc[id := href];
      assert ManifestFrom(d, items, acc) == ManifestFrom(d, rest, acc');
      ManifestKept(d, rest, acc');
      IdOfSomeCons(d, items);
      var m := ManifestFrom(d, rest, acc').value;
      forall key | key in acc && !IdOfSome(d, items, key) ensures key in m && m[key] == acc[key] {
        assert key != id && !IdOfSome(d, rest, key);
      }
    }
  }

  /** An id is had by some item exactly when the first has it or some later one does. */
  lemma IdOfSomeCons(d: Html, items: seq<nat>)
    requires |items| > 0 && HasAttr(d, items[0], "id")
    ensures forall key :: IdOfSome(d, items, key) <==> key == Attr(d, items[0], "id") || IdOfSome(d, items[1..], key)
  {
    var rest := items[1..];
    forall key | IdOfSome(d, rest, key) ensures IdOfSome(d, items, key) {
      var k :| 0 <= k < |rest| && HasAttr(d, rest[k], "id") && Attr(d, rest[k], "id") == key;
      assert items[k + 1] == rest[k];
    }
    forall key | IdOfSome(d, items, key) && key != Attr(d, items[0], "id") ensures IdOfSome(d, rest, key) {
      var k :| 0 <= k < |items| && HasAttr(d, items[k], "id") && Attr(d, items[k], "id") == key;
      assert rest[k - 1] == items[k];
    }
  }

  /** An item after the first is the last with its id among all the items exactly when it
      is among the later ones; the first is the last with its id when no later item has
      that id. */
  lemma LastWithIdCons(d: Html, items: seq<nat>)
    requires |items| > 0 && forall k :: 0 <= k < |items| ==> HasAttr(d, items[k], "id")
    ensures forall k :: 0 < k < |items| ==> (LastWithId(d, items, k) <==> LastWithId(d, items[1..], k - 1))
    ensures LastWithId(d, items, 0) ==> !IdOfSome(d, items[1..], Attr(d, items[0], "id"))
  {
    var rest := items[1..];
    assert forall j :: 0 <= j < |rest| ==> rest[j] == items[j + 1];
  }

  /** Some item has this id. */
  predicate IdOfSome(d: Html, items: seq<nat>, key: string) {
    exists k :: 0 <= k < |items| && HasAttr(d, items[k], "id") && Attr(d, items[k], "id") == key
  }

  /** No later item has the id of item `k`. */
  predicate LastWithId(d: Html, items: seq<nat>, k: nat)
    requires k < |items| && HasAttr(d, items[k], "id")
  {
    forall j :: k < j < |items| && HasAttr(d, items[j], "id") ==> Attr(d, items[j], "id") != Attr(d, items[k], "id")
  }

  /** The table of contents is never longer than the spine. */
  lemma {:induction false} SpineShorter(d: Html, manifest: map<string, string>, refs: seq<nat>)
    requires forall x :: x in refs ==> IsElement(d, x)
    ensures SpineFrom(d, manifest, refs).Ok? ==> |SpineFrom(d, manifest, refs).value| <= |refs|
    decreases |refs|
  {
    if refs != [] {
      assert forall y :: y in refs[1..] ==> y in refs;
      SpineShorter(d, manifest, refs[1..]);
    }
  }

  /** An itemref whose idref the manifest knows. */
  predicate IsKnown(d: Html, manifest: map<string, string>, x: nat) {
    HasAttr(d, x, "idref") && Attr(d, x, "idref") in manifest
  }

  function Known(d: Html, manifest: map<string, string>): nat -> bool {
    (x: nat) => IsKnown(d, manifest, x)
  }

  /** Itemrefs whose idref the manifest does not know contribute nothing. */
  lemma {:induction false} SpineSkipsUnknown(d: Html, manifest: map<string, string>, refs: seq<nat>)
    requires forall x :: x in refs ==> IsElement(d, x) && HasAttr(d, x, "idref")
    ensures forall x :: x in Filter(refs, Known(d, manifest)) ==> x in refs
    ensures SpineFrom(d, manifest, refs) == SpineFrom(d, manifest, Filter(refs, Known(d, manifest)))
    decreases |refs|
  {
    FilterMembers(refs, Known(d, manifest));
    if refs != [] {
      var rest := refs[1..];
      assert forall y :: y in rest ==> y in refs;
      SpineSkipsUnknown(d, manifest, rest);
      var f := Filter(refs, Known(d, manifest));
      var g := Filter(rest, Known(d, manifest));
      assert refs[0] in refs;
      var id := Attr(d, refs[0], "idref");
      assert GetAttr(d, refs[0], "idref") == Ok(id);
      var t := SpineFrom(d, manifest, rest);
      if IsKnown(d, manifest, refs[0]) {
        assert f == [refs[0]] + g;
        assert f[0] == refs[0] && f[1..] == g;
        assert SpineFrom(d, manifest, f) == if t.Fail? then t else Ok([manifest[id]] + t.value);
      } else {
        assert f == g;
        assert SpineFrom(d, manifest, refs) == t by {
          if t.Ok? {
            assert [] + t.value == t.value;
          }
        }
      }
    }
  }

  /** When every idref is known, the table of contents is the spine read through the manifest. */
  lemma {:induction false} SpineAllKnown(d: Html, manifest: map<string, string>, refs: seq<nat>)
    requires forall x :: x in refs ==> IsElement(d, x) && IsKnown(d, manifest, x)
    ensures SpineFrom(d, manifest, refs).Ok?
    ensures |SpineFrom(d, manifest, refs).value| == |refs|
    ensures forall k :: 0 <= k < |refs| ==>
      IsKnown(d, manifest, refs[k]) && SpineFrom(d, manifest, refs).value[k] == manifest[Attr(d, refs[k], "idref")]
    decreases |refs|
  {
    if refs != [] {
      assert refs[0] in refs;
      assert forall y :: y in refs[1..] ==> y in refs;
      SpineAllKnown(d, manifest, refs[1..]);
      assert forall k :: 0 < k < |refs| ==> refs[k] == refs[1..][k - 1];
    }
  }
}
