/** The device's position references (kobo.py): content ids, volume ids and the
    container paths of bookmarks, and the mapping of device paths to the mounted volume. */
module KoboPaths {
  import opened Wrappers
  import opened Strings
  import opened Seqs

  /** The mount point of the reader (kobo.py:14). */
  const Volume := "E:"

  /** The prefix of every content id (kobo.py:116). */
  const OnboardPrefix := "/mnt/onboard/"

  /** The prefix of every volume id (kobo.py:377). */
  const VolumeIdPrefix := "file:///mnt/onboard/"

  /** The suffix that marks a Kobo EPUB (kobo.py:54). */
  const KepubSuffix := ".kepub.epub"

  /** `os.name` (kobo.py:391): the platform decides the path separator. */
  datatype Platform = Posix | Windows

  /** `_format_path` (kobo.py:388-396): the device-relative path under the volume
      root; on Windows each `/` of the device path becomes a `\`. */
  function FormatPath(os: Platform, rel: string): string {
    match os
    case Posix => Volume + "/" + rel
    case Windows => Volume + "\\" + Join("\\", Split(rel, '/'))
  }

  /** The formatted path is the volume root, a separator, and the device path with
      every `/` turned into the platform's separator. */
  lemma FormatPathShape(os: Platform, rel: string)
    ensures os.Posix? ==> FormatPath(os, rel) == Volume + "/" + ReplaceChar(rel, '/', "/")
    ensures os.Windows? ==> FormatPath(os, rel) == Volume + "\\" + ReplaceChar(rel, '/', "\\")
  {
    JoinSplitReplaces(rel, '/', "\\");
    ReplaceSameChar(rel, '/');
  }

  lemma {:induction false} ReplaceSameChar(s: string, c: char)
    ensures ReplaceChar(s, c, [c]) == s
  {
    if s != [] {
      ReplaceSameChar(s[1..], c);
      assert s == [s[0]] + s[1..];
    }
  }

  /** A one-character replacement keeps the length and changes only the replaced positions. */
  lemma {:induction false} ReplaceCharPointwise(s: string, c: char, r: char)
    ensures |ReplaceChar(s, c, [r])| == |s|
    ensures forall k :: 0 <= k < |s| ==> ReplaceChar(s, c, [r])[k] == if s[k] == c then r else s[k]
  {
    if s != [] {
      ReplaceCharPointwise(s[1..], c, r);
    }
  }

  /** Distinct device paths map to distinct paths on the volume (when the device path
      holds no `\`, which the Windows mapping would confuse with `/`). */
  lemma FormatPathInjective(os: Platform, a: string, b: string)
    requires os.Windows? ==> '\\' !in a && '\\' !in b
    requires FormatPath(os, a) == FormatPath(os, b)
    ensures a == b
  {
    var sep := if os.Posix? then '/' else '\\';
    FormatPathShape(os, a);
    FormatPathShape(os, b);
    var ra, rb := ReplaceChar(a, '/', [sep]), ReplaceChar(b, '/', [sep]);
    assert FormatPath(os, a) == Volume + [sep] + ra;
    assert FormatPath(os, b) == Volume + [sep] + rb;
    assert ra == FormatPath(os, a)[|Volume| + 1..];
    assert rb == FormatPath(os, b)[|Volume| + 1..];
    ReplaceCharPointwise(a, '/', sep);
    ReplaceCharPointwise(b, '/', sep);
    assert |a| == |b|;
    forall k | 0 <= k < |a| ensures a[k] == b[k] {
      assert ra[k] == rb[k];
    }
  }

  // ---------------------------------------------------------------------------
  // Content ids

  /** `ContentID` (kobo.py:107-112): the book file, the member inside it, and the
      optional element id. */
  datatype ContentId = ContentId(file: string, xhtml: string, element: Option<string>)

  /** "!!" starts at position `k` of `s`. */
  predicate BangAt(s: string, k: nat) {
    k + 1 < |s| && s[k] == '!' && s[k + 1] == '!'
  }

  predicate NoDoubleBang(s: string) {
    forall k: nat | k < |s| :: !BangAt(s, k)
  }

  /** The last "!!" that ends within the first `n` characters of `s`. */
  function LastDoubleBang(s: string, n: nat): (r: Option<nat>)
    requires n <= |s|
    ensures r.Some? ==> r.value + 2 <= n && BangAt(s, r.value)
    ensures forall k: nat :: k + 2 <= n && BangAt(s, k) ==> r.Some? && k <= r.value
    decreases n
  {
    if n < 2 then None
    else if BangAt(s, n - 2) then Some(n - 2)
    else LastDoubleBang(s, n - 1)
  }

  /** Occurrences of "!!" in `b` are those of `a + b` past `a`. */
  lemma BangShift(a: string, b: string, k: nat)
    ensures BangAt(b, k) <==> BangAt(a + b, |a| + k)
  {
    if k + 1 < |b| {
      assert (a + b)[|a| + k] == b[k] && (a + b)[|a| + k + 1] == b[k + 1];
    }
  }

  /** The lazy member group and the optional element group of the content-id pattern:
      the member runs up to the first `#`, and what follows that `#` is the element. */
  function SplitAtHash(tail: string): (r: (string, Option<string>))
    ensures '#' !in r.0
    ensures r.1.None? <==> '#' !in tail
    ensures tail == ContentIdTail(r.0, r.1)
  {
    if '#' !in tail then (tail, None)
    else
      var k := IndexOfChar(tail, '#');
      assert tail == tail[..k] + "#" + tail[k + 1..];
      (tail[..k], Some(tail[k + 1..]))
  }

  /** What follows the "!!" of a content id: the member, then `#` and the element id
      when there is one. */
  function ContentIdTail(xhtml: string, element: Option<string>): string {
    if element.Some? then xhtml + "#" + element.value else xhtml
  }

  /** A content id as the device writes it. */
  function ContentIdText(rel: string, xhtml: string, element: Option<string>): string {
    OnboardPrefix + (rel + "!!" + ContentIdTail(xhtml, element))
  }

  /** What the pattern of `ContentID.parse` reads after the "/mnt/onboard/" prefix. */
  function ParseContentIdBody(os: Platform, rest: string): (r: Result<ContentId>)
    ensures r.Fail? <==> NoDoubleBang(rest)
  {
    match LastDoubleBang(rest, |rest|)
    case None =>
      assert forall k: nat | k < |rest| :: BangAt(rest, k) ==> k + 2 <= |rest|;
      Fail(AssertionError)
    case Some(i) =>
      var parts := SplitAtHash(rest[i + 2..]);
      Ok(ContentId(FormatPath(os, rest[..i]), parts.0, parts.1))
  }

  /** `ContentID.parse` (kobo.py:114-126), on the platform `os`: the file part runs up to
      the last "!!" (the greedy group), the member up to the first `#` after it (the
      lazy group), and the element is the rest, if there is a `#`. */
  function ParseContentId(os: Platform, contentId: string): (r: Result<ContentId>)
    ensures r.Fail? <==>
      RegexLine(contentId).None? || !StartsWith(RegexLine(contentId).value, OnboardPrefix)
      || NoDoubleBang(RegexLine(contentId).value[|OnboardPrefix|..])
  {
    var line := RegexLine(contentId);
    if line.None? || !StartsWith(line.value, OnboardPrefix) then Fail(AssertionError)
    else ParseContentIdBody(os, line.value[|OnboardPrefix|..])
  }

  /** Writing "!!" between rel and tail is ending rel and starting tail with "!". */
  lemma BangSeam(rel: string, tail: string)
    ensures rel + "!!" + tail == (rel + "!") + ("!" + tail)
    ensures |rel + "!!" + tail| == |rel| + 2 + |tail|
  {
    assert "!!" == "!" + "!";
  }

  /** When a ends and b starts with "!" and b holds no "!!", the last "!!" of a + b is
      the one across the seam. */
  lemma LastBangAt(a: string, b: string)
    requires |a| > 0 && a[|a| - 1] == '!' && |b| > 0 && b[0] == '!'
    requires NoDoubleBang(b)
    ensures LastDoubleBang(a + b, |a + b|) == Some(|a| - 1)
  {
    assert (a + b)[|a| - 1] == a[|a| - 1] && (a + b)[|a|] == b[0];
    NoBangPast(a, b);
    LastDoubleBangIs(a + b, |a + b|, |a| - 1);
  }

  /** When b holds no "!!", none starts in a + b at or past a. */
  lemma NoBangPast(a: string, b: string)
    requires NoDoubleBang(b)
    ensures forall k: nat :: |a| <= k ==> !BangAt(a + b, k)
  {
    forall k: nat | |a| <= k ensures !BangAt(a + b, k) {
      BangShift(a, b, k - |a|);
    }
  }

  /** A "!!" with none after it, before n, is the last one before n. */
  lemma LastDoubleBangIs(s: string, n: nat, i: nat)
    requires n <= |s| && i + 2 <= n && BangAt(s, i)
    requires forall k: nat :: i < k ==> !BangAt(s, k)
    ensures LastDoubleBang(s, n) == Some(i)
  {
    var r := LastDoubleBang(s, n);
    assert r.Some? && i <= r.value && BangAt(s, r.value);
  }

  /** The body rel + "!!" + tail is cut at the written "!!" when "!" + tail has none. */
  lemma BodyRoundTrip(os: Platform, rel: string, tail: string)
    requires NoDoubleBang("!" + tail)
    ensures ParseContentIdBody(os, rel + "!!" + tail)
         == Ok(ContentId(FormatPath(os, rel), SplitAtHash(tail).0, SplitAtHash(tail).1))
  {
    var rest := rel + "!!" + tail;
    BangSeam(rel, tail);
    LastBangAt(rel + "!", "!" + tail);
    assert rest[..|rel|] == rel && rest[|rel| + 2..] == tail;
  }

  /** The member holds no `#`, so the first `#` of the tail opens the element. */
  lemma SplitTail(xhtml: string, element: Option<string>)
    requires '#' !in xhtml
    ensures SplitAtHash(ContentIdTail(xhtml, element)) == (xhtml, element)
  {
    var tail := ContentIdTail(xhtml, element);
    if element.Some? {
      assert tail[|xhtml|] == '#';
      assert forall j :: 0 <= j < |xhtml| ==> tail[j] == xhtml[j];
      var k := IndexOfChar(tail, '#');
      assert k == |xhtml|;
      assert tail[..k] == xhtml;
      assert tail[k + 1..] == element.value;
    }
  }

  /** Reading `p + body` as a line that starts with `p`. */
  lemma LineWithPrefix(p: string, body: string)
    requires '\n' !in p && '\n' !in body
    ensures RegexLine(p + body) == Some(p + body)
    ensures StartsWith(p + body, p) && (p + body)[|p|..] == body
  {
    assert (p + body)[..|p|] == p;
  }

  /** A content id written by the device parses back into its parts, when the member has
      no `#`, "!!" occurs neither in the member (nor right after the "!!") nor in the
      element, and no part holds a newline. */
  lemma ContentIdRoundTrip(os: Platform, rel: string, xhtml: string, element: Option<string>)
    requires '\n' !in rel && '\n' !in ContentIdTail(xhtml, element)
    requires '#' !in xhtml
    requires NoDoubleBang("!" + ContentIdTail(xhtml, element))
    ensures ParseContentId(os, ContentIdText(rel, xhtml, element))
         == Ok(ContentId(FormatPath(os, rel), xhtml, element))
  {
    var tail := ContentIdTail(xhtml, element);
    var body := rel + "!!" + tail;
    assert '\n' !in body;
    LineWithPrefix(OnboardPrefix, body);
    BodyRoundTrip(os, rel, tail);
    SplitTail(xhtml, element);
  }

  /** Conversely, whatever parses is a content id the device could have written from the
      parsed parts, with the "!!" it was cut at the last one. */
  lemma ContentIdParsed(os: Platform, s: string)
    requires ParseContentId(os, s).Ok?
    ensures var c := ParseContentId(os, s).value;
      exists rel :: c.file == FormatPath(os, rel)
        && RegexLine(s) == Some(ContentIdText(rel, c.xhtml, c.element))
        && NoDoubleBang("!" + ContentIdTail(c.xhtml, c.element))
        && '#' !in c.xhtml
  {
    var line := RegexLine(s).value;
    var rest := line[|OnboardPrefix|..];
    assert line == OnboardPrefix + rest;
    BodyParsed(os, rest);
  }

  /** The body analogue of `ContentIdParsed`. */
  lemma BodyParsed(os: Platform, rest: string)
    requires ParseContentIdBody(os, rest).Ok?
    ensures var c := ParseContentIdBody(os, rest).value;
      exists rel :: c.file == FormatPath(os, rel)
        && rest == rel + "!!" + ContentIdTail(c.xhtml, c.element)
        && NoDoubleBang("!" + ContentIdTail(c.xhtml, c.element))
        && '#' !in c.xhtml
  {
    var i := LastDoubleBang(rest, |rest|).value;
    var rel, tail := rest[..i], rest[i + 2..];
    AfterLastBang(rest, i);
    var c := ParseContentIdBody(os, rest).value;
    var parts := SplitAtHash(tail);
    assert c == ContentId(FormatPath(os, rel), parts.0, parts.1);
    assert ContentIdTail(c.xhtml, c.element) == tail;
  }

  /** Around its last "!!", a string is what precedes it, "!!", and a tail that does not
      start another "!!". */
  lemma AfterLastBang(rest: string, i: nat)
    requires LastDoubleBang(rest, |rest|) == Some(i)
    ensures rest == rest[..i] + "!!" + rest[i + 2..]
    ensures NoDoubleBang("!" + rest[i + 2..])
  {
    SplitAtBang(rest, i);
    NoBangAfterLast(rest, i);
    assert rest[i + 1..] == "!" + rest[i + 2..];
  }

  lemma SplitAtBang(rest: string, i: nat)
    requires BangAt(rest, i)
    ensures rest == rest[..i] + "!!" + rest[i + 2..]
  {
    var r := rest[..i] + "!!" + rest[i + 2..];
    assert |r| == |rest|;
    forall j | 0 <= j < |rest| ensures r[j] == rest[j] {
      if j < i {
      } else if j < i + 2 {
      } else {
      }
    }
  }

  lemma NoBangAfterLast(rest: string, i: nat)
    requires LastDoubleBang(rest, |rest|) == Some(i)
    ensures NoDoubleBang(rest[i + 1..])
  {
    var b := rest[i + 1..];
    forall k: nat | k < |b| ensures !BangAt(b, k) {
      if k + 1 < |b| {
        assert b[k] == rest[i + 1 + k] && b[k + 1] == rest[i + 2 + k];
        assert !BangAt(rest, i + 1 + k);
      }
    }
  }

  // ---------------------------------------------------------------------------
  // Volume ids

  /** `volume_id_file` (kobo.py:376-385): the book's path on the volume. */
  function VolumeIdFile(os: Platform, volumeId: string): (r: Result<string>)
    ensures r.Ok? <==> RegexLine(volumeId).Some? && StartsWith(RegexLine(volumeId).value, VolumeIdPrefix)
  {
    var line := RegexLine(volumeId);
    if line.None? || !StartsWith(line.value, VolumeIdPrefix) then Fail(AssertionError)
    else Ok(FormatPath(os, line.value[|VolumeIdPrefix|..]))
  }

  /** The volume id of the book at a device path maps to that path on the volume. */
  lemma VolumeIdFileOf(os: Platform, rel: string)
    requires '\n' !in rel
    ensures VolumeIdFile(os, VolumeIdPrefix + rel) == Ok(FormatPath(os, rel))
  {
    var s := VolumeIdPrefix + rel;
    assert s[..|VolumeIdPrefix|] == VolumeIdPrefix && s[|VolumeIdPrefix|..] == rel;
    assert '\n' !in s by {
      assert forall k :: 0 <= k < |s| ==> s[k] in VolumeIdPrefix || s[k] in rel;
    }
  }

  /** `re.search(pattern + '$', s)` for a literal pattern without newlines: it matches at
      the very end, or just before a final newline. */
  predicate SearchAtEnd(s: string, literal: string) {
    EndsWith(s, literal) || EndsWith(s, literal + "\n")
  }

  /** `KEPUB.is_kepub` (kobo.py:52-59). */
  function IsKepub(os: Platform, volumeId: string): (r: Result<bool>)
    ensures r.Ok? <==> VolumeIdFile(os, volumeId).Ok?
  {
    var file :- VolumeIdFile(os, volumeId);
    Ok(SearchAtEnd(file, KepubSuffix))
  }

  /** A volume id marks a Kobo EPUB exactly when its device path ends in ".kepub.epub"
      (the platform's separator does not matter, and the path holds no newline). */
  lemma IsKepubIff(os: Platform, rel: string)
    requires '\n' !in rel
    ensures IsKepub(os, VolumeIdPrefix + rel) == Ok(EndsWith(rel, KepubSuffix))
  {
    VolumeIdFileOf(os, rel);
    var sep := if os.Posix? then '/' else '\\';
    var mapped := ReplaceChar(rel, '/', [sep]);
    var file := FormatPath(os, rel);
    FormatPathShape(os, rel);
    assert file == (Volume + [sep]) + mapped;
    ReplaceCharPointwise(rel, '/', sep);
    assert !EndsWith(file, KepubSuffix + "\n") by {
      assert '\n' !in mapped;
      if |file| > 0 {
        assert file[|file| - 1] != '\n';
      }
    }
    SuffixThroughReplace(rel, sep, Volume + [sep], KepubSuffix);
  }

  /** A suffix free of `/` and of the separator survives the separator mapping unchanged. */
  lemma SuffixThroughReplace(rel: string, sep: char, root: string, suffix: string)
    requires '/' !in suffix && sep !in suffix && |root| > 0 && root[|root| - 1] == sep
    ensures EndsWith(root + ReplaceChar(rel, '/', [sep]), suffix) <==> EndsWith(rel, suffix)
  {
    var mapped := ReplaceChar(rel, '/', [sep]);
    var file := root + mapped;
    ReplaceCharPointwise(rel, '/', sep);
    if EndsWith(rel, suffix) {
      forall k | 0 <= k < |suffix| ensures file[|file| - |suffix| + k] == suffix[k] {
        var m := |rel| - |suffix| + k;
        assert rel[m] == suffix[k];
        assert mapped[m] == suffix[k];
      }
      assert file[|file| - |suffix|..] == suffix;
    }
    if EndsWith(file, suffix) {
      assert |suffix| <= |rel| by {
        assert forall j :: |file| - |suffix| <= j < |file| ==> file[j] == suffix[j - (|file| - |suffix|)];
        assert file[|root| - 1] == sep;
      }
      forall k | 0 <= k < |suffix| ensures rel[|rel| - |suffix| + k] == suffix[k] {
        var m := |rel| - |suffix| + k;
        assert file[|root| + m] == suffix[k];
        assert mapped[m] == suffix[k];
      }
      assert rel[|rel| - |suffix|..] == suffix;
    }
  }

  // ---------------------------------------------------------------------------
  // Container paths

  /** The tag and the id of a bookmark's container path (kobo.py:204-210): the tag runs
      up to the last `#`, and the rest, with every `\.` turned back into `.`, is the id. */
  function ParseContainerPath(path: string): (r: Result<(string, string)>)
    ensures r.Fail? <==> RegexLine(path).None? || '#' !in RegexLine(path).value
  {
    var line := RegexLine(path);
    if line.None? then Fail(AssertionError)
    else
      match LastIndexOf(line.value, '#', |line.value|)
      case None => Fail(AssertionError)
      case Some(k) => Ok((line.value[..k], UnescapeDots(line.value[k + 1..])))
  }

  /** The device writes a container path as tag + "#" + the id with its dots escaped;
      parsing recovers the tag and the id, whatever `#` the tag holds. */
  lemma ContainerPathRoundTrip(tag: string, id: string)
    requires '\n' !in tag && '\n' !in id && '#' !in id
    ensures ParseContainerPath(tag + "#" + EscapeDots(id)) == Ok((tag, id))
  {
    var e := EscapeDots(id);
    EscapeDotsChars(id);
    assert '\n' !in e && '#' !in e;
    ContainerPathSplit(tag, e);
    UnescapeEscape(id);
  }

  /** The path tag + "#" + e, when e holds no `#`, is cut at that `#`. */
  lemma ContainerPathSplit(tag: string, e: string)
    requires '\n' !in tag && '\n' !in e && '#' !in e
    ensures ParseContainerPath(tag + "#" + e) == Ok((tag, UnescapeDots(e)))
  {
    var s := tag + "#" + e;
    assert s[..|tag|] == tag && s[|tag| + 1..] == e;
    assert '\n' !in s by {
      assert forall k :: 0 <= k < |s| ==> s[k] == if k < |tag| then tag[k] else if k == |tag| then '#' else e[k - |tag| - 1];
    }
    LastHashOf(tag, e);
  }

  lemma LastHashOf(tag: string, e: string)
    requires '#' !in e
    ensures LastIndexOf(tag + "#" + e, '#', |tag| + 1 + |e|) == Some(|tag|)
  {
    var a := tag + "#";
    var s := a + e;
    assert |a| == |tag| + 1 && s[|tag|] == a[|tag|] == '#';
    AbsentAfter(a, e, '#');
    LastIndexOfIs(s, '#', |s|, |tag|);
  }

  /** What b lacks is found at no index of a + b past a. */
  lemma AbsentAfter<T>(a: seq<T>, b: seq<T>, x: T)
    requires x !in b
    ensures forall k :: |a| <= k < |a + b| ==> (a + b)[k] != x
  {
    forall k | |a| <= k < |a + b| ensures (a + b)[k] != x {
      assert (a + b)[k] == b[k - |a|];
    }
  }

  /** Conversely, a parsed container path is tag + "#" + a raw id without `#`, and the
      id is that raw id unescaped. */
  lemma ContainerPathParsed(path: string)
    requires ParseContainerPath(path).Ok?
    ensures var (tag, id) := ParseContainerPath(path).value;
      exists raw :: '#' !in raw && RegexLine(path) == Some(tag + "#" + raw) && id == UnescapeDots(raw)
  {
    var line := RegexLine(path).value;
    var k := LastIndexOf(line, '#', |line|).value;
    var raw := line[k + 1..];
    assert line == line[..k] + "#" + raw;
    assert forall j :: 0 <= j < |raw| ==> raw[j] == line[k + 1 + j];
  }

  /** Escaping adds only backslashes. */
  lemma {:induction false} EscapeDotsChars(id: string)
    ensures forall c :: c in EscapeDots(id) ==> c in id || c == '\\'
  {
    if id != [] {
      EscapeDotsChars(id[1..]);
      assert forall c :: c in id[1..] ==> c in id;
    }
  }
}
