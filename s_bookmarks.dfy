/** The bookmark exporter (s_bookmarks.py): the bookmarks are bucketed by book, and each
    book's bookmarks are written to a text file, with a chapter line whenever the chapter
    changes. Files are modelled as (path, contents) pairs in the order they are written. */
module SBookmarks {
  import opened Wrappers
  import opened Strings
  import opened Seqs
  import opened Web
  import opened KoboPaths
  import opened KoboTables
  import opened KoboKepub
  import opened CBookmarks

  /** The directory the files go to (s_bookmarks.py:10). */
  const OutputDir := "./bookmarks"

  /** The encoding the books are opened with (s_bookmarks.py:12). */
  const Encoding := "utf-8"

  function VolumeOf(b: BookmarkRow): string {
    b.volumeId
  }

  // ---------------------------------------------------------------------------
  // The destination file (s_bookmarks.py:43-49)

  /** The separators `os.path.split` splits at. */
  predicate IsSeparator(os: Platform, c: char) {
    c == '/' || (os == Windows && c == '\\')
  }

  /** The separator `os.path.join` inserts. */
  function JoinSeparator(os: Platform): char {
    if os == Windows then '\\' else '/'
  }

  /** The tail `os.path.split` returns: what follows the last separator. */
  function BaseName(os: Platform, path: string): (r: string)
    ensures |r| <= |path| && r == path[|path| - |r|..]
    ensures forall c :: c in r ==> !IsSeparator(os, c)
    ensures |r| < |path| ==> IsSeparator(os, path[|path| - |r| - 1])
  {
    if path == [] || IsSeparator(os, path[|path| - 1]) then []
    else BaseName(os, path[..|path| - 1]) + [path[|path| - 1]]
  }

  /** The root `os.path.splitext` returns: the name without its last extension, where a
      dot preceded by dots only does not start an extension. */
  function StemOf(name: string): (r: string)
    ensures StartsWith(name, r)
    ensures r == name <==> forall i, j :: 0 <= j < i < |name| && name[i] == '.' ==> name[j] == '.'
    ensures r != name ==>
      && |r| < |name| && name[|r|] == '.'
      && (forall k :: |r| < k < |name| ==> name[k] != '.')
      && exists j :: 0 <= j < |r| && name[j] != '.'
  {
    match LastIndexOf(name, '.', |name|)
    case None => name
    case Some(i) => if exists j :: 0 <= j < i && name[j] != '.' then name[..i] else name
  }

  /** A name with a non-dot character before its last dot loses exactly its last extension. */
  lemma StemOfExtension(stem: string, ext: string)
    requires exists j :: 0 <= j < |stem| && stem[j] != '.'
    requires '.' !in ext
    ensures StemOf(stem + "." + ext) == stem
  {
    var name := stem + "." + ext;
    assert name[|stem|] == '.';
    assert forall k :: |stem| < k < |name| ==> name[k] == ext[k - |stem| - 1];
    var j :| 0 <= j < |stem| && stem[j] != '.';
    assert name[j] != '.';
    assert name[..|stem|] == stem;
  }

  /** The file the bookmarks of the book at `file` go to. */
  function DstFile(os: Platform, file: string): string {
    OutputDir + [JoinSeparator(os)] + Filename(StemOf(BaseName(os, file)))
  }

  /** The last separator-free part of a path. */
  lemma {:induction false} BaseNameAfter(os: Platform, dir: string, c: char, name: string)
    requires IsSeparator(os, c) && forall k :: 0 <= k < |name| ==> !IsSeparator(os, name[k])
    ensures BaseName(os, dir + [c] + name) == name
    decreases |name|
  {
    var path := dir + [c] + name;
    if name == [] {
      assert path[|path| - 1] == c;
    } else {
      var init := name[..|name| - 1];
      assert path[..|path| - 1] == dir + [c] + init;
      BaseNameAfter(os, dir, c, init);
      assert init + [name[|name| - 1]] == name;
    }
  }

  /** A Kobo EPUB `x.kepub.epub` goes to `./bookmarks/x.kepub.txt`: only the last
      extension is dropped. */
  lemma DstFileOfKepub(os: Platform, dir: string, c: char, x: string)
    requires IsSeparator(os, c) && forall k :: 0 <= k < |x| ==> !IsSeparator(os, x[k])
    ensures DstFile(os, dir + [c] + x + KepubSuffix) == OutputDir + [JoinSeparator(os)] + Filename(x + ".kepub")
  {
    var name := x + KepubSuffix;
    assert dir + [c] + x + KepubSuffix == dir + [c] + name;
    KepubNameSeparatorFree(os, x);
    BaseNameAfter(os, dir, c, name);
    StemOfKepub(x);
  }

  lemma KepubNameSeparatorFree(os: Platform, x: string)
    requires forall k :: 0 <= k < |x| ==> !IsSeparator(os, x[k])
    ensures forall k :: 0 <= k < |x + KepubSuffix| ==> !IsSeparator(os, (x + KepubSuffix)[k])
  {
    assert forall k :: 0 <= k < |KepubSuffix| ==> !IsSeparator(os, KepubSuffix[k]);
  }

  /** `splitext` drops `.epub` and keeps `.kepub`. */
  lemma StemOfKepub(x: string)
    ensures StemOf(x + KepubSuffix) == x + ".kepub"
  {
    var name := x + KepubSuffix;
    var i := |x| + 6;
    assert name[|x|..] == KepubSuffix;
    assert name[i] == '.' && name[|x| + 1] == 'k';
    assert name[i + 1] == 'e' && name[i + 2] == 'p' && name[i + 3] == 'u' && name[i + 4] == 'b';
    var r := LastIndexOf(name, '.', |name|);
    assert r.Some? && i <= r.value;
    assert r.value == i;
    assert name[..i] == x + ".kepub";
  }

  // ---------------------------------------------------------------------------
  // One book's file (s_bookmarks.py:51-71)

  /** The line of one bookmark (s_bookmarks.py:65-71). The source's `case _` raises for
      any other type; the two constructors of `BookmarkType` leave it unreachable. */
  function Line(b: BookmarkRow): string {
    match b.bookmarkType
    case Note => FormatNote(b)
    case Highlight => FormatHighlight(b)
  }

  /** The line says which kind of bookmark it is. */
  lemma LineKind(b: BookmarkRow)
    ensures StartsWith(Line(b), NotePrefix) <==> b.bookmarkType == Note
    ensures StartsWith(Line(b), HighlightPrefix) <==> b.bookmarkType == Highlight
  {
    assert NotePrefix[0] != HighlightPrefix[0];
    assert Line(b)[0] == (if b.bookmarkType == Note then NotePrefix[0] else HighlightPrefix[0]);
  }

  function ChapterOf(b: BookmarkRow): string {
    b.contentId
  }

  /** What the loop of s_bookmarks.py:56-71 writes for a book's bookmarks: each
      bookmark's line, preceded by its chapter line when it is the first bookmark or its
      chapter differs from the previous bookmark's. */
  function Pieces(rows: seq<BookmarkRow>): string {
    Breaks(rows, ChapterOf, NewChapter, Line)
  }

  /** The contents of a book's file; without bookmarks, `chapters[0]` raises IndexError. */
  function Render(rows: seq<BookmarkRow>): (r: Result<string>)
    ensures r.Fail? <==> rows == []
    ensures r.Fail? ==> r.error == IndexError
  {
    if rows == [] then Fail(IndexError) else Ok(Pieces(rows))
  }

  /** A book's file opens with the chapter line of its first bookmark; a run of bookmarks
      in a new chapter reads as a file of its own, and bookmarks that stay in the chapter
      of the one before add their lines and no chapter line. */
  lemma ChapterRuns(a: seq<BookmarkRow>, b: seq<BookmarkRow>)
    ensures a != [] ==> StartsWith(Pieces(a), NewChapter(a[0].contentId))
    ensures a != [] && b != [] && a[|a| - 1].contentId != b[0].contentId ==>
      Pieces(a + b) == Pieces(a) + Pieces(b)
    ensures a != [] && (forall k :: 0 <= k < |b| ==> b[k].contentId == a[|a| - 1].contentId) ==>
      Pieces(a + b) == Pieces(a) + Concat(b, Line)
  {
    if a != [] {
      BreaksStart(a, ChapterOf, NewChapter, Line);
      if b != [] && a[|a| - 1].contentId != b[0].contentId {
        BreaksNewRun(a, b, ChapterOf, NewChapter, Line);
      }
      if forall k :: 0 <= k < |b| ==> b[k].contentId == a[|a| - 1].contentId {
        BreaksSameRun(a, b, ChapterOf, NewChapter, Line);
      }
    }
  }

  /** The chapter of each bookmark (s_bookmarks.py:51-54): its content id. */
  method ChapterList(rows: seq<BookmarkRow>) returns (chapters: seq<string>)
    ensures |chapters| == |rows|
    ensures forall k :: 0 <= k < |rows| ==> chapters[k] == rows[k].contentId
  {
    chapters := [];
    var i := 0;
    while i < |rows|
      invariant i <= |rows| && |chapters| == i
      invariant forall k :: 0 <= k < i ==> chapters[k] == rows[k].contentId
    {
      chapters := chapters + [rows[i].contentId];
      i := i + 1;
    }
  }

  /** What the file holds after the first `i` bookmarks, and the chapter last written:
      the invariant of the loop of s_bookmarks.py:60-71. */
  ghost predicate Written(rows: seq<BookmarkRow>, i: nat, out: string, chapter: string)
    requires 0 < |rows| && i <= |rows|
  {
    if i == 0 then out == NewChapter(rows[0].contentId) && chapter == rows[0].contentId
    else out == Pieces(rows[..i]) && chapter == rows[i - 1].contentId
  }

  /** One turn of the loop keeps the invariant. */
  lemma WriteStep(rows: seq<BookmarkRow>, i: nat, out: string, chapter: string)
    requires i < |rows| && Written(rows, i, out, chapter)
    ensures var header := if rows[i].contentId != chapter then NewChapter(rows[i].contentId) else "";
      Written(rows, i + 1, out + header + Line(rows[i]), rows[i].contentId)
  {
    BreaksSnoc(rows, i, ChapterOf, NewChapter, Line);
    if i == 0 {
      assert rows[..0] == [];
    }
  }

  /** The writes of s_bookmarks.py:56-71 for one book. */
  method WriteVolume(rows: seq<BookmarkRow>) returns (r: Result<string>)
    ensures r == Render(rows)
  {
    var chapters := ChapterList(rows);
    if |chapters| == 0 {
      return Fail(IndexError);
    }
    var chapter := chapters[0];
    var out := NewChapter(chapter);
    var i := 0;
    while i < |rows|
      invariant i <= |rows| && Written(rows, i, out, chapter)
    {
      WriteStep(rows, i, out, chapter);
      var header := if chapters[i] != chapter then NewChapter(chapters[i]) else "";
      chapter := chapters[i];
      out := out + header + Line(rows[i]);
      i := i + 1;
    }
    assert rows[..i] == rows;
    r := Ok(out);
  }

  // ---------------------------------------------------------------------------
  // `main` (s_bookmarks.py:24-73)

  /** Opening the book of a volume id fails. */
  function OpenFails(os: Platform, fs: map<string, Archive>, decode: (string, seq<byte>) -> string,
                     parse: string -> Html): string -> bool
  {
    v => OpenedMetadata(os, v, Encoding, fs, decode, parse).Fail?
  }

  /** The file written for the book of a volume id: its destination and its contents. */
  function FileOf(os: Platform, rows: seq<BookmarkRow>): string -> Result<(string, string)> {
    v =>
      var file :- VolumeIdFile(os, v);
      var contents :- Render(Filter(rows, KeyIs(VolumeOf, v)));
      Ok((DstFile(os, file), contents))
  }

  /** What `main` does with the output directory's existence `isDir`, the bookmark table
      `rows`, and the volume's archives `fs`: the exit code and the files written. */
  function ExportOf(os: Platform, isDir: bool, rows: seq<BookmarkRow>, fs: map<string, Archive>,
                    decode: (string, seq<byte>) -> string, parse: string -> Html)
    : Result<(int, seq<(string, string)>)>
  {
    if !isDir then Fail(AssertionError)
    else
      var vols := FirstOccurrences(rows, VolumeOf);
      match FirstWhere(vols, OpenFails(os, fs, decode, parse))
      case Some(k) => Fail(OpenedMetadata(os, vols[k], Encoding, fs, decode, parse).error)
      case None =>
        var files :- MapAll(vols, FileOf(os, rows), []);
        Ok((0, files))
  }

  /** `main` fails exactly when the output directory is missing or a book does not open,
      and then with the first of those errors; otherwise it returns 0 having written, for
      each book in order of its first bookmark, that book's bookmarks in their order to
      the book's destination file. */
  lemma ExportFiles(os: Platform, isDir: bool, rows: seq<BookmarkRow>, fs: map<string, Archive>,
                    decode: (string, seq<byte>) -> string, parse: string -> Html)
    ensures var vols := FirstOccurrences(rows, VolumeOf);
      ExportOf(os, isDir, rows, fs, decode, parse).Ok? <==>
        isDir && forall k :: 0 <= k < |vols| ==> OpenedMetadata(os, vols[k], Encoding, fs, decode, parse).Ok?
    ensures var vols := FirstOccurrences(rows, VolumeOf);
      ExportOf(os, isDir, rows, fs, decode, parse).Ok? ==>
        var out := ExportOf(os, isDir, rows, fs, decode, parse).value;
        && out.0 == 0
        && |out.1| == |vols|
        && forall k :: 0 <= k < |vols| ==>
             && Filter(rows, KeyIs(VolumeOf, vols[k])) != []
             && out.1[k] == (DstFile(os, VolumeIdFile(os, vols[k]).value),
                             Pieces(Filter(rows, KeyIs(VolumeOf, vols[k]))))
  {
    var vols := FirstOccurrences(rows, VolumeOf);
    var p := OpenFails(os, fs, decode, parse);
    if isDir {
      match FirstWhere(vols, p)
      case Some(k) =>
        ExportFailsAt(os, rows, fs, decode, parse, k);
      case None =>
        ExportWritesAll(os, rows, fs, decode, parse);
    }
  }

  /** A book that does not open stops the export with its error. */
  lemma ExportFailsAt(os: Platform, rows: seq<BookmarkRow>, fs: map<string, Archive>,
                      decode: (string, seq<byte>) -> string, parse: string -> Html, k: nat)
    requires FirstWhere(FirstOccurrences(rows, VolumeOf), OpenFails(os, fs, decode, parse)) == Some(k)
    ensures k < |FirstOccurrences(rows, VolumeOf)|
    ensures !OpenedMetadata(os, FirstOccurrences(rows, VolumeOf)[k], Encoding, fs, decode, parse).Ok?
    ensures ExportOf(os, true, rows, fs, decode, parse).Fail?
  {
  }

  /** With every book opened, the export succeeds and writes one file per book. */
  lemma ExportWritesAll(os: Platform, rows: seq<BookmarkRow>, fs: map<string, Archive>,
                        decode: (string, seq<byte>) -> string, parse: string -> Html)
    requires FirstWhere(FirstOccurrences(rows, VolumeOf), OpenFails(os, fs, decode, parse)).None?
    ensures var vols := FirstOccurrences(rows, VolumeOf);
      forall k :: 0 <= k < |vols| ==> OpenedMetadata(os, vols[k], Encoding, fs, decode, parse).Ok?
    ensures var vols := FirstOccurrences(rows, VolumeOf);
      && ExportOf(os, true, rows, fs, decode, parse).Ok?
      && var out := ExportOf(os, true, rows, fs, decode, parse).value;
      && out.0 == 0
      && |out.1| == |vols|
      && forall k :: 0 <= k < |vols| ==>
           && Filter(rows, KeyIs(VolumeOf, vols[k])) != []
           && out.1[k] == (DstFile(os, VolumeIdFile(os, vols[k]).value),
                           Pieces(Filter(rows, KeyIs(VolumeOf, vols[k]))))
  {
    var vols := FirstOccurrences(rows, VolumeOf);
    var p := OpenFails(os, fs, decode, parse);
    forall k | 0 <= k < |vols|
      ensures OpenedMetadata(os, vols[k], Encoding, fs, decode, parse).Ok?
      ensures VolumeIdFile(os, vols[k]).Ok?
    {
      assert !p(vols[k]);
    }
    AllFilesWritten(os, rows, vols);
  }

  /** With every book opened, each book's file is written. */
  lemma AllFilesWritten(os: Platform, rows: seq<BookmarkRow>, vols: seq<string>)
    requires vols == FirstOccurrences(rows, VolumeOf)
    requires forall k :: 0 <= k < |vols| ==> VolumeIdFile(os, vols[k]).Ok?
    ensures var files := MapAll(vols, FileOf(os, rows), []);
      && files.Ok? && |files.value| == |vols|
      && forall k :: 0 <= k < |vols| ==>
           && Filter(rows, KeyIs(VolumeOf, vols[k])) != []
           && files.value[k] == (DstFile(os, VolumeIdFile(os, vols[k]).value),
                                 Pieces(Filter(rows, KeyIs(VolumeOf, vols[k]))))
  {
    var f := FileOf(os, rows);
    forall k | 0 <= k < |vols|
      ensures Filter(rows, KeyIs(VolumeOf, vols[k])) != []
      ensures f(vols[k]) == Ok((DstFile(os, VolumeIdFile(os, vols[k]).value), Pieces(Filter(rows, KeyIs(VolumeOf, vols[k])))))
    {
      KeyGroupNonEmpty(rows, VolumeOf, vols[k]);
    }
    MapAllValues(vols, f, []);
  }

  /** Every bucketed volume id has its book, opened from the file the volume id names. */
  ghost predicate BooksOpened(os: Platform, books: map<string, Kepub>, buckets: map<string, seq<BookmarkRow>>) {
    && (forall v :: v in books <==> v in buckets)
    && forall v :: v in books ==>
         books[v].volumeId == v && VolumeIdFile(os, v).Ok? && books[v].file == VolumeIdFile(os, v).value
  }

  /** Adding a book opened for a new volume id keeps every book opened. */
  lemma BookAdded(os: Platform, books: map<string, Kepub>, buckets: map<string, seq<BookmarkRow>>,
                  v: string, book: Kepub, bucket: seq<BookmarkRow>)
    requires BooksOpened(os, books, buckets)
    requires book.volumeId == v && VolumeIdFile(os, v).Ok? && book.file == VolumeIdFile(os, v).value
    ensures BooksOpened(os, books[v := book], buckets[v := bucket])
  {
  }

  /** Growing the bucket of a volume id that has its book keeps every book opened. */
  lemma BucketGrown(os: Platform, books: map<string, Kepub>, buckets: map<string, seq<BookmarkRow>>,
                    v: string, bucket: seq<BookmarkRow>)
    requires BooksOpened(os, books, buckets) && v in buckets
    ensures BooksOpened(os, books, buckets[v := bucket])
  {
  }

  /** The bucketing of s_bookmarks.py:30-37: the bookmarks by volume id, in order, and the
      book of each volume id, opened when it is first seen. */
  method Bucket(os: Platform, rows: seq<BookmarkRow>, fs: map<string, Archive>,
                decode: (string, seq<byte>) -> string, parse: string -> Html)
    returns (r: Result<(seq<string>, map<string, seq<BookmarkRow>>, map<string, Kepub>)>)
    ensures var vols := FirstOccurrences(rows, VolumeOf);
      var failing := FirstWhere(vols, OpenFails(os, fs, decode, parse));
      && (r.Ok? <==> failing.None?)
      && (r.Fail? ==> r.error == OpenedMetadata(os, vols[failing.value], Encoding, fs, decode, parse).error)
    ensures r.Ok? ==> Grouped(rows, VolumeOf, r.value.0, r.value.1)
    ensures r.Ok? ==> BooksOpened(os, r.value.2, r.value.1)
  {
    var order: seq<string> := [];
    var buckets: map<string, seq<BookmarkRow>> := map[];
    var books: map<string, Kepub> := map[];
    var p := OpenFails(os, fs, decode, parse);
    var i := 0;
    while i < |rows|
      invariant i <= |rows|
      invariant Grouped(rows[..i], VolumeOf, order, buckets)
      invariant BooksOpened(os, books, buckets)
      invariant forall k :: 0 <= k < |order| ==> !p(order[k])
    {
      var step := BucketRow(os, rows, i, order, buckets, books, fs, decode, parse);
      if step.Fail? {
        return Fail(step.error);
      }
      order, buckets, books := step.value.0, step.value.1, step.value.2;
      i := i + 1;
    }
    assert rows[..i] == rows;
    r := Ok((order, buckets, books));
  }

  /** One bookmark of the bucketing: added to its volume's bucket, the volume's book opened
      first when the volume id is new; a book that does not open is the first volume that
      fails. */
  method BucketRow(os: Platform, rows: seq<BookmarkRow>, i: nat, order: seq<string>,
                   buckets: map<string, seq<BookmarkRow>>, books: map<string, Kepub>,
                   fs: map<string, Archive>, decode: (string, seq<byte>) -> string, parse: string -> Html)
    returns (r: Result<(seq<string>, map<string, seq<BookmarkRow>>, map<string, Kepub>)>)
    requires i < |rows|
    requires Grouped(rows[..i], VolumeOf, order, buckets)
    requires BooksOpened(os, books, buckets)
    requires forall k :: 0 <= k < |order| ==> !OpenFails(os, fs, decode, parse)(order[k])
    ensures var vols := FirstOccurrences(rows, VolumeOf);
      var failing := FirstWhere(vols, OpenFails(os, fs, decode, parse));
      r.Fail? ==> failing.Some? && r.error == OpenedMetadata(os, vols[failing.value], Encoding, fs, decode, parse).error
    ensures r.Ok? ==> Grouped(rows[..i + 1], VolumeOf, r.value.0, r.value.1)
    ensures r.Ok? ==> BooksOpened(os, r.value.2, r.value.1)
    ensures r.Ok? ==> forall k :: 0 <= k < |r.value.0| ==> !OpenFails(os, fs, decode, parse)(r.value.0[k])
  {
    var p := OpenFails(os, fs, decode, parse);
    var row := rows[i];
    var volumeId := row.volumeId;
    assert rows[..i + 1] == rows[..i] + [row];
    GroupedSnoc(rows[..i], row, VolumeOf, order, buckets);
    if volumeId !in buckets {
      r := BucketNewVolume(os, rows, i, order, buckets, books, fs, decode, parse);
    } else {
      BucketGrown(os, books, buckets, volumeId, buckets[volumeId] + [row]);
      r := Ok((order, buckets[volumeId := buckets[volumeId] + [row]], books));
    }
  }

  /** The first bookmark of a volume: the volume's book is opened and the volume gets a
      bucket of its own. */
  method BucketNewVolume(os: Platform, rows: seq<BookmarkRow>, i: nat, order: seq<string>,
                         buckets: map<string, seq<BookmarkRow>>, books: map<string, Kepub>,
                         fs: map<string, Archive>, decode: (string, seq<byte>) -> string, parse: string -> Html)
    returns (r: Result<(seq<string>, map<string, seq<BookmarkRow>>, map<string, Kepub>)>)
    requires i < |rows| && rows[i].volumeId !in buckets
    requires Grouped(rows[..i], VolumeOf, order, buckets)
    requires BooksOpened(os, books, buckets)
    requires forall k :: 0 <= k < |order| ==> !OpenFails(os, fs, decode, parse)(order[k])
    ensures var vols := FirstOccurrences(rows, VolumeOf);
      var failing := FirstWhere(vols, OpenFails(os, fs, decode, parse));
      r.Fail? ==> failing.Some? && r.error == OpenedMetadata(os, vols[failing.value], Encoding, fs, decode, parse).error
    ensures r.Ok? ==> r.value.0 == order + [rows[i].volumeId] && r.value.1 == buckets[rows[i].volumeId := [rows[i]]]
    ensures r.Ok? ==> BooksOpened(os, r.value.2, r.value.1)
    ensures r.Ok? ==> forall k :: 0 <= k < |r.value.0| ==> !OpenFails(os, fs, decode, parse)(r.value.0[k])
  {
    var volumeId := rows[i].volumeId;
    var openResult := Kepub.Open(os, volumeId, Encoding, fs, decode, parse);
    if openResult.Fail? {
      FirstFailingKey(rows, VolumeOf, i, OpenFails(os, fs, decode, parse));
      return Fail(openResult.error);
    }
    BookAdded(os, books, buckets, volumeId, openResult.value.0, [rows[i]]);
    NoneAppended(order, volumeId, OpenFails(os, fs, decode, parse));
    r := Ok((order + [volumeId], buckets[volumeId := [rows[i]]], books[volumeId := openResult.value.0]));
  }

  /** `main` (s_bookmarks.py:24-73), with `KEPUB.open` given the encoding it needs (see
      `MainAsWritten`). */
  method Export(os: Platform, isDir: bool, rows: seq<BookmarkRow>, fs: map<string, Archive>,
                decode: (string, seq<byte>) -> string, parse: string -> Html)
    returns (r: Result<(int, seq<(string, string)>)>)
    ensures r == ExportOf(os, isDir, rows, fs, decode, parse)
  {
    var exitCode := 0;
    if !isDir {
      return Fail(AssertionError);
    }
    var bucketed :- Bucket(os, rows, fs, decode, parse);
    var order, buckets, books := bucketed.0, bucketed.1, bucketed.2;
    var files: seq<(string, string)> := [];
    var j := 0;
    while j < |order|
      invariant j <= |order|
      invariant MapAll(order, FileOf(os, rows), []) == MapAll(order[j..], FileOf(os, rows), files)
    {
      var volumeId := order[j];
      assert order[j..][0] == volumeId && order[j..][1..] == order[j + 1..];
      var file := books[volumeId].file;
      var dstFile := DstFile(os, file);
      var contents :- WriteVolume(buckets[volumeId]);
      files := files + [(dstFile, contents)];
      j := j + 1;
    }
    r := Ok((exitCode, files));
  }

  // ---------------------------------------------------------------------------
  // `KEPUB.open` as called at s_bookmarks.py:35

  /** `main` as written: `KEPUB.open(volume_id)` passes one argument where `KEPUB.open`
      (kobo.py:61-62) takes two, so the first bookmark raises TypeError. */
  function MainAsWritten(isDir: bool, rows: seq<BookmarkRow>): (r: Result<int>)
    ensures r.Ok? <==> isDir && rows == []
    ensures r.Ok? ==> r.value == 0
    ensures isDir && rows != [] ==> r == Fail(TypeError)
  {
    if !isDir then Fail(AssertionError)
    else if rows != [] then Fail(TypeError)
    else Ok(0)
  }

  /** As written, no bookmark is ever exported, even of a book that opens; with the
      encoding passed, one that opens is. */
  lemma OpenMissesEncoding(os: Platform, row: BookmarkRow, fs: map<string, Archive>,
                           decode: (string, seq<byte>) -> string, parse: string -> Html)
    requires OpenedMetadata(os, row.volumeId, Encoding, fs, decode, parse).Ok?
    ensures MainAsWritten(true, [row]) == Fail(TypeError)
    ensures ExportOf(os, true, [row], fs, decode, parse).Ok?
  {
    assert [row][..0] == [];
    assert FirstOccurrences([row], VolumeOf) == [row.volumeId];
    ExportFiles(os, true, [row], fs, decode, parse);
  }
}
