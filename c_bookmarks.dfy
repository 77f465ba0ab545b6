/** The plain-text bookmark formatter (c_bookmarks.py:19-31): the name of the output file
    and the lines written for a chapter, a note and a highlight. */
module CBookmarks {
  import opened Strings
  import opened KoboTables

  const TextSuffix := ".txt"
  const ChapterOpen := "----- "
  const ChapterClose := " -----\n"
  const NotePrefix := "NOTE: "
  const NoteSeparator := " || "
  const HighlightPrefix := "HIGHLIGHT: "

  /** `BasicBookmarks.filename` (c_bookmarks.py:21-22): the stem with `.txt` appended;
      dropping the suffix gives the stem back. */
  function Filename(stem: string): (r: string)
    ensures EndsWith(r, TextSuffix)
    ensures |r| == |stem| + |TextSuffix| && r[..|stem|] == stem
  {
    stem + TextSuffix
  }

  /** `BasicBookmarks.new_chapter` (c_bookmarks.py:24-25): the chapter between dashes, on a
      line of its own. */
  function NewChapter(chapter: string): (r: string)
    ensures |r| == |ChapterOpen| + |chapter| + |ChapterClose|
    ensures StartsWith(r, ChapterOpen) && EndsWith(r, ChapterClose)
    ensures r[|ChapterOpen|..|r| - |ChapterClose|] == chapter
  {
    ChapterOpen + chapter + ChapterClose
  }

  /** `BasicBookmarks.format_note` (c_bookmarks.py:27-28): the marked text and the reader's
      annotation on one line. The chapter and the book the source also passes are not
      used, so they are not parameters here. */
  function FormatNote(b: BookmarkRow): (r: string)
    ensures |r| == |NotePrefix| + |b.text| + |NoteSeparator| + |b.annotation| + 1
    ensures StartsWith(r, NotePrefix) && EndsWith(r, "\n")
    ensures r[|NotePrefix|..|NotePrefix| + |b.text|] == b.text
    ensures r[|NotePrefix| + |b.text|..|NotePrefix| + |b.text| + |NoteSeparator|] == NoteSeparator
    ensures r[|r| - 1 - |b.annotation|..|r| - 1] == b.annotation
  {
    NotePrefix + b.text + NoteSeparator + b.annotation + "\n"
  }

  /** `BasicBookmarks.format_highlight` (c_bookmarks.py:30-31): the marked text on one
      line; chapter and book are not used. */
  function FormatHighlight(b: BookmarkRow): (r: string)
    ensures |r| == |HighlightPrefix| + |b.text| + 1
    ensures StartsWith(r, HighlightPrefix) && EndsWith(r, "\n")
    ensures r[|HighlightPrefix|..|r| - 1] == b.text
  {
    HighlightPrefix + b.text + "\n"
  }

  /** A chapter line names its chapter: two chapter lines are equal only for equal
      chapters. */
  lemma NewChapterInjective(a: string, b: string)
    requires NewChapter(a) == NewChapter(b)
    ensures a == b
  {
    var r := NewChapter(a);
    assert a == r[|ChapterOpen|..|r| - |ChapterClose|];
  }

  /** A note line, a highlight line and a chapter line never coincide: their first
      characters differ. */
  lemma LinesDistinct(b: BookmarkRow, c: BookmarkRow, chapter: string)
    ensures FormatNote(b) != FormatHighlight(c)
    ensures FormatNote(b) != NewChapter(chapter)
    ensures FormatHighlight(c) != NewChapter(chapter)
  {
    assert FormatNote(b)[0] == 'N';
    assert FormatHighlight(c)[0] == 'H';
    assert NewChapter(chapter)[0] == '-';
  }

  /** A note line gives back its text and its annotation once the length of the text is
      known (a text may itself contain the separator). */
  lemma NoteInjective(b: BookmarkRow, c: BookmarkRow)
    requires FormatNote(b) == FormatNote(c) && |b.text| == |c.text|
    ensures b.text == c.text && b.annotation == c.annotation
  {
    var r := FormatNote(b);
    assert b.text == r[|NotePrefix|..|NotePrefix| + |b.text|];
    assert b.annotation == r[|r| - 1 - |b.annotation|..|r| - 1];
  }

  /** A highlight line gives back the highlighted text. */
  lemma HighlightInjective(b: BookmarkRow, c: BookmarkRow)
    requires FormatHighlight(b) == FormatHighlight(c)
    ensures b.text == c.text
  {
    var r := FormatHighlight(b);
    assert b.text == r[|HighlightPrefix|..|r| - 1];
  }
}
