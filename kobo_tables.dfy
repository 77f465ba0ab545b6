/** The rows of the reader's database tables that the exporters read (kobo.py:232-364);
    reading them from the database is not part of this model. */
module KoboTables {
  import opened Wrappers

  /** `BookmarkTable.BookmarkType` (kobo.py:234-236). */
  datatype BookmarkType = Note | Highlight {
    /** The enumeration's integer value: NOTE is 0 and HIGHLIGHT the next, 1. */
    function Code(): (n: nat)
      ensures n == 0 <==> this == Note
      ensures n < 2
    {
      match this
      case Note => 0
      case Highlight => 1
    }
  }

  /** `BookmarkTable.TYPE_MAPPING` (kobo.py:238-241): the database's type names; any other
      name raises KeyError. */
  function TypeOfName(name: string): (r: Result<BookmarkType>)
    ensures r == Ok(Note) <==> name == "note"
    ensures r == Ok(Highlight) <==> name == "highlight"
    ensures r.Fail? ==> r.error == KeyError
  {
    if name == "note" then Ok(Note)
    else if name == "highlight" then Ok(Highlight)
    else Fail(KeyError)
  }

  /** A row of the `Bookmark` table (kobo.py:271-297), without the timestamps and the
      chapter progress. */
  datatype BookmarkRow = BookmarkRow(
    volumeId: string,
    contentId: string,
    startContainerPath: string,
    startOffset: int,
    endContainerPath: string,
    endOffset: int,
    text: string,
    annotation: string,
    bookmarkType: BookmarkType)

  /** A row of the `WordList` table (kobo.py:341-345), without the timestamp. */
  datatype WordRow = WordRow(text: string, volumeId: string, dictSuffix: string)
}
