# IKobo core, modelled in Dafny

IKobo reads what a Kobo e-reader stores about its books and words:

- the bookmarks (highlights and notes) in the device's `Bookmark` table;
- the looked-up words in its `WordList` table.

It then does two things with them:

- it writes the bookmarks of each book to a plain-text file, one chapter header per run of bookmarks in the same chapter;
- it turns each looked-up Spanish word into an Anki flashcard built from the word's entry in the RAE dictionary.

This project models, in Dafny, the pieces of that program that decide what is produced.

- **Position references** (`kobo_paths.dfy`). The device writes three kinds:
  - a content id `/mnt/onboard/<file>!!<member>[#<element>]`;
  - a volume id `file:///mnt/onboard/<file>`;
  - a container path `<tag>#<escaped id>`.

  The model parses each of them with the regular expressions' exact semantics:
  - a greedy split at the last `!!`;
  - a lazy member part up to the first `#`;
  - a split of the container path at its last `#`;
  - `$` matching before one final newline.

  It also maps the device path onto the volume root of either platform.
- **The book archive** (`kobo_kepub.dfy`). `KEPUB` is a class.
  - Its member cache reads each archive member at most once.
  - `open` reads the metadata and the table of contents from `content.opf`. The table of contents is the manifest's hrefs in spine order.
- **The bookmark context** (`kobo_context.dfy`) does four things:
  - it climbs from the start and end anchors to the children of the `book-inner` division;
  - it trims that child list to the bookmark's containers;
  - it finds the chapter heading at or before the first container;
  - it checks that both anchors are `span` elements.
- **The tree accessor** (`web.py` `Element`, in `web.dfy`). A parsed page is an arena of nodes whose ids give element identity. The model covers:
  - element children and following siblings;
  - the class-superset filter of `find_all`, and `find`;
  - the single-class lookups;
  - the positional `xpath`.
- **The RAE note** (`anki_notes.dfy`): reading entries and articles from a dictionary page, and formatting the three note fields as HTML.
- **The plain-text bookmark formatter** (`c_bookmarks.dfy`).
- **The two drivers.**
  - `s_bookmarks.dfy` gives the per-volume bucketing, the chapter breaks and the files written.
  - `s_my_words.dfy` gives the deck gate, the suffix grouping, note creation and the add-or-update decision.

The model is built on shared helpers:

- `wrappers.dfy`: `Option`, `Result`, and the Python exceptions as a `Fault`;
- `strings.dfy`: Python's `strip`, `split`, `join`, `replace`, decimal numbers, and the regular-expression line rule;
- `seqs.dfy`: filters, first occurrences, and the dictionary-of-lists grouping the drivers build.

Python failures are modelled as error results:

| Python construct | modelled as |
|---|---|
| a failed `assert` | `Fail(AssertionError)` |
| a missing dictionary key | `Fail(KeyError)` |
| an index out of range | `Fail(IndexError)` |
| `NotImplementedError` | `Fail(NotImplementedError(..))` |

Collaborators the program calls but does not define are parameters. These include the HTML parser, the byte decoder, the zip archives, the web page fetch and the Anki note search.

`kobo.py` calls six `Element` methods that the `Element` class of `web.py` does not define: `parent`, `prev_siblings`, `find_with_id`, `find_all_with_id`, `find_or_none` and `get_attr`. They are modelled from their uses in `kobo.py`:

- `prev_siblings` is nearest-first;
- `find_all_with_id` returns matches in document order.
- element equality is node identity. The `Element` class of `web.py` defines no `__eq__`, so the comparisons at `kobo.py:168` and `kobo.py:172` compare wrapper objects; the model assumes they compare the underlying nodes.

The code behaves as follows:

- The code takes the chapter to be the first `h1`–`h6` among the first container and its preceding siblings, and that heading must exist. It keeps no heading per level and has no fallback to the first non-empty child.
- The code does not sort bookmarks; `s_bookmarks.py:40-41` leaves sorting as a TODO.
- The code writes the plain-text format of `c_bookmarks.py`, not Markdown. It takes a bookmark's chapter to be its content id.
- In the code, a volume that cannot be opened stops the run. It is not skipped.

## Model

| member | source | states |
|---|---|---|
| KoboPaths.FormatPathShape | kobo.py:388-396 | The book's path is the volume root, a separator, then the device path with each `/` turned into the platform separator (`/` on POSIX, `\` on Windows). |
| KoboPaths.FormatPathInjective | kobo.py:388-396 | Two device paths map to the same path only when they are equal (on Windows, for device paths without `\`). |
| KoboPaths.LastDoubleBang | kobo.py:116 | The greedy `(.*)!!` finds the last `!!` before the bound: the result is a `!!` position, and every `!!` lies at or before it. |
| KoboPaths.SplitAtHash | kobo.py:116 | The lazy member part `(.*?)(?:#(.*))?` stops at the first `#`. The member has no `#`. The element is absent exactly when the tail has no `#`. Member and element rebuild the tail. |
| KoboPaths.SplitTail | kobo.py:116 | A member without `#`, with or without an element, splits back into that member and element. |
| KoboPaths.ParseContentIdBody | kobo.py:116-125 | The part after the prefix fails exactly when it contains no `!!`. |
| KoboPaths.ParseContentId | kobo.py:114-126 | `ContentID.parse` fails (the assert) exactly when the id is not one line, lacks the `/mnt/onboard/` prefix, or has no `!!` after it. |
| KoboPaths.BodyRoundTrip | kobo.py:116-125 | Splitting `rel!!tail` gives the platform path of `rel`, plus the member and element of `tail`, whenever `!`+`tail` holds no `!!`. |
| KoboPaths.ContentIdRoundTrip | kobo.py:114-126 | Parsing `/mnt/onboard/` + R + `!!` + X [+ `#` + E] gives back (platform path of R, X, E or None), for R, X, E without newlines, X without `#`, and `!`+X[#E] without `!!`. |
| KoboPaths.ContentIdParsed | kobo.py:114-126 | Every parsed content id is of that form: its line is the prefix, some R, `!!`, then the member and element. |
| KoboPaths.BodyParsed | kobo.py:116-125 | Every parsed body is `rel!!tail` with `tail` rebuilt from the member and element, and no `!!` after the split point. |
| KoboPaths.VolumeIdFile | kobo.py:376-385 | `volume_id_file` succeeds exactly when the volume id is one line that starts with `file:///mnt/onboard/`. |
| KoboPaths.VolumeIdFileOf | kobo.py:376-396 | For a one-line R, `file:///mnt/onboard/` + R gives the platform path of R. |
| KoboPaths.IsKepub | kobo.py:52-59 | `is_kepub` fails exactly when `volume_id_file` does. |
| KoboPaths.IsKepubIff | kobo.py:52-59 | For a one-line R, the volume id of R is a Kobo EPUB exactly when R ends in `.kepub.epub`, on either platform. |
| KoboPaths.ParseContainerPath | kobo.py:204-210 | The container-path assert fails exactly when the path is not one line or has no `#`. |
| KoboPaths.ContainerPathRoundTrip | kobo.py:204-210 | A tag followed by `#` and the escaped id gives back the tag and the id exactly, for a tag and an id without newlines and an id without `#`. |
| KoboPaths.ContainerPathParsed | kobo.py:204-210 | Every parsed container path is one line: tag, `#`, then a raw id without `#` whose unescaping is the id. |
| KoboTables.BookmarkType.Code | kobo.py:234-236 | `NOTE` is 0, `HIGHLIGHT` is the other code, and both are below 2. |
| KoboTables.TypeOfName | kobo.py:238-241 | Only `note` maps to NOTE and only `highlight` maps to HIGHLIGHT. Any other name is a `KeyError`. |
| KoboKepub.Kepub.constructor | kobo.py:34-40 | A new book starts with an empty member cache. |
| KoboKepub.Kepub.Read | kobo.py:42-46 | `read` returns the archive's bytes for a member it holds, and `KeyError` otherwise. The archive is read only on a cache miss of a present member; that member is then cached. Otherwise the cache and the reads are unchanged, and no member is read twice. |
| KoboKepub.Kepub.ReadStr | kobo.py:48-50 | `read_str` is the decoding, in the book's encoding, of what `read` returns, with the same cache behaviour. |
| KoboKepub.Kepub.Open | kobo.py:61-76 | `open` succeeds exactly when the metadata can be read. It returns a fresh book for the volume id's file, with `content.opf` as the only cached member. |
| KoboKepub.MetadataField | kobo.py:78-84 | `_metadata` is None when no element has the name. It is the text of the one element when exactly one has it, and fails when several have it. |
| KoboKepub.TableOfContents | kobo.py:86-104 | The loops compute `TableOfContentsOf`, the table of contents of the package document. |
| KoboKepub.FillManifest | kobo.py:88-94 | The manifest loop builds the id→href map of the items, in order. |
| KoboKepub.WalkSpine | kobo.py:96-102 | The spine loop lists, in order, the hrefs of the `itemref`s whose `idref` is in the manifest. |
| KoboKepub.ManifestSucceeds | kobo.py:90-94 | The manifest is built exactly when every item has both an `id` and an `href`. |
| KoboKepub.ManifestLastWins | kobo.py:88-94 | The manifest's keys are exactly the items' ids. Each id maps to the href of the last item carrying it. |
| KoboKepub.ManifestKeys | kobo.py:88-94 | The keys of the built map are the keys before plus the items' ids. |
| KoboKepub.ManifestHrefs | kobo.py:88-94 | The last item with a given id decides that id's href. |
| KoboKepub.ManifestKept | kobo.py:88-94 | Entries for ids that no item carries stay as they were. |
| KoboKepub.SpineShorter | kobo.py:96-104 | The table of contents is never longer than the list of `itemref`s. |
| KoboKepub.SpineSkipsUnknown | kobo.py:98-102 | `itemref`s whose id is not in the manifest contribute nothing: the list is the same without them. |
| KoboKepub.SpineAllKnown | kobo.py:98-102 | When every `idref` is known, the table of contents has one href per `itemref`, in spine order, each being the manifest's href for that `idref`. |
| KoboContext.ContainerOf | kobo.py:225-227 | The climb ends at a child of the root that is the element itself or one of its ancestors. |
| KoboContext.Climb | kobo.py:225-227 | The `while` loop climbing from the anchor's parent stops at the ancestor whose parent is the root division. |
| KoboContext.AnchorOf | kobo.py:198-229 | When `_extract` succeeds, the element is the first (start) or last (end) element with that tag and unescaped id. Its container is a child of the root and a strict ancestor of the element. |
| KoboContext.AnchorFails | kobo.py:198-229 | `_extract` fails exactly when the path does not parse, when no element matches, or when the chosen element is itself a child of the root. |
| KoboContext.Anchor | kobo.py:198-229 | `_extract` computes `AnchorOf`: the anchor and container stated above. |
| KoboContext.TrimmedOf | kobo.py:167-175 | Trimming fails (`IndexError`) exactly when the start container is not a child of the root. The result is never empty, starts with the start container, and holds only children of the root. |
| KoboContext.Trim | kobo.py:167-175 | The two deleting loops compute `TrimmedOf`, the trim stated above. |
| KoboContext.TrimmedSlice | kobo.py:167-175 | The containers are the contiguous slice of the root's children from the start container to the end container when the end lies after the start, and `[start]` alone otherwise. |
| KoboContext.FindChapter | kobo.py:181-189 | The chapter scan returns the first heading in the list; it returns None exactly when the list has no heading. |
| KoboContext.ChapterIsNearestHeading | kobo.py:148-189 | The chapter is the nearest heading child of the root at or before the first container. The context fails exactly when there is no such heading or either anchor is not a `span`. |
| KoboContext.ResolveChapter | kobo.py:177-196 | The sibling list and the chapter loop build `ContextAfterTrim`, the context from the trimmed containers, whose chapter `ChapterIsNearestHeading` states. |
| KoboContext.ExtractContext | kobo.py:151-196 | `extract` computes `ContextOf`, the bookmark's context from the book's archive, built by `ContextAfterTrim` (see `ChapterIsNearestHeading`). The zip cache gains the chapter's document, and the read is recorded, exactly when the content id parses, names this book and volume, and the document is in the archive but not yet cached. Otherwise the cache is unchanged. |
| Web.ParentOf | kobo.py:225-226 | A node's parent is an earlier element that lists the node among its children. |
| Web.TextOf | web.py:18 | An element's text is its text content with leading and trailing white space removed. |
| Web.ClsOrNone | web.py:26-32 | None without a `class` attribute; the class when there is exactly one; a failure otherwise. |
| Web.Cls | web.py:20-24 | `cls` succeeds with c exactly when the element has the single class c. |
| Web.GetAttr | kobo.py:91-92 | The attribute's value when present, a failure otherwise. |
| Web.ElementChildren | web.py:57-63 | The element children in document order, with text nodes dropped. Each of them has the element as parent. |
| Web.Children | web.py:57-63 | The loop over the children computes exactly those element children. |
| Web.NextSiblingsOf | web.py:65-80 | The element siblings after the element, in order, all with the same parent. |
| Web.NextSiblings | web.py:65-80 | The walk along `nextSibling` gives those siblings. It fails (the assert) only for the document root, which has no parent. |
| Web.PrevSiblings | kobo.py:178 | The element siblings before the element, nearest first, all with the same parent. |
| Web.FindAllOfFacts | web.py:88-105 | `find_all` keeps a name match exactly when the class set is empty, or the match has a `class` attribute whose set contains every requested class. The survivors keep their order. |
| Web.FindAll | web.py:88-105 | The deleting loop over the matches computes `FindAllOf`, that filtered list. |
| Web.Find | web.py:82-86 | `find` succeeds exactly when `find_all` has one result, and returns it. |
| Web.FindOrNone | kobo.py:80-84 | None when nothing has the name, the element when exactly one has it, and a failure otherwise. |
| Web.FindAllWithId | kobo.py:217 | The descendants with that tag and `id`, in document order. |
| Web.FindWithId | kobo.py:160 | The one descendant with that tag and `id`; a failure unless there is exactly one. |
| Web.CountBefore | web.py:38-40 | The count of earlier siblings with the same name. |
| Web.CountAfter | web.py:42-44 | The count of later siblings with the same name. |
| Web.StepOf | web.py:37-52 | One step of the path: the counting loops compute the element's step. |
| Web.XPath | web.py:34-55 | The walk to the root builds `/` followed by the steps from the root down to the element, joined by `/`. |
| Web.StepNameOf | web.py:46-49 | A step starts with the element's name. |
| Web.StepIndexed | web.py:48-49 | When a sibling shares the name, the step's index is one plus the number of earlier namesakes. |
| Web.SameNameIndexed | web.py:38-49 | Two namesake siblings get different steps. |
| Web.StepsDistinguishSiblings | web.py:38-49 | Two different siblings always get different steps. |
| Web.PathStepsInjective | web.py:34-55 | Two elements with the same root-to-node steps are the same element, when no tag name contains `[`. |
| AnkiNotes.Texts | anki_notes.py:49 | One text per child, each the child's stripped text. |
| AnkiNotes.DefinitionOf | anki_notes.py:44-49 | The entry's definition is read exactly when the first child is a `span` of class `n_acep`. It is the other children's texts joined by single spaces. |
| AnkiNotes.PairsCollect | anki_notes.py:59-74 | The (label, value) pairs append the `span.sin` texts of `Sin.:` pairs to the synonyms and those of `Ant.:` pairs to the antonyms, in order, and every label is one of the two. |
| AnkiNotes.CreateEntry | anki_notes.py:42-77 | `Entry.create` computes `EntryOf`, the entry of a paragraph: the definition and lists stated by `DefinitionOf` and `PairsCollect`. |
| AnkiNotes.ReadSynonyms | anki_notes.py:51-74 | The synonym/antonym step computes `SynonymsOf`: the lists from the following `div`, if there is one. |
| AnkiNotes.ReadPairs | anki_notes.py:56-74 | The stepping loop over the `td`s computes `PairsFrom`: the pairs' lists stated by `PairsCollect`, and its failures. |
| AnkiNotes.CollectSpans | anki_notes.py:71-72 | The texts of the `span`s of class `sin`, in order. |
| AnkiNotes.ParagraphStep | anki_notes.py:116-134 | A `p` without a class must be empty. An `n` paragraph replaces the supplementary information and a `j` paragraph adds an entry. Any other class fails the article. |
| AnkiNotes.ParagraphsSucceed | anki_notes.py:116-134 | The paragraphs are read exactly when each of them is acceptable. |
| AnkiNotes.ParagraphsRead | anki_notes.py:116-136 | The supplementary information is the last `n` paragraph's text. The entries are the `j` paragraphs' entries, in order. |
| AnkiNotes.CreateArticle | anki_notes.py:109-136 | `Article.create` computes `ArticleOf`: the unique header's text, the information and the entries stated by `ParagraphsRead`. |
| AnkiNotes.AntonymsLost | anki_notes.py:99-100 | As written, antonyms without synonyms give `<ul></ul>`. Synonyms without antonyms give an empty `Ant.:` item. |
| AnkiNotes.AntonymsLostExample | anki_notes.py:95-102 | Two entries that differ only in their antonyms format alike. |
| AnkiNotes.SynAntAsWritten | anki_notes.py:93-103 | As written, the block is empty exactly when both lists are empty. With synonyms it starts with the `Sin.:` item and ends with the `Ant.:` item; without synonyms it is empty or `<ul></ul>`. |
| AnkiNotes.SynAntItems | anki_notes.py:94-102 | The corrected block is empty exactly when there are no synonyms and no antonyms. The `Sin.:` item comes first when synonyms exist, and the `Ant.:` item last when antonyms exist. |
| AnkiNotes.SynAntAgrees | anki_notes.py:93-103 | The corrected block equals the block as written exactly when the entry has both lists or neither. |
| AnkiNotes.ArticleItems | anki_notes.py:91-107 | The article is wrapped in `<ol>`/`</ol>`. The item of each entry sits at the position after the items of the entries before it. |
| AnkiNotes.ArticleAppend | anki_notes.py:92-105 | More entries add their items after the earlier ones, inside the list. |
| AnkiNotes.FormatSynAnt | anki_notes.py:93-103 | The loop body builds the synonym/antonym block of `SynAntItems`, with the `Ant.:` item guarded on the antonyms. `SynAntAgrees` shows it is what the code writes exactly when the entry has both lists or neither. |
| AnkiNotes.FormatArticle | anki_notes.py:91-107 | The accumulating loop builds the article's HTML (`ArticleHtml`), one item per entry in order as `ArticleItems` states. Each item uses the corrected block of `FormatSynAnt`. |
| AnkiNotes.SensesJoined | anki_notes.py:148-149 | The articles' `<div>`s are joined by `<br>`: one article gives its `<div>` alone, and each further article adds `<br>` and its `<div>`. |
| AnkiNotes.NoteFields | anki_notes.py:144-155 | `RAENote.format` has exactly the keys `lema`, `informacion_complementaria` and `acepciones_simples`. `lema` links the URL around the first headword. The others hold the first article's information and the joined articles. It fails with `IndexError` when there is no article. The articles' entries use the corrected block of `FormatSynAnt`. |
| AnkiNotes.NoteArticles | anki_notes.py:157-174 | `create` is None exactly when the page has no `article`. It fails exactly when some article cannot be read. Otherwise it gives one article per `article`, in order, under the dictionary URL of the text. |
| AnkiNotes.CreateNote | anki_notes.py:157-174 | The loop over the `article`s computes `NoteOf`, the note stated by `NoteArticles`. |
| CBookmarks.Filename | c_bookmarks.py:21-22 | The name ends in `.txt`, and what comes before is the stem. |
| CBookmarks.NewChapter | c_bookmarks.py:24-25 | The chapter between `----- ` and ` -----\n`. |
| CBookmarks.FormatNote | c_bookmarks.py:27-28 | `NOTE: `, the text, the separator ` \|\| `, the annotation, and a newline, each at its position; the length is the sum of the parts. |
| CBookmarks.FormatHighlight | c_bookmarks.py:30-31 | `HIGHLIGHT: `, the text, and a newline. |
| CBookmarks.NewChapterInjective | c_bookmarks.py:24-25 | A chapter line gives its chapter back. |
| CBookmarks.LinesDistinct | c_bookmarks.py:24-31 | Note, highlight and chapter lines never coincide. |
| CBookmarks.HighlightInjective | c_bookmarks.py:30-31 | A highlight line gives the highlighted text back. |
| CBookmarks.NoteInjective | c_bookmarks.py:27-28 | Given the length of the text, a note line gives back its text and its annotation. |
| SBookmarks.BaseName | s_bookmarks.py:44 | The last path component: a suffix of the path without separators, preceded by a separator when shorter than the path. |
| SBookmarks.StemOf | s_bookmarks.py:45 | The `splitext` root: the whole name exactly when no dot follows a non-dot character. Otherwise the name cut at its last dot, with a non-dot character before that dot. |
| SBookmarks.StemOfExtension | s_bookmarks.py:45 | A name with a non-dot character before its last dot loses exactly its last extension (`x.epub` gives `x`). |
| SBookmarks.BaseNameAfter | s_bookmarks.py:44 | The base name of `dir/name` is `name`. |
| SBookmarks.StemOfKepub | s_bookmarks.py:45 | `x.kepub.epub` loses only `.epub`. |
| SBookmarks.DstFileOfKepub | s_bookmarks.py:43-49 | The book `…/x.kepub.epub` is written to `./bookmarks/x.kepub.txt`. |
| SBookmarks.LineKind | s_bookmarks.py:65-71 | A line is a note line exactly for a NOTE row, and a highlight line exactly for a HIGHLIGHT row. |
| SBookmarks.Render | s_bookmarks.py:56-71 | Writing a volume fails (`chapters[0]`) exactly when it has no rows. |
| SBookmarks.ChapterRuns | s_bookmarks.py:56-63 | The output starts with the first row's chapter header. A new header appears exactly where the chapter changes. Rows of the same chapter add only their lines. |
| SBookmarks.ChapterList | s_bookmarks.py:51-54 | One chapter per row, equal to that row's content id. |
| SBookmarks.WriteVolume | s_bookmarks.py:56-71 | The writing loop, with its `chapter` variable, produces `Render`, the rendered volume stated by `ChapterRuns`. |
| SBookmarks.Bucket | s_bookmarks.py:30-37 | The volume ids appear in order of first sight. Each bucket holds that volume's rows in input order. One book is opened per volume id. The loop fails exactly when some book cannot be opened, with the first such book's error. |
| SBookmarks.BucketRow | s_bookmarks.py:31-37 | One row joins its volume's bucket, opening the volume when it is new. |
| SBookmarks.BucketNewVolume | s_bookmarks.py:34-37 | A new volume id opens its book and starts a bucket holding the row. |
| Seqs.FirstOccurrences | s_bookmarks.py:34 | The dictionary's keys: each key once, in order of first sight. |
| Seqs.GroupsPartition | s_bookmarks.py:30-37 | Every row is in the bucket of its key and in no other; no bucket is empty. |
| Seqs.GroupedSnoc | s_my_words.py:42-45 | Appending a row under its key, opening the key when new, keeps the grouping. |
| SBookmarks.ExportFiles | s_bookmarks.py:24-73 | `main` succeeds exactly when the output directory exists and every book opens. It then returns 0 and writes one file per volume in order of first sight. Each file is named after its book and holds its rows' chapter headers and lines. |
| SBookmarks.ExportFailsAt | s_bookmarks.py:34-35 | The first book that cannot be opened fails the run. |
| SBookmarks.ExportWritesAll | s_bookmarks.py:39-73 | When every book opens, every volume gets its file. |
| SBookmarks.MainAsWritten | s_bookmarks.py:24-73 | As written, `main` succeeds (with 0) exactly when the output directory exists and there are no bookmarks. Any bookmark makes it fail with `TypeError`. |
| SBookmarks.AllFilesWritten | s_bookmarks.py:39-71 | The per-volume loop writes one non-empty bucket per volume. |
| SBookmarks.Export | s_bookmarks.py:24-73 | The driver loops compute `ExportOf`, the export stated by `ExportFiles`. |
| SBookmarks.OpenMissesEncoding | s_bookmarks.py:35 | As written, one readable bookmark already makes `main` fail with a `TypeError`, where the corrected export succeeds. |
| SMyWords.CheckDecks | s_my_words.py:30-38 | The exit code is 1 exactly when some configured deck is missing from Anki, and 0 otherwise. |
| SMyWords.GroupBySuffix | s_my_words.py:40-45 | The rows are grouped by dictionary suffix, in order of first sight, keeping input order in each group. |
| SMyWords.GroupedGroups | s_my_words.py:40-45 | That grouping is unique. |
| SMyWords.DeckOf | s_my_words.py:16-18 | The deck configured for a suffix, and None exactly when there is none. |
| SMyWords.NoteOfWord | s_my_words.py:57-65 | A word gives no note exactly when the dictionary has none. Otherwise the note has type `RAE` and the note's fields plus `kobo_text` set to the word. |
| SMyWords.NotesOfWords | s_my_words.py:56-65 | A group's notes are made exactly when every lookup succeeds. They are then the notes of the words that have one, in order, each tagged with its word. |
| SMyWords.CollectedSucceeds | s_my_words.py:47-65 | Collecting succeeds exactly when every configured suffix's notes can be made; unconfigured suffixes are skipped. |
| SMyWords.DecksOf | s_my_words.py:53-55 | The decks of the configured suffixes. |
| SMyWords.CollectedKeys | s_my_words.py:47-65 | Each deck is listed once, in order of first sight, and has an entry. |
| SMyWords.CollectedDecks | s_my_words.py:47-65 | The decks collected are exactly those of the configured suffixes seen. |
| SMyWords.CollectedRae | s_my_words.py:16-65 | With the `-es`→`RAE` table, the result is the `RAE` notes exactly when `-es` occurs, and nothing otherwise. |
| SMyWords.CollectNotes | s_my_words.py:47-65 | The suffix loop computes `CollectedFrom`, the collection stated by `CollectedKeys` and `CollectedDecks`. |
| SMyWords.CreateNotes | s_my_words.py:56-65 | The word loop computes `WordNotes`, the group's notes stated by `NotesOfWords`. |
| SMyWords.Query | s_my_words.py:70 | The query is the text, after `kobo_text:`, between double quotes. |
| SMyWords.Tagged | s_my_words.py:67-68 | One (deck, note) pair per note, in order. |
| SMyWords.UpsertSteps | s_my_words.py:67-79 | Notes are handled in order: added when the search finds none, updated with the id found when it finds one. The run stops with an `AssertionError` at the first note with several matches. It returns 0 when every note was handled. |
| SMyWords.UpsertNotes | s_my_words.py:67-79 | The nested loops compute `Upserts`, the run stated by `UpsertSteps`. |
| SMyWords.MyWords | s_my_words.py:26-81 | `main` is `MyWordsOf`: the deck gate, the grouping, the collection and the upserts, with the configured table, as `DeckGate` and `MyWordsRae` state. |
| SMyWords.UpsertsZero | s_my_words.py:27-81 | The success path returns 0. |
| SMyWords.DeckGate | s_my_words.py:30-38 | The result is 1 exactly when a deck is missing, and then nothing is added or updated. |
| SMyWords.MyWordsRae | s_my_words.py:26-81 | With every deck present and some `-es` word, the run is the upserts of the `-es` words' notes into `RAE`, unless making them fails. It ends with 0 exactly when every note was handled. |
| Strings.Strip | web.py:18 | The result is the input with all leading and trailing white space (Python's `str.isspace`) removed. |
| Strings.Split | kobo.py:394 | `split('/')` gives at least one part, and no part contains the separator. |
| Strings.JoinSplit | kobo.py:394 | Joining the parts of a split with the separator gives the string back. |
| Strings.JoinSplitReplaces | kobo.py:394 | Joining the parts with another string replaces each separator with it. |
| Strings.RegexLine | kobo.py:116 | What `re.search` with `^…$` and `.` sees: a string is matched when it is one line, or one line followed by a final newline. |
| Strings.EscapeDots | kobo.py:210 | The escaping the device applies to ids. It never shortens an id. |
| Strings.UnescapeEscape | kobo.py:210 | Replacing `\.` with `.` undoes that escaping. |
| Strings.NatToString | web.py:49 | The decimal digits of a number. |
| Strings.ParseNatToString | web.py:49 | Reading the decimal digits gives the number back. |
| Strings.BreaksNewRun | s_bookmarks.py:60-63 | Chapter breaks split exactly where the chapter changes. |
| Strings.BreaksSameRun | s_bookmarks.py:60-63 | Rows of the running chapter add only their lines. |
| Wrappers.MapAllValues | anki_notes.py:169-171 | Mapping over a list succeeds exactly when each item does, and keeps one result per item in order. |

## Left out

- The database reads `BookmarkTable.select_all` and `WordListTable.select_all`, and the sqlite connection (kobo.py:299-373). The model takes the rows as inputs. Their timestamps and the floating-point chapter progress are not modelled, so rows have no date fields.
- `ZipFile`, BeautifulSoup and the text decoding (kobo.py:39, 50; web.py:110-114). They are parameters: archives are maps from member names to bytes, the parser is a function to a node arena, and the decoder is a function of the encoding and the bytes.
- File writes (s_bookmarks.py:56-71) are modelled as (destination, contents) pairs. The `os.path.isdir` check (s_bookmarks.py:26) is a boolean input.
- The `Selenium` class (web.py:117-155). Its `get` is an oracle from URL to page text; waits and tabs are out.
- anki.py, the Anki HTTP client. `get_decks` is the list of deck names. `find_notes` is a function of the deck, the query and the actions so far. `add_note` and `update_note` are recorded as actions. Its printing of request errors is out.
- my_words.py, an older copy of s_my_words.py whose loop iterates over a single note. It has no coherent behaviour to model.
- The printed and `pprint` messages of s_my_words.py:34-35 and 50.
- KoboPaths.FormatPath: the join is modelled as separator concatenation. This leaves out two `os.path.join` cases. On Windows a bare drive such as `E:` gets no separator, and empty or absolute components collapse or reset the path. On POSIX an absolute `rel` replaces the volume.
- AnkiNotes.FormatSynAnt, AnkiNotes.FormatArticle and AnkiNotes.NoteFields use the corrected guard of `anki_notes.py:99`, so they differ from the code as written for an entry with only one of its two lists. `AnkiNotes.SynAntAgrees` states exactly where that happens, and `AnkiNotes.SynAntAsWritten` is the block as written.
- SBookmarks.BaseName: only the tail `os.path.split` returns is modelled. The head is not, so neither is the stripping of its trailing separators. Splitting off a Windows drive prefix is not modelled either; that case cannot arise here, because `FormatPath` always puts a separator after the volume.
- The class hierarchy `Deck`/`INote`/`RAENote` (anki_notes.py:7-30). Only the RAE note exists, so `inote_cls.create` is the RAE lookup. s_my_words.py imports it as `c_anki_notes`, which is taken to be anki_notes.py.
- The unreachable `case _` for bookmark types (s_bookmarks.py:70-71): the type is a two-valued datatype, and an unknown name already fails in `TypeOfName`.
- The unused `chapter` and `kepub` parameters of the formatter (c_bookmarks.py:27-31).
- Web.NextSiblings: the `e_parent != parent` test (web.py:72) never stops the walk, because siblings share their parent. The loop therefore always ends at the last sibling.
- SMyWords.UpsertNotes: notes of a deck are stored by name, so a deck met again under a second suffix replaces the first deck's notes, as `notes[deck.name] = []` does.
- Reading-order sorting, overlap grouping, the Markdown renderer and image extraction are not part of this model: no file of the repository's core implements them.

## Findings

| source | as written | input that shows it | evidently intended | confidence | as-written member | corrected member |
|---|---|---|---|---|---|---|
| anki_notes.py:99 | the `Ant.:` item is guarded by `len(entry.synonyms) != 0` | an entry with antonyms `["a"]` and no synonyms formats as `<ul></ul>`; one with synonyms and no antonyms gets an empty `<li>Ant.: </li>` | guard the `Ant.:` item on the antonyms | not executed | AnkiNotes.AntonymsLost | AnkiNotes.SynAntItems, AnkiNotes.FormatSynAnt, AnkiNotes.FormatArticle, AnkiNotes.NoteFields |
| s_bookmarks.py:35 | `KEPUB.open(volume_id)` passes no encoding and stores the returned tuple as the book | any bookmark table with one row: the call raises `TypeError` | `KEPUB.open(volume_id, ENCODING)[0]` | not executed | SBookmarks.OpenMissesEncoding | SBookmarks.ExportFiles |
