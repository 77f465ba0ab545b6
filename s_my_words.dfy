/** The word exporter (s_my_words.py): the words looked up on the reader become
    dictionary notes, added to the flashcard deck configured for their dictionary or
    updating the note already there for the same word. The flashcard service is given as
    its deck list and a lookup; what the exporter asks it to do is the run's list of
    actions. */
module SMyWords {
  import opened Wrappers
  import opened Seqs
  import opened Web
  import opened KoboTables
  import opened AnkiNotes

  /** `Deck` (anki_notes.py:7-11): a flashcard deck and the note class of its words.
      The one note class is RAENote, so a deck is its name. */
  datatype Deck = Deck(name: string)

  /** `DICT_SUFFIX_DECK` (s_my_words.py:16-18): the deck of each dictionary suffix. */
  const SuffixDecks: seq<(string, Deck)> := [("-es", Deck("RAE"))]

  /** The field that records which word a note was made for (s_my_words.py:23). */
  const KoboTextField := "kobo_text"

  /** `anki.Note` (anki.py:12-16): a note type and its fields. */
  datatype Note = Note(noteType: string, fields: map<string, string>)

  /** A change asked of the flashcard service: `add_note` (anki.py:26-35) or
      `update_note` (anki.py:38-46). */
  datatype Action = AddNote(note: Note, deck: string) | UpdateNote(note: Note, id: int)

  /** What `main` returns (or the exception it raises) and the changes it made to the
      flashcard collection first. */
  datatype Run = Run(outcome: Result<int>, actions: seq<Action>)

  /** The note class of a deck applied to a word: `create` on the word's text, then
      `format` with the text under `kobo_text` (s_my_words.py:57-63); no note when the
      dictionary has no entry for the word. */
  type NoteMaker = WordRow -> Result<Option<Note>>

  /** `find_notes` (anki.py:49-54): the ids of the notes of a deck that match a query,
      given the changes already made. */
  type Finder = (string, string, seq<Action>) -> seq<int>

  // ---------------------------------------------------------------- the deck gate

  /** Some configured deck is not among the service's decks. */
  predicate DeckMissing(config: seq<(string, Deck)>, ankiDecks: seq<string>) {
    exists k :: 0 <= k < |config| && config[k].1.name !in ankiDecks
  }

  /** The check of s_my_words.py:30-35: 1 when a configured deck is missing, else 0. */
  method CheckDecks(config: seq<(string, Deck)>, ankiDecks: seq<string>) returns (exitCode: int)
    ensures exitCode == 1 <==> DeckMissing(config, ankiDecks)
    ensures exitCode == 0 <==> !DeckMissing(config, ankiDecks)
  {
    exitCode := 0;
    var i := 0;
    while i < |config|
      invariant i <= |config|
      invariant exitCode == 0 || exitCode == 1
      invariant exitCode == 1 <==> exists k :: 0 <= k < i && config[k].1.name !in ankiDecks
    {
      var deck := config[i].1;
      if deck.name !in ankiDecks {
        exitCode := 1;
      }
      i := i + 1;
    }
  }

  // ---------------------------------------------------------------- grouping

  /** The dictionary of a word row. */
  function SuffixOf(w: WordRow): string {
    w.dictSuffix
  }

  /** The grouping of s_my_words.py:40-45: the suffixes in order of first occurrence and
      each suffix's rows in their order. */
  method GroupBySuffix(rows: seq<WordRow>) returns (order: seq<string>, groups: map<string, seq<WordRow>>)
    ensures Grouped(rows, SuffixOf, order, groups)
  {
    order := [];
    groups := map[];
    var i := 0;
    while i < |rows|
      invariant i <= |rows|
      invariant Grouped(rows[..i], SuffixOf, order, groups)
    {
      var row := rows[i];
      assert rows[..i + 1] == rows[..i] + [row];
      GroupedSnoc(rows[..i], row, SuffixOf, order, groups);
      if row.dictSuffix !in groups {
        groups := groups[row.dictSuffix := []];
        order := order + [row.dictSuffix];
      }
      groups := groups[row.dictSuffix := groups[row.dictSuffix] + [row]];
      i := i + 1;
    }
    assert rows[..i] == rows;
  }

  /** The groups of the suffixes in `order`. */
  function GroupsOf(rows: seq<WordRow>, order: seq<string>): map<string, seq<WordRow>> {
    map s | s in order :: Filter(rows, KeyIs(SuffixOf, s))
  }

  /** A grouping of the rows is their groups. */
  lemma GroupedGroups(rows: seq<WordRow>, order: seq<string>, groups: map<string, seq<WordRow>>)
    requires Grouped(rows, SuffixOf, order, groups)
    ensures order == FirstOccurrences(rows, SuffixOf) && groups == GroupsOf(rows, order)
  {
    assert groups.Keys == GroupsOf(rows, order).Keys;
  }

  // ---------------------------------------------------------------- the notes

  /** The deck configured for a suffix; the first entry for it, like a dictionary's
      only one. */
  function DeckOf(config: seq<(string, Deck)>, suffix: string): (r: Option<Deck>)
    ensures r.None? <==> forall k :: 0 <= k < |config| ==> config[k].0 != suffix
    ensures r.Some? ==> exists k :: 0 <= k < |config| && config[k] == (suffix, r.value)
  {
    if config == [] then None
    else if config[0].0 == suffix then Some(config[0].1)
    else
      var r := DeckOf(config[1..], suffix);
      assert r.Some? ==> exists k :: 1 <= k < |config| && config[k] == (suffix, r.value) by {
        if r.Some? {
          var k :| 0 <= k < |config[1..]| && config[1..][k] == (suffix, r.value);
          assert config[k + 1] == (suffix, r.value);
        }
      }
      assert r.None? ==> forall k :: 0 <= k < |config| ==> config[k].0 != suffix by {
        if r.None? {
          forall k | 0 <= k < |config|
            ensures config[k].0 != suffix
          {
            if k > 0 {
              assert config[k] == config[1..][k - 1];
            }
          }
        }
      }
      r
  }

  /** The note of one word (s_my_words.py:57-65): `RAENote.create`, then `format` with
      the word's text under `kobo_text`; no note when the dictionary has no entry. */
  function NoteOfWord(w: WordRow, fetch: string -> string, parse: string -> Html): (r: Result<Option<Note>>)
    ensures r.Fail? <==> NoteOf(w.text, fetch, parse).Fail?
    ensures r == Ok(None) <==> NoteOf(w.text, fetch, parse) == Ok(None)
    ensures r.Ok? && r.value.Some? ==>
      && NoteOf(w.text, fetch, parse).Ok? && NoteOf(w.text, fetch, parse).value.Some?
      && NoteFields(NoteOf(w.text, fetch, parse).value.value).Ok?
      && r.value.value.noteType == RaeNoteType
      && r.value.value.fields ==
           NoteFields(NoteOf(w.text, fetch, parse).value.value).value[KoboTextField := w.text]
  {
    NoteArticles(w.text, fetch, parse);
    var made :- NoteOf(w.text, fetch, parse);
    match made
    case None => Ok(None)
    case Some(n) =>
      Ok(Some(Note.Note(RaeNoteType, NoteFields(n).value[KoboTextField := w.text])))
  }

  /** `RAENote.create` followed by `format`, as a value to map over the words. */
  function MakeNote(fetch: string -> string, parse: string -> Html): (f: WordRow -> Result<Option<Note>>)
    ensures forall w :: f(w) == NoteOfWord(w, fetch, parse)
  {
    w => NoteOfWord(w, fetch, parse)
  }

  /** The loop of s_my_words.py:56-65 over one suffix's words: the notes `make` gives,
      in order, stopping at the first exception. */
  function WordNotes(words: seq<WordRow>, make: NoteMaker): Result<seq<Note>> {
    MapSome(words, make, [])
  }

  /** The notes of a suffix's words are made exactly when no word's dictionary lookup
      raises; they are, in order, the notes of the words that make one: a word without a
      dictionary entry contributes nothing, and each note records its word's text. */
  lemma NotesOfWords(words: seq<WordRow>, fetch: string -> string, parse: string -> Html)
    ensures WordNotes(words, MakeNote(fetch, parse)).Ok? <==>
      forall k :: 0 <= k < |words| ==> NoteOf(words[k].text, fetch, parse).Ok?
    ensures WordNotes(words, MakeNote(fetch, parse)).Ok? ==>
      var r := WordNotes(words, MakeNote(fetch, parse)).value;
      var m := Filter(words, GivesSome(MakeNote(fetch, parse)));
      && |r| == |m|
      && forall j :: 0 <= j < |m| ==>
           && NoteOfWord(m[j], fetch, parse) == Ok(Some(r[j]))
           && r[j].noteType == RaeNoteType && r[j].fields[KoboTextField] == m[j].text
  {
    MapSomeValues(words, MakeNote(fetch, parse), []);
  }

  /** The notes of each suffix's words, as a value to map over the suffixes. */
  function SuffixNotes(groups: map<string, seq<WordRow>>, make: NoteMaker): (f: string --> Result<seq<Note>>)
    ensures forall s :: s in groups ==> f.requires(s) && f(s) == WordNotes(groups[s], make)
  {
    s requires s in groups => WordNotes(groups[s], make)
  }

  /** The loop of s_my_words.py:47-65 from the suffix `order[0]` on, with `notesOf` the
      notes of a suffix's words: the deck names in the order first set and the notes of
      each deck, stopping at the first exception. A suffix without a deck is skipped; a
      deck set again gets the later suffix's notes. */
  function CollectedFrom(config: seq<(string, Deck)>, order: seq<string>, notesOf: string --> Result<seq<Note>>,
                         names: seq<string>, notes: map<string, seq<Note>>)
    : Result<(seq<string>, map<string, seq<Note>>)>
    requires forall s :: s in order ==> notesOf.requires(s)
    decreases |order|
  {
    if order == [] then Ok((names, notes))
    else
      assert order[0] in order;
      assert forall s :: s in order[1..] ==> s in order;
      match DeckOf(config, order[0])
      case None => CollectedFrom(config, order[1..], notesOf, names, notes)
      case Some(deck) =>
        var made :- notesOf(order[0]);
        CollectedFrom(config, order[1..], notesOf,
                      if deck.name in notes then names else names + [deck.name],
                      notes[deck.name := made])
  }

  /** The collection succeeds exactly when the words of every configured suffix do. */
  lemma {:induction false} CollectedSucceeds(config: seq<(string, Deck)>, order: seq<string>,
                                             notesOf: string --> Result<seq<Note>>,
                                             names: seq<string>, notes: map<string, seq<Note>>)
    requires forall s :: s in order ==> notesOf.requires(s)
    ensures CollectedFrom(config, order, notesOf, names, notes).Ok? <==>
      forall k :: 0 <= k < |order| && DeckOf(config, order[k]).Some? ==> notesOf(order[k]).Ok?
    decreases |order|
  {
    if order != [] {
      var s := order[0];
      var tail := order[1..];
      assert s in order;
      assert forall k :: 1 <= k < |order| ==> order[k] == tail[k - 1];
      assert forall x :: x in tail ==> x in order;
      match DeckOf(config, s)
      case None =>
        CollectedSucceeds(config, tail, notesOf, names, notes);
      case Some(deck) =>
        var made := notesOf(s);
        if made.Ok? {
          CollectedSucceeds(config, tail, notesOf, if deck.name in notes then names else names + [deck.name],
                            notes[deck.name := made.value]);
        }
    }
  }

  /** The decks configured for the suffixes of `order`. */
  function DecksOf(config: seq<(string, Deck)>, order: seq<string>): (r: set<string>)
    ensures forall k :: 0 <= k < |order| && DeckOf(config, order[k]).Some? ==> DeckOf(config, order[k]).value.name in r
    decreases |order|
  {
    if order == [] then {}
    else
      var rest := DecksOf(config, order[1..]);
      assert forall k :: 1 <= k < |order| ==> order[k] == order[1..][k - 1];
      match DeckOf(config, order[0])
      case None => rest
      case Some(deck) => {deck.name} + rest
  }

  /** The deck names of the collection are its keys, each once, in the order first set. */
  lemma {:induction false} CollectedKeys(config: seq<(string, Deck)>, order: seq<string>,
                                         notesOf: string --> Result<seq<Note>>,
                                         names: seq<string>, notes: map<string, seq<Note>>)
    requires forall s :: s in order ==> notesOf.requires(s)
    requires NoDuplicates(names) && forall n :: n in notes <==> n in names
    ensures var c := CollectedFrom(config, order, notesOf, names, notes);
      c.Ok? ==>
        && NoDuplicates(c.value.0) && |names| <= |c.value.0| && c.value.0[..|names|] == names
        && forall n :: n in c.value.1 <==> n in c.value.0
    decreases |order|
  {
    if order != [] {
      var s := order[0];
      var tail := order[1..];
      assert s in order;
      assert forall x :: x in tail ==> x in order;
      match DeckOf(config, s)
      case None =>
        CollectedKeys(config, tail, notesOf, names, notes);
      case Some(deck) =>
        var made := notesOf(s);
        if made.Ok? {
          var names' := if deck.name in notes then names else names + [deck.name];
          var notes' := notes[deck.name := made.value];
          assert forall n :: n in notes' <==> n in names';
          assert NoDuplicates(names');
          CollectedKeys(config, tail, notesOf, names', notes');
          var c := CollectedFrom(config, tail, notesOf, names', notes');
          if c.Ok? {
            assert c.value.0[..|names|] == c.value.0[..|names'|][..|names|];
          }
        }
    }
  }

  /** The deck names of the collection are the decks of the configured suffixes met. */
  lemma {:induction false} CollectedDecks(config: seq<(string, Deck)>, order: seq<string>,
                                          notesOf: string --> Result<seq<Note>>,
                                          names: seq<string>, notes: map<string, seq<Note>>)
    requires forall s :: s in order ==> notesOf.requires(s)
    requires forall n :: n in notes <==> n in names
    ensures var c := CollectedFrom(config, order, notesOf, names, notes);
      c.Ok? ==> forall n :: n in c.value.0 <==> n in names || n in DecksOf(config, order)
    decreases |order|
  {
    if order != [] {
      var s := order[0];
      var tail := order[1..];
      assert s in order;
      assert forall x :: x in tail ==> x in order;
      match DeckOf(config, s)
      case None =>
        CollectedDecks(config, tail, notesOf, names, notes);
      case Some(deck) =>
        var made := notesOf(s);
        if made.Ok? {
          var names' := if deck.name in notes then names else names + [deck.name];
          var notes' := notes[deck.name := made.value];
          assert forall n :: n in notes' <==> n in names';
          CollectedDecks(config, tail, notesOf, names', notes');
        }
    }
  }

  /** With the shipped configuration, the collection is the notes of the `-es` words in
      the deck RAE, or nothing when no word is from that dictionary. */
  lemma {:induction false} CollectedRae(order: seq<string>, notesOf: string --> Result<seq<Note>>,
                                        names: seq<string>, notes: map<string, seq<Note>>)
    requires forall s :: s in order ==> notesOf.requires(s)
    requires notesOf.requires("-es")
    requires (names, notes) == ([], map[]) ||
      (notesOf("-es").Ok? && (names, notes) == (["RAE"], map["RAE" := notesOf("-es").value]))
    ensures var c := CollectedFrom(SuffixDecks, order, notesOf, names, notes);
      && (c.Ok? <==> ("-es" in order ==> notesOf("-es").Ok?))
      && (c.Fail? ==> c.error == notesOf("-es").error)
      && (c.Ok? && ("-es" in order || names != []) ==>
            c.value == (["RAE"], map["RAE" := notesOf("-es").value]))
      && (c.Ok? && "-es" !in order && names == [] ==> c.value == ([], map[]))
    decreases |order|
  {
    if order != [] {
      var tail := order[1..];
      assert forall x :: x in tail ==> x in order;
      assert "-es" in order <==> order[0] == "-es" || "-es" in tail;
      if order[0] == "-es" {
        assert DeckOf(SuffixDecks, order[0]) == Some(Deck("RAE"));
        var made := notesOf("-es");
        if made.Ok? {
          var names' := if "RAE" in notes then names else names + ["RAE"];
          assert names' == ["RAE"];
          assert notes["RAE" := made.value] == map["RAE" := made.value];
          assert CollectedFrom(SuffixDecks, order, notesOf, names, notes) ==
            CollectedFrom(SuffixDecks, tail, notesOf, ["RAE"], map["RAE" := made.value]);
          CollectedRae(tail, notesOf, ["RAE"], map["RAE" := made.value]);
        }
      } else {
        assert DeckOf(SuffixDecks, order[0]).None?;
        CollectedRae(tail, notesOf, names, notes);
      }
    }
  }

  /** One suffix of the collection loop: skipped without a deck, otherwise its notes
      are set for its deck, the deck's name added when new. */
  lemma CollectedStep(config: seq<(string, Deck)>, order: seq<string>, i: nat,
                      notesOf: string --> Result<seq<Note>>, names: seq<string>, notes: map<string, seq<Note>>)
    requires i < |order| && forall s :: s in order[i..] ==> notesOf.requires(s)
    ensures forall s :: s in order[i + 1..] ==> notesOf.requires(s)
    ensures DeckOf(config, order[i]).None? ==>
      CollectedFrom(config, order[i..], notesOf, names, notes) ==
      CollectedFrom(config, order[i + 1..], notesOf, names, notes)
    ensures DeckOf(config, order[i]).Some? ==>
      var name := DeckOf(config, order[i]).value.name;
      && notesOf.requires(order[i])
      && (notesOf(order[i]).Fail? ==>
            CollectedFrom(config, order[i..], notesOf, names, notes) == Fail(notesOf(order[i]).error))
      && (notesOf(order[i]).Ok? ==>
            CollectedFrom(config, order[i..], notesOf, names, notes) ==
            CollectedFrom(config, order[i + 1..], notesOf, if name in notes then names else names + [name],
                          notes[name := notesOf(order[i]).value]))
  {
    assert order[i..][0] == order[i] && order[i..][1..] == order[i + 1..];
    assert order[i] in order[i..];
    assert forall s :: s in order[i + 1..] ==> s in order[i..];
  }

  /** The collection loop of s_my_words.py:47-65. */
  method CollectNotes(config: seq<(string, Deck)>, order: seq<string>, groups: map<string, seq<WordRow>>,
                      make: NoteMaker)
    returns (r: Result<(seq<string>, map<string, seq<Note>>)>)
    requires forall s :: s in order ==> s in groups
    ensures r == CollectedFrom(config, order, SuffixNotes(groups, make), [], map[])
  {
    var notesOf := SuffixNotes(groups, make);
    var names: seq<string> := [];
    var notes: map<string, seq<Note>> := map[];
    var i := 0;
    while i < |order|
      invariant i <= |order|
      invariant forall s :: s in order[i..] ==> s in groups
      invariant CollectedFrom(config, order, notesOf, [], map[]) ==
        CollectedFrom(config, order[i..], notesOf, names, notes)
    {
      var suffix := order[i];
      CollectedStep(config, order, i, notesOf, names, notes);
      assert suffix in order[i..];
      var deck := DeckOf(config, suffix);
      if deck.Some? {
        var name := deck.value.name;
        var deckNotes := CreateNotes(groups[suffix], make);
        if deckNotes.Fail? {
          return Fail(deckNotes.error);
        }
        if name !in notes {
          names := names + [name];
        }
        // `notes[deck.name] = []` and the appends: the deck's list is replaced.
        notes := notes[name := deckNotes.value];
      }
      i := i + 1;
    }
    r := Ok((names, notes));
  }

  /** The appends of s_my_words.py:56-65 for one suffix's words. */
  method CreateNotes(words: seq<WordRow>, make: NoteMaker) returns (r: Result<seq<Note>>)
    ensures r == WordNotes(words, make)
  {
    var deckNotes: seq<Note> := [];
    var j := 0;
    while j < |words|
      invariant j <= |words|
      invariant MapSome(words, make, []) == MapSome(words[j..], make, deckNotes)
    {
      assert words[j..][0] == words[j] && words[j..][1..] == words[j + 1..];
      var inote :- make(words[j]);
      if inote.Some? {
        deckNotes := deckNotes + [inote.value];
      }
      j := j + 1;
    }
    r := Ok(deckNotes);
  }

  // ---------------------------------------------------------------- adding and updating

  /** The query of s_my_words.py:70: the notes whose `kobo_text` is the word. */
  function Query(text: string): (q: string)
    ensures |q| == |KoboTextField| + |text| + 3
    ensures q[0] == '"' && q[|q| - 1] == '"' && q[1..|KoboTextField| + 2] == KoboTextField + ":"
    ensures q[|KoboTextField| + 2..|q| - 1] == text
  {
    "\"" + KoboTextField + ":" + text + "\""
  }

  /** The note to write and the deck it belongs to, for each note in turn
      (s_my_words.py:67-68), with `names` the keys of `notes` in order (see
      `CollectedKeys`); a name that is not a key would contribute nothing. */
  function Pending(names: seq<string>, notes: map<string, seq<Note>>): seq<(string, Note)>
    decreases |names|
  {
    if names == [] then []
    else (if names[0] in notes then Tagged(names[0], notes[names[0]]) else []) + Pending(names[1..], notes)
  }

  /** The notes of one deck, each with the deck's name. */
  function Tagged(deck: string, notes: seq<Note>): (r: seq<(string, Note)>)
    ensures |r| == |notes| && forall j :: 0 <= j < |r| ==> r[j] == (deck, notes[j])
  {
    seq(|notes|, j requires 0 <= j < |notes| => (deck, notes[j]))
  }

  /** The change made for a note, given the ids the lookup found: add it to its deck
      when there is none, otherwise update the one found (s_my_words.py:75-79). */
  function Decision(deck: string, note: Note, ids: seq<int>): Action
    requires |ids| <= 1
  {
    if |ids| == 0 then AddNote(note, deck) else UpdateNote(note, ids[0])
  }

  /** The loop of s_my_words.py:67-79 from the note `pending[0]` on, with `done` the
      changes made before it; more than one matching note fails the assertion. */
  function Upserts(pending: seq<(string, Note)>, find: Finder, done: seq<Action>): Run
    decreases |pending|
  {
    if pending == [] then Run(Ok(0), done)
    else
      var deck, note := pending[0].0, pending[0].1;
      if KoboTextField !in note.fields then Run(Fail(KeyError), done)
      else
        var ids := find(deck, Query(note.fields[KoboTextField]), done);
        if |ids| > 1 then Run(Fail(AssertionError), done)
        else Upserts(pending[1..], find, done + [Decision(deck, note, ids)])
  }

  /** The lookup the loop makes for the `k`-th note, after the changes `before`. */
  function FoundFor(pending: seq<(string, Note)>, k: nat, find: Finder, before: seq<Action>): seq<int>
    requires k < |pending| && KoboTextField in pending[k].1.fields
  {
    find(pending[k].0, Query(pending[k].1.fields[KoboTextField]), before)
  }

  /** The `k`-th note was written: it has its text field, the lookup after the changes
      before it found at most one note, and the change made is the decision on that. */
  predicate Written(pending: seq<(string, Note)>, k: nat, find: Finder, actions: seq<Action>, base: nat)
    requires k < |pending| && base + k < |actions|
  {
    && KoboTextField in pending[k].1.fields
    && |FoundFor(pending, k, find, actions[..base + k])| <= 1
    && actions[base + k] ==
         Decision(pending[k].0, pending[k].1, FoundFor(pending, k, find, actions[..base + k]))
  }

  /** The run writes the notes one after another, each with the decision on what the
      lookup then finds, and stops at the first note with no text field (KeyError) or
      more than one match (AssertionError); it returns 0 exactly when every note is
      written. */
  lemma {:induction false} UpsertSteps(pending: seq<(string, Note)>, find: Finder, done: seq<Action>)
    ensures var r := Upserts(pending, find, done);
      var n := |r.actions| - |done|;
      && |done| <= |r.actions| <= |done| + |pending| && r.actions[..|done|] == done
      && (forall k :: 0 <= k < n ==> Written(pending, k, find, r.actions, |done|))
      && (r.outcome.Ok? <==> n == |pending|)
      && (r.outcome.Ok? ==> r.outcome.value == 0)
      && (n < |pending| ==>
            if KoboTextField !in pending[n].1.fields then r.outcome == Fail(KeyError)
            else r.outcome == Fail(AssertionError) && |FoundFor(pending, n, find, r.actions)| > 1)
    decreases |pending|
  {
    if pending != [] {
      var deck, note := pending[0].0, pending[0].1;
      if KoboTextField in note.fields {
        var ids := find(deck, Query(note.fields[KoboTextField]), done);
        if |ids| <= 1 {
          var done' := done + [Decision(deck, note, ids)];
          var tail := pending[1..];
          UpsertSteps(tail, find, done');
          var r := Upserts(tail, find, done');
          assert r == Upserts(pending, find, done);
          var n := |r.actions| - |done|;
          assert r.actions[..|done|] == r.actions[..|done'|][..|done|];
          assert r.actions[..|done|] == done;
          forall k | 0 <= k < n
            ensures Written(pending, k, find, r.actions, |done|)
          {
            if k == 0 {
              assert r.actions[..|done|] == done;
              assert r.actions[|done|] == r.actions[..|done'|][|done|];
            } else {
              assert Written(tail, k - 1, find, r.actions, |done'|);
              assert pending[k] == tail[k - 1];
            }
          }
          if n < |pending| {
            assert pending[n] == tail[n - 1];
          }
        }
      }
    }
  }

  /** The add-or-update loop of s_my_words.py:67-79, over the decks in order and each
      deck's notes in order. */
  method UpsertNotes(names: seq<string>, notes: map<string, seq<Note>>, find: Finder) returns (r: Run)
    requires forall n :: n in names ==> n in notes
    ensures r == Upserts(Pending(names, notes), find, [])
  {
    var actions: seq<Action> := [];
    var i := 0;
    while i < |names|
      invariant i <= |names|
      invariant forall n :: n in names[i..] ==> n in notes
      invariant Upserts(Pending(names, notes), find, []) == Upserts(Pending(names[i..], notes), find, actions)
    {
      var deckName := names[i];
      var deckNotes := notes[deckName];
      assert names[i..][0] == deckName && names[i..][1..] == names[i + 1..];
      var rest := Pending(names[i + 1..], notes);
      assert Pending(names[i..], notes) == Tagged(deckName, deckNotes) + rest;
      var j := 0;
      while j < |deckNotes|
        invariant j <= |deckNotes|
        invariant Upserts(Pending(names, notes), find, []) ==
          Upserts(Tagged(deckName, deckNotes)[j..] + rest, find, actions)
      {
        var note := deckNotes[j];
        var todo := Tagged(deckName, deckNotes)[j..] + rest;
        assert todo[0] == (deckName, note) && todo[1..] == Tagged(deckName, deckNotes)[j + 1..] + rest;
        if KoboTextField !in note.fields {
          return Run(Fail(KeyError), actions);
        }
        var text := note.fields[KoboTextField];
        var noteIds := find(deckName, Query(text), actions);
        if |noteIds| > 1 {
          return Run(Fail(AssertionError), actions);
        }
        if |noteIds| == 0 {
          actions := actions + [AddNote(note, deckName)];
        } else {
          actions := actions + [UpdateNote(note, noteIds[0])];
        }
        j := j + 1;
      }
      assert Tagged(deckName, deckNotes)[j..] + rest == rest;
      i := i + 1;
    }
    r := Run(Ok(0), actions);
  }

  // ---------------------------------------------------------------- main

  /** `main` (s_my_words.py:26-81) on the deck list of the service, the word rows, the
      dictionary pages and the service's lookup. */
  function MyWordsOf(config: seq<(string, Deck)>, ankiDecks: seq<string>, rows: seq<WordRow>,
                     make: NoteMaker, find: Finder): Run
  {
    if DeckMissing(config, ankiDecks) then Run(Ok(1), [])
    else
      var order := FirstOccurrences(rows, SuffixOf);
      match CollectedFrom(config, order, SuffixNotes(GroupsOf(rows, order), make), [], map[])
      case Fail(e) => Run(Fail(e), [])
      case Ok(c) => Upserts(Pending(c.0, c.1), find, [])
  }

  /** `main` with the shipped configuration. */
  method MyWords(ankiDecks: seq<string>, rows: seq<WordRow>, fetch: string -> string,
                 parse: string -> Html, find: Finder) returns (r: Run)
    ensures r == MyWordsOf(SuffixDecks, ankiDecks, rows, MakeNote(fetch, parse), find)
  {
    var exitCode := CheckDecks(SuffixDecks, ankiDecks);
    if exitCode != 0 {
      return Run(Ok(exitCode), []);
    }
    var order, groups := GroupBySuffix(rows);
    GroupedGroups(rows, order, groups);
    var collected := CollectNotes(SuffixDecks, order, groups, MakeNote(fetch, parse));
    if collected.Fail? {
      return Run(Fail(collected.error), []);
    }
    CollectedKeys(SuffixDecks, order, SuffixNotes(groups, MakeNote(fetch, parse)), [], map[]);
    r := UpsertNotes(collected.value.0, collected.value.1, find);
  }

  /** The add-or-update loop returns 0 whenever it returns. */
  lemma {:induction false} UpsertsZero(pending: seq<(string, Note)>, find: Finder, done: seq<Action>)
    ensures Upserts(pending, find, done).outcome.Ok? ==> Upserts(pending, find, done).outcome.value == 0
    decreases |pending|
  {
    if pending != [] {
      var deck, note := pending[0].0, pending[0].1;
      if KoboTextField in note.fields {
        var ids := find(deck, Query(note.fields[KoboTextField]), done);
        if |ids| <= 1 {
          UpsertsZero(pending[1..], find, done + [Decision(deck, note, ids)]);
        }
      }
    }
  }

  /** A missing deck stops `main` with 1 before anything else: whatever the words, the
      dictionary and the lookup, no note is added or updated. Otherwise the run never
      returns 1. */
  lemma DeckGate(config: seq<(string, Deck)>, ankiDecks: seq<string>, rows: seq<WordRow>,
                 make: NoteMaker, find: Finder)
    ensures MyWordsOf(config, ankiDecks, rows, make, find).outcome == Ok(1) <==>
      DeckMissing(config, ankiDecks)
    ensures DeckMissing(config, ankiDecks) ==>
      MyWordsOf(config, ankiDecks, rows, make, find).actions == []
  {
    if !DeckMissing(config, ankiDecks) {
      var order := FirstOccurrences(rows, SuffixOf);
      var c := CollectedFrom(config, order, SuffixNotes(GroupsOf(rows, order), make), [], map[]);
      if c.Ok? {
        UpsertsZero(Pending(c.value.0, c.value.1), find, []);
      }
    }
  }

  /** Once the decks are all present, the shipped configuration makes `main` write the
      notes of the `-es` words, in order, to the deck RAE: each note is added when the
      lookup finds none and updates the one it finds otherwise, and `main` returns 0
      exactly when every note is written. A word lookup that raises stops `main` before
      any change. */
  lemma MyWordsRae(ankiDecks: seq<string>, rows: seq<WordRow>, make: NoteMaker, find: Finder)
    requires !DeckMissing(SuffixDecks, ankiDecks)
    requires "-es" in FirstOccurrences(rows, SuffixOf)
    ensures var made := WordNotes(Filter(rows, KeyIs(SuffixOf, "-es")), make);
      var run := MyWordsOf(SuffixDecks, ankiDecks, rows, make, find);
      && (made.Fail? ==> run == Run(Fail(made.error), []))
      && (made.Ok? ==>
            var pending := Tagged("RAE", made.value);
            && run == Upserts(pending, find, [])
            && (run.outcome == Ok(0) <==>
                  |run.actions| == |pending| &&
                  forall k :: 0 <= k < |pending| ==> Written(pending, k, find, run.actions, 0)))
  {
    var order := FirstOccurrences(rows, SuffixOf);
    var groups := GroupsOf(rows, order);
    var notesOf := SuffixNotes(groups, make);
    var words := Filter(rows, KeyIs(SuffixOf, "-es"));
    assert "-es" in groups && groups["-es"] == words;
    var made := notesOf("-es");
    assert made == WordNotes(words, make);
    CollectedRae(order, notesOf, [], map[]);
    var c := CollectedFrom(SuffixDecks, order, notesOf, [], map[]);
    var run := MyWordsOf(SuffixDecks, ankiDecks, rows, make, find);
    if made.Ok? {
      assert c == Ok((["RAE"], map["RAE" := made.value]));
      var pending := Tagged("RAE", made.value);
      assert Pending(c.value.0, c.value.1) == pending by {
        assert Pending(["RAE"], map["RAE" := made.value]) == pending + Pending([], map["RAE" := made.value]);
        assert pending + [] == pending;
      }
      assert run == Upserts(Pending(c.value.0, c.value.1), find, []);
      UpsertSteps(pending, find, []);
      UpsertsZero(pending, find, []);
    } else {
      assert c.Fail? && c.error == made.error;
      assert run == Run(Fail(made.error), []);
    }
  }
}
