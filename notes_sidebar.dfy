/** The sidebar: the search filter over the note list, and how the selection
    moves when a note is created or deleted from it. */
module NotesSidebar {
  import opened Schema
  import opened Sequences
  import Storage

  // ---------------------------------------------------------------------
  // Search
  // ---------------------------------------------------------------------

  /** `toLowerCase` on one character, restricted to the ASCII letters. */
  function ToLower(c: char): (r: char)
    ensures 'A' <= c <= 'Z' ==> r as int == c as int + 32
    ensures !('A' <= c <= 'Z') ==> r == c
  {
    if 'A' <= c <= 'Z' then (c as int + 32) as char else c
  }

  /** `toLowerCase` on a string, character by character. */
  function Lower(s: string): (r: string)
    ensures |r| == |s|
    ensures forall i :: 0 <= i < |s| ==> r[i] == ToLower(s[i])
  {
    if s == [] then [] else [ToLower(s[0])] + Lower(s[1..])
  }

  /** `needle` occurs in `hay` starting at position `i`. */
  predicate OccursAt(hay: string, needle: string, i: nat) {
    i + |needle| <= |hay| && hay[i..i + |needle|] == needle
  }

  /** `String.prototype.includes`: `needle` occurs somewhere in `hay`. */
  function Includes(hay: string, needle: string): (b: bool)
    ensures b <==> exists i: nat :: OccursAt(hay, needle, i)
    decreases |hay|
  {
    if needle <= hay then
      assert OccursAt(hay, needle, 0);
      true
    else if hay == [] then
      false
    else
      var b := Includes(hay[1..], needle);
      if b then
        ghost var i: nat :| OccursAt(hay[1..], needle, i);
        assert OccursAt(hay, needle, i + 1) by {
          assert hay[i + 1..i + 1 + |needle|] == hay[1..][i..i + |needle|];
        }
        true
      else
        assert forall i: nat :: !OccursAt(hay, needle, i) by {
          forall i: nat ensures !OccursAt(hay, needle, i) {
            if i > 0 && OccursAt(hay, needle, i) {
              assert hay[1..][i - 1..i - 1 + |needle|] == hay[i..i + |needle|];
              assert OccursAt(hay[1..], needle, i - 1);
            }
          }
        }
        false
  }

  /** A note matches when its lower-cased title or content contains the
      lower-cased query. */
  predicate Matches(note: Note, query: string) {
    Includes(Lower(note.title), Lower(query)) || Includes(Lower(note.content), Lower(query))
  }

  /** `notes.filter(...)`: the matching notes, in their order. */
  function Filter(notes: seq<Note>, query: string): (r: seq<Note>)
    ensures IsSubsequence(r, notes)
    ensures forall i :: 0 <= i < |r| ==> Matches(r[i], query)
    ensures forall n :: multiset(r)[n] == if Matches(n, query) then multiset(notes)[n] else 0
  {
    if notes == [] then []
    else
      var rest := Filter(notes[1..], query);
      assert notes == [notes[0]] + notes[1..];
      if Matches(notes[0], query) then
        assert ([notes[0]] + rest)[1..] == rest;
        [notes[0]] + rest
      else
        rest
  }

  /** `filteredNotes`: the filtered list, or the empty list while the notes
      have not been loaded. */
  function FilteredNotes(notes: Option<seq<Note>>, query: string): (r: seq<Note>)
    ensures notes.None? ==> r == []
    ensures notes.Some? ==> r == Filter(notes.value, query)
  {
    if notes.Some? then Filter(notes.value, query) else []
  }

  /** An empty query keeps every note. */
  lemma {:induction false} EmptyQueryKeepsAll(notes: seq<Note>)
    ensures Filter(notes, "") == notes
  {
    if notes != [] {
      assert Lower("") == "";
      assert Includes(Lower(notes[0].title), "") by {
        assert "" <= Lower(notes[0].title);
      }
      EmptyQueryKeepsAll(notes[1..]);
    }
  }

  // ---------------------------------------------------------------------
  // Selection after create and delete
  // ---------------------------------------------------------------------

  /** What `handleCreateNote` asks the store to create. */
  const NewNotePayload: InsertNote := InsertNote(Some(DefaultTitle), Some(""))

  /** The selection after `handleCreateNote`: the new note's id when the
      create succeeded (`created` is the returned note); unchanged when it
      failed. The handler itself, which applies this to the page's selection,
      is `NotesPage.NotesPage.HandleCreateNote`. */
  function SelectionAfterCreate(selected: Option<int>, created: Option<Note>): (r: Option<int>)
    ensures created.Some? ==> r == Some(created.value.id)
    ensures created.None? ==> r == selected
  {
    if created.Some? then Some(created.value.id) else selected
  }

  /** The note the sidebar's create button stores is an empty "Untitled Note",
      and it becomes the selection whatever the filter shows. */
  lemma CreatedNoteIsSelected(selected: Option<int>, id: int, now: int)
    ensures var n := Storage.NewNote(id, NewNotePayload, now);
            && n.title == "Untitled Note" && n.content == ""
            && n.createdAt == n.updatedAt == now
            && SelectionAfterCreate(selected, Some(n)) == Some(id)
  {
  }

  /** How many entries at the head of `filtered` carry `noteId`. */
  function LeadingWithId(filtered: seq<Note>, noteId: int): (k: nat)
    ensures k <= |filtered|
    ensures forall j :: 0 <= j < k ==> filtered[j].id == noteId
    ensures k < |filtered| ==> filtered[k].id != noteId
  {
    if filtered == [] || filtered[0].id != noteId then 0
    else 1 + LeadingWithId(filtered[1..], noteId)
  }

  /** `filteredNotes.filter(note => note.id !== noteId)`: every other note,
      in order; its head is the first entry that does not carry `noteId`. */
  function Remaining(filtered: seq<Note>, noteId: int): (r: seq<Note>)
    ensures IsSubsequence(r, filtered)
    ensures forall n :: multiset(r)[n] == if n.id != noteId then multiset(filtered)[n] else 0
    ensures r == [] <==> LeadingWithId(filtered, noteId) == |filtered|
    ensures r != [] ==> r[0] == filtered[LeadingWithId(filtered, noteId)]
  {
    if filtered == [] then []
    else
      var rest := Remaining(filtered[1..], noteId);
      assert filtered == [filtered[0]] + filtered[1..];
      if filtered[0].id != noteId then
        assert ([filtered[0]] + rest)[1..] == rest;
        [filtered[0]] + rest
      else
        rest
  }

  /** The selection after `handleDeleteNote(noteId)`. `deleted` says whether
      the delete request succeeded; `filtered` is the list the sidebar showed
      when the delete was issued. When the selected note was deleted, the
      first other note of that list is selected, or nothing when there is
      none; otherwise the selection stays. The handler itself, which applies
      this to the page's selection, is `NotesPage.NotesPage.HandleDeleteNote`. */
  function SelectionAfterDelete(selected: Option<int>, noteId: int, filtered: seq<Note>, deleted: bool): (r: Option<int>)
    ensures !deleted || selected != Some(noteId) ==> r == selected
    ensures deleted && selected == Some(noteId) ==>
              (r.None? <==> forall i :: 0 <= i < |filtered| ==> filtered[i].id == noteId)
    ensures deleted && selected == Some(noteId) && r.Some? ==>
              var k := LeadingWithId(filtered, noteId);
              k < |filtered| && r.value == filtered[k].id && r.value != noteId
  {
    if deleted && selected == Some(noteId) then
      var remaining := Remaining(filtered, noteId);
      if |remaining| > 0 then Some(remaining[0].id) else None
    else
      selected
  }
}
