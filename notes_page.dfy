/** The notes page: it owns the selected note id, selects the first note once
    the list arrives, hands the sidebar its setter as `onNoteSelect`, and
    passes the editor the selected note or null. */
module NotesPage {
  import opened Schema
  import Storage
  import NotesSidebar
  import NoteEditor

  /** `!selectedNoteId`: nothing is selected, or the id is the falsy 0. */
  predicate NoSelection(selected: Option<int>) {
    selected.None? || selected.value == 0
  }

  /** The auto-select effect's decision: when the list is loaded and
      non-empty and nothing is selected, the first note's id; otherwise the
      selection as it was. */
  function AutoSelection(selected: Option<int>, notes: Option<seq<Note>>): (r: Option<int>)
    ensures notes.Some? && |notes.value| > 0 && NoSelection(selected) ==> r == Some(notes.value[0].id)
    ensures notes.None? || |notes.value| == 0 || !NoSelection(selected) ==> r == selected
  {
    if notes.Some? && |notes.value| > 0 && NoSelection(selected) then Some(notes.value[0].id) else selected
  }

  /** The effect re-runs when the selection it set changes; with store ids,
      which are never 0, the second run changes nothing. */
  lemma AutoSelectionSettles(selected: Option<int>, notes: Option<seq<Note>>)
    requires notes.Some? ==> forall i :: 0 <= i < |notes.value| ==> notes.value[i].id >= 1
    ensures AutoSelection(AutoSelection(selected, notes), notes) == AutoSelection(selected, notes)
  {
  }

  /** On the list the store returns, most recently updated first, the
      auto-selected note is a most recently updated one. */
  lemma AutoSelectsMostRecent(selected: Option<int>, notes: seq<Note>)
    requires Storage.SortedByRecency(notes) && |notes| > 0 && NoSelection(selected)
    ensures AutoSelection(selected, Some(notes)) == Some(notes[0].id)
    ensures forall i :: 0 <= i < |notes| ==> notes[i].updatedAt <= notes[0].updatedAt
  {
  }

  /** `selectedNote || null`: `useNote` fetches only for a truthy id, and the
      fetch answers with the stored note or nothing. */
  function ResolveSelected(store: map<int, Note>, selected: Option<int>): (r: Option<Note>)
    ensures NoSelection(selected) ==> r.None?
    ensures !NoSelection(selected) ==> (r.Some? <==> selected.value in store)
    ensures r.Some? ==> r.value == store[selected.value]
  {
    if NoSelection(selected) || selected.value !in store then None else Some(store[selected.value])
  }

  /** A selection that resolves to no note gives the editor null: it shows the
      "No note selected" placeholder and the auto-save never writes. */
  lemma UnresolvedSelectionNeverSaves(store: map<int, Note>, selected: Option<int>, debouncedTitle: string, debouncedContent: string)
    requires NoSelection(selected) || selected.value !in store
    ensures ResolveSelected(store, selected) == None
    ensures NoteEditor.AutoSave(ResolveSelected(store, selected), debouncedTitle, debouncedContent) == None
  {
  }

  class NotesPage {
    var selectedNoteId: Option<int>

    constructor ()
      ensures selectedNoteId == None
    {
      selectedNoteId := None;
    }

    /** `setSelectedNoteId`, which the sidebar receives as `onNoteSelect`. */
    method OnNoteSelect(id: Option<int>)
      modifies this
      ensures selectedNoteId == id
    {
      selectedNoteId := id;
    }

    /** The effect that auto-selects the first note once the list is loaded. */
    method AutoSelectEffect(notes: Option<seq<Note>>)
      modifies this
      ensures selectedNoteId == AutoSelection(old(selectedNoteId), notes)
      ensures !NoSelection(old(selectedNoteId)) ==> selectedNoteId == old(selectedNoteId)
    {
      if notes.Some? && |notes.value| > 0 && NoSelection(selectedNoteId) {
        selectedNoteId := Some(notes.value[0].id);
      }
    }

    /** The sidebar's `handleCreateNote` after the create request settled:
        `created` is the note the store returned, or None when it failed. */
    method HandleCreateNote(created: Option<Note>)
      modifies this
      ensures selectedNoteId == NotesSidebar.SelectionAfterCreate(old(selectedNoteId), created)
    {
      if created.Some? {
        OnNoteSelect(Some(created.value.id));
      }
    }

    /** The sidebar's `handleDeleteNote(noteId)` after the delete request
        settled (`deleted` false when it failed). The handler is a closure
        made when the list was rendered: `selectedAtClick` is the selection it
        captured and `filtered` the list it showed. It compares the captured
        selection, not the current one, so a note selected while the request
        was in flight is overridden when the captured one was deleted. */
    method HandleDeleteNote(noteId: int, selectedAtClick: Option<int>, filtered: seq<Note>, deleted: bool)
      modifies this
      ensures deleted && selectedAtClick == Some(noteId) ==>
                selectedNoteId == NotesSidebar.SelectionAfterDelete(selectedAtClick, noteId, filtered, deleted)
      ensures !deleted || selectedAtClick != Some(noteId) ==> selectedNoteId == old(selectedNoteId)
    {
      if deleted && selectedAtClick == Some(noteId) {
        var remaining := NotesSidebar.Remaining(filtered, noteId);
        if |remaining| > 0 {
          OnNoteSelect(Some(remaining[0].id));
        } else {
          OnNoteSelect(None);
        }
      }
    }
  }
}
