# Notes: a verified model of the note store and the editor's decision rules

This project models the core of a small single-user note-taking web app. It has two parts.

- **The server's in-memory note store** (`MemStorage`) is a class. It holds a map from id to note and an id counter. It supports:
  - listing notes, most recently updated first;
  - getting one note;
  - creating a note, with defaults for the title and the content;
  - updating a note by merging a partial record and refreshing `updatedAt`;
  - deleting a note, reporting whether one was removed.
- **The client's decision rules** are functions over plain values, plus the component state that the source changes step by step:
  - **Editor:** the word count, the "last modified" label, the draft reload when the selected note changes, the auto-save write decision and the save-status indicator. The editor's draft and the dependencies of its two effects are a class.
  - **Sidebar:** the search filter, the create payload, and how the selection moves after a create or a delete.
  - **List item:** the content preview and its own "updated" label, which adds a days bucket.
  - **Notes page:** auto-selecting the first note, and turning the selected id into a note or null. The page's `selectedNoteId` is a class field.

Modules, one per file:

| file | module | source |
|---|---|---|
| `schema.dfy` | `Schema` | the note record, the insert and update payloads, `Option` |
| `sequences.dfy` | `Sequences` | order-preserving subsequences |
| `storage.dfy` | `Storage` | `server/storage.ts` |
| `note_editor.dfy` | `NoteEditor` | `client/src/components/note-editor.tsx` |
| `note_list_item.dfy` | `NoteListItem` | `client/src/components/note-list-item.tsx` |
| `notes_sidebar.dfy` | `NotesSidebar` | `client/src/components/notes-sidebar.tsx` |
| `notes_page.dfy` | `NotesPage` | `client/src/pages/notes.tsx` |

Time works as follows:
- A timestamp is an integer.
- The store's `new Date()` is a `now` parameter of `CreateNote` and `UpdateNote`.
- The "time ago" labels take the whole number of seconds between the current time and the note's `updatedAt`. `DiffSeconds` computes it from millisecond timestamps, rounding down.

React's effect scheduling works as follows in the model:
- The editor's two effects, `LoadDraftEffect` and `AutoSaveEffect`, record the dependencies they last ran with. Each acts only when its dependencies differ from the recorded ones.
- The page's `AutoSelectEffect` keeps no dependency record and acts on every call, whereas React runs it only when `notes` or `selectedNoteId` change. The result is the same, because on store ids a second application of the auto-select decision changes nothing (`NotesPage.AutoSelectionSettles`).
- `useDebounce` is not part of this model. The auto-save decision takes the two debounced values as given.

The store keeps a ghost set `issued` of every id it has handed out. Its invariant `Valid` says:
- the issued ids are exactly `1 .. currentId - 1`;
- every stored note sits under its own id, which was issued.

Together with `CreateNote`'s contract, this is the proof that ids are never reused, even after deletes.

The word count is checked against an independent reference count, `Runs`: the number of maximal runs of non-white-space characters. `IsSpace` is the full set of characters that a JavaScript `\s` matches.

The model also states how the editor behaves when the selection moves before the debounced values catch up. The auto-save decision compares the *previous* note's draft with the *new* note, and issues a write of that draft into the new note (`NoteEditor.StaleDraftIsWrittenToNewNote`). Whether this write happens at run time depends on the timing of `useDebounce`, which is not part of this model.

## Model

| member | source | states |
|---|---|---|
| Storage.MemStorage.constructor | server/storage.ts:15-18 | the store starts with no notes, the counter at 1 and no id issued |
| Storage.OrDefault | server/storage.ts:34-35 | `a \|\| b`: an absent or empty string falls back to the default, any other value is kept |
| Storage.NewNote | server/storage.ts:31-38 | the new note has the given id and `createdAt == updatedAt == now`; its title is the given one, or "Untitled Note" when absent or empty, so it is never empty; its content is the given one, or "" when absent |
| Storage.MemStorage.CreateNote | server/storage.ts:30-41 | the returned note carries the old counter value as its id, and the counter goes up by one; the id was never issued before and is not stored; the map gains exactly that note and every other entry is unchanged; the invariant is kept |
| Storage.MemStorage.GetNote | server/storage.ts:26-28 | a note is returned exactly when the id is stored; it is the stored note and carries that id |
| Storage.Merge | server/storage.ts:49-53 | the supplied fields overwrite the stored ones with no default, so an explicit empty title stays empty; fields not supplied are kept; id and createdAt are kept; updatedAt becomes `now` |
| Storage.MemStorage.UpdateNote | server/storage.ts:43-56 | an absent id yields None and leaves the map unchanged; a present id yields the merged note, which replaces that entry alone; the counter and the issued ids never change; the invariant is kept |
| Storage.MemStorage.DeleteNote | server/storage.ts:58-60 | the result is true exactly when the id was stored; afterwards the id is absent, every other entry is unchanged, and the counter is unchanged |
| Storage.MemStorage.Values | server/storage.ts:21 | `Array.from(notes.values())`: every stored note exactly once, so the result is a permutation of the map's values with the map's size |
| Storage.InsertByRecency | server/storage.ts:21-23 | inserting into a list that is ordered by descending `updatedAt` keeps it ordered and adds exactly that note to its multiset; the new head is that note or the old head |
| Storage.MemStorage.GetNotes | server/storage.ts:20-24 | the list is a permutation of the stored notes, has the map's size and is ordered by non-increasing `updatedAt` |
| Storage.CreateDeleteScenario | server/storage.ts:30-60 | a created note can be deleted once; a second delete reports false; the next create gets the following id and can be read back |
| Storage.ListOrderScenario | server/storage.ts:20-56 | notes A, B and C created at times 1, 2 and 3, then A updated at time 4, are listed as A, C, B |
| NoteEditor.IsSpace | client/src/components/note-editor.tsx:16 | the characters that `\s` matches and `trim` removes: the ECMAScript white space and line terminators |
| NoteEditor.SpaceEnd | client/src/components/note-editor.tsx:16 | the length of the leading white-space run: everything before it is white space and the character after it is not |
| NoteEditor.ContentEnd | client/src/components/note-editor.tsx:16 | where the trailing white-space run starts: everything from there on is white space and the character before it is not |
| NoteEditor.Trim | client/src/components/note-editor.tsx:16 | `trim()` is empty exactly when the text is blank; otherwise it neither starts nor ends with white space |
| NoteEditor.TrimPadding | client/src/components/note-editor.tsx:16 | the text is white space, then its trimmed form, then white space |
| NoteEditor.WordEnd | client/src/components/note-editor.tsx:16 | the length of the leading run of non-white-space characters |
| NoteEditor.SplitWs | client/src/components/note-editor.tsx:16 | `split(/\s+/)` on trimmed text yields at least one piece and no piece holds white space |
| NoteEditor.SplitCountsRuns | client/src/components/note-editor.tsx:16 | on trimmed, non-empty text the number of pieces equals the number of maximal non-white-space runs |
| NoteEditor.WordCountIsRuns | client/src/components/note-editor.tsx:15-17 | `getWordCount` equals the number of maximal runs of non-white-space characters |
| NoteEditor.WordCount | client/src/components/note-editor.tsx:15-17 | `getWordCount`: the count is 0 exactly when the text is empty or all white space |
| NoteEditor.WordCountPositive | client/src/components/note-editor.tsx:16 | a text that is not blank has at least one word |
| NoteEditor.WordCountIgnoresPadding | client/src/components/note-editor.tsx:16 | white space added before or after the text does not change its word count |
| NoteEditor.DiffSeconds | client/src/components/note-editor.tsx:22 | the difference in whole seconds, rounded down: `d * 1000 <= now - then < d * 1000 + 1000` |
| NoteEditor.EditorTimeAgo | client/src/components/note-editor.tsx:24-28 | below 60 seconds the label is "just now"; below an hour it is minutes, 1..59, rounded down; below a day it is hours, 1..23, rounded down; from a day on it is the date; there is never a days bucket |
| NoteEditor.AutoSave | client/src/components/note-editor.tsx:52-59 | no write exactly when there is no note or both debounced values equal the stored title and content; otherwise one write to `note.id` carrying both debounced values |
| NoteEditor.AutoSaveConverges | client/src/components/note-editor.tsx:51-61 | once the store merges the write, the note holds the debounced values and keeps its id and creation time, and the same debounced values issue no further write |
| NoteEditor.StaleDraftIsWrittenToNewNote | client/src/components/note-editor.tsx:51-61 | when the debounced values still hold a previous note's draft and its title differs from the new note's, the decision writes that draft into the newly selected note |
| NoteEditor.IdOf | client/src/components/note-editor.tsx:48 | `note?.id`: absent exactly when there is no note, and otherwise the note's id |
| NoteEditor.GetSaveStatus | client/src/components/note-editor.tsx:63-67 | "saving" exactly when a mutation is pending, even if an error is set; otherwise "error" exactly when the last one failed; otherwise "saved" |
| NoteEditor.StatusText | client/src/components/note-editor.tsx:64-66 | the indicator's text: "Saving...", "Error" or "Saved" |
| NoteEditor.StatusTextTellsStatus | client/src/components/note-editor.tsx:64-66 | two statuses show the same text exactly when they are the same status |
| NoteEditor.Editor.constructor | client/src/components/note-editor.tsx:32-33 | the draft title and content start empty, and neither effect has run |
| NoteEditor.Editor.SetTitle | client/src/components/note-editor.tsx:92 | typing in the title sets the draft title and changes nothing else |
| NoteEditor.Editor.SetContent | client/src/components/note-editor.tsx:138 | typing in the content area sets the draft content and changes nothing else |
| NoteEditor.Editor.LoadDraftEffect | client/src/components/note-editor.tsx:40-48 | when `note?.id` changed, the draft is overwritten with the note's title and content, or with "" and "" when there is no note; otherwise the draft is kept |
| NoteEditor.Editor.AutoSaveEffect | client/src/components/note-editor.tsx:51-61 | when a debounced value or `note?.id` changed, the effect issues exactly the AutoSave decision, otherwise nothing; the draft is untouched |
| NoteListItem.IsMarkup | client/src/components/note-list-item.tsx:27 | the characters of the class in `getPreview`'s pattern: `#`, `*`, `_`, `-` and the backquote |
| NoteListItem.StripMarkup | client/src/components/note-list-item.tsx:27 | the `replace` of every `#`, `*`, `_`, `-` and backquote by nothing: the result holds no markup character, keeps every other character with its count and in order, never grows, and leaves markup-free text unchanged |
| NoteListItem.GetPreview | client/src/components/note-list-item.tsx:26-28 | the preview holds at most 120 characters and no markup character; it is a prefix of the stripped content, and its length is the stripped length capped at 120 |
| NoteListItem.PreviewOfPlainShortText | client/src/components/note-list-item.tsx:27 | content with no markup and at most 120 characters is its own preview |
| NoteListItem.PreviewIdempotent | client/src/components/note-list-item.tsx:27 | the preview of a preview is the preview |
| NoteListItem.ListTimeAgo | client/src/components/note-list-item.tsx:13-24 | like the editor's label, plus days, 1..6, rounded down, from one day to below one week; only from a week on is it the date |
| NoteListItem.TimeAgoLabelsAgree | client/src/components/note-list-item.tsx:18-23 | below one day the list and the editor show the same label; from one day to a week the list shows days while the editor shows the date; from a week on both show the date |
| NotesSidebar.ToLower | client/src/components/notes-sidebar.tsx:24-25 | `toLowerCase` maps each ASCII capital to its small letter and leaves every other character alone |
| NotesSidebar.Lower | client/src/components/notes-sidebar.tsx:24-25 | a lower-cased string has the same length and is lower-cased character by character |
| NotesSidebar.Includes | client/src/components/notes-sidebar.tsx:24-25 | `includes` is true exactly when the needle occurs at some position of the haystack |
| NotesSidebar.Matches | client/src/components/notes-sidebar.tsx:23-25 | the filter's test: the lower-cased title or the lower-cased content contains the lower-cased query |
| NotesSidebar.Filter | client/src/components/notes-sidebar.tsx:23-26 | the filtered list is an order-preserving subsequence of the notes; it keeps exactly the notes whose lower-cased title or content contains the lower-cased query, with their counts |
| NotesSidebar.FilteredNotes | client/src/components/notes-sidebar.tsx:23-26 | notes that have not loaded give the empty list; loaded notes give the filter |
| NotesSidebar.EmptyQueryKeepsAll | client/src/components/notes-sidebar.tsx:23-26 | an empty query keeps every note, in order |
| NotesSidebar.NewNotePayload | client/src/components/notes-sidebar.tsx:30-33 | the create button's request: title "Untitled Note" and empty content |
| NotesSidebar.SelectionAfterCreate | client/src/components/notes-sidebar.tsx:28-42 | a successful create selects the new note's id; a failed create leaves the selection alone |
| NotesSidebar.CreatedNoteIsSelected | client/src/components/notes-sidebar.tsx:30-34 | the create button stores an "Untitled Note" with empty content and `createdAt == updatedAt`, and that note becomes the selection |
| NotesSidebar.LeadingWithId | client/src/components/notes-sidebar.tsx:48 | how many entries at the head of the shown list carry the deleted id: all of them do, and the next one does not |
| NotesSidebar.Remaining | client/src/components/notes-sidebar.tsx:48 | every shown note except those with the deleted id, in order and with their counts; it is empty exactly when every shown note has that id, and otherwise starts with the first shown note that lacks it |
| NotesSidebar.SelectionAfterDelete | client/src/components/notes-sidebar.tsx:44-66 | a failed delete, or a delete of a note that is not selected, keeps the selection; deleting the selected note selects the first other note in the shown order, never the deleted id, or nothing exactly when no other note is shown |
| NotesPage.NoSelection | client/src/pages/notes.tsx:13 | `!selectedNoteId`: nothing is selected, or the id is the falsy 0 |
| NotesPage.AutoSelection | client/src/pages/notes.tsx:12-16 | with nothing selected and a loaded, non-empty list, the first note is selected; a selection that exists is never replaced, and an empty or unloaded list leaves the selection as it was |
| NotesPage.AutoSelectionSettles | client/src/pages/notes.tsx:12-16 | with store ids, which are never 0, the effect's second run changes nothing |
| NotesPage.AutoSelectsMostRecent | client/src/pages/notes.tsx:12-16 | on the list the store returns, the auto-selected note is one of the most recently updated |
| NotesPage.ResolveSelected | client/src/pages/notes.tsx:24 | `selectedNote \|\| null`: with no id or a falsy id there is no note; otherwise there is a note exactly when the id is stored, and it is the stored note |
| NotesPage.UnresolvedSelectionNeverSaves | client/src/pages/notes.tsx:24 | a selection that resolves to no note gives the editor null, which shows "No note selected", and the auto-save never writes |
| NotesPage.NotesPage.constructor | client/src/pages/notes.tsx:7 | nothing is selected at first |
| NotesPage.NotesPage.OnNoteSelect | client/src/pages/notes.tsx:22 | `setSelectedNoteId` sets the selection to the given id |
| NotesPage.NotesPage.AutoSelectEffect | client/src/pages/notes.tsx:12-16 | the selection becomes the auto-select decision; an existing selection is kept |
| NotesPage.NotesPage.HandleCreateNote | client/src/components/notes-sidebar.tsx:28-42 | after the create request settles, the selection is the one SelectionAfterCreate gives |
| NotesPage.NotesPage.HandleDeleteNote | client/src/components/notes-sidebar.tsx:44-66 | after the delete request settles, the handler compares the selection it captured when the list was rendered, not the current one: when that captured selection was the deleted note, the selection becomes the one SelectionAfterDelete gives, overriding any note selected meanwhile; otherwise, or when the delete failed, the selection is left as it is |

## Left out

- Network, HTTP and JSON are left out, because they are I/O. So are React Query's caching and invalidation in `client/src/hooks/use-notes.ts`, because it is a library. The only thing the model keeps from that file is that `useNote` fetches only for a truthy id (`ResolveSelected`).
- The storage methods are `async`. The model makes them synchronous methods, because `MemStorage` itself never awaits anything.
- Concurrency is left out: in-flight updates that race each other, and an update that lands after a delete.
- `useDebounce` and its 500 ms timer are left out, because that source is not part of this model. The debounced values are inputs to `AutoSave` and `AutoSaveEffect`.
- `new Date()` is a `now` parameter. The wall clock may go backwards, so `updatedAt >= createdAt` is not an invariant of the store, and the model does not claim it.
- `Storage.MemStorage.GetNotes`: states the descending `updatedAt` order and the permutation, but not where notes with equal `updatedAt` end up. Their order depends on `Array.prototype.sort` and on the Map's iteration order.
- `Storage.MemStorage.UpdateNote`: a JavaScript spread copies a key that is present with the value `undefined`. `UpdateNote` models such a field as absent, because the update schema only lets strings through.
- `toLocaleDateString` is locale formatting. It is the single `OnDate` label.
- The text of the labels ("5 minutes ago", "Just now") is left out. The model gives each bucket and its number; `StatusText` gives the save indicator's text.
- `NotesSidebar.ToLower`: lower-cases ASCII letters only. Full Unicode case mapping is outside the model.
- `NoteListItem.GetPreview`: `substring(0, 120)` counts UTF-16 code units, while the model counts Dafny characters (Unicode scalar values). On text outside the Basic Multilingual Plane the model's preview can hold more characters than the source's, and the source can cut a surrogate pair in two, which the model cannot.
- `NotesSidebar.Includes`: `String.prototype.includes` compares UTF-16 code units, the model Unicode scalar values. The two differ only when the query holds a lone surrogate, which a Dafny string cannot hold.
- The following are UI and are left out: JSX rendering, styling, the toolbar buttons that do nothing, skeleton loaders, the search box's own state and the toast notifications.
- In `shared/schema.ts`, the Drizzle table and the Zod schemas are library calls. Only the record shape and the default title are modelled.
