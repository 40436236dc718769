/** The note editor: the word count in its footer, its "last modified" label,
    the local draft it keeps for the selected note, the auto-save decision
    and the save-status indicator. */
module NoteEditor {
  import opened Schema
  import Storage

  // ---------------------------------------------------------------------
  // Word count
  // ---------------------------------------------------------------------

  /** ECMAScript white space and line terminators: the characters that `\s`
      matches and that `String.prototype.trim` removes. */
  predicate IsSpace(c: char) {
    || c == ' ' || c == '\t' || c == '\n' || c == '\r' || c == '\U{B}' || c == '\U{C}'
    || c == '\U{A0}' || c == '\U{1680}' || ('\U{2000}' <= c <= '\U{200A}')
    || c == '\U{2028}' || c == '\U{2029}' || c == '\U{202F}' || c == '\U{205F}'
    || c == '\U{3000}' || c == '\U{FEFF}'
  }

  /** Every character is white space (the empty string included). */
  predicate Blank(s: string) {
    forall i :: 0 <= i < |s| ==> IsSpace(s[i])
  }

  /** No character is white space. */
  predicate NoSpace(s: string) {
    forall i :: 0 <= i < |s| ==> !IsSpace(s[i])
  }

  /** Length of the leading run of white space. */
  function SpaceEnd(s: string): (k: nat)
    ensures k <= |s| && Blank(s[..k])
    ensures k < |s| ==> !IsSpace(s[k])
  {
    if s == [] || !IsSpace(s[0]) then 0 else 1 + SpaceEnd(s[1..])
  }

  /** Where the trailing run of white space begins. */
  function ContentEnd(s: string): (k: nat)
    ensures k <= |s| && Blank(s[k..])
    ensures 0 < k ==> !IsSpace(s[k - 1])
  {
    if s == [] || !IsSpace(s[|s| - 1]) then |s|
    else
      var k := ContentEnd(s[..|s| - 1]);
      assert s[k..] == s[..|s| - 1][k..] + [s[|s| - 1]];
      k
  }

  /** `String.prototype.trim`: the white space at both ends removed. The
      result is empty exactly when `s` is blank, and otherwise starts and ends
      with a non-space character. */
  function Trim(s: string): (r: string)
    ensures r == [] <==> Blank(s)
    ensures r != [] ==> !IsSpace(r[0]) && !IsSpace(r[|r| - 1])
  {
    var p, q := SpaceEnd(s), ContentEnd(s);
    if p < q then
      s[p..q]
    else
      assert forall i :: 0 <= i < |s| ==> IsSpace(s[i]) by {
        forall i | 0 <= i < |s| ensures IsSpace(s[i]) {
          assert s[..p][i] == s[i];
        }
      }
      []
  }

  /** The text is its trimmed form padded with white space at both ends. */
  lemma TrimPadding(s: string) returns (before: string, after: string)
    ensures s == before + Trim(s) + after
    ensures Blank(before) && Blank(after)
  {
    var p, q := SpaceEnd(s), ContentEnd(s);
    if p < q {
      before, after := s[..p], s[q..];
      assert s == s[..p] + s[p..q] + s[q..];
    } else {
      before, after := s, [];
      assert s == s + [] + [];
    }
  }

  /** Length of the leading run of non-space characters. */
  function WordEnd(s: string): (k: nat)
    ensures k <= |s| && NoSpace(s[..k])
    ensures k < |s| ==> IsSpace(s[k])
  {
    if s == [] || IsSpace(s[0]) then 0 else 1 + WordEnd(s[1..])
  }

  /** `s.split(/\s+/)`: the pieces between maximal runs of white space. There
      is always at least one piece, and no piece holds white space. */
  function SplitWs(s: string): (r: seq<string>)
    ensures |r| >= 1
    ensures forall i :: 0 <= i < |r| ==> NoSpace(r[i])
    decreases |s|
  {
    var k := WordEnd(s);
    if k == |s| then
      [s]
    else
      var rest := s[k..];
      [s[..k]] + SplitWs(rest[SpaceEnd(rest)..])
  }

  /** `getWordCount`: the number of pieces of the trimmed text, or 0 when the
      trimmed text is empty. */
  function WordCount(text: string): (n: nat)
    ensures n == 0 <==> Blank(text)
  {
    var t := Trim(text);
    if t != [] then |SplitWs(t)| else 0
  }

  /** Reference count of words: the positions where a non-space character
      follows white space or the start of the text (`afterSpace` says whether
      the character before `s` was white space or the start). */
  function WordStarts(s: string, afterSpace: bool): nat {
    if s == [] then 0
    else (if afterSpace && !IsSpace(s[0]) then 1 else 0) + WordStarts(s[1..], IsSpace(s[0]))
  }

  /** The number of maximal runs of non-space characters in `s`. */
  function Runs(s: string): nat {
    WordStarts(s, true)
  }

  lemma {:induction false} BlankHasNoWordStart(s: string, afterSpace: bool)
    requires Blank(s)
    ensures WordStarts(s, afterSpace) == 0
  {
    if s != [] {
      BlankHasNoWordStart(s[1..], true);
    }
  }

  lemma {:induction false} WordHasNoLaterStart(w: string, t: string)
    requires NoSpace(w)
    ensures WordStarts(w + t, false) == WordStarts(t, false)
  {
    if w == [] {
      assert w + t == t;
    } else {
      assert (w + t)[0] == w[0] && (w + t)[1..] == w[1..] + t;
      WordHasNoLaterStart(w[1..], t);
    }
  }

  lemma {:induction false} LeadingBlankKeepsRuns(a: string, s: string)
    requires Blank(a)
    ensures WordStarts(a + s, true) == WordStarts(s, true)
  {
    if a == [] {
      assert a + s == s;
    } else {
      assert (a + s)[0] == a[0] && (a + s)[1..] == a[1..] + s;
      LeadingBlankKeepsRuns(a[1..], s);
    }
  }

  lemma {:induction false} TrailingBlankKeepsRuns(s: string, b: string, afterSpace: bool)
    requires Blank(b)
    ensures WordStarts(s + b, afterSpace) == WordStarts(s, afterSpace)
  {
    if s == [] {
      assert s + b == b;
      BlankHasNoWordStart(b, afterSpace);
    } else {
      assert (s + b)[0] == s[0] && (s + b)[1..] == s[1..] + b;
      TrailingBlankKeepsRuns(s[1..], b, IsSpace(s[0]));
    }
  }

  lemma PaddingKeepsRuns(a: string, s: string, b: string)
    requires Blank(a) && Blank(b)
    ensures Runs(a + s + b) == Runs(s)
  {
    assert a + s + b == a + (s + b);
    LeadingBlankKeepsRuns(a, s + b);
    TrailingBlankKeepsRuns(s, b, true);
  }

  /** The first word of a text counts once; the rest counts from after it. */
  lemma FirstWordStarts(s: string)
    requires s != [] && !IsSpace(s[0])
    ensures Runs(s) == 1 + WordStarts(s[WordEnd(s)..], false)
  {
    var k := WordEnd(s);
    assert s[1..] == s[1..k] + s[k..];
    assert NoSpace(s[1..k]);
    WordHasNoLaterStart(s[1..k], s[k..]);
  }

  /** A gap of white space before `rest`'s next word adds no start. */
  lemma GapStarts(rest: string)
    requires rest != [] && IsSpace(rest[0])
    ensures WordStarts(rest, false) == Runs(rest[SpaceEnd(rest)..])
  {
    var j := SpaceEnd(rest);
    assert rest[1..] == rest[1..j] + rest[j..];
    assert Blank(rest[1..j]);
    LeadingBlankKeepsRuns(rest[1..j], rest[j..]);
  }

  /** Splitting a trimmed, non-empty text yields one piece per run. */
  lemma {:induction false} SplitCountsRuns(s: string)
    requires s != [] && !IsSpace(s[0]) && !IsSpace(s[|s| - 1])
    ensures |SplitWs(s)| == Runs(s)
    decreases |s|
  {
    var k := WordEnd(s);
    FirstWordStarts(s);
    if k == |s| {
      assert s[k..] == [];
    } else {
      var rest := s[k..];
      var next := rest[SpaceEnd(rest)..];
      GapStarts(rest);
      assert next[|next| - 1] == s[|s| - 1];
      SplitCountsRuns(next);
    }
  }

  /** The word count is the number of maximal runs of non-space characters. */
  lemma WordCountIsRuns(text: string)
    ensures WordCount(text) == Runs(text)
  {
    var t := Trim(text);
    var before, after := TrimPadding(text);
    assert text == before + (t + after);
    LeadingBlankKeepsRuns(before, t + after);
    TrailingBlankKeepsRuns(t, after, true);
    assert Runs(text) == Runs(t);
    if t == [] {
      BlankHasNoWordStart(t, true);
    } else {
      SplitCountsRuns(t);
    }
  }

  /** A non-blank text has at least one word. */
  lemma WordCountPositive(text: string)
    requires !Blank(text)
    ensures WordCount(text) >= 1
  {
  }

  /** White space added at either end does not change the word count. */
  lemma WordCountIgnoresPadding(a: string, text: string, b: string)
    requires Blank(a) && Blank(b)
    ensures WordCount(a + text + b) == WordCount(text)
  {
    WordCountIsRuns(a + text + b);
    WordCountIsRuns(text);
    PaddingKeepsRuns(a, text, b);
  }

  // ---------------------------------------------------------------------
  // "Last modified" label
  // ---------------------------------------------------------------------

  /** The buckets of `formatTimeAgo`. `OnDate` stands for the locale date
      string of the note's timestamp. */
  datatype TimeAgo = JustNow | MinutesAgo(minutes: int) | HoursAgo(hours: int) | DaysAgo(days: int) | OnDate

  /** `Math.floor((now - then) / 1000)` on millisecond timestamps. */
  function DiffSeconds(nowMs: int, thenMs: int): (d: int)
    ensures d * 1000 <= nowMs - thenMs < d * 1000 + 1000
  {
    (nowMs - thenMs) / 1000
  }

  /** The editor footer's `formatTimeAgo` on a difference of `d` seconds; it
      has no days bucket, so a day or more shows the date. */
  function EditorTimeAgo(d: int): (r: TimeAgo)
    ensures r == JustNow <==> d < 60
    ensures r.MinutesAgo? <==> 60 <= d < 3600
    ensures r.MinutesAgo? ==> r.minutes * 60 <= d < r.minutes * 60 + 60 && 1 <= r.minutes <= 59
    ensures r.HoursAgo? <==> 3600 <= d < 86400
    ensures r.HoursAgo? ==> r.hours * 3600 <= d < r.hours * 3600 + 3600 && 1 <= r.hours <= 23
    ensures r == OnDate <==> 86400 <= d
    ensures !r.DaysAgo?
  {
    if d < 60 then JustNow
    else if d < 3600 then MinutesAgo(d / 60)
    else if d < 86400 then HoursAgo(d / 3600)
    else OnDate
  }

  // ---------------------------------------------------------------------
  // Draft, auto-save and save status
  // ---------------------------------------------------------------------

  /** `note?.id`. */
  function IdOf(note: Option<Note>): (r: Option<int>)
    ensures r.None? <==> note.None?
    ensures r.Some? ==> r.value == note.value.id
  {
    if note.Some? then Some(note.value.id) else None
  }

  /** The write the auto-save effect hands to the update mutation. */
  datatype UpdateRequest = UpdateRequest(id: int, note: UpdateNote)

  /** The auto-save decision once both debounced values exist: nothing when
      there is no note or both values equal the stored ones; otherwise one
      update of that note carrying both values. */
  function AutoSave(note: Option<Note>, debouncedTitle: string, debouncedContent: string): (r: Option<UpdateRequest>)
    ensures r.None? <==> note.None? || (debouncedTitle == note.value.title && debouncedContent == note.value.content)
    ensures r.Some? ==> r.value.id == note.value.id
    ensures r.Some? ==> r.value.note == UpdateNote(Some(debouncedTitle), Some(debouncedContent))
  {
    if note.Some? && (debouncedTitle != note.value.title || debouncedContent != note.value.content) then
      Some(UpdateRequest(note.value.id, UpdateNote(Some(debouncedTitle), Some(debouncedContent))))
    else
      None
  }

  /** Once the store applies an auto-save write, the stored note holds the
      debounced values, keeps its id and creation time, and the same debounced
      values no longer trigger a write. */
  lemma AutoSaveConverges(note: Note, debouncedTitle: string, debouncedContent: string, now: int)
    requires AutoSave(Some(note), debouncedTitle, debouncedContent).Some?
    ensures var req := AutoSave(Some(note), debouncedTitle, debouncedContent).value;
            var saved := Storage.Merge(note, req.note, now);
            && saved.id == note.id && saved.createdAt == note.createdAt && saved.updatedAt == now
            && saved.title == debouncedTitle && saved.content == debouncedContent
            && AutoSave(Some(saved), debouncedTitle, debouncedContent).None?
  {
  }

  /** When the selection moves to another note while the debounced values still
      hold the previous note's draft, the decision writes that draft into the
      newly selected note. */
  lemma StaleDraftIsWrittenToNewNote(previous: Note, next: Note)
    requires previous.title != next.title
    ensures AutoSave(Some(next), previous.title, previous.content)
            == Some(UpdateRequest(next.id, UpdateNote(Some(previous.title), Some(previous.content))))
  {
  }

  datatype SaveStatus = Saving | Error | Saved

  /** `getSaveStatus`: a pending mutation shows as saving, even when the last
      one failed; otherwise a failure shows as error, and anything else as
      saved. */
  function GetSaveStatus(isPending: bool, isError: bool): (s: SaveStatus)
    ensures s == Saving <==> isPending
    ensures s == Error <==> !isPending && isError
    ensures s == Saved <==> !isPending && !isError
  {
    if isPending then Saving
    else if isError then Error
    else Saved
  }

  /** The indicator's text for each status. */
  function StatusText(s: SaveStatus): string {
    match s
    case Saving => "Saving..."
    case Error => "Error"
    case Saved => "Saved"
  }

  /** The indicator's text tells the three statuses apart. */
  lemma StatusTextTellsStatus(a: SaveStatus, b: SaveStatus)
    ensures StatusText(a) == StatusText(b) <==> a == b
  {
  }

  /** The editor component's local state: the draft title and content, and the
      dependencies its two effects last ran with (None before the first run). */
  class Editor {
    var title: string
    var content: string
    var draftDeps: Option<Option<int>>
    var saveDeps: Option<(string, string, Option<int>)>

    constructor ()
      ensures title == "" && content == ""
      ensures draftDeps == None && saveDeps == None
    {
      title, content := "", "";
      draftDeps, saveDeps := None, None;
    }

    /** The title input's change handler. */
    method SetTitle(t: string)
      modifies this
      ensures title == t && content == old(content)
      ensures draftDeps == old(draftDeps) && saveDeps == old(saveDeps)
    {
      title := t;
    }

    /** The content area's change handler. */
    method SetContent(c: string)
      modifies this
      ensures content == c && title == old(title)
      ensures draftDeps == old(draftDeps) && saveDeps == old(saveDeps)
    {
      content := c;
    }

    /** The draft-loading effect, keyed on `note?.id`: on its first run and
        whenever the note's id changes, the draft is overwritten with the
        note's title and content, or emptied when there is no note; otherwise
        the draft is left alone. */
    method LoadDraftEffect(note: Option<Note>)
      modifies this
      ensures draftDeps == Some(IdOf(note)) && saveDeps == old(saveDeps)
      ensures old(draftDeps) != Some(IdOf(note)) && note.Some? ==>
                title == note.value.title && content == note.value.content
      ensures old(draftDeps) != Some(IdOf(note)) && note.None? ==> title == "" && content == ""
      ensures old(draftDeps) == Some(IdOf(note)) ==> title == old(title) && content == old(content)
    {
      if draftDeps != Some(IdOf(note)) {
        draftDeps := Some(IdOf(note));
        if note.Some? {
          title, content := note.value.title, note.value.content;
        } else {
          title, content := "", "";
        }
      }
    }

    /** The auto-save effect, keyed on the two debounced values and
        `note?.id`: when one of them changed since its last run it takes the
        AutoSave decision, otherwise it issues nothing. The draft is untouched. */
    method AutoSaveEffect(note: Option<Note>, debouncedTitle: string, debouncedContent: string)
      returns (req: Option<UpdateRequest>)
      modifies this
      ensures saveDeps == Some((debouncedTitle, debouncedContent, IdOf(note)))
      ensures title == old(title) && content == old(content) && draftDeps == old(draftDeps)
      ensures old(saveDeps) != saveDeps ==> req == AutoSave(note, debouncedTitle, debouncedContent)
      ensures old(saveDeps) == saveDeps ==> req.None?
    {
      var deps := (debouncedTitle, debouncedContent, IdOf(note));
      if saveDeps != Some(deps) {
        saveDeps := Some(deps);
        req := AutoSave(note, debouncedTitle, debouncedContent);
      } else {
        req := None;
      }
    }
  }
}
