/** One entry of the sidebar list: the "updated" label and the content
    preview it shows under the note's title. */
module NoteListItem {
  import NoteEditor
  import opened Sequences

  /** The Markdown characters that the preview drops: `#`, `*`, `_`, `-` and
      the backquote. */
  predicate IsMarkup(c: char) {
    c == '#' || c == '*' || c == '_' || c == '-' || c == '`'
  }

  predicate NoMarkup(s: string) {
    forall i :: 0 <= i < |s| ==> !IsMarkup(s[i])
  }

  /** `s.replace(/[#*_\-`]/g, '')`: `s` with every markup character removed
      and the other characters kept in order. */
  function StripMarkup(s: string): (r: string)
    ensures |r| <= |s|
    ensures NoMarkup(r)
    ensures NoMarkup(s) ==> r == s
    ensures IsSubsequence(r, s)
    ensures forall c :: !IsMarkup(c) ==> multiset(r)[c] == multiset(s)[c]
  {
    if s == [] then []
    else
      var rest := StripMarkup(s[1..]);
      assert s == [s[0]] + s[1..];
      if IsMarkup(s[0]) then
        rest
      else
        assert ([s[0]] + rest)[1..] == rest;
        [s[0]] + rest
  }

  /** The maximum length of a preview. */
  const PreviewLength: nat := 120

  /** `getPreview`: the first 120 characters of the content once the markup
      characters are removed. */
  function GetPreview(content: string): (r: string)
    ensures |r| <= PreviewLength
    ensures NoMarkup(r)
    ensures r <= StripMarkup(content) && IsSubsequence(r, content)
    ensures |r| == if |StripMarkup(content)| < PreviewLength then |StripMarkup(content)| else PreviewLength
  {
    var stripped := StripMarkup(content);
    if |stripped| <= PreviewLength then
      stripped
    else
      PrefixOfSubsequence(stripped, PreviewLength, content);
      stripped[..PreviewLength]
  }

  /** Content without markup and within the length limit is shown unchanged. */
  lemma PreviewOfPlainShortText(content: string)
    requires NoMarkup(content) && |content| <= PreviewLength
    ensures GetPreview(content) == content
  {
  }

  /** A preview is its own preview. */
  lemma PreviewIdempotent(content: string)
    ensures GetPreview(GetPreview(content)) == GetPreview(content)
  {
    PreviewOfPlainShortText(GetPreview(content));
  }

  /** The list item's `formatTimeAgo` on a difference of `d` seconds: like the
      editor's, with a days bucket below one week. */
  function ListTimeAgo(d: int): (r: NoteEditor.TimeAgo)
    ensures r == NoteEditor.JustNow <==> d < 60
    ensures r.MinutesAgo? <==> 60 <= d < 3600
    ensures r.MinutesAgo? ==> r.minutes * 60 <= d < r.minutes * 60 + 60 && 1 <= r.minutes <= 59
    ensures r.HoursAgo? <==> 3600 <= d < 86400
    ensures r.HoursAgo? ==> r.hours * 3600 <= d < r.hours * 3600 + 3600 && 1 <= r.hours <= 23
    ensures r.DaysAgo? <==> 86400 <= d < 604800
    ensures r.DaysAgo? ==> r.days * 86400 <= d < r.days * 86400 + 86400 && 1 <= r.days <= 6
    ensures r == NoteEditor.OnDate <==> 604800 <= d
  {
    if d < 60 then NoteEditor.JustNow
    else if d < 3600 then NoteEditor.MinutesAgo(d / 60)
    else if d < 86400 then NoteEditor.HoursAgo(d / 3600)
    else if d < 604800 then NoteEditor.DaysAgo(d / 86400)
    else NoteEditor.OnDate
  }

  /** The list and the editor show the same label below one day; between one
      day and one week the list shows days while the editor shows the date. */
  lemma TimeAgoLabelsAgree(d: int)
    ensures d < 86400 ==> ListTimeAgo(d) == NoteEditor.EditorTimeAgo(d)
    ensures 86400 <= d < 604800 ==> ListTimeAgo(d).DaysAgo? && NoteEditor.EditorTimeAgo(d) == NoteEditor.OnDate
    ensures 604800 <= d ==> ListTimeAgo(d) == NoteEditor.EditorTimeAgo(d) == NoteEditor.OnDate
  {
  }
}
