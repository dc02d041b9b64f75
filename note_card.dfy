/** What a note card (`src/components/NoteCard.tsx`) shows of a note: a preview of its plain
    text, its title or a fallback, and at most three tags with a count of the rest. */
module NoteCard {
  import opened Wrappers
  import opened Types
  import opened Text

  const CardPreviewLength: int := 150
  const ShownTagLimit: nat := 3

  /** `previewText`: the plain text, cut to 150 characters followed by `...` when longer. */
  function PreviewText(n: Note): (r: string)
    ensures |n.plainText| <= CardPreviewLength ==> r == n.plainText
    ensures |n.plainText| > CardPreviewLength ==>
      |r| == CardPreviewLength + 3 && r == n.plainText[..CardPreviewLength] + "..."
  {
    var r := Truncate(n.plainText, CardPreviewLength);
    assert |n.plainText| > CardPreviewLength ==> r == r[..CardPreviewLength] + r[CardPreviewLength..];
    r
  }

  /** `note.title || 'Untitled Note'`. */
  function DisplayTitle(n: Note): (r: string)
    ensures r != ""
    ensures n.title != "" ==> r == n.title
    ensures n.title == "" ==> r == UntitledNote
  {
    if n.title == "" then UntitledNote else n.title
  }

  /** `note.tags.slice(0, 3)`: the first three tags, or all when there are fewer. */
  function ShownTags(n: Note): (r: seq<string>)
    ensures |r| <= ShownTagLimit && r <= n.tags
    ensures |n.tags| <= ShownTagLimit ==> r == n.tags
    ensures |n.tags| > ShownTagLimit ==> r == n.tags[..ShownTagLimit]
  {
    if |n.tags| <= ShownTagLimit then n.tags else n.tags[..ShownTagLimit]
  }

  /** The `+N more` label: present exactly when there are more than three tags, counting those not shown. */
  function MoreCount(n: Note): (r: Option<nat>)
    ensures r.Some? <==> |n.tags| > ShownTagLimit
    ensures r.Some? ==> |ShownTags(n)| + r.value == |n.tags|
    ensures r.Some? ==> r.value == |n.tags| - ShownTagLimit
  {
    if |n.tags| > ShownTagLimit then Some(|n.tags| - ShownTagLimit) else None
  }
}
