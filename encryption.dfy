/** The preview helper of `src/lib/encryption.ts`. `encrypt` and `decrypt` wrap a foreign AES
    library and appear elsewhere in the model only as function parameters. */
module Encryption {
  import opened Text

  /** `generatePreview`'s default `maxLength`. */
  const DefaultPreviewLength: int := 100

  /** `generatePreview(text, maxLength)`: the tag-stripped text, cut to `maxLength` characters
      followed by `...` when it is longer than `maxLength`. */
  function GeneratePreview(text: string, maxLength: int := DefaultPreviewLength): string
  {
    Truncate(StripTags(text), maxLength)
  }

  /** A stripped text of at most `maxLength` characters is the preview; a longer one is cut to its
      first `maxLength` characters and gets `...`, so the preview is exactly three longer than the
      bound. Text without `<` is previewed as is. */
  lemma GeneratePreviewSpec(text: string, maxLength: int)
    ensures var plain := StripTags(text);
      (|plain| <= maxLength ==> GeneratePreview(text, maxLength) == plain) &&
      (|plain| > maxLength >= 0 ==>
        |GeneratePreview(text, maxLength)| == maxLength + 3 &&
        GeneratePreview(text, maxLength) == plain[..maxLength] + "...")
    ensures '<' !in text && |text| <= maxLength ==> GeneratePreview(text, maxLength) == text
  {
    var plain := StripTags(text);
    if |plain| > maxLength >= 0 {
      var r := GeneratePreview(text, maxLength);
      assert r == r[..maxLength] + r[maxLength..];
    }
  }

  /** The default preview of a text is never longer than 103 characters, and a preview never
      contains a tag, even when it is cut in the middle of the text. */
  lemma GeneratePreviewBounds(text: string, maxLength: int)
    ensures |GeneratePreview(text)| <= DefaultPreviewLength + 3
    ensures TagFree(GeneratePreview(text, maxLength))
  {
    var plain := StripTags(text);
    StripTagsIsTagFree(text);
    if |plain| > maxLength {
      var cut := if maxLength < 0 then 0 else maxLength;
      var r := plain[..cut] + "...";
      forall i, j | 0 <= i < j < |r| && r[i] == '<' ensures r[j] != '>' {
        assert i < cut && r[i] == plain[i];
        if j < cut {
          assert r[j] == plain[j];
        }
      }
    }
  }
}
