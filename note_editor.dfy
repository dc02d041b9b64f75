/** The note editor of `src/components/NoteEditor.tsx`: the form state, the effect that loads or
    resets it when the edited note changes, the tag list operations, decryption, the assistant
    requests, and the record that saving hands back. The clock, the fresh id and the cipher are
    parameters. */
module NoteEditor {
  import opened Wrappers
  import opened Types
  import opened Text
  import opened Seqs
  import AiService

  /** A snapshot of every field of the form. */
  datatype EditorState = EditorState(
    title: string,
    content: string,
    plainText: string,
    tags: seq<string>,
    newTag: string,
    isPinned: bool,
    isEncrypted: bool,
    encryptionPassword: string,
    showPasswordInput: bool,
    summary: string,
    suggestedTags: seq<string>,
    note: Option<Note>)

  /** No string occurs twice. */
  predicate NoDuplicates(s: seq<string>)
  {
    forall i, j :: 0 <= i < j < |s| ==> s[i] != s[j]
  }

  /** The selector `tag => tag !== tagToRemove`. */
  function NotTag(t: string): string -> bool
  {
    (x: string) => x != t
  }

  /** The guard of `handleSave`: both boxes trim to nothing exactly when both are blank. */
  lemma NothingToSave(title: string, plainText: string)
    ensures Trim(title) == "" && Trim(plainText) == "" <==> Blank(title) && Blank(plainText)
  {
    TrimEmptyIffBlank(title);
    TrimEmptyIffBlank(plainText);
  }

  class Editor {
    var title: string
    var content: string
    var plainText: string
    var tags: seq<string>
    var newTag: string
    var isPinned: bool
    var isEncrypted: bool
    var encryptionPassword: string
    var showPasswordInput: bool
    var summary: string
    var suggestedTags: seq<string>
    /** The `note` property: the note being edited, or none for a new note. */
    var note: Option<Note>

    function State(): EditorState
      reads this
    {
      EditorState(title, content, plainText, tags, newTag, isPinned, isEncrypted,
        encryptionPassword, showPasswordInput, summary, suggestedTags, note)
    }

    /** The form's initial state. */
    constructor ()
      ensures State() == EditorState("", "", "", [], "", false, false, "", false, "", [], None)
    {
      title, content, plainText, tags, newTag := "", "", "", [], "";
      isPinned, isEncrypted, encryptionPassword, showPasswordInput := false, false, "", false;
      summary, suggestedTags, note := "", [], None;
    }

    /** The effect run when the `note` property becomes `n`. With a note, its fields are loaded and
        the password prompt is raised when the note is encrypted and the content shown before the
        effect was empty; the password, the prompt otherwise and the suggestions are kept. Without
        a note every field is reset. */
    method Open(n: Option<Note>)
      modifies this
      ensures n.None? ==> State() == EditorState("", "", "", [], newTag, false, false, "", false, "", [], None)
      ensures n.None? ==> newTag == old(newTag)
      ensures n.Some? ==> State() == old(State()).(
        title := n.value.title, content := n.value.content, plainText := n.value.plainText,
        tags := n.value.tags, isPinned := n.value.isPinned, isEncrypted := n.value.isEncrypted,
        summary := if n.value.summary.Some? then n.value.summary.value else "",
        showPasswordInput := old(showPasswordInput) || (n.value.isEncrypted && old(content) == ""),
        note := n)
    {
      if n.Some? {
        LoadNote(n.value);
      } else {
        Reset();
      }
    }

    /** The branch of the effect for a note. */
    method LoadNote(m: Note)
      modifies this
      ensures State() == old(State()).(
        title := m.title, content := m.content, plainText := m.plainText,
        tags := m.tags, isPinned := m.isPinned, isEncrypted := m.isEncrypted,
        summary := if m.summary.Some? then m.summary.value else "",
        showPasswordInput := old(showPasswordInput) || (m.isEncrypted && old(content) == ""),
        note := Some(m))
    {
      var raise := m.isEncrypted && content == "";
      LoadText(m);
      LoadSettings(m, raise);
    }

    /** The note's title, body and tags go into the form. */
    method LoadText(m: Note)
      modifies this
      ensures State() == old(State()).(title := m.title, content := m.content, plainText := m.plainText, tags := m.tags)
    {
      title, content, plainText, tags := m.title, m.content, m.plainText, m.tags;
    }

    /** The note's flags and summary go into the form, the edited note is recorded, and the
        password prompt is raised when `raise` holds. */
    method LoadSettings(m: Note, raise: bool)
      modifies this
      ensures State() == old(State()).(
        isPinned := m.isPinned, isEncrypted := m.isEncrypted,
        summary := if m.summary.Some? then m.summary.value else "",
        showPasswordInput := old(showPasswordInput) || raise, note := Some(m))
    {
      isPinned, isEncrypted, note := m.isPinned, m.isEncrypted, Some(m);
      summary := if m.summary.Some? then m.summary.value else "";
      if raise {
        showPasswordInput := true;
      }
    }

    /** The branch of the effect without a note: every field but the new-tag box is cleared. */
    method Reset()
      modifies this
      ensures State() == EditorState("", "", "", [], old(newTag), false, false, "", false, "", [], None)
    {
      ClearText();
      ClearSettings();
    }

    /** The title, body and tags are cleared. */
    method ClearText()
      modifies this
      ensures State() == old(State()).(title := "", content := "", plainText := "", tags := [])
    {
      title, content, plainText, tags := "", "", "", [];
    }

    /** The flags, password, summary, suggestions and edited note are cleared. */
    method ClearSettings()
      modifies this
      ensures State() == old(State()).(isPinned := false, isEncrypted := false, encryptionPassword := "",
        showPasswordInput := false, summary := "", suggestedTags := [], note := None)
    {
      isPinned, isEncrypted, encryptionPassword, showPasswordInput := false, false, "", false;
      summary, suggestedTags, note := "", [], None;
    }

    /** Typing in the title box. */
    method SetTitle(t: string)
      modifies this
      ensures State() == old(State()).(title := t)
    {
      title := t;
    }

    /** The rich-text editor reporting its HTML and its plain text. */
    method EditBody(html: string, text: string)
      modifies this
      ensures State() == old(State()).(content := html, plainText := text)
    {
      content, plainText := html, text;
    }

    /** The pin button. */
    method TogglePinned()
      modifies this
      ensures State() == old(State()).(isPinned := !old(isPinned))
    {
      isPinned := !isPinned;
    }

    /** The lock button. */
    method ToggleEncrypted()
      modifies this
      ensures State() == old(State()).(isEncrypted := !old(isEncrypted))
    {
      isEncrypted := !isEncrypted;
    }

    /** Typing in a password box. */
    method SetPassword(p: string)
      modifies this
      ensures State() == old(State()).(encryptionPassword := p)
    {
      encryptionPassword := p;
    }

    /** Typing in the new-tag box. */
    method SetNewTag(t: string)
      modifies this
      ensures State() == old(State()).(newTag := t)
    {
      newTag := t;
    }

    /** `addTag`: the trimmed, lower-cased tag is appended when it is non-empty and not yet
        present, and only then is the new-tag box cleared; the tag list never gains a duplicate. */
    method AddTag(tag: string)
      modifies this
      ensures var t := NormalizeTag(tag);
        if t != "" && t !in old(tags)
        then State() == old(State()).(tags := old(tags) + [t], newTag := "")
        else State() == old(State())
      ensures NormalizeTag(tag) != "" ==> NormalizeTag(tag) in tags
      ensures NoDuplicates(old(tags)) ==> NoDuplicates(tags)
    {
      var trimmedTag := NormalizeTag(tag);
      if trimmedTag != "" && trimmedTag !in tags {
        tags := tags + [trimmedTag];
        newTag := "";
      }
    }

    /** `removeTag`: every copy of the tag is dropped and the other tags keep their order. */
    method RemoveTag(t: string)
      modifies this
      ensures State() == old(State()).(tags := Filter(NotTag(t), old(tags)))
      ensures t !in tags && forall x :: x in tags <==> x in old(tags) && x != t
      ensures NoDuplicates(old(tags)) ==> NoDuplicates(tags)
    {
      tags := Filter(NotTag(t), tags);
      if NoDuplicates(old(tags)) {
        FilterDistinct(NotTag(t), old(tags));
      }
    }

    /** `handleDecrypt` with the cipher's decryption `decrypt(ciphertext, password)`, none standing
        for a thrown error. Without a note or a password nothing happens; a successful decryption
        shows the plain content and hides the prompt; a failed one changes nothing. */
    method HandleDecrypt(decrypt: (string, string) -> Option<string>)
      modifies this
      ensures note.None? || encryptionPassword == "" || decrypt(note.value.content, encryptionPassword).None?
        ==> State() == old(State())
      ensures note.Some? && encryptionPassword != "" && decrypt(note.value.content, encryptionPassword).Some? ==>
        var d := decrypt(note.value.content, encryptionPassword).value;
        State() == old(State()).(content := d, plainText := StripTags(d), showPasswordInput := false)
    {
      if note.None? || encryptionPassword == "" {
        return;
      }
      var decrypted := decrypt(note.value.content, encryptionPassword);
      if decrypted.Some? {
        content := decrypted.value;
        plainText := StripTags(decrypted.value);
        showPasswordInput := false;
      }
    }

    /** `generateSummary` in the editor: with non-blank plain text, the service's summary of the
        content for the given completion replaces the summary. */
    method RequestSummary(reply: AiService.Completion)
      modifies this
      ensures Trim(plainText) == "" ==> State() == old(State())
      ensures Trim(plainText) != "" ==> State() == old(State()).(summary := summary)
      ensures Trim(plainText) != "" ==> summary == AiService.GenerateSummary(content, reply)
    {
      if Trim(plainText) != "" {
        SetSummary(AiService.GenerateSummary(content, reply));
      }
    }

    /** Stores a generated summary; nothing else changes. */
    method SetSummary(generated: string)
      modifies this
      ensures State() == old(State()).(summary := generated)
    {
      summary := generated;
    }

    /** `generateTagSuggestions`: with non-blank plain text, the service's suggestions for the
        plain text replace the suggested tags. */
    method RequestTagSuggestions(reply: AiService.Completion)
      modifies this
      ensures Trim(plainText) == "" ==> State() == old(State())
      ensures Trim(plainText) != "" ==> State() == old(State()).(suggestedTags := suggestedTags)
      ensures Trim(plainText) != "" ==> suggestedTags == AiService.SuggestTags(plainText, reply)
    {
      if Trim(plainText) != "" {
        SetSuggestedTags(AiService.SuggestTags(plainText, reply));
      }
    }

    /** Stores suggested tags; nothing else changes. */
    method SetSuggestedTags(suggested: seq<string>)
      modifies this
      ensures State() == old(State()).(suggestedTags := suggested)
    {
      suggestedTags := suggested;
    }

    /** The record `handleSave` hands to `onSave`, with the clock reading `now`, the id `freshId`
        that `Date.now().toString()` would give, and the cipher `encrypt(text, password)`. */
    function SavedNote(now: Timestamp, freshId: string, encrypt: (string, string) -> string): (r: Option<Note>)
      reads this
      ensures r.None? <==> Blank(title) && Blank(plainText)
      ensures r.Some? ==>
        r.value.content == (if isEncrypted && encryptionPassword != "" then encrypt(content, encryptionPassword) else content)
      ensures r.Some? ==>
        r.value.id == (if note.Some? && note.value.id != "" then note.value.id else freshId) &&
        r.value.createdAt == (if note.Some? then note.value.createdAt else now) &&
        r.value.updatedAt == now
      ensures r.Some? ==> r.value.title != "" && (title != "" ==> r.value.title == title)
      ensures r.Some? && title == "" ==> r.value.title == UntitledNote
      ensures r.Some? ==>
        r.value.plainText == plainText && r.value.tags == tags && r.value.isPinned == isPinned &&
        r.value.isEncrypted == isEncrypted && r.value.summary == Some(summary)
    {
      NothingToSave(title, plainText);
      if Trim(title) == "" && Trim(plainText) == "" then None
      else
        var finalContent := if isEncrypted && encryptionPassword != "" then encrypt(content, encryptionPassword) else content;
        Some(Note(
          if note.Some? && note.value.id != "" then note.value.id else freshId,
          if title == "" then UntitledNote else title,
          finalContent, plainText, isPinned, isEncrypted, tags, Some(summary),
          if note.Some? then note.value.createdAt else now,
          now))
    }
  }
}
