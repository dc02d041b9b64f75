# NotesShariee note logic in Dafny

This project models the logic of NotesShariee, a single-user notes web application. The model covers:

- the **note hook** (`useNotes`). It holds the in-memory note list, the search query and the loading flag. It writes every new list through to browser storage. It also publishes the filtered, sorted view of the notes.
- the **storage service** (`LocalStorageService`). It keeps the notes and the signed-in user as serialised text under two keys of a key-value store.
- the **text helpers**: the `<[^>]*>` tag-stripping replace, `trim`, ASCII lower-casing, preview truncation and `split`.
- the **assistant service** (`AIService`). This covers the short-input guards before the remote summary and tag calls, and the parsing of the comma-separated tag reply. It also covers the glossary and common-mistake scanners, which run a case-insensitive, whole-word `regex.exec` loop over a fixed table.
- the **note editor**: its form state, the effect that loads or resets the form, tag handling, decryption, the assistant requests and the record that saving produces.
- the **note card**: the preview, the title fallback and the "+N more" tag overflow.
- the **application shell** (`App`): the signed-in user, the selected note and whether the editor is open.

Each source file is modelled in its own form:

- Stateful parts are classes whose methods update fields:
  - `LocalStorage.LocalStore` holds the key-value map;
  - `UseNotes.NoteCollection` holds the list, the query and the flag, and owns a store;
  - `NoteEditor.Editor` holds the form fields;
  - `App.AppShell` holds the session.
- The scanners are loops: `TermScan.Exec` and `TermScan.ScanEntry` are `while` loops, and `TermScan.ScanTable` is a `for` loop over the table. Each is proved equal to a specification function, and the scanners' guarantees are lemmas about those functions.
- List surgery, filtering, sorting, parsing and record construction are functions, with lemmas stating what they promise.

Outside inputs become parameters:

- the clock is an integer timestamp `now` in milliseconds;
- the fresh id for a new note is `freshId`;
- the AES cipher appears as `encrypt` and `decrypt` functions;
- whether a storage write succeeds is `writeOk`;
- the outcome of a remote chat-completion request is an `AiService.Completion` value.

## Model

| member | source | states |
|---|---|---|
| Seqs.Filter | src/hooks/useNotes.ts:48 | `filter` keeps exactly the elements satisfying the predicate and never lengthens the list |
| Seqs.FilterCount | src/hooks/useNotes.ts:48 | a kept element keeps its multiplicity and a dropped element has none left |
| Seqs.FilterAppend | src/hooks/useNotes.ts:48 | filtering distributes over concatenation, so survivors keep their relative order |
| Seqs.FilterKeepsAll | src/hooks/useNotes.ts:48 | when every element satisfies the predicate, `filter` returns the list unchanged |
| Seqs.FilterDistinct | src/components/NoteEditor.tsx:154 | filtering a list without repeats yields a list without repeats |
| Text.TrimStart | src/components/NoteEditor.tsx:146 | the result is a suffix of the input, does not start with white space, and only white space was removed |
| Text.TrimEnd | src/components/NoteEditor.tsx:146 | the result is a prefix of the input, does not end with white space, and only white space was removed |
| Text.TrimEmptyIffBlank | src/components/NoteEditor.tsx:81 | `s.trim()` is empty exactly when every character of `s` is white space |
| Text.TrimEnds | src/components/NoteEditor.tsx:146 | a non-empty trimmed string begins and ends with a non-space character |
| Text.LowerProperties | src/hooks/useNotes.ts:70 | lower-casing keeps the length, never changes whether a character is white space, leaves no upper-case ASCII letter, and is idempotent |
| Text.NormalizeTagIdempotent | src/components/NoteEditor.tsx:146 | normalising an already normalised tag (`trim().toLowerCase()`) changes nothing |
| Text.NormalizeTagLowerCase | src/components/NoteEditor.tsx:146 | a normalised tag holds no upper-case ASCII letter |
| Text.StripTags | src/lib/encryption.ts:18 | stripping never lengthens the text, introduces no character, and leaves text without `<` unchanged |
| Text.StripTagsIsTagFree | src/lib/encryption.ts:18 | after stripping, no `<` is followed anywhere later by a `>`, so the regex matches nothing more |
| Text.StripTagsOfTagFree | src/lib/encryption.ts:18 | text in which the regex matches nothing is returned unchanged |
| Text.StripTagsIdempotent | src/lib/encryption.ts:18 | stripping twice equals stripping once |
| Text.StripTagsCons | src/lib/encryption.ts:18 | a character other than `<` is kept, in front of the stripped rest |
| Text.StripTagsKeepsText | src/lib/encryption.ts:18 | text before the first `<` survives stripping unchanged, in front of the stripped rest |
| Text.StripTagsDropsTag | src/lib/encryption.ts:18 | a whole tag `<...>` with no `>` inside is removed, and stripping resumes right after it |
| Text.Truncate | src/lib/encryption.ts:19-21 | text no longer than the bound is returned as is; longer text becomes its first `max` characters plus `...` (only `...` for a negative bound, as `substring` clamps) |
| Text.SplitJoin | src/lib/ai-service.ts:64 | `split` yields one more field than there are separators, no field holds the separator, and joining the fields gives back the input |
| Text.SplitFirstField | src/App.tsx:41 | the first field of `split` is a prefix without the separator, followed in the input by the separator when shorter |
| TermScan.EqualsIgnoringCaseIsLowerEquality | src/lib/ai-service.ts:87 | the `i` flag's comparison of two ASCII strings is equality after lower-casing both |
| TermScan.FirstMatch | src/lib/ai-service.ts:89 | a match found from `lastIndex` lies at or after it and inside the text |
| TermScan.FirstMatchSpec | src/lib/ai-service.ts:87-89 | `exec` from `lastIndex` reports the leftmost whole-word, case-insensitive match at or after it, and reports none only when there is no such match |
| TermScan.Exec | src/lib/ai-service.ts:89 | the position-by-position search loop returns what `FirstMatch` specifies |
| TermScan.MatchesSound | src/lib/ai-service.ts:89-96 | every position the repeated `exec` reports is a match, and the positions increase strictly without overlapping |
| TermScan.MatchesComplete | src/lib/ai-service.ts:89-96 | every match position at or after the start is covered by a reported match |
| TermScan.EntryHitsIndex | src/lib/ai-service.ts:90-95 | one hit per reported position, carrying the table key and value and the span `[start, start + key length)` |
| TermScan.ScanOnce | src/lib/ai-service.ts:89-96 | one loop turn pushes exactly the hit of the match found (key, info and span `[start, start + |key|)`), sets `lastIndex` to the match's end and keeps the loop invariant |
| TermScan.ScanEntry | src/lib/ai-service.ts:88-96 | the `while (regex.exec)` loop for one entry pushes exactly the entry's hits, in order |
| TermScan.ScanTable | src/lib/ai-service.ts:86-97 | the `forEach` over the table collects every entry's hits, entry after entry |
| TermScan.TableHitsSound | src/lib/ai-service.ts:90-95 | every hit records a table key and its value, spans exactly the key's length, and covers a whole-word, case-insensitive occurrence of the key |
| TermScan.TableHitsOrdered | src/lib/ai-service.ts:86-97 | hits are grouped by entry in table order, and one key's hits increase without overlapping |
| TermScan.TableHitsComplete | src/lib/ai-service.ts:86-97 | every whole-word occurrence of every key is covered by a hit of that key |
| TermScan.TableHitsSpec | src/lib/ai-service.ts:86-97 | soundness, completeness and ordering of a table scan, together |
| AiService.GenerateSummary | src/lib/ai-service.ts:10-14 | content whose stripped, trimmed text is under 10 characters gets the too-short answer |
| AiService.GenerateSummaryProperties | src/lib/ai-service.ts:10-37 | the summary is never empty; for short content it ignores the reply; otherwise a failed request gives the error text, a non-empty reply its text, an empty or missing reply the fallback |
| AiService.ParseTagsSpec | src/lib/ai-service.ts:62-66 | an empty or missing reply gives no tags; a non-empty one gives one tag per comma-separated field (commas plus one), each trimmed and lower-cased, none holding a comma, each already normalised |
| AiService.SuggestTags | src/lib/ai-service.ts:39-71 | short content or a failed request gives no tags; otherwise the tags are the parsed reply |
| AiService.TablesWellFormed | src/lib/ai-service.ts:77-115 | the glossary and the common-mistake table have non-empty, pairwise distinct keys |
| AiService.FindGlossaryTerms | src/lib/ai-service.ts:73-100 | the terms are the table scan of the raw content with the glossary, so `TermScan.TableHitsSpec` applies |
| AiService.CheckGrammar | src/lib/ai-service.ts:102-132 | the issues are the table scan of the tag-stripped text, so positions refer to that text and each issue carries the table's suggestion and type |
| Encryption.GeneratePreviewSpec | src/lib/encryption.ts:17-22 | the stripped text is returned when it is at most `maxLength` long, else its first `maxLength` characters plus `...`, exactly `maxLength + 3` long |
| Encryption.GeneratePreviewBounds | src/lib/encryption.ts:17-22 | the default preview is at most 103 characters and no preview contains a tag |
| NoteCard.PreviewText | src/components/NoteCard.tsx:13-15 | plain text of at most 150 characters is shown whole, a longer one as its first 150 characters plus `...` |
| NoteCard.DisplayTitle | src/components/NoteCard.tsx:29 | the title when it is non-empty, and exactly `Untitled Note` (`Types.UntitledNote`) when it is empty |
| NoteCard.ShownTags | src/components/NoteCard.tsx:61 | all the tags when there are at most three, otherwise exactly the first three |
| NoteCard.MoreCount | src/components/NoteCard.tsx:70-71 | the `+N more` label appears exactly when there are more than three tags, with N equal to the number of tags minus three, so shown plus N is all of them |
| NoteLists.ReplaceById | src/hooks/useNotes.ts:38-40 | same length; each position holds the updated note when its id matches and the old note otherwise |
| NoteLists.ReplaceByIdProperties | src/hooks/useNotes.ts:36-44 | ids are kept position by position, a missing id leaves the list unchanged, and repeating the update changes nothing |
| NoteLists.RemoveByIdProperties | src/hooks/useNotes.ts:46-52 | exactly the notes with the id disappear, every other note keeps its multiplicity and order, and a missing id changes nothing |
| NoteLists.TogglePinned | src/hooks/useNotes.ts:56-60 | same length; matching notes get the pin flipped and the update time `now`, other notes are unchanged |
| NoteLists.TogglePinTwice | src/hooks/useNotes.ts:54-64 | toggling twice restores every pin flag and changes only the toggled notes' update time |
| NotesView.FilterNotesSpec | src/hooks/useNotes.ts:67-76 | a blank query keeps every note; otherwise a note is kept exactly when the lower-cased query occurs in its lower-cased title, plain text or one of its tags |
| NotesView.Insert | src/hooks/useNotes.ts:77-83 | inserting adds exactly the one note |
| NotesView.InsertSorted | src/hooks/useNotes.ts:77-83 | inserting into a sorted list keeps it sorted |
| NotesView.SortNotes | src/hooks/useNotes.ts:77-83 | the result is a permutation, with pinned notes before unpinned ones and, within a pin group, non-increasing update times |
| NotesView.InsertGroup | src/hooks/useNotes.ts:77-83 | inserting a note changes the order of its own key group only by placing it first |
| NotesView.SortNotesStable | src/hooks/useNotes.ts:77-83 | notes with equal pin flag and update time keep their list order |
| NotesView.SortedGroupsDetermine | src/hooks/useNotes.ts:77-83 | two sorted lists whose key groups agree are equal |
| NotesView.SortNotesIsTheStableSort | src/hooks/useNotes.ts:77-83 | any sorted arrangement that keeps each group's order is the model's result, so the result is the one a stable `Array.prototype.sort` gives |
| NotesView.ViewSpec | src/hooks/useNotes.ts:67-86 | the published notes are a permutation of the filtered notes, hold exactly the matching notes, are sorted and keep ties in list order |
| LocalStorage.NotesIn | src/lib/local-storage.ts:7-14 | an absent key or unparsable text reads as the empty list |
| LocalStorage.UserIn | src/lib/local-storage.ts:44-51 | a user is read exactly when the key holds a serialised user; otherwise `null` |
| LocalStorage.StoreKeysIndependent | src/lib/local-storage.ts:16-63 | a written value reads back, writing one key does not change what the other key reads, and a removed user reads as `null` |
| LocalStorage.FindIndex | src/lib/local-storage.ts:32 | `findIndex` returns the first position with the id, or -1 exactly when there is none |
| LocalStorage.ReplaceFirstIsReplaceById | src/lib/local-storage.ts:30-37 | with unique ids, the service's first-match update equals the hook's update-all |
| LocalStorage.ReplaceFirstDiffersOnDuplicates | src/lib/local-storage.ts:30-37 | with a repeated id the two differ: the service replaces only the first copy |
| LocalStorage.LocalStore.SaveNotes | src/lib/local-storage.ts:16-22 | a successful write stores the list and it reads back; a failed write changes nothing; the user is untouched |
| LocalStorage.LocalStore.AddNote | src/lib/local-storage.ts:24-28 | the stored list with the note appended at the end is written back |
| LocalStorage.LocalStore.UpdateNote | src/lib/local-storage.ts:30-37 | only the first note with the id is replaced and the list written; with no match nothing is written |
| LocalStorage.LocalStore.DeleteNote | src/lib/local-storage.ts:39-42 | the stored list without the notes of that id is always written back |
| LocalStorage.LocalStore.SetCurrentUser | src/lib/local-storage.ts:53-59 | a successful write stores the user and it reads back; the notes are untouched |
| LocalStorage.LocalStore.ClearUser | src/lib/local-storage.ts:61-63 | the user key is removed, so the user reads as `null`; the notes are untouched |
| UseNotes.MockNotes | src/lib/supabase.ts:9-42 | two seed notes with distinct ids, the first pinned and the second unpinned and a day older |
| UseNotes.NoteCollection.constructor | src/hooks/useNotes.ts:7-9 | no notes, loading, empty query |
| UseNotes.NoteCollection.Load | src/hooks/useNotes.ts:12-26 | an empty, absent or unparsable stored list is replaced by the seed notes, which are persisted; otherwise the stored list is used as it is; loading ends |
| UseNotes.NoteCollection.AddNote | src/hooks/useNotes.ts:28-34 | the note is put in front of the list and the new list is what storage holds |
| UseNotes.NoteCollection.UpdateNote | src/hooks/useNotes.ts:36-44 | every note with the id is replaced and the new list is what storage holds |
| UseNotes.NoteCollection.DeleteNote | src/hooks/useNotes.ts:46-52 | every note with the id is dropped and the new list is what storage holds |
| UseNotes.NoteCollection.TogglePin | src/hooks/useNotes.ts:54-64 | every note with the id has its pin flipped and its time set to `now`, and the new list is what storage holds |
| UseNotes.NoteCollection.SetSearchQuery | src/hooks/useNotes.ts:9 | the query is replaced and the notes are untouched |
| UseNotes.NoteCollection.Visible | src/hooks/useNotes.ts:67-86 | the published notes are exactly the matching notes, a permutation of the filtered list, pinned first and newest first, and notes with equal pin flag and update time keep their list order |
| NoteEditor.NothingToSave | src/components/NoteEditor.tsx:81 | both boxes trim to nothing exactly when both are blank |
| NoteEditor.Editor.constructor | src/components/NoteEditor.tsx:27-48 | every field starts empty, false or absent |
| NoteEditor.Editor.Open | src/components/NoteEditor.tsx:51-78 | a note loads its fields; the password prompt is raised when the note is encrypted and the content shown before was empty; without a note every field but the new-tag box is cleared |
| NoteEditor.Editor.LoadNote | src/components/NoteEditor.tsx:52-64 | the note's title, body, tags, flags and summary (empty when missing) are loaded, and the prompt is raised as above |
| NoteEditor.Editor.LoadText | src/components/NoteEditor.tsx:53-56 | title, content, plain text and tags come from the note, nothing else changes |
| NoteEditor.Editor.LoadSettings | src/components/NoteEditor.tsx:57-64 | flags, summary and the edited note are set and the prompt is raised when asked, nothing else changes |
| NoteEditor.Editor.Reset | src/components/NoteEditor.tsx:65-77 | strings empty, no tags, unpinned, unencrypted, no prompt, no suggestions; the new-tag box is kept |
| NoteEditor.Editor.ClearText | src/components/NoteEditor.tsx:67-70 | title, content, plain text and tags are cleared, nothing else changes |
| NoteEditor.Editor.ClearSettings | src/components/NoteEditor.tsx:71-76 | flags, password, prompt, summary and suggestions are cleared, nothing else changes |
| NoteEditor.Editor.SetTitle | src/components/NoteEditor.tsx:217 | only the title changes |
| NoteEditor.Editor.EditBody | src/components/NoteEditor.tsx:275-278 | only the content and the plain text change |
| NoteEditor.Editor.TogglePinned | src/components/NoteEditor.tsx:224 | only the pin flag flips |
| NoteEditor.Editor.ToggleEncrypted | src/components/NoteEditor.tsx:236 | only the encryption flag flips |
| NoteEditor.Editor.SetPassword | src/components/NoteEditor.tsx:266 | only the password changes |
| NoteEditor.Editor.SetNewTag | src/components/NoteEditor.tsx:312 | only the new-tag box changes |
| NoteEditor.Editor.AddTag | src/components/NoteEditor.tsx:145-151 | the normalised tag is appended and the box cleared exactly when the tag is non-empty and new; otherwise nothing changes; a non-empty normalised tag is always present afterwards; no duplicate is ever introduced |
| NoteEditor.Editor.RemoveTag | src/components/NoteEditor.tsx:153-155 | every copy of the tag is removed, the other tags keep their order, and a list without repeats stays so |
| NoteEditor.Editor.HandleDecrypt | src/components/NoteEditor.tsx:104-115 | without a note or password, or on failure, nothing changes; on success the content is the decrypted text, the plain text is that text stripped of tags, and the prompt is hidden |
| NoteEditor.Editor.RequestSummary | src/components/NoteEditor.tsx:117-129 | blank plain text changes nothing; otherwise only the summary changes, to the service's summary of the content |
| NoteEditor.Editor.RequestTagSuggestions | src/components/NoteEditor.tsx:131-143 | blank plain text changes nothing; otherwise only the suggestions change, to the service's tags for the plain text |
| NoteEditor.Editor.SavedNote | src/components/NoteEditor.tsx:80-102 | no record exactly when title and plain text are both blank; otherwise the content is encrypted exactly when encryption is on and a password is set, the id and creation time come from the edited note when present, the update time is `now`, an empty title is saved as exactly `Untitled Note` and a non-empty one as is, and the other fields are copied |
| App.LoginName | src/App.tsx:41 | the name is the part of the address before the first `@`, or all of it |
| App.AppShell.constructor | src/App.tsx:13-15 | no user, no selection, editor closed |
| App.AppShell.RestoreSession | src/App.tsx:29-34 | a stored user becomes the current user; otherwise nothing changes |
| App.AppShell.HandleLogin | src/App.tsx:36-46 | the user becomes `{id: '1', email, name}` and is persisted; the notes and the navigation are untouched |
| App.AppShell.HandleLogout | src/App.tsx:48-53 | no user, the stored user removed, no selection, editor closed; the notes are untouched |
| App.AppShell.HandleNoteSelect | src/App.tsx:55-58 | the note is selected and the editor opened |
| App.AppShell.HandleNewNote | src/App.tsx:60-63 | nothing is selected and the editor opened |
| App.AppShell.HandleNoteSave | src/App.tsx:65-73 | with a selection the hook's update runs, otherwise the add runs (one note longer); a successful write changes only the stored notes, to the new list, and a failed one changes nothing; the stored user, the query and the loading flag are kept; then the editor closes and the selection is cleared |
| App.AppShell.HandleBackToList | src/App.tsx:75-78 | the editor closes and the selection is cleared; the notes are not touched |
| App.AppShell.CurrentScreen | src/App.tsx:81-108 | the login form exactly when there is no user; the editor exactly when there is a user and the editor is open |

## Left out

- AES encryption and decryption (`src/lib/encryption.ts:4-15`) wrap a foreign library. They appear only as function parameters of `NoteEditor.Editor.SavedNote` and `NoteEditor.Editor.HandleDecrypt`, and a failed decryption is a `None` result. No round trip is claimed, because the code promises none.
- The remote chat-completion calls, the model names, prompts and token limits (`src/lib/ai-service.ts:16-31`, `45-60`) are network I/O. Their outcome is the `Completion` parameter.
- The artificial delays before the scanners (`src/lib/ai-service.ts:74`, `103`) are timers and are not modelled.
- `JSON.stringify`/`JSON.parse` are abstract. Stored text is a serialised note list, a serialised user, or unparsable text. Text that parses to a value of the wrong shape counts as unparsable. The source differs there: `getNotes` and `getCurrentUser` (`src/lib/local-storage.ts:10`, `47`) return whatever value was parsed, such as `null` or an object, and the hook then fails on `.length` or `.filter`.
- The `try`/`catch` around storage writes is modelled as the `writeOk` parameter. A failed write leaves the store unchanged.
- Timestamps are integer milliseconds, so ISO-8601 strings and their parsing are not modelled. `note?.createdAt || now` keeps the stored creation time even where the source would replace an empty string. Invalid dates are not modelled either.
- String length and `substring` count code points. JavaScript counts UTF-16 code units, so the two differ for characters outside the Basic Multilingual Plane.
- The scan of `src/lib/ai-service.ts:87-95` is modelled only for non-empty keys, which both constant tables have (`AiService.TablesWellFormed`). With an empty key the source's `\b\b` pattern matches the empty string without advancing `lastIndex`, so on text containing a word character its `while (regex.exec(...))` loop would never end.
- `toLowerCase` is ASCII-only lower-casing. The `\b` and `i` regex semantics are exact for the ASCII table keys.
- The `glossaryTerms` and `grammarIssues` fields of a note are not carried in `Types.Note`. So `UseNotes.MockNotes` drops the `glossaryTerms` that `src/lib/supabase.ts:17-24` gives the first seed note. A note saved from the editor (`src/components/NoteEditor.tsx:88-99`) has neither field, so saving discards both from the stored note, as the source also does.
- The editor's `aiLoading` flags, error logging and alerts are React and async plumbing. The rendering of every component is left out too.
- The rich-text editor, the login form, the header, the theme toggle, the notes list and the unused database client are not part of this model.
- AiService.FindGlossaryTerms and AiService.CheckGrammar state only that their result is the specified table scan. The soundness, completeness and ordering guarantees are proved once, for every table, in `TermScan.TableHitsSpec`. Restating them for the two concrete tables inside the methods' own contracts would unfold the table constants.
- AiService.GenerateSummary states only the short-input case in its own contract. The other cases are proved in `AiService.GenerateSummaryProperties`.
