/** Optional values: `undefined` / `null` in the application's records. */
module Wrappers {
  datatype Option<+T> = None | Some(value: T)
}

/** The application's records (`src/types/index.ts`). */
module Types {
  import opened Wrappers

  /** Milliseconds since the epoch: what `new Date(iso).getTime()` yields for the ISO strings the app stores. */
  type Timestamp = int

  /** A note. The optional `glossaryTerms` and `grammarIssues` fields are not carried: the seed note's
      glossary terms are dropped, and a note saved from the editor never has either field. */
  datatype Note = Note(
    id: string,
    title: string,
    content: string,
    plainText: string,
    isPinned: bool,
    isEncrypted: bool,
    tags: seq<string>,
    summary: Option<string>,
    createdAt: Timestamp,
    updatedAt: Timestamp)

  /** The title shown and saved for a note whose title is empty. */
  const UntitledNote := "Untitled Note"

  /** The signed-in user. */
  datatype User = User(id: string, email: string, name: string)

  datatype IssueKind = Spelling | Grammar | Style

  /** A span `[startIndex, endIndex)` of a text where the table entry `key` (with its `info`) was found.
      A `GlossaryTerm` is a hit whose info is the definition; a `GrammarIssue` is a hit whose key is
      the mistake's `text` and whose info holds the `suggestion` and the issue `type`. */
  datatype Hit<V> = Hit(key: string, info: V, startIndex: nat, endIndex: nat)

  datatype Correction = Correction(suggestion: string, kind: IssueKind)

  type GlossaryTerm = Hit<string>
  type GrammarIssue = Hit<Correction>
}
