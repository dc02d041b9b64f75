/** The assistant features of `src/lib/ai-service.ts`: the short-input guards in front of the
    remote summary and tag calls, the parsing of the tag reply, and the glossary and grammar
    scanners. The remote completion is a parameter: what the service received, or that the request
    failed. */
module AiService {
  import opened Wrappers
  import opened Types
  import opened Text
  import opened TermScan

  /** The content with its tags stripped has fewer than 10 characters once trimmed: no remote call is made. */
  predicate TooShort(content: string)
  {
    |Trim(StripTags(content))| < 10
  }

  /** The outcome of a chat-completion request: the reply's message content (`null` as `None`),
      or a thrown error. */
  datatype Completion = Reply(content: Option<string>) | RequestFailed

  const TooShortSummary := "Note is too short to summarize."
  const NoSummary := "Could not generate summary."
  const SummaryError := "Error generating summary."

  /** `generateSummary`: the short-input answer, the error answer, the reply text, or the fallback
      for an empty reply. */
  function GenerateSummary(content: string, reply: Completion): (r: string)
    ensures TooShort(content) ==> r == TooShortSummary
  {
    if TooShort(content) then TooShortSummary
    else match reply
      case RequestFailed => SummaryError
      case Reply(c) => if c.Some? && c.value != "" then c.value else NoSummary
  }

  /** A summary is never empty; for short content it does not depend on the reply at all; otherwise
      a failed request gives the error text and a reply gives its text unless that is empty. */
  lemma GenerateSummaryProperties(content: string, reply1: Completion, reply2: Completion)
    ensures GenerateSummary(content, reply1) != ""
    ensures TooShort(content) ==> GenerateSummary(content, reply1) == GenerateSummary(content, reply2)
    ensures !TooShort(content) && reply1.RequestFailed? ==> GenerateSummary(content, reply1) == SummaryError
    ensures !TooShort(content) && reply1.Reply? && reply1.content.Some? && reply1.content.value != "" ==>
      GenerateSummary(content, reply1) == reply1.content.value
    ensures !TooShort(content) && reply1.Reply? && (reply1.content.None? || reply1.content.value == "") ==>
      GenerateSummary(content, reply1) == NoSummary
  {
  }

  /** `tagsString.split(',').map(tag => tag.trim().toLowerCase())` when the reply text is non-empty, else `[]`. */
  function ParseTags(reply: Option<string>): seq<string>
  {
    if reply.None? || reply.value == "" then []
    else
      var fields := Split(reply.value, ',');
      seq(|fields|, i requires 0 <= i < |fields| => NormalizeTag(fields[i]))
  }

  /** A non-empty reply gives one tag per comma-separated field (commas plus one, no filtering),
      each the trimmed, lower-cased field, none holding a comma; an empty or missing reply gives none. */
  lemma ParseTagsSpec(reply: Option<string>)
    ensures reply.None? || reply.value == "" ==> ParseTags(reply) == []
    ensures reply.Some? && reply.value != "" ==>
      var fields := Split(reply.value, ',');
      |ParseTags(reply)| == Count(reply.value, ',') + 1 == |fields| &&
      forall i :: 0 <= i < |fields| ==>
        ParseTags(reply)[i] == NormalizeTag(fields[i]) && ',' !in ParseTags(reply)[i] &&
        NormalizeTag(ParseTags(reply)[i]) == ParseTags(reply)[i]
  {
    if reply.Some? && reply.value != "" {
      var fields := Split(reply.value, ',');
      SplitJoin(reply.value, ',');
      forall i | 0 <= i < |fields|
        ensures ',' !in NormalizeTag(fields[i]) && NormalizeTag(NormalizeTag(fields[i])) == NormalizeTag(fields[i])
      {
        NormalizeTagNoNewChars(fields[i]);
        NormalizeTagIdempotent(fields[i]);
      }
    }
  }

  /** Normalising never introduces a comma: it only drops white space and lower-cases letters. */
  lemma NormalizeTagNoNewChars(s: string)
    ensures ',' in NormalizeTag(s) ==> ',' in s
  {
    var t := Trim(s);
    if ',' in NormalizeTag(s) {
      var i :| 0 <= i < |t| && LowerChar(t[i]) == ',';
      assert t[i] == ',';
      assert TrimStart(s)[..|t|] == t;
      assert t[i] in TrimStart(s);
    }
  }

  /** `suggestTags`: no tags for short content or a failed request, otherwise the parsed reply. */
  function SuggestTags(content: string, reply: Completion): (r: seq<string>)
    ensures TooShort(content) || reply.RequestFailed? ==> r == []
    ensures !TooShort(content) && reply.Reply? ==> r == ParseTags(reply.content)
  {
    if TooShort(content) then []
    else match reply
      case RequestFailed => []
      case Reply(c) => ParseTags(c)
  }

  /** The glossary, in the insertion order `Object.entries` yields. */
  const Glossary: seq<(string, string)> := [
    ("API", "Application Programming Interface - a set of protocols for building software applications"),
    ("JWT", "JSON Web Token - a compact way to securely transmit information between parties"),
    ("MongoDB", "A document-oriented NoSQL database program"),
    ("React", "A JavaScript library for building user interfaces"),
    ("encryption", "The process of converting information into a secret code"),
    ("algorithm", "A set of rules or instructions for solving a problem")
  ]

  /** The common mistakes, in insertion order, each with its correction and issue type. */
  const CommonMistakes: seq<(string, Correction)> := [
    ("teh", Correction("the", Spelling)),
    ("recieve", Correction("receive", Spelling)),
    ("seperate", Correction("separate", Spelling)),
    ("definately", Correction("definitely", Spelling)),
    ("its a", Correction("it's a", Grammar))
  ]

  lemma TablesWellFormed()
    ensures KeysNonEmpty(Glossary) && DistinctKeys(Glossary)
    ensures KeysNonEmpty(CommonMistakes) && DistinctKeys(CommonMistakes)
  {
  }

  /** `findGlossaryTerms`: the hits of the glossary in the raw content. What a table scan
      delivers (`TermScan.TableHitsSpec`) holds of them: every whole-word, case-insensitive
      occurrence of a glossary term is covered, grouped by term in glossary order. */
  method FindGlossaryTerms(content: string) returns (terms: seq<GlossaryTerm>)
    ensures terms == TableHits(content, Glossary)
  {
    TablesWellFormed();
    terms := ScanTable(content, Glossary);
  }

  /** `checkGrammar`: the hits of the common-mistake table in the tag-stripped text, so positions
      refer to that text and each issue carries the table's suggestion and type. */
  method CheckGrammar(content: string) returns (issues: seq<GrammarIssue>)
    ensures issues == TableHits(StripTags(content), CommonMistakes)
  {
    var plainText := StripTags(content);
    TablesWellFormed();
    issues := ScanTable(plainText, CommonMistakes);
  }
}
