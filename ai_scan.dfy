/** Whole-word, case-insensitive search for literal table entries, as `findGlossaryTerms` and
    `checkGrammar` in `src/lib/ai-service.ts` run it: for each entry in table order, a global
    regular expression `\bkey\b` with flags `gi` is re-executed until it finds nothing more. */
module TermScan {
  import opened Wrappers
  import opened Types
  import opened Text

  /** A regular-expression word character (`\w` without the `u` flag). */
  predicate IsWordChar(c: char)
  {
    ('a' <= c <= 'z') || ('A' <= c <= 'Z') || ('0' <= c <= '9') || c == '_'
  }

  predicate IsWordAt(s: string, i: int)
  {
    0 <= i < |s| && IsWordChar(s[i])
  }

  /** `\b` at position `p`: a word character on exactly one side. */
  predicate WordBoundary(s: string, p: int)
  {
    IsWordAt(s, p - 1) != IsWordAt(s, p)
  }

  /** Equal up to ASCII case: how the `i` flag compares a text character with an ASCII pattern character. */
  predicate EqualsIgnoringCase(a: string, b: string)
  {
    |a| == |b| && (a == [] || (LowerChar(a[0]) == LowerChar(b[0]) && EqualsIgnoringCase(a[1..], b[1..])))
  }

  /** Case-insensitive equality is equality after ASCII lower-casing. */
  lemma {:induction false} EqualsIgnoringCaseIsLowerEquality(a: string, b: string)
    ensures EqualsIgnoringCase(a, b) <==> Lower(a) == Lower(b)
  {
    if |a| == |b| && a != [] {
      EqualsIgnoringCaseIsLowerEquality(a[1..], b[1..]);
      assert Lower(a) == [LowerChar(a[0])] + Lower(a[1..]);
      assert Lower(b) == [LowerChar(b[0])] + Lower(b[1..]);
      if Lower(a) == Lower(b) {
        assert Lower(a)[0] == Lower(b)[0];
        assert Lower(a)[1..] == Lower(b)[1..];
      }
    }
  }

  /** `\bterm\b` (flag `i`) matches `s` at position `p`. */
  predicate MatchAt(s: string, term: string, p: int)
  {
    0 <= p && p + |term| <= |s|
    && EqualsIgnoringCase(s[p..p + |term|], term)
    && WordBoundary(s, p) && WordBoundary(s, p + |term|)
  }

  /** The leftmost match at or after `from`. */
  function FirstMatch(s: string, term: string, from: nat): (r: Option<nat>)
    requires |term| > 0
    ensures r.Some? ==> from <= r.value && r.value + |term| <= |s|
    decreases |s| - from
  {
    if from + |term| > |s| then None
    else if MatchAt(s, term, from) then Some(from)
    else FirstMatch(s, term, from + 1)
  }

  /** The search finds the leftmost match at or after `from`, and finds nothing only when there is
      no match there at all. */
  lemma {:induction false} FirstMatchSpec(s: string, term: string, from: nat)
    requires |term| > 0
    ensures var r := FirstMatch(s, term, from);
      (r.Some? ==> MatchAt(s, term, r.value)) &&
      (r.Some? ==> forall q :: from <= q < r.value ==> !MatchAt(s, term, q)) &&
      (r.None? ==> forall q :: from <= q ==> !MatchAt(s, term, q))
    decreases |s| - from
  {
    if from + |term| <= |s| && !MatchAt(s, term, from) {
      FirstMatchSpec(s, term, from + 1);
    }
  }

  /** `regex.exec(s)` with the regular expression's `lastIndex` at `lastIndex`: tries each start
      position in turn and reports the first one where the term matches. */
  method Exec(s: string, term: string, lastIndex: nat) returns (m: Option<nat>)
    requires |term| > 0
    ensures m == FirstMatch(s, term, lastIndex)
  {
    var p := lastIndex;
    while p + |term| <= |s| && !MatchAt(s, term, p)
      invariant lastIndex <= p
      invariant FirstMatch(s, term, p) == FirstMatch(s, term, lastIndex)
      decreases |s| - p
    {
      p := p + 1;
    }
    if p + |term| <= |s| {
      m := Some(p);
    } else {
      m := None;
    }
  }

  /** The start positions the repeated `exec` reports from `from` on: after each match the search
      resumes at the match's end. */
  function Matches(s: string, term: string, from: nat): (r: seq<nat>)
    requires |term| > 0
    decreases |s| - from
  {
    match FirstMatch(s, term, from)
    case None => []
    case Some(p) => [p] + Matches(s, term, p + |term|)
  }

  /** Each reported position is a match at or after `from`, and the positions increase strictly
      without overlapping: each starts no earlier than the previous one ends. */
  lemma {:induction false} MatchesSound(s: string, term: string, from: nat)
    requires |term| > 0
    ensures forall i :: 0 <= i < |Matches(s, term, from)| ==>
      from <= Matches(s, term, from)[i] && MatchAt(s, term, Matches(s, term, from)[i])
    ensures forall i, j :: 0 <= i < j < |Matches(s, term, from)| ==>
      Matches(s, term, from)[i] + |term| <= Matches(s, term, from)[j]
    decreases |s| - from
  {
    var r := Matches(s, term, from);
    var fm := FirstMatch(s, term, from);
    if fm.Some? {
      var p := fm.value;
      var rest := Matches(s, term, p + |term|);
      assert r == [p] + rest;
      FirstMatchSpec(s, term, from);
      MatchesSound(s, term, p + |term|);
      forall i | 0 < i < |r| ensures r[i] == rest[i - 1] {
      }
    }
  }

  /** Every position where the term matches lies inside one of the reported matches. */
  lemma {:induction false} MatchesComplete(s: string, term: string, from: nat, q: nat)
    requires |term| > 0 && from <= q && MatchAt(s, term, q)
    ensures exists i :: (0 <= i < |Matches(s, term, from)| &&
      Matches(s, term, from)[i] <= q < Matches(s, term, from)[i] + |term|)
    decreases |s| - from
  {
    var r := Matches(s, term, from);
    var fm := FirstMatch(s, term, from);
    FirstMatchSpec(s, term, from);
    assert fm.Some?;
    var p := fm.value;
    var rest := Matches(s, term, p + |term|);
    assert r == [p] + rest;
    if q < p + |term| {
      assert r[0] <= q < r[0] + |term|;
    } else {
      MatchesComplete(s, term, p + |term|, q);
      var i :| 0 <= i < |rest| && rest[i] <= q < rest[i] + |term|;
      assert r[i + 1] == rest[i];
    }
  }

  /** The hits recorded for one table entry, one per start position. */
  function EntryHits<V>(entry: (string, V), starts: seq<nat>): seq<Hit<V>>
  {
    if starts == [] then []
    else [Hit(entry.0, entry.1, starts[0], starts[0] + |entry.0|)] + EntryHits(entry, starts[1..])
  }

  /** One hit per start position, in order, each spanning the key from that position. */
  lemma {:induction false} EntryHitsIndex<V>(entry: (string, V), starts: seq<nat>)
    ensures |EntryHits(entry, starts)| == |starts|
    ensures forall i :: 0 <= i < |starts| ==>
      EntryHits(entry, starts)[i] == Hit(entry.0, entry.1, starts[i], starts[i] + |entry.0|)
  {
    if starts != [] {
      EntryHitsIndex(entry, starts[1..]);
    }
  }

  predicate KeysNonEmpty<V>(table: seq<(string, V)>)
  {
    forall k :: 0 <= k < |table| ==> |table[k].0| > 0
  }

  predicate DistinctKeys<V>(table: seq<(string, V)>)
  {
    forall a, b :: 0 <= a < b < |table| ==> table[a].0 != table[b].0
  }

  /** All hits of a table, grouped by entry in table order. */
  function TableHits<V>(s: string, table: seq<(string, V)>): seq<Hit<V>>
    requires KeysNonEmpty(table)
  {
    if table == [] then []
    else
      var e := table[|table| - 1];
      TableHits(s, table[..|table| - 1]) + EntryHits(e, Matches(s, e.0, 0))
  }

  /** One more round of the outer loop appends the hits of the next entry. */
  lemma TableHitsStep<V>(s: string, table: seq<(string, V)>, k: nat)
    requires KeysNonEmpty(table) && k < |table|
    ensures TableHits(s, table[..k + 1]) == TableHits(s, table[..k]) + EntryHits(table[k], Matches(s, table[k].0, 0))
  {
    assert table[..k + 1][..k] == table[..k];
  }

  /** One round of the inner loop: a match found at `from` starts the remaining matches. */
  lemma MatchesStep<V>(s: string, entry: (string, V), from: nat)
    requires |entry.0| > 0 && FirstMatch(s, entry.0, from).Some?
    ensures var p := FirstMatch(s, entry.0, from).value;
      EntryHits(entry, Matches(s, entry.0, from))
      == [Hit(entry.0, entry.1, p, p + |entry.0|)] + EntryHits(entry, Matches(s, entry.0, p + |entry.0|))
  {
    var p := FirstMatch(s, entry.0, from).value;
    var rest := Matches(s, entry.0, p + |entry.0|);
    assert Matches(s, entry.0, from) == [p] + rest;
    assert ([p] + rest)[1..] == rest;
  }

  /** The inner loop's invariant survives one round: pushing the hit of the match found at
      `from` and resuming at its end leaves the same hits to come. */
  lemma ScanStep<V>(s: string, key: string, info: V, from: nat, hits: seq<Hit<V>>, all: seq<Hit<V>>)
    requires |key| > 0 && FirstMatch(s, key, from).Some?
    requires hits + EntryHits((key, info), Matches(s, key, from)) == all
    ensures var p := FirstMatch(s, key, from).value;
      (hits + [Hit(key, info, p, p + |key|)]) + EntryHits((key, info), Matches(s, key, p + |key|)) == all
  {
    var p := FirstMatch(s, key, from).value;
    var hit := Hit(key, info, p, p + |key|);
    var rest := EntryHits((key, info), Matches(s, key, p + |key|));
    MatchesStep(s, (key, info), from);
    assert hits + ([hit] + rest) == (hits + [hit]) + rest;
  }

  /** One turn of the inner loop: the match found from `lastIndex` is pushed and the search
      resumes at its end. */
  method ScanOnce<V>(s: string, key: string, info: V, lastIndex: nat, start: nat, hits: seq<Hit<V>>, ghost all: seq<Hit<V>>)
    returns (hits': seq<Hit<V>>, lastIndex': nat, m': Option<nat>)
    requires |key| > 0 && FirstMatch(s, key, lastIndex) == Some(start)
    requires hits + EntryHits((key, info), Matches(s, key, lastIndex)) == all
    ensures lastIndex < lastIndex' <= |s| && m' == FirstMatch(s, key, lastIndex')
    ensures hits' == hits + [Hit(key, info, start, start + |key|)] && lastIndex' == start + |key|
    ensures hits' + EntryHits((key, info), Matches(s, key, lastIndex')) == all
  {
    ScanStep(s, key, info, lastIndex, hits, all);
    hits' := hits + [Hit(key, info, start, start + |key|)];
    lastIndex' := start + |key|;
    m' := Exec(s, key, lastIndex');
  }

  /** The inner loop of the scan for one entry: `while ((match = regex.exec(s)) !== null) hits.push(...)`,
      the regular expression's `lastIndex` advancing to the end of each match. */
  method ScanEntry<V>(s: string, key: string, info: V) returns (hits: seq<Hit<V>>)
    requires |key| > 0
    ensures hits == EntryHits((key, info), Matches(s, key, 0))
  {
    ghost var all := EntryHits((key, info), Matches(s, key, 0));
    hits := [];
    var lastIndex: nat := 0;
    var m := Exec(s, key, lastIndex);
    while m.Some?
      invariant lastIndex <= |s|
      invariant m == FirstMatch(s, key, lastIndex)
      invariant hits + EntryHits((key, info), Matches(s, key, lastIndex)) == all
      decreases |s| - lastIndex
    {
      hits, lastIndex, m := ScanOnce(s, key, info, lastIndex, m.value, hits, all);
    }
  }

  /** The scan `Object.entries(table).forEach(([key, info]) => { ...inner loop... })`: the hits of
      every entry, in table order. */
  method ScanTable<V>(s: string, table: seq<(string, V)>) returns (hits: seq<Hit<V>>)
    requires KeysNonEmpty(table)
    ensures hits == TableHits(s, table)
  {
    hits := [];
    for k := 0 to |table|
      invariant hits == TableHits(s, table[..k])
    {
      var entryHits := ScanEntry(s, table[k].0, table[k].1);
      TableHitsStep(s, table, k);
      hits := hits + entryHits;
    }
    assert table[..|table|] == table;
  }

  /** The hits of one entry: each records the entry and a whole-word match of its key. */
  lemma EntryHitsSound<V>(s: string, e: (string, V), j: nat)
    requires |e.0| > 0 && j < |EntryHits(e, Matches(s, e.0, 0))|
    ensures var h := EntryHits(e, Matches(s, e.0, 0))[j];
      h.key == e.0 && h.info == e.1 && h.endIndex == h.startIndex + |h.key| && MatchAt(s, h.key, h.startIndex)
  {
    MatchesSound(s, e.0, 0);
    EntryHitsIndex(e, Matches(s, e.0, 0));
  }

  /** Every hit records a table entry's key and info, spans exactly the key's length, and covers
      text equal to the key up to ASCII case with a word boundary on both sides. */
  lemma {:induction false} TableHitsSound<V>(s: string, table: seq<(string, V)>, i: nat)
    requires KeysNonEmpty(table) && i < |TableHits(s, table)|
    ensures var h := TableHits(s, table)[i];
      (h.key, h.info) in table && h.endIndex == h.startIndex + |h.key| && MatchAt(s, h.key, h.startIndex)
    decreases |table|
  {
    var init := table[..|table| - 1];
    var e := table[|table| - 1];
    var first := TableHits(s, init);
    var last := EntryHits(e, Matches(s, e.0, 0));
    assert TableHits(s, table) == first + last;
    if i < |first| {
      TableHitsSound(s, init, i);
      var h := first[i];
      assert (h.key, h.info) in init;
      assert TableHits(s, table)[i] == h;
    } else {
      var j := i - |first|;
      EntryHitsSound(s, e, j);
      assert TableHits(s, table)[i] == last[j];
    }
  }

  /** The position of a key in the table. */
  function KeyRank<V>(table: seq<(string, V)>, key: string): nat
  {
    if table == [] || table[0].0 == key then 0 else 1 + KeyRank(table[1..], key)
  }

  lemma KeyRankOf<V>(table: seq<(string, V)>, k: nat)
    requires DistinctKeys(table) && k < |table|
    ensures KeyRank(table, table[k].0) == k
  {
    if k > 0 {
      assert table[0].0 != table[k].0;
      KeyRankOf(table[1..], k - 1);
    }
  }

  /** The hits of one entry all carry its key and come in increasing, non-overlapping order. */
  lemma EntryHitsOrdered<V>(s: string, e: (string, V), i: nat, j: nat)
    requires |e.0| > 0 && i < j < |EntryHits(e, Matches(s, e.0, 0))|
    ensures var hits := EntryHits(e, Matches(s, e.0, 0));
      hits[i].key == e.0 && hits[j].key == e.0 && hits[i].endIndex <= hits[j].startIndex
  {
    MatchesSound(s, e.0, 0);
    EntryHitsIndex(e, Matches(s, e.0, 0));
  }

  /** The rank of a hit's key is the position of the table entry it came from. */
  lemma TableHitsRank<V>(s: string, table: seq<(string, V)>, x: nat)
    requires KeysNonEmpty(table) && DistinctKeys(table) && x < |TableHits(s, table)|
    ensures KeyRank(table, TableHits(s, table)[x].key) < |table|
  {
    var h := TableHits(s, table)[x];
    TableHitsSound(s, table, x);
    var a :| 0 <= a < |table| && table[a] == (h.key, h.info);
    KeyRankOf(table, a);
  }

  /** A key of the table without its last entry has the same rank in both tables. */
  lemma KeyRankInit<V>(table: seq<(string, V)>, key: string)
    requires table != [] && KeyRank(table[..|table| - 1], key) < |table| - 1
    ensures KeyRank(table, key) == KeyRank(table[..|table| - 1], key)
  {
    if table[0].0 != key {
      assert table[1..][..|table[1..]| - 1] == table[..|table| - 1][1..];
      KeyRankInit(table[1..], key);
    }
  }

  /** Hit `a` may come before hit `b`: its key is not later in the table, and two hits of the same
      key do not overlap. */
  predicate InOrder<V>(table: seq<(string, V)>, a: Hit<V>, b: Hit<V>)
  {
    KeyRank(table, a.key) <= KeyRank(table, b.key) && (a.key == b.key ==> a.endIndex <= b.startIndex)
  }

  /** A hit of an earlier entry comes before a hit of the last entry. */
  lemma LastEntryAfter<V>(s: string, table: seq<(string, V)>, i: nat, j: nat)
    requires table != [] && KeysNonEmpty(table) && DistinctKeys(table)
    requires i < |TableHits(s, table[..|table| - 1])|
    requires j < |EntryHits(table[|table| - 1], Matches(s, table[|table| - 1].0, 0))|
    ensures InOrder(table, TableHits(s, table[..|table| - 1])[i],
      EntryHits(table[|table| - 1], Matches(s, table[|table| - 1].0, 0))[j])
  {
    var init := table[..|table| - 1];
    var e := table[|table| - 1];
    var h := TableHits(s, init)[i];
    TableHitsRank(s, init, i);
    KeyRankInit(table, h.key);
    EntryHitsIndex(e, Matches(s, e.0, 0));
    KeyRankOf(table, |table| - 1);
  }

  /** Two hits of the table without its last entry keep their order in the whole table. */
  lemma InitKeepsOrder<V>(s: string, table: seq<(string, V)>, i: nat, j: nat)
    requires table != [] && KeysNonEmpty(table) && DistinctKeys(table)
    requires i < |TableHits(s, table[..|table| - 1])| && j < |TableHits(s, table[..|table| - 1])|
    requires InOrder(table[..|table| - 1], TableHits(s, table[..|table| - 1])[i], TableHits(s, table[..|table| - 1])[j])
    ensures InOrder(table, TableHits(s, table[..|table| - 1])[i], TableHits(s, table[..|table| - 1])[j])
  {
    var init := table[..|table| - 1];
    var first := TableHits(s, init);
    TableHitsRank(s, init, i);
    TableHitsRank(s, init, j);
    KeyRankInit(table, first[i].key);
    KeyRankInit(table, first[j].key);
  }

  /** Hits are grouped by table entry in table order, and within one entry they come in strictly
      increasing, non-overlapping order. */
  lemma {:induction false} TableHitsOrdered<V>(s: string, table: seq<(string, V)>, i: nat, j: nat)
    requires KeysNonEmpty(table) && DistinctKeys(table) && i < j < |TableHits(s, table)|
    ensures InOrder(table, TableHits(s, table)[i], TableHits(s, table)[j])
    decreases |table|
  {
    var hits := TableHits(s, table);
    var init := table[..|table| - 1];
    var e := table[|table| - 1];
    var first := TableHits(s, init);
    var last := EntryHits(e, Matches(s, e.0, 0));
    assert hits == first + last;
    if j < |first| {
      TableHitsOrdered(s, init, i, j);
      InitKeepsOrder(s, table, i, j);
      assert hits[i] == first[i] && hits[j] == first[j];
    } else if i < |first| {
      LastEntryAfter(s, table, i, j - |first|);
      assert hits[i] == first[i] && hits[j] == last[j - |first|];
    } else {
      EntryHitsOrdered(s, e, i - |first|, j - |first|);
      assert hits[i] == last[i - |first|] && hits[j] == last[j - |first|];
    }
  }

  /** Every whole-word occurrence of an entry's key lies inside a hit recorded for that entry. */
  lemma {:induction false} TableHitsComplete<V>(s: string, table: seq<(string, V)>, k: nat, q: nat)
    requires KeysNonEmpty(table) && k < |table| && MatchAt(s, table[k].0, q)
    ensures exists i :: (0 <= i < |TableHits(s, table)| &&
      TableHits(s, table)[i].key == table[k].0 && TableHits(s, table)[i].info == table[k].1 &&
      TableHits(s, table)[i].startIndex <= q < TableHits(s, table)[i].endIndex)
    decreases |table|
  {
    var init := table[..|table| - 1];
    var e := table[|table| - 1];
    var first := TableHits(s, init);
    var last := EntryHits(e, Matches(s, e.0, 0));
    assert TableHits(s, table) == first + last;
    if k < |init| {
      TableHitsComplete(s, init, k, q);
      var i :| 0 <= i < |first| && first[i].key == init[k].0 && first[i].info == init[k].1 &&
        first[i].startIndex <= q < first[i].endIndex;
      assert TableHits(s, table)[i] == first[i];
    } else {
      MatchesComplete(s, e.0, 0, q);
      var m := Matches(s, e.0, 0);
      var i :| 0 <= i < |m| && m[i] <= q < m[i] + |e.0|;
      EntryHitsIndex(e, m);
      assert TableHits(s, table)[|first| + i] == last[i];
    }
  }

  /** What a scan of a table delivers: sound, complete and ordered hits. */
  lemma TableHitsSpec<V>(s: string, table: seq<(string, V)>)
    requires KeysNonEmpty(table) && DistinctKeys(table)
    ensures var hits := TableHits(s, table);
      (forall i :: 0 <= i < |hits| ==>
        (hits[i].key, hits[i].info) in table &&
        hits[i].endIndex == hits[i].startIndex + |hits[i].key| &&
        MatchAt(s, hits[i].key, hits[i].startIndex)) &&
      (forall k, q :: 0 <= k < |table| && MatchAt(s, table[k].0, q) ==>
        exists i :: (0 <= i < |hits| && hits[i].key == table[k].0 &&
          hits[i].info == table[k].1 && hits[i].startIndex <= q < hits[i].endIndex)) &&
      (forall i, j :: 0 <= i < j < |hits| ==>
        KeyRank(table, hits[i].key) <= KeyRank(table, hits[j].key) &&
        (hits[i].key == hits[j].key ==> hits[i].endIndex <= hits[j].startIndex))
  {
    var hits := TableHits(s, table);
    forall i | 0 <= i < |hits|
      ensures (hits[i].key, hits[i].info) in table &&
        hits[i].endIndex == hits[i].startIndex + |hits[i].key| &&
        MatchAt(s, hits[i].key, hits[i].startIndex)
    {
      TableHitsSound(s, table, i);
    }
    forall k, q | 0 <= k < |table| && MatchAt(s, table[k].0, q)
      ensures exists i :: (0 <= i < |hits| && hits[i].key == table[k].0 &&
        hits[i].info == table[k].1 && hits[i].startIndex <= q < hits[i].endIndex)
    {
      TableHitsComplete(s, table, k, q);
    }
    forall i, j | 0 <= i < j < |hits|
      ensures KeyRank(table, hits[i].key) <= KeyRank(table, hits[j].key) &&
        (hits[i].key == hits[j].key ==> hits[i].endIndex <= hits[j].startIndex)
    {
      TableHitsOrdered(s, table, i, j);
    }
  }
}
