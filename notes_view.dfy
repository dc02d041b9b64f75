/** The derived view the note hook (`src/hooks/useNotes.ts`) publishes: the notes that match the
    search query, sorted pinned-first and newest-first by a stable sort. */
module NotesView {
  import opened Types
  import opened Text
  import opened Seqs

  /** The lower-cased query `q` occurs in the lower-cased title, plain text or one of the tags. */
  predicate Mentions(n: Note, q: string)
  {
    Contains(Lower(n.title), q) || Contains(Lower(n.plainText), q)
    || exists i :: 0 <= i < |n.tags| && Contains(Lower(n.tags[i]), q)
  }

  /** The search test of one note: a blank query keeps it; otherwise the lower-cased query must
      occur in the lower-cased title, plain text or one of the tags. The query is not trimmed. */
  predicate MatchesQuery(n: Note, query: string)
  {
    Trim(query) == "" || Mentions(n, Lower(query))
  }

  function Matching(query: string): Note -> bool
  {
    (n: Note) => MatchesQuery(n, query)
  }

  /** `notes.filter(...)` with the search test. */
  function FilterNotes(ns: seq<Note>, query: string): seq<Note>
  {
    Filter(Matching(query), ns)
  }

  /** A white-space-only query keeps every note in order; otherwise a note is kept exactly when the
      lower-cased query occurs in its lower-cased title, plain text or some tag. */
  lemma FilterNotesSpec(ns: seq<Note>, query: string)
    ensures Blank(query) ==> FilterNotes(ns, query) == ns
    ensures !Blank(query) ==> forall n :: n in FilterNotes(ns, query) <==> n in ns && Mentions(n, Lower(query))
  {
    TrimEmptyIffBlank(query);
    if Blank(query) {
      FilterKeepsAll(Matching(query), ns);
    } else {
      forall n: Note ensures n in FilterNotes(ns, query) <==> n in ns && Mentions(n, Lower(query)) {
        assert Matching(query)(n) == Mentions(n, Lower(query));
      }
    }
  }

  /** The sort comparator: negative when `a` goes first. */
  function Compare(a: Note, b: Note): int
  {
    if a.isPinned && !b.isPinned then -1
    else if !a.isPinned && b.isPinned then 1
    else b.updatedAt - a.updatedAt
  }

  predicate Before(a: Note, b: Note)
  {
    Compare(a, b) < 0
  }

  /** Every pinned note precedes every unpinned one, and within a pin group `updatedAt` never increases. */
  predicate Sorted(s: seq<Note>)
  {
    forall i, j :: 0 <= i < j < |s| ==>
      (s[j].isPinned ==> s[i].isPinned) &&
      (s[i].isPinned == s[j].isPinned ==> s[i].updatedAt >= s[j].updatedAt)
  }

  /** What the comparator looks at; two notes with the same key compare equal. */
  datatype SortKey = SortKey(pinned: bool, updatedAt: Timestamp)

  function KeyOf(n: Note): SortKey
  {
    SortKey(n.isPinned, n.updatedAt)
  }

  function HasKey(k: SortKey): Note -> bool
  {
    (n: Note) => KeyOf(n) == k
  }

  /** `a` may come before `b` in a sorted sequence. */
  predicate KeyLe(a: SortKey, b: SortKey)
  {
    (b.pinned ==> a.pinned) && (a.pinned == b.pinned ==> a.updatedAt >= b.updatedAt)
  }

  /** Inserts `x` before the first element it does not strictly follow: `x` stays ahead of every
      element that compares equal to it, which is what makes the sort stable. */
  function Insert(x: Note, s: seq<Note>): (r: seq<Note>)
    ensures multiset(r) == multiset(s) + multiset{x}
  {
    if s == [] then [x]
    else if Before(s[0], x) then
      assert s == [s[0]] + s[1..];
      [s[0]] + Insert(x, s[1..])
    else [x] + s
  }

  /** Every element of an insertion is the inserted note or an element of the sequence. */
  lemma InsertElement(x: Note, s: seq<Note>, j: nat)
    requires j < |Insert(x, s)|
    ensures Insert(x, s)[j] == x || Insert(x, s)[j] in s
  {
    var t := Insert(x, s);
    assert t[j] in multiset(t);
  }

  /** A sorted sequence stays sorted behind a note that may precede all of its elements. */
  lemma SortedCons(a: Note, t: seq<Note>)
    requires Sorted(t)
    requires forall j :: 0 <= j < |t| ==> KeyLe(KeyOf(a), KeyOf(t[j]))
    ensures Sorted([a] + t)
  {
    var r := [a] + t;
    forall i, j | 0 <= i < j < |r|
      ensures (r[j].isPinned ==> r[i].isPinned) && (r[i].isPinned == r[j].isPinned ==> r[i].updatedAt >= r[j].updatedAt)
    {
      assert r[j] == t[j - 1];
      if i > 0 {
        assert r[i] == t[i - 1];
      }
    }
  }

  lemma {:induction false} InsertSorted(x: Note, s: seq<Note>)
    requires Sorted(s)
    ensures Sorted(Insert(x, s))
  {
    if s != [] && Before(s[0], x) {
      var t := Insert(x, s[1..]);
      InsertSorted(x, s[1..]);
      forall j | 0 <= j < |t| ensures KeyLe(KeyOf(s[0]), KeyOf(t[j])) {
        InsertElement(x, s[1..], j);
        if t[j] != x {
          var m :| 0 <= m < |s[1..]| && s[1..][m] == t[j];
          assert s[m + 1] == t[j];
        }
      }
      SortedCons(s[0], t);
      assert Insert(x, s) == [s[0]] + t;
    }
  }

  /** A stable sort by the comparator: insertion of each note, from the last to the first,
      into the sorted rest. */
  function SortNotes(s: seq<Note>): (r: seq<Note>)
    ensures multiset(r) == multiset(s)
    ensures Sorted(r)
  {
    if s == [] then []
    else
      var rest := SortNotes(s[1..]);
      InsertSorted(s[0], rest);
      assert s == [s[0]] + s[1..];
      Insert(s[0], rest)
  }

  /** Inserting `x` adds it at the front of its own key group and leaves every other group alone. */
  lemma {:induction false} InsertGroup(x: Note, s: seq<Note>, k: SortKey)
    ensures Filter(HasKey(k), Insert(x, s)) == (if KeyOf(x) == k then [x] else []) + Filter(HasKey(k), s)
  {
    if s == [] {
      FilterCons(HasKey(k), x, []);
    } else if Before(s[0], x) {
      var p, t := HasKey(k), Insert(x, s[1..]);
      assert Insert(x, s) == [s[0]] + t;
      InsertGroup(x, s[1..], k);
      FilterCons(p, s[0], t);
      FilterCons(p, s[0], s[1..]);
      assert [s[0]] + s[1..] == s;
      assert KeyOf(s[0]) != KeyOf(x);
      if KeyOf(x) == k {
        assert !p(s[0]);
        assert Filter(p, Insert(x, s)) == Filter(p, t) == [x] + Filter(p, s[1..]);
        assert Filter(p, s) == Filter(p, s[1..]);
      } else {
        assert Filter(p, t) == Filter(p, s[1..]);
      }
    } else {
      FilterCons(HasKey(k), x, s);
    }
  }

  /** The sort is stable: the notes of any one key appear in the result in their input order. */
  lemma {:induction false} SortNotesStable(s: seq<Note>, k: SortKey)
    ensures Filter(HasKey(k), SortNotes(s)) == Filter(HasKey(k), s)
  {
    if s != [] {
      SortNotesStable(s[1..], k);
      InsertGroup(s[0], SortNotes(s[1..]), k);
      FilterCons(HasKey(k), s[0], s[1..]);
      assert [s[0]] + s[1..] == s;
    }
  }

  /** The first note of a sorted sequence may come before any of its notes. */
  lemma HeadIsLeast(r: seq<Note>, y: Note)
    requires Sorted(r) && y in r
    ensures KeyLe(KeyOf(r[0]), KeyOf(y))
  {
    var j :| 0 <= j < |r| && r[j] == y;
  }

  /** A key whose group in `r2` is that of `r1`'s head appears in `r2`, no earlier than `r2`'s head. */
  lemma HeadKeyBound(r1: seq<Note>, r2: seq<Note>)
    requires Sorted(r2) && r1 != []
    requires Filter(HasKey(KeyOf(r1[0])), r1) == Filter(HasKey(KeyOf(r1[0])), r2)
    ensures r2 != [] && KeyLe(KeyOf(r2[0]), KeyOf(r1[0]))
  {
    var p := HasKey(KeyOf(r1[0]));
    assert r1[0] in Filter(p, r1);
    var z :| z in Filter(p, r2);
    HeadIsLeast(r2, z);
  }

  /** Of two sorted sequences whose key groups agree, neither is empty without the other,
      and they start with the same note. */
  lemma SameGroupsSameHead(r1: seq<Note>, r2: seq<Note>)
    requires Sorted(r1) && Sorted(r2) && r1 != []
    requires forall k :: Filter(HasKey(k), r1) == Filter(HasKey(k), r2)
    ensures r2 != [] && r1[0] == r2[0]
  {
    var k1 := KeyOf(r1[0]);
    HeadKeyBound(r1, r2);
    var k2 := KeyOf(r2[0]);
    HeadKeyBound(r2, r1);
    assert k1 == k2;
    var p := HasKey(k1);
    FilterCons(p, r1[0], r1[1..]);
    FilterCons(p, r2[0], r2[1..]);
    assert r1 == [r1[0]] + r1[1..] && r2 == [r2[0]] + r2[1..];
    assert Filter(p, r1) == Filter(p, r2);
    assert Filter(p, r1)[0] == r1[0];
    assert Filter(p, r2)[0] == r2[0];
  }

  /** Dropping a common head keeps the key groups in agreement. */
  lemma TailGroups(r1: seq<Note>, r2: seq<Note>, k: SortKey)
    requires r1 != [] && r2 != [] && r1[0] == r2[0]
    requires Filter(HasKey(k), r1) == Filter(HasKey(k), r2)
    ensures Filter(HasKey(k), r1[1..]) == Filter(HasKey(k), r2[1..])
  {
    var p := HasKey(k);
    FilterCons(p, r1[0], r1[1..]);
    FilterCons(p, r2[0], r2[1..]);
    assert r1 == [r1[0]] + r1[1..] && r2 == [r2[0]] + r2[1..];
    if p(r1[0]) {
      assert Filter(p, r1[1..]) == Filter(p, r1)[1..];
      assert Filter(p, r2[1..]) == Filter(p, r2)[1..];
    }
  }

  /** Two sorted sequences whose key groups agree are equal. */
  lemma {:induction false} SortedGroupsDetermine(r1: seq<Note>, r2: seq<Note>)
    requires Sorted(r1) && Sorted(r2)
    requires forall k :: Filter(HasKey(k), r1) == Filter(HasKey(k), r2)
    ensures r1 == r2
    decreases |r1|
  {
    if r1 != [] {
      SameGroupsSameHead(r1, r2);
    } else if r2 != [] {
      SameGroupsSameHead(r2, r1);
    }
    if r1 != [] && r2 != [] {
      forall k ensures Filter(HasKey(k), r1[1..]) == Filter(HasKey(k), r2[1..]) {
        TailGroups(r1, r2, k);
      }
      SortedGroupsDetermine(r1[1..], r2[1..]);
      assert r1 == [r1[0]] + r1[1..] && r2 == [r2[0]] + r2[1..];
    }
  }

  /** The sorted order is the only stable sort of its input: any sequence that is pinned-first,
      newest-first and keeps every key group in input order equals `SortNotes(s)`. So any stable
      sorting algorithm with this comparator, as ECMAScript 2019 requires of `Array.prototype.sort`,
      yields exactly this result. */
  lemma SortNotesIsTheStableSort(s: seq<Note>, r: seq<Note>)
    requires Sorted(r)
    requires forall k :: Filter(HasKey(k), r) == Filter(HasKey(k), s)
    ensures r == SortNotes(s)
  {
    forall k ensures Filter(HasKey(k), r) == Filter(HasKey(k), SortNotes(s)) {
      SortNotesStable(s, k);
    }
    SortedGroupsDetermine(r, SortNotes(s));
  }

  /** The published list: filtered, then sorted. */
  function View(ns: seq<Note>, query: string): seq<Note>
  {
    SortNotes(FilterNotes(ns, query))
  }

  /** The view holds exactly the matching notes, each as often as in the list, pinned first and
      newest first, with notes of equal pin flag and update time in list order. */
  lemma ViewSpec(ns: seq<Note>, query: string)
    ensures multiset(View(ns, query)) == multiset(FilterNotes(ns, query))
    ensures forall n :: n in View(ns, query) <==> n in ns && MatchesQuery(n, query)
    ensures Sorted(View(ns, query))
    ensures forall k :: Filter(HasKey(k), View(ns, query)) == Filter(HasKey(k), FilterNotes(ns, query))
  {
    var f := FilterNotes(ns, query);
    forall n ensures n in View(ns, query) <==> n in f {
      assert n in View(ns, query) <==> n in multiset(View(ns, query));
    }
    forall k ensures Filter(HasKey(k), View(ns, query)) == Filter(HasKey(k), f) {
      SortNotesStable(f, k);
    }
  }
}
