/** The list expressions the note hook (`src/hooks/useNotes.ts`) and the storage service
    (`src/lib/local-storage.ts`) build new note lists with: `map` that swaps in a note by id,
    `filter` that drops a note by id, and `map` that toggles a note's pin. */
module NoteLists {
  import opened Types
  import opened Seqs

  /** `prev.map(note => note.id === updated.id ? updated : note)`. */
  function ReplaceById(ns: seq<Note>, updated: Note): (r: seq<Note>)
    ensures |r| == |ns|
    ensures forall i :: 0 <= i < |ns| ==> r[i] == (if ns[i].id == updated.id then updated else ns[i])
  {
    if ns == [] then []
    else [if ns[0].id == updated.id then updated else ns[0]] + ReplaceById(ns[1..], updated)
  }

  /** Replacing by id keeps every position's id, leaves the list as it was when no id matches,
      and replacing the same note again changes nothing. */
  lemma ReplaceByIdProperties(ns: seq<Note>, updated: Note)
    ensures forall i :: 0 <= i < |ns| ==> ReplaceById(ns, updated)[i].id == ns[i].id
    ensures (forall i :: 0 <= i < |ns| ==> ns[i].id != updated.id) ==> ReplaceById(ns, updated) == ns
    ensures ReplaceById(ReplaceById(ns, updated), updated) == ReplaceById(ns, updated)
  {
    var r := ReplaceById(ns, updated);
    if forall i :: 0 <= i < |ns| ==> ns[i].id != updated.id {
      assert forall i :: 0 <= i < |ns| ==> r[i] == ns[i];
    }
    var rr := ReplaceById(r, updated);
    assert forall i :: 0 <= i < |r| ==> rr[i] == r[i];
  }

  /** The selector `note => note.id !== id`. */
  function NotId(id: string): Note -> bool
  {
    (n: Note) => n.id != id
  }

  /** `notes.filter(note => note.id !== id)`. */
  function RemoveById(ns: seq<Note>, id: string): seq<Note>
  {
    Filter(NotId(id), ns)
  }

  /** Deleting by id removes exactly the notes with that id, keeps every other note with its
      multiplicity, keeps the survivors' relative order, and changes nothing when the id is absent. */
  lemma RemoveByIdProperties(ns: seq<Note>, id: string, a: seq<Note>, b: seq<Note>)
    ensures forall n: Note :: n in RemoveById(ns, id) <==> n in ns && n.id != id
    ensures forall n: Note :: n.id != id ==> multiset(RemoveById(ns, id))[n] == multiset(ns)[n]
    ensures RemoveById(a + b, id) == RemoveById(a, id) + RemoveById(b, id)
    ensures (forall i :: 0 <= i < |ns| ==> ns[i].id != id) ==> RemoveById(ns, id) == ns
  {
    FilterCount(NotId(id), ns);
    FilterAppend(NotId(id), a, b);
    if forall i :: 0 <= i < |ns| ==> ns[i].id != id {
      FilterKeepsAll(NotId(id), ns);
    }
  }

  /** The note with its pin flipped and its update time set to `now`. */
  function Toggled(n: Note, now: Timestamp): Note
  {
    n.(isPinned := !n.isPinned, updatedAt := now)
  }

  /** `prev.map(note => note.id === id ? { ...note, isPinned: !note.isPinned, updatedAt: now } : note)`. */
  function TogglePinned(ns: seq<Note>, id: string, now: Timestamp): (r: seq<Note>)
    ensures |r| == |ns|
    ensures forall i :: 0 <= i < |ns| ==> r[i] == (if ns[i].id == id then Toggled(ns[i], now) else ns[i])
  {
    if ns == [] then []
    else [if ns[0].id == id then Toggled(ns[0], now) else ns[0]] + TogglePinned(ns[1..], id, now)
  }

  /** Toggling the same id twice restores every pin flag; only the update times of the
      toggled notes differ, carrying the second clock reading. */
  lemma TogglePinTwice(ns: seq<Note>, id: string, t1: Timestamp, t2: Timestamp)
    ensures var r := TogglePinned(TogglePinned(ns, id, t1), id, t2);
      |r| == |ns| &&
      forall i :: 0 <= i < |ns| ==>
        r[i].isPinned == ns[i].isPinned &&
        r[i] == (if ns[i].id == id then ns[i].(updatedAt := t2) else ns[i])
  {
  }
}
