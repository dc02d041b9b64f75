/** The note hook of `src/hooks/useNotes.ts`: the in-memory note list, the search query, the
    loading flag and the persisted copy in the storage service. Every mutation replaces the list
    and writes the new list to storage. */
module UseNotes {
  import opened Wrappers
  import opened Types
  import opened Seqs
  import opened NoteLists
  import opened NotesView
  import opened LocalStorage

  /** A day in milliseconds. */
  const DayMillis: int := 86400000

  /** The texts of the seed notes. */
  const SeedContent1: string := "<p><strong>Meeting Date:</strong> Today</p><p>Discussed the new <em>Shareable Notes</em> application project. Key points:</p><ul><li>Implement custom rich text editor</li><li>Add AI-powered features</li><li>Ensure data security with encryption</li></ul>"
  const SeedPlainText1: string := "Meeting Date: Today\n\nDiscussed the new Shareable Notes application project. Key points:\n- Implement custom rich text editor\n- Add AI-powered features\n- Ensure data security with encryption"
  const SeedSummary1: string := "Meeting notes about the new Shareable Notes application project covering key implementation points."
  const SeedContent2: string := "<p>Groceries needed:</p><ul><li>Apples</li><li>Bread</li><li>Milk</li><li>Cheese</li></ul><p><u>Don't forget</u> to check expiration dates!</p>"
  const SeedPlainText2: string := "Groceries needed:\n- Apples\n- Bread\n- Milk\n- Cheese\n\nDon't forget to check expiration dates!"
  const SeedSummary2: string := "Simple grocery shopping list with reminder to check expiration dates."

  /** The two seed notes (`MOCK_NOTES` in `src/lib/supabase.ts`), stamped with the clock reading
      `now` taken when they are built; the second is a day older. */
  function MockNotes(now: Timestamp): (r: seq<Note>)
    ensures |r| == 2 && UniqueIds(r)
    ensures r[0].isPinned && !r[1].isPinned && r[1].updatedAt == now - DayMillis < r[0].updatedAt
  {
    [ Note("1", "Project Planning Meeting Notes",
        SeedContent1,
        SeedPlainText1,
        true, false, ["meeting", "project", "planning"],
        Some(SeedSummary1),
        now, now),
      Note("2", "Shopping List",
        SeedContent2,
        SeedPlainText2,
        false, false, ["shopping", "groceries", "personal"],
        Some(SeedSummary2),
        now - DayMillis, now - DayMillis) ]
  }

  class NoteCollection {
    var notes: seq<Note>
    var loading: bool
    var searchQuery: string
    /** The storage service the hook writes through. */
    const store: LocalStore

    /** The hook's initial state: no notes yet, loading, empty query. */
    constructor (store: LocalStore)
      ensures notes == [] && loading && searchQuery == "" && this.store == store
    {
      notes := [];
      loading := true;
      searchQuery := "";
      this.store := store;
    }

    /** The mount effect: an empty stored list (absent and unparsable included) is replaced by the
        seed notes, which are persisted; otherwise the stored list is taken as it is. */
    method Load(now: Timestamp, writeOk: bool)
      modifies this, store
      ensures old(store.GetNotes()) == [] ==>
        notes == MockNotes(now) &&
        store.items == if writeOk then old(store.items)[NotesKey := NotesJson(notes)] else old(store.items)
      ensures old(store.GetNotes()) != [] ==> notes == old(store.GetNotes()) && store.items == old(store.items)
      ensures writeOk ==> store.GetNotes() == notes
      ensures !loading && searchQuery == old(searchQuery)
    {
      var localNotes := store.GetNotes();
      if |localNotes| == 0 {
        store.SaveNotes(MockNotes(now), writeOk);
        notes := MockNotes(now);
      } else {
        notes := localNotes;
      }
      loading := false;
    }

    /** `addNote`: the note goes in front of the list. */
    method AddNote(n: Note, writeOk: bool)
      modifies this, store
      ensures notes == [n] + old(notes)
      ensures store.items == if writeOk then old(store.items)[NotesKey := NotesJson(notes)] else old(store.items)
      ensures writeOk ==> store.GetNotes() == notes
      ensures loading == old(loading) && searchQuery == old(searchQuery)
    {
      notes := [n] + notes;
      store.SaveNotes(notes, writeOk);
    }

    /** `updateNote`: every note with the updated note's id is replaced. */
    method UpdateNote(u: Note, writeOk: bool)
      modifies this, store
      ensures notes == ReplaceById(old(notes), u)
      ensures store.items == if writeOk then old(store.items)[NotesKey := NotesJson(notes)] else old(store.items)
      ensures writeOk ==> store.GetNotes() == notes
      ensures loading == old(loading) && searchQuery == old(searchQuery)
    {
      notes := ReplaceById(notes, u);
      store.SaveNotes(notes, writeOk);
    }

    /** `deleteNote`: every note with the id is dropped. */
    method DeleteNote(id: string, writeOk: bool)
      modifies this, store
      ensures notes == RemoveById(old(notes), id)
      ensures store.items == if writeOk then old(store.items)[NotesKey := NotesJson(notes)] else old(store.items)
      ensures writeOk ==> store.GetNotes() == notes
      ensures loading == old(loading) && searchQuery == old(searchQuery)
    {
      notes := RemoveById(notes, id);
      store.SaveNotes(notes, writeOk);
    }

    /** `togglePin`: every note with the id has its pin flipped and its update time set to `now`. */
    method TogglePin(id: string, now: Timestamp, writeOk: bool)
      modifies this, store
      ensures notes == TogglePinned(old(notes), id, now)
      ensures store.items == if writeOk then old(store.items)[NotesKey := NotesJson(notes)] else old(store.items)
      ensures writeOk ==> store.GetNotes() == notes
      ensures loading == old(loading) && searchQuery == old(searchQuery)
    {
      notes := TogglePinned(notes, id, now);
      store.SaveNotes(notes, writeOk);
    }

    /** `setSearchQuery`. */
    method SetSearchQuery(query: string)
      modifies this
      ensures searchQuery == query && notes == old(notes) && loading == old(loading)
    {
      searchQuery := query;
    }

    /** The `notes` the hook publishes: the notes matching the query, pinned first, newest first,
        ties in list order. */
    function Visible(): (r: seq<Note>)
      reads this
      ensures forall n :: n in r <==> n in notes && MatchesQuery(n, searchQuery)
      ensures Sorted(r)
      ensures multiset(r) == multiset(FilterNotes(notes, searchQuery))
      ensures forall k :: Filter(HasKey(k), r) == Filter(HasKey(k), FilterNotes(notes, searchQuery))
    {
      ViewSpec(notes, searchQuery);
      View(notes, searchQuery)
    }
  }
}
