/** The browser-storage service of `src/lib/local-storage.ts`: the notes list and the signed-in
    user, each kept as serialised text under its own key of a key-value store. */
module LocalStorage {
  import opened Wrappers
  import opened Types
  import opened NoteLists

  const NotesKey := "shareable-notes"
  const UserKey := "current-user"

  /** The text stored under a key, seen through `JSON.parse`: a serialised note list, a serialised
      user, or text the parser rejects. */
  datatype Stored = NotesJson(notes: seq<Note>) | UserJson(user: User) | Unparsable

  /** What `getNotes` reads from a store: the stored list, or `[]` when the key is absent or its
      text does not parse. */
  function NotesIn(items: map<string, Stored>): (r: seq<Note>)
    ensures NotesKey !in items || !items[NotesKey].NotesJson? ==> r == []
  {
    if NotesKey in items && items[NotesKey].NotesJson? then items[NotesKey].notes else []
  }

  /** What `getCurrentUser` reads from a store: the stored user, or none when the key is absent or
      its text does not parse. */
  function UserIn(items: map<string, Stored>): (r: Option<User>)
    ensures r.Some? <==> UserKey in items && items[UserKey].UserJson?
  {
    if UserKey in items && items[UserKey].UserJson? then Some(items[UserKey].user) else None
  }

  /** Writing one key leaves what is read under the other alone, and a written value reads back. */
  lemma StoreKeysIndependent(items: map<string, Stored>, ns: seq<Note>, u: User)
    ensures NotesIn(items[NotesKey := NotesJson(ns)]) == ns
    ensures UserIn(items[NotesKey := NotesJson(ns)]) == UserIn(items)
    ensures UserIn(items[UserKey := UserJson(u)]) == Some(u)
    ensures NotesIn(items[UserKey := UserJson(u)]) == NotesIn(items)
    ensures UserIn(items - {UserKey}) == None
    ensures NotesIn(items - {UserKey}) == NotesIn(items)
  {
  }

  /** `notes.findIndex(note => note.id === id)`: the first position holding the id, or -1. */
  method FindIndex(ns: seq<Note>, id: string) returns (index: int)
    ensures -1 <= index < |ns|
    ensures index == -1 <==> forall i :: 0 <= i < |ns| ==> ns[i].id != id
    ensures index >= 0 ==> ns[index].id == id && forall i :: 0 <= i < index ==> ns[i].id != id
  {
    index := 0;
    while index < |ns| && ns[index].id != id
      invariant 0 <= index <= |ns|
      invariant forall i :: 0 <= i < index ==> ns[i].id != id
    {
      index := index + 1;
    }
    if index == |ns| {
      index := -1;
    }
  }

  /** Ids occur at most once. */
  predicate UniqueIds(ns: seq<Note>)
  {
    forall i, j :: 0 <= i < j < |ns| ==> ns[i].id != ns[j].id
  }

  /** On a list whose ids are unique, replacing the first note with the id, as the storage service
      does, agrees with replacing every such note, as the note hook does. */
  lemma ReplaceFirstIsReplaceById(ns: seq<Note>, k: nat, u: Note)
    requires UniqueIds(ns) && k < |ns| && ns[k].id == u.id
    ensures ns[k := u] == ReplaceById(ns, u)
  {
  }

  /** With a repeated id the two differ: the storage service replaces only the first copy. */
  lemma ReplaceFirstDiffersOnDuplicates(n: Note, u: Note)
    requires n.id == u.id && n != u
    ensures [n, n][0 := u] == [u, n] != [u, u] == ReplaceById([n, n], u)
  {
    assert ReplaceById([n, n], u)[1] == u;
  }

  class LocalStore {
    /** The browser's storage: the text under each key. */
    var items: map<string, Stored>

    constructor ()
      ensures items == map[]
    {
      items := map[];
    }

    /** `getNotes`. */
    function GetNotes(): seq<Note>
      reads this
    {
      NotesIn(items)
    }

    /** `getCurrentUser` (`null` as `None`). */
    function GetCurrentUser(): Option<User>
      reads this
    {
      UserIn(items)
    }

    /** `saveNotes`: a successful write stores the list; a failed one (`writeOk` false) is swallowed
        and leaves the store as it was. */
    method SaveNotes(ns: seq<Note>, writeOk: bool)
      modifies this
      ensures items == if writeOk then old(items)[NotesKey := NotesJson(ns)] else old(items)
      ensures writeOk ==> GetNotes() == ns
      ensures GetCurrentUser() == old(GetCurrentUser())
    {
      if writeOk {
        items := items[NotesKey := NotesJson(ns)];
      }
      StoreKeysIndependent(old(items), ns, User("", "", ""));
    }

    /** `addNote`: the stored list with the note pushed at the end, written back. */
    method AddNote(n: Note, writeOk: bool)
      modifies this
      ensures items == if writeOk then old(items)[NotesKey := NotesJson(old(GetNotes()) + [n])] else old(items)
      ensures writeOk ==> GetNotes() == old(GetNotes()) + [n]
    {
      var notes := GetNotes();
      notes := notes + [n];
      SaveNotes(notes, writeOk);
    }

    /** `updateNote`: replaces the first stored note with the updated note's id and writes the
        list back; when no stored note has that id nothing is written. */
    method UpdateNote(u: Note, writeOk: bool)
      modifies this
      ensures (forall i :: 0 <= i < |old(GetNotes())| ==> old(GetNotes())[i].id != u.id) ==> items == old(items)
      ensures (exists i :: 0 <= i < |old(GetNotes())| && old(GetNotes())[i].id == u.id) ==>
        exists k :: 0 <= k < |old(GetNotes())| && old(GetNotes())[k].id == u.id &&
          (forall i :: 0 <= i < k ==> old(GetNotes())[i].id != u.id) &&
          items == if writeOk then old(items)[NotesKey := NotesJson(old(GetNotes())[k := u])] else old(items)
    {
      var notes := GetNotes();
      var index := FindIndex(notes, u.id);
      if index != -1 {
        notes := notes[index := u];
        SaveNotes(notes, writeOk);
      }
    }

    /** `deleteNote`: the stored list without the notes of that id, always written back. */
    method DeleteNote(id: string, writeOk: bool)
      modifies this
      ensures items == if writeOk then old(items)[NotesKey := NotesJson(RemoveById(old(GetNotes()), id))] else old(items)
    {
      var notes := RemoveById(GetNotes(), id);
      SaveNotes(notes, writeOk);
    }

    /** `setCurrentUser`: a successful write stores the user; a failed one changes nothing. */
    method SetCurrentUser(u: User, writeOk: bool)
      modifies this
      ensures items == if writeOk then old(items)[UserKey := UserJson(u)] else old(items)
      ensures writeOk ==> GetCurrentUser() == Some(u)
      ensures GetNotes() == old(GetNotes())
    {
      if writeOk {
        items := items[UserKey := UserJson(u)];
      }
      StoreKeysIndependent(old(items), [], u);
    }

    /** `clearUser`: removes the user's key. */
    method ClearUser()
      modifies this
      ensures items == old(items) - {UserKey}
      ensures GetCurrentUser() == None
      ensures GetNotes() == old(GetNotes())
    {
      items := items - {UserKey};
      StoreKeysIndependent(old(items), [], User("", "", ""));
    }
  }
}
