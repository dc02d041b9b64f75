/** The application shell of `src/App.tsx`: the signed-in user, the selected note and whether the
    editor is open, over the note hook and the storage service. */
module App {
  import opened Wrappers
  import opened Types
  import opened Text
  import opened NoteLists
  import opened LocalStorage
  import opened UseNotes

  /** What the shell renders. */
  datatype Screen = LoginScreen | EditorScreen | ListScreen

  /** `email.split('@')[0]`: the part of the address before the first `@`, or all of it. */
  function LoginName(email: string): (r: string)
    ensures r <= email && '@' !in r
    ensures |r| < |email| ==> email[|r|] == '@'
  {
    SplitFirstField(email, '@');
    Split(email, '@')[0]
  }

  class AppShell {
    var user: Option<User>
    var selectedNote: Option<Note>
    var showEditor: bool
    /** The note hook the shell uses. */
    const notes: NoteCollection
    /** The storage service, the same one the hook writes through. */
    const store: LocalStore

    predicate Valid()
      reads this
    {
      notes.store == store
    }

    /** The first render: no user, no selection, the list shown. */
    constructor (notes: NoteCollection)
      ensures Valid() && this.notes == notes
      ensures user.None? && selectedNote.None? && !showEditor
    {
      user, selectedNote, showEditor := None, None, false;
      this.notes := notes;
      store := notes.store;
    }

    /** The session effect: a stored user becomes the current user; otherwise nothing changes. */
    method RestoreSession()
      requires Valid()
      modifies this
      ensures user == if store.GetCurrentUser().Some? then store.GetCurrentUser() else old(user)
      ensures selectedNote == old(selectedNote) && showEditor == old(showEditor)
    {
      var savedUser := store.GetCurrentUser();
      if savedUser.Some? {
        user := savedUser;
      }
    }

    /** `handleLogin`: the mock user with id `1`, the address, and the name before the `@` becomes
        the current user and is persisted; the password is not looked at. */
    method HandleLogin(email: string, password: string, writeOk: bool)
      requires Valid()
      modifies this, store
      ensures user == Some(User("1", email, LoginName(email)))
      ensures store.items == if writeOk then old(store.items)[UserKey := UserJson(user.value)] else old(store.items)
      ensures writeOk ==> store.GetCurrentUser() == user
      ensures store.GetNotes() == old(store.GetNotes())
      ensures selectedNote == old(selectedNote) && showEditor == old(showEditor)
    {
      var u := User("1", email, LoginName(email));
      user := Some(u);
      store.SetCurrentUser(u, writeOk);
    }

    /** `handleLogout`: no user, the stored user removed, no selection, the list shown. */
    method HandleLogout()
      requires Valid()
      modifies this, store
      ensures user.None? && selectedNote.None? && !showEditor
      ensures store.items == old(store.items) - {UserKey}
      ensures store.GetCurrentUser().None? && store.GetNotes() == old(store.GetNotes())
    {
      user := None;
      store.ClearUser();
      selectedNote := None;
      showEditor := false;
    }

    /** `handleNoteSelect`: the note is selected and the editor opened. */
    method HandleNoteSelect(n: Note)
      modifies this
      ensures selectedNote == Some(n) && showEditor && user == old(user)
    {
      selectedNote := Some(n);
      showEditor := true;
    }

    /** `handleNewNote`: nothing selected and the editor opened. */
    method HandleNewNote()
      modifies this
      ensures selectedNote.None? && showEditor && user == old(user)
    {
      selectedNote := None;
      showEditor := true;
    }

    /** `handleNoteSave`: with a note selected the saved note replaces the notes with its id,
        otherwise it is added in front; then the editor closes and the selection is cleared. */
    method HandleNoteSave(n: Note, writeOk: bool)
      requires Valid()
      modifies this, notes, store
      ensures old(selectedNote).Some? ==> notes.notes == ReplaceById(old(notes.notes), n)
      ensures old(selectedNote).None? ==> notes.notes == [n] + old(notes.notes)
      ensures |notes.notes| == |old(notes.notes)| + (if old(selectedNote).Some? then 0 else 1)
      ensures n in notes.notes || (forall m :: m in old(notes.notes) ==> m.id != n.id)
      ensures writeOk ==> store.GetNotes() == notes.notes
      ensures store.items == if writeOk then old(store.items)[NotesKey := NotesJson(notes.notes)] else old(store.items)
      ensures store.GetCurrentUser() == old(store.GetCurrentUser())
      ensures selectedNote.None? && !showEditor && user == old(user)
      ensures notes.searchQuery == old(notes.searchQuery) && notes.loading == old(notes.loading)
    {
      if selectedNote.Some? {
        notes.UpdateNote(n, writeOk);
      } else {
        notes.AddNote(n, writeOk);
      }
      showEditor := false;
      selectedNote := None;
    }

    /** `handleBackToList`: the editor closes and the selection is cleared; the notes are not touched. */
    method HandleBackToList()
      modifies this
      ensures selectedNote.None? && !showEditor && user == old(user)
    {
      showEditor := false;
      selectedNote := None;
    }

    /** The rendered screen: the login form exactly when no user is signed in, else the editor or the list. */
    function CurrentScreen(): (r: Screen)
      reads this
      ensures r.LoginScreen? <==> user.None?
      ensures r.EditorScreen? <==> user.Some? && showEditor
    {
      if user.None? then LoginScreen else if showEditor then EditorScreen else ListScreen
    }
  }
}
