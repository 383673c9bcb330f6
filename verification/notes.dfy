/** Per-skill personal notes (src/components/SkillNotes.tsx): the editor
    holds the text being typed and the text last loaded or saved; a save
    writes only when the two differ, and upserts on the row identified by
    user, roadmap, skill and phase. The database is a map from that key to
    the note's content; whether a query fails is an input. */
module Notes {

  /** The `onConflict` columns: one note per user, roadmap, skill and phase. */
  datatype NoteKey = NoteKey(userId: string, roadmapId: string, skillName: string, phase: string)

  /** `skill_notes`, content by key; a missing row and an empty content
      both read as "". */
  type Store = map<NoteKey, string>

  datatype Editor = Editor(content: string, original: string)

  const Blank := Editor("", "")

  /** `hasChanges`: the Save button shows only when this holds. */
  predicate HasChanges(e: Editor) {
    e.content != e.original
  }

  /** `data?.content || ''`. */
  function Stored(store: Store, key: NoteKey): (r: string)
    ensures key !in store ==> r == ""
    ensures key in store ==> r == store[key]
  {
    if key in store then store[key] else ""
  }

  /** `fetchNotes`: both texts become the stored note; a failed query
      leaves the editor as it was. */
  function Fetch(e: Editor, store: Store, key: NoteKey, ok: bool): (r: Editor)
    ensures ok ==> r.content == Stored(store, key) && !HasChanges(r)
    ensures !ok ==> r == e
  {
    if ok then Editor(Stored(store, key), Stored(store, key)) else e
  }

  /** Typing replaces the text being edited. */
  function Type(e: Editor, text: string): (r: Editor)
    ensures r.original == e.original && r.content == text
    ensures HasChanges(r) <==> text != e.original
  {
    e.(content := text)
  }

  /** `handleSave`: nothing happens without changes; otherwise the content
      is upserted under `key`, and on success it becomes the saved text. A
      failed upsert changes neither the store nor the editor. */
  function Save(e: Editor, store: Store, key: NoteKey, ok: bool): (r: (Editor, Store))
    ensures !HasChanges(e) || !ok ==> r == (e, store)
    ensures HasChanges(e) && ok ==> r.1 == store[key := e.content] && r.0 == Editor(e.content, e.content)
  {
    if e.content == e.original then (e, store)
    else if !ok then (e, store)
    else (e.(original := e.content), store[key := e.content])
  }

  /** After a successful save the Save button is gone and the note reads
      back as typed; every other note is untouched. */
  lemma SaveThenFetch(e: Editor, store: Store, key: NoteKey, other: NoteKey)
    requires HasChanges(e)
    ensures var (e', store') := Save(e, store, key, true);
      && !HasChanges(e')
      && Fetch(Blank, store', key, true) == Editor(e.content, e.content)
      && (other != key ==> Stored(store', other) == Stored(store, other))
  {
  }

  /** Saving is idempotent: a second press right after a save does nothing,
      whether or not the first one succeeded. */
  lemma SaveIdempotent(e: Editor, store: Store, key: NoteKey, ok1: bool, ok2: bool)
    ensures var (e1, s1) := Save(e, store, key, ok1);
      ok1 ==> Save(e1, s1, key, ok2) == (e1, s1)
  {
  }

  /** Right after loading a note there is nothing to save, and typing the
      stored text back leaves nothing to save either. */
  lemma LoadedNoteIsClean(e: Editor, store: Store, key: NoteKey, ok: bool)
    ensures var e1 := Fetch(e, store, key, true);
      && Save(e1, store, key, ok) == (e1, store)
      && !HasChanges(Type(e1, Stored(store, key)))
  {
  }

  /** A failed load keeps the previous skill's text in the editor; saving
      it then writes that text under the new skill's key. */
  lemma StaleTextAfterFailedLoad(e: Editor, store: Store, key: NoteKey)
    requires HasChanges(e)
    ensures var e1 := Fetch(e, store, key, false);
      e1 == e && Save(e1, store, key, true).1 == store[key := e.content]
  {
  }
}
