/**
  The note-list component of the client: its state (the note list, the two
  form fields and the selected note), the handlers that change it, and the
  pure list computations those handlers perform.
 */
module NotesUi {
  import opened Notes

  // ---------------------------------------------------------------------------
  // Properties of a note list
  // ---------------------------------------------------------------------------

  /** No two notes of the list carry the same id. */
  predicate UniqueIds(notes: seq<Note>) {
    forall i, j :: 0 <= i < j < |notes| ==> notes[i].id != notes[j].id
  }

  /** The ids are 1, 2, ..., |notes| in list order: what the seed has and what
      adding keeps as long as nothing is deleted. */
  predicate SequentialIds(notes: seq<Note>) {
    forall i :: 0 <= i < |notes| ==> notes[i].id == i + 1
  }

  /** How many notes of the list carry `id`. */
  function CountId(notes: seq<Note>, id: int): (c: nat)
    ensures c <= |notes|
    ensures c == 0 <==> forall n :: n in notes ==> n.id != id
  {
    if notes == [] then 0
    else (if notes[0].id == id then 1 else 0) + CountId(notes[1..], id)
  }

  /** `s` is `t` with some elements left out, the others in their original
      order (matched greedily from the front). */
  predicate IsSubsequence(s: seq<Note>, t: seq<Note>)
    decreases |t|
  {
    s == [] ||
    (t != [] &&
     if s[0] == t[0] then IsSubsequence(s[1..], t[1..]) else IsSubsequence(s, t[1..]))
  }

  lemma {:induction false} SequentialIdsAreUnique(notes: seq<Note>)
    requires SequentialIds(notes)
    ensures UniqueIds(notes)
  {
    forall i, j | 0 <= i < j < |notes| ensures notes[i].id != notes[j].id {
      assert notes[i].id == i + 1 && notes[j].id == j + 1;
    }
  }

  // ---------------------------------------------------------------------------
  // The initial state
  // ---------------------------------------------------------------------------

  /** The six notes the component starts with. */
  function SeedNotes(): (s: seq<Note>)
    ensures |s| == 6 && SequentialIds(s)
  {
    [ Note(1, "test note 1", "bla bla note1"),
      Note(2, "test note 2 ", "bla bla note2"),
      Note(3, "test note 3", "bla bla note3"),
      Note(4, "test note 4 ", "bla bla note4"),
      Note(5, "test note 5", "bla bla note5"),
      Note(6, "test note 6", "bla bla note6") ]
  }

  // ---------------------------------------------------------------------------
  // Deleting: the list filtered by id
  // ---------------------------------------------------------------------------

  /** The notes whose id differs from `noteId`. */
  function WithoutId(notes: seq<Note>, noteId: int): (r: seq<Note>)
    ensures forall n :: n in r <==> n in notes && n.id != noteId
    ensures |r| == |notes| - CountId(notes, noteId)
  {
    if notes == [] then []
    else if notes[0].id != noteId then [notes[0]] + WithoutId(notes[1..], noteId)
    else WithoutId(notes[1..], noteId)
  }

  /** The notes that survive a delete keep their relative order. */
  lemma {:induction false} WithoutIdKeepsOrder(notes: seq<Note>, noteId: int)
    ensures IsSubsequence(WithoutId(notes, noteId), notes)
  {
    if notes != [] {
      var rest := WithoutId(notes[1..], noteId);
      WithoutIdKeepsOrder(notes[1..], noteId);
      if notes[0].id != noteId {
        assert ([notes[0]] + rest)[1..] == rest;
      } else if rest != [] {
        assert rest[0] in rest;
        assert rest[0] != notes[0];
      }
    }
  }

  /** Deleting an id that no note carries leaves the list as it is. */
  lemma {:induction false} WithoutIdAbsentIsIdentity(notes: seq<Note>, noteId: int)
    requires CountId(notes, noteId) == 0
    ensures WithoutId(notes, noteId) == notes
  {
    if notes != [] {
      assert notes[0] in notes;
      WithoutIdAbsentIsIdentity(notes[1..], noteId);
    }
  }

  lemma UniqueIdsTail(notes: seq<Note>)
    requires UniqueIds(notes) && notes != []
    ensures UniqueIds(notes[1..])
    ensures forall m :: m in notes[1..] ==> m.id != notes[0].id
  {
    var tail := notes[1..];
    forall i, j | 0 <= i < j < |tail| ensures tail[i].id != tail[j].id {
      assert tail[i] == notes[i + 1] && tail[j] == notes[j + 1];
    }
    forall m | m in tail ensures m.id != notes[0].id {
      var k :| 0 <= k < |tail| && tail[k] == m;
      assert notes[k + 1] == m;
    }
  }

  /** Deleting never introduces two notes with one id. */
  lemma {:induction false} WithoutIdKeepsUniqueIds(notes: seq<Note>, noteId: int)
    requires UniqueIds(notes)
    ensures UniqueIds(WithoutId(notes, noteId))
  {
    if notes != [] {
      var tail := notes[1..];
      UniqueIdsTail(notes);
      WithoutIdKeepsUniqueIds(tail, noteId);
      var rest := WithoutId(tail, noteId);
      if notes[0].id != noteId {
        var r := [notes[0]] + rest;
        forall i, j | 0 <= i < j < |r| ensures r[i].id != r[j].id {
          assert r[j] == rest[j - 1] && rest[j - 1] in rest;
          if i > 0 {
            assert r[i] == rest[i - 1];
          }
        }
      }
    }
  }

  // ---------------------------------------------------------------------------
  // Updating: the list mapped, replacing the notes with a given id
  // ---------------------------------------------------------------------------

  /** Every note whose id is `updated.id` replaced by `updated`, in place. */
  function ReplaceById(notes: seq<Note>, updated: Note): (r: seq<Note>)
    ensures |r| == |notes|
    ensures forall i :: 0 <= i < |notes| ==>
      r[i] == if notes[i].id == updated.id then updated else notes[i]
  {
    if notes == [] then []
    else [if notes[0].id == updated.id then updated else notes[0]]
         + ReplaceById(notes[1..], updated)
  }

  /** Replacing keeps every position's id, so distinct ids stay distinct. */
  lemma ReplaceByIdKeepsIds(notes: seq<Note>, updated: Note)
    ensures forall i :: 0 <= i < |notes| ==> ReplaceById(notes, updated)[i].id == notes[i].id
    ensures UniqueIds(notes) ==> UniqueIds(ReplaceById(notes, updated))
  {
  }

  /** Replacing keeps ids 1..n sequential: a save alone never makes the
      length-based id collide. */
  lemma ReplaceByIdKeepsSequentialIds(notes: seq<Note>, updated: Note)
    requires SequentialIds(notes)
    ensures SequentialIds(ReplaceById(notes, updated))
  {
  }

  /** Replacing an id that no note carries leaves the list as it is. */
  lemma ReplaceByIdAbsentIsIdentity(notes: seq<Note>, updated: Note)
    requires CountId(notes, updated.id) == 0
    ensures ReplaceById(notes, updated) == notes
  {
    var r := ReplaceById(notes, updated);
    forall i | 0 <= i < |notes| ensures r[i] == notes[i] {
      assert notes[i] in notes;
    }
  }

  /** Saving the same edit twice is the same as saving it once. */
  lemma ReplaceByIdIdempotent(notes: seq<Note>, updated: Note)
    ensures ReplaceById(ReplaceById(notes, updated), updated) == ReplaceById(notes, updated)
  {
  }

  /** When the selected note was deleted before the form is saved, the save
      finds no matching id and the list stays as the delete left it. */
  lemma SaveAfterDeleteChangesNothing(notes: seq<Note>, updated: Note)
    ensures ReplaceById(WithoutId(notes, updated.id), updated) == WithoutId(notes, updated.id)
  {
    ReplaceByIdAbsentIsIdentity(WithoutId(notes, updated.id), updated);
  }

  // ---------------------------------------------------------------------------
  // Adding: the list with one note appended
  // ---------------------------------------------------------------------------

  /** The list after adding, as the component computes it: the new note's id
      is the list's length plus one. */
  function AppendedAsWritten(notes: seq<Note>, title: string, content: string): (r: seq<Note>)
    ensures |r| == |notes| + 1 && r[..|notes|] == notes
    ensures r[|notes|] == Note(|notes| + 1, title, content)
  {
    notes + [Note(|notes| + 1, title, content)]
  }

  /** With no delete in between, the length-based id is fresh: sequential
      ids stay sequential, hence unique. */
  lemma AppendedAsWrittenKeepsSequentialIds(notes: seq<Note>, title: string, content: string)
    requires SequentialIds(notes)
    ensures SequentialIds(AppendedAsWritten(notes, title, content))
    ensures UniqueIds(AppendedAsWritten(notes, title, content))
  {
    SequentialIdsAreUnique(AppendedAsWritten(notes, title, content));
  }

  /** Whenever some note already carries the id `|notes| + 1`, adding
      produces a second note with that id. */
  lemma AppendedAsWrittenCollides(notes: seq<Note>, title: string, content: string, n: Note)
    requires n in notes && n.id == |notes| + 1
    ensures CountId(AppendedAsWritten(notes, title, content), |notes| + 1) >= 2
    ensures !UniqueIds(AppendedAsWritten(notes, title, content))
  {
    var added := Note(|notes| + 1, title, content);
    var r := notes + [added];
    var k :| 0 <= k < |notes| && notes[k] == n;
    assert r[k] == notes[k] && r[|notes|] == added;
    CountIdAppend(notes, added, |notes| + 1);
  }

  /** Conversely, when no note carries the id `|notes| + 1`, adding keeps
      unique ids unique: together with the lemma above this is exactly when
      the length-based id collides. */
  lemma AppendedAsWrittenFreshWhenAbsent(notes: seq<Note>, title: string, content: string)
    requires UniqueIds(notes) && CountId(notes, |notes| + 1) == 0
    ensures UniqueIds(AppendedAsWritten(notes, title, content))
  {
    var r := AppendedAsWritten(notes, title, content);
    forall i | 0 <= i < |notes| ensures r[i].id != r[|notes|].id {
      assert r[i] == notes[i] && notes[i] in notes;
    }
  }

  lemma {:induction false} CountIdAppend(notes: seq<Note>, n: Note, id: int)
    ensures CountId(notes + [n], id) == CountId(notes, id) + (if n.id == id then 1 else 0)
  {
    if notes != [] {
      assert (notes + [n])[1..] == notes[1..] + [n];
      CountIdAppend(notes[1..], n, id);
    }
  }

  /** In a list with unique ids, an id occurs at most once. */
  lemma {:induction false} CountIdAtMostOne(notes: seq<Note>, id: int)
    requires UniqueIds(notes)
    ensures CountId(notes, id) <= 1
  {
    if notes != [] {
      UniqueIdsTail(notes);
      CountIdAtMostOne(notes[1..], id);
    }
  }

  /** The seed with the note of id 1 deleted: five notes, seed note 6 still
      among them, ids still unique. */
  lemma SeedWithoutFirst()
    ensures |WithoutId(SeedNotes(), 1)| == 5
    ensures SeedNotes()[5] in WithoutId(SeedNotes(), 1)
    ensures UniqueIds(WithoutId(SeedNotes(), 1))
  {
    var seed := SeedNotes();
    SequentialIdsAreUnique(seed);
    assert seed[0] in seed && seed[0].id == 1;
    CountIdAtMostOne(seed, 1);
    assert seed[5] in seed && seed[5].id == 6;
    WithoutIdKeepsUniqueIds(seed, 1);
  }

  /** The defect on the seed: delete the note with id 1, then add; the list
      then holds two notes with id 6. */
  lemma DeleteThenAddDuplicatesId(title: string, content: string)
    ensures CountId(AppendedAsWritten(WithoutId(SeedNotes(), 1), title, content), 6) == 2
    ensures !UniqueIds(AppendedAsWritten(WithoutId(SeedNotes(), 1), title, content))
  {
    var left := WithoutId(SeedNotes(), 1);
    SeedWithoutFirst();
    CountIdAtMostOne(left, 6);
    AppendedAsWrittenCollides(left, title, content, SeedNotes()[5]);
    CountIdAppend(left, Note(6, title, content), 6);
  }

  /** Why a duplicate matters: once the length-based id collides with the id
      of an existing note `n`, a later save of that id overwrites both `n`
      and the new note, since the save replaces every matching id. */
  lemma SaveAfterCollisionOverwritesBoth(notes: seq<Note>, t0: string, c0: string, n: Note, edit: Note)
    requires n in notes && n.id == |notes| + 1 && edit.id == n.id
    ensures var s := AppendedAsWritten(notes, t0, c0);
      var r := ReplaceById(s, edit);
      exists i :: 0 <= i < |notes| && s[i] == n && r[i] == edit && r[|notes|] == edit
  {
    var k :| 0 <= k < |notes| && notes[k] == n;
    var s := AppendedAsWritten(notes, t0, c0);
    assert s[k] == n;
  }

  /** On the seed: delete id 1, add, then save an edit of note 6; both the
      seed's note 6 and the added note are overwritten by the edit. */
  lemma SaveAfterDuplicateOverwritesBoth(t0: string, c0: string, title: string, content: string)
    ensures var s := AppendedAsWritten(WithoutId(SeedNotes(), 1), t0, c0);
      var r := ReplaceById(s, Note(6, title, content));
      exists i :: 0 <= i < 5 && s[i] == SeedNotes()[5]
        && r[i] == Note(6, title, content) && r[5] == Note(6, title, content)
  {
    SeedWithoutFirst();
    SaveAfterCollisionOverwritesBoth(WithoutId(SeedNotes(), 1), t0, c0, SeedNotes()[5], Note(6, title, content));
  }

  // ---------------------------------------------------------------------------
  // The corrected id: one more than the largest id in the list
  // ---------------------------------------------------------------------------

  /** An id larger than every id in the list: the largest id plus one, or 1
      for a list whose ids are all below 1. */
  function FreshId(notes: seq<Note>): (r: int)
    ensures r >= 1
    ensures forall n :: n in notes ==> n.id < r
    ensures r == 1 || exists n :: n in notes && n.id == r - 1
  {
    if notes == [] then 1
    else
      var rest := FreshId(notes[1..]);
      if notes[0].id + 1 > rest then notes[0].id + 1 else rest
  }

  /** The list after adding with a fresh id. */
  function AppendedWithFreshId(notes: seq<Note>, title: string, content: string): (r: seq<Note>)
    ensures |r| == |notes| + 1 && r[..|notes|] == notes
    ensures r[|notes|].title == title && r[|notes|].content == content
    ensures forall n :: n in notes ==> n.id != r[|notes|].id
  {
    notes + [Note(FreshId(notes), title, content)]
  }

  /** Adding with a fresh id keeps the ids unique, whatever was deleted before. */
  lemma AppendedWithFreshIdKeepsUniqueIds(notes: seq<Note>, title: string, content: string)
    requires UniqueIds(notes)
    ensures UniqueIds(AppendedWithFreshId(notes, title, content))
  {
    var r := AppendedWithFreshId(notes, title, content);
    forall i | 0 <= i < |notes| ensures r[i].id != r[|notes|].id {
      assert notes[i] in notes;
    }
  }

  /** Where the length-based id was fresh (sequential ids) the corrected id
      is the same one: the correction changes nothing before a delete. */
  lemma FreshIdAgreesWhenSequential(notes: seq<Note>)
    requires SequentialIds(notes)
    ensures FreshId(notes) == |notes| + 1
  {
    var r := FreshId(notes);
    if notes != [] {
      assert notes[|notes| - 1] in notes;
      if r != 1 {
        var n :| n in notes && n.id == r - 1;
        var k :| 0 <= k < |notes| && notes[k] == n;
      }
    }
  }

  // ---------------------------------------------------------------------------
  // The component state and its handlers
  // ---------------------------------------------------------------------------

  /** The component: the note list, the form's two fields and the selected
      note. Every handler is one atomic state transition. */
  class NotesApp {
    var notes: seq<Note>
    var title: string
    var content: string
    var selectedNote: Option<Note>

    /** The initial state: the seed notes, an empty form, nothing selected. */
    constructor ()
      ensures notes == SeedNotes() && UniqueIds(notes)
      ensures title == "" && content == "" && selectedNote == None
    {
      notes := SeedNotes();
      title, content := "", "";
      selectedNote := None;
      SequentialIdsAreUnique(SeedNotes());
    }

    /** The delete control: every note with `noteId` leaves the list, the
        others keep their order; form and selection stay as they were. */
    method DeleteNote(noteId: int)
      modifies this
      ensures notes == WithoutId(old(notes), noteId)
      ensures IsSubsequence(notes, old(notes))
      ensures UniqueIds(old(notes)) ==> UniqueIds(notes)
      ensures title == old(title) && content == old(content) && selectedNote == old(selectedNote)
    {
      WithoutIdKeepsOrder(notes, noteId);
      if UniqueIds(notes) { WithoutIdKeepsUniqueIds(notes, noteId); }
      notes := WithoutId(notes, noteId);
    }

    /** Adding, as the component does it: one note appended with id
        `|notes| + 1` and the form's fields; the form is cleared and the
        selection kept. */
    method HandleAddNote()
      modifies this
      ensures |notes| == |old(notes)| + 1 && notes[..|old(notes)|] == old(notes)
      ensures notes[|old(notes)|] == Note(|old(notes)| + 1, old(title), old(content))
      ensures notes == AppendedAsWritten(old(notes), old(title), old(content))
      ensures SequentialIds(old(notes)) ==> SequentialIds(notes)
      ensures title == "" && content == "" && selectedNote == old(selectedNote)
    {
      if SequentialIds(notes) { AppendedAsWrittenKeepsSequentialIds(notes, title, content); }
      notes := AppendedAsWritten(notes, title, content);
      title, content := "", "";
    }

    /** Adding with the corrected id: as `HandleAddNote`, but the new id is
        larger than every id present, so the ids stay unique. */
    method HandleAddNoteWithFreshId()
      modifies this
      ensures |notes| == |old(notes)| + 1 && notes[..|old(notes)|] == old(notes)
      ensures notes[|old(notes)|] == Note(FreshId(old(notes)), old(title), old(content))
      ensures notes == AppendedWithFreshId(old(notes), old(title), old(content))
      ensures UniqueIds(old(notes)) ==> UniqueIds(notes)
      ensures title == "" && content == "" && selectedNote == old(selectedNote)
    {
      if UniqueIds(notes) { AppendedWithFreshIdKeepsUniqueIds(notes, title, content); }
      notes := AppendedWithFreshId(notes, title, content);
      title, content := "", "";
    }

    /** Saving an edit: without a selection nothing changes; with one, every
        note with the selected id takes the form's fields (same length, the
        other notes untouched and in place), then form and selection clear. */
    method HandleUpdateNote()
      modifies this
      ensures old(selectedNote).None? ==>
        notes == old(notes) && title == old(title) && content == old(content) && selectedNote == None
      ensures old(selectedNote).Some? ==>
        var id := old(selectedNote).value.id;
        && notes == ReplaceById(old(notes), Note(id, old(title), old(content)))
        && |notes| == |old(notes)|
        && (forall i :: 0 <= i < |notes| && old(notes)[i].id == id ==>
              notes[i] == Note(id, old(title), old(content)))
        && (forall i :: 0 <= i < |notes| && old(notes)[i].id != id ==> notes[i] == old(notes)[i])
        && title == "" && content == "" && selectedNote == None
      ensures UniqueIds(old(notes)) ==> UniqueIds(notes)
      ensures SequentialIds(old(notes)) ==> SequentialIds(notes)
    {
      if selectedNote.None? {
        return;
      }
      var updated := Note(selectedNote.value.id, title, content);
      ReplaceByIdKeepsIds(notes, updated);
      notes := ReplaceById(notes, updated);
      title, content := "", "";
      selectedNote := None;
    }

    /** Cancel: form and selection cleared, the list untouched. */
    method HandleCancel()
      modifies this
      ensures notes == old(notes)
      ensures title == "" && content == "" && selectedNote == None
    {
      title, content := "", "";
      selectedNote := None;
    }

    /** Clicking a note selects it and loads its fields into the form. */
    method HandleNoteClick(note: Note)
      modifies this
      ensures notes == old(notes)
      ensures selectedNote == Some(note) && title == note.title && content == note.content
    {
      selectedNote := Some(note);
      title, content := note.title, note.content;
    }

    /** A click inside a rendered note: on its delete control the click
        stops there and only deletes; elsewhere it selects the note. */
    method ClickInNote(note: Note, onDeleteControl: bool)
      modifies this
      ensures onDeleteControl ==>
        && notes == WithoutId(old(notes), note.id)
        && title == old(title) && content == old(content) && selectedNote == old(selectedNote)
      ensures !onDeleteControl ==>
        notes == old(notes) && selectedNote == Some(note) && title == note.title && content == note.content
    {
      if onDeleteControl {
        DeleteNote(note.id);
      } else {
        HandleNoteClick(note);
      }
    }

    /** Submitting the form: a save of the selected note when there is one,
        an add otherwise; either way the form ends empty and nothing is
        selected. */
    method Submit()
      modifies this
      ensures old(selectedNote).Some? ==>
        notes == ReplaceById(old(notes), Note(old(selectedNote).value.id, old(title), old(content)))
      ensures old(selectedNote).None? ==>
        notes == AppendedAsWritten(old(notes), old(title), old(content))
      ensures title == "" && content == "" && selectedNote == None
    {
      if selectedNote.Some? {
        HandleUpdateNote();
      } else {
        HandleAddNote();
      }
    }

    /** Whether the "no notes" indicator is shown. */
    function ShowsNoNotesIndicator(): (shown: bool)
      reads this
      ensures shown <==> notes == []
    {
      |notes| == 0
    }
  }

  /** The defect through the handlers: from the initial state, deleting the
      first note and adding leaves two notes with id 6. */
  method DuplicateIdAfterDelete() returns (app: NotesApp)
    ensures CountId(app.notes, 6) == 2 && !UniqueIds(app.notes)
  {
    app := new NotesApp();
    app.DeleteNote(1);
    app.HandleAddNote();
    DeleteThenAddDuplicatesId("", "");
  }
}
