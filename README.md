# Notes app: client state machine and server request validation

This project models the two pieces of sequential logic in a small note-taking
application:

- **The client's note-list component** (`notes-app-ui/src/App.tsx`). It holds
  four pieces of state: the list of notes `{id, title, content}`, the form's
  `title` and `content`, and the selected note, which may be none. Five
  handlers change that state: delete, add, save an edit, cancel, and select a
  note. Submitting the form saves an edit when a note is selected and adds a
  note otherwise. We model the component as the class `NotesUi.NotesApp`.
  Each handler is a method whose postcondition gives the whole new state. The
  list computations inside the handlers are pure functions: `WithoutId` is
  the filter, `ReplaceById` is the map, and `AppendedAsWritten` is the
  append. The lemmas state what those functions guarantee: order is kept,
  only matching ids change, length is kept, and some operations keep ids
  unique while others do not.
- **The server's mutating routes** (`notes-app-server/src/index.ts`). POST,
  PUT and DELETE each check their input in a fixed order. If a check fails,
  the route answers 400: POST and PUT share the missing-fields message, and
  PUT and DELETE give different bad-id messages. Otherwise it calls the
  store, then answers with the stored note, 204 or 500. We model each route
  as a pure function in module `NotesServer`. The inputs are the optional
  body fields, the parsed path id (`NaN` or an integer) and the store's
  abstract outcome (`Ok(note)` or `Fail`). The result is the store call
  issued, if any, plus the status and body.

Files: `notes.dfy` (the shared `Note` type and `Option`), `notes_ui.dfy`
(module `NotesUi`) and `notes_server.dfy` (module `NotesServer`).

Three points of the code shape the model:

- The comment at `notes-app-ui/src/App.tsx:11` speaks of a simulated API
  call, but the component makes no network calls. It starts from six
  built-in notes (lines 12-43) and edits them locally, giving a new note the
  id `notes.length + 1` (line 65).
- Only the `required` attributes on the two inputs (lines 117 and 125) stop
  an empty submit in the browser. The handlers themselves accept empty
  strings, so no handler has a non-emptiness precondition.
- The server treats the id `0` as invalid because its guard is a
  JavaScript falsy test (`!id`, `notes-app-server/src/index.ts:46` and 65).
  The model keeps this: `IdRejected` is true exactly for `NaN` and `0`, and
  every other integer passes, negative ones included.

## Model

| member | source | states |
|---|---|---|
| `NotesUi.SeedNotes` | notes-app-ui/src/App.tsx:12-43 | The initial list has six notes with ids 1 to 6 in list order. |
| `NotesUi.NotesApp.constructor` | notes-app-ui/src/App.tsx:12-47 | The initial state is the seed list, whose ids are unique, plus an empty form and no selection. |
| `NotesUi.WithoutId` | notes-app-ui/src/App.tsx:55 | A note is in the filtered list exactly when it was in the list and its id differs from the deleted id. The length drops by the number of notes with that id. |
| `NotesUi.WithoutIdKeepsOrder` | notes-app-ui/src/App.tsx:55 | The notes that remain after a delete keep their original relative order: the result is a subsequence of the list. |
| `NotesUi.WithoutIdAbsentIsIdentity` | notes-app-ui/src/App.tsx:55 | Deleting an id that no note carries leaves the list unchanged. |
| `NotesUi.WithoutIdKeepsUniqueIds` | notes-app-ui/src/App.tsx:55 | If the ids were unique before a delete, they are unique after it. |
| `NotesUi.NotesApp.DeleteNote` | notes-app-ui/src/App.tsx:49-58 | The new list is the filtered list, so order is kept and unique ids stay unique. Title, content and selection do not change. |
| `NotesUi.NotesApp.ClickInNote` | notes-app-ui/src/App.tsx:138-145 | A click on a note's delete control only deletes, because propagation is stopped: form and selection stay as they were. A click elsewhere on the note selects it and nothing else. |
| `NotesUi.ReplaceById` | notes-app-ui/src/App.tsx:89 | The length is kept. Every position whose id matches becomes the updated note. Every other position keeps its note. |
| `NotesUi.ReplaceByIdKeepsIds` | notes-app-ui/src/App.tsx:89 | Each position keeps its id, so unique ids stay unique. |
| `NotesUi.ReplaceByIdAbsentIsIdentity` | notes-app-ui/src/App.tsx:89 | Saving under an id that no note carries leaves the list unchanged. |
| `NotesUi.ReplaceByIdIdempotent` | notes-app-ui/src/App.tsx:89 | Applying the same replacement twice gives the same list as applying it once. |
| `NotesUi.ReplaceByIdKeepsSequentialIds` | notes-app-ui/src/App.tsx:89 | A save keeps ids 1..n sequential, because it keeps every position's id. |
| `NotesUi.SaveAfterDeleteChangesNothing` | notes-app-ui/src/App.tsx:89 | If you delete the selected note and then save it, the save finds no matching id and the list stays as the delete left it. |
| `NotesUi.NotesApp.HandleUpdateNote` | notes-app-ui/src/App.tsx:75-95 | With no selection, nothing changes. With a selection, the length is kept and every note with the selected id becomes that id with the form's fields. Other notes stay unchanged and in place, unique ids stay unique, sequential ids stay sequential, and afterwards the form is empty and nothing is selected. |
| `NotesUi.NotesApp.HandleAddNote` | notes-app-ui/src/App.tsx:60-73 | Exactly one note is appended, with id equal to the old length plus 1 and the form's title and content. Earlier notes are unchanged. The form is cleared and the selection is kept. Sequential ids stay sequential. |
| `NotesUi.AppendedAsWritten` | notes-app-ui/src/App.tsx:64-70 | The list after adding is one longer, starts with the old list unchanged, and ends with a note whose id is the old length plus 1 and whose title and content are the form's. |
| `NotesUi.AppendedAsWrittenKeepsSequentialIds` | notes-app-ui/src/App.tsx:64-70 | If no delete has happened, so the ids are 1..n, adding keeps them sequential and unique. |
| `NotesUi.AppendedAsWrittenCollides` | notes-app-ui/src/App.tsx:65 | If some note already has the id length+1, adding creates a second note with that id, so ids are no longer unique. |
| `NotesUi.AppendedAsWrittenFreshWhenAbsent` | notes-app-ui/src/App.tsx:65 | Conversely, if the ids are unique and no note has the id length+1, adding keeps them unique. With the previous row this is the exact condition under which the length-based id breaks uniqueness. |
| `NotesUi.DeleteThenAddDuplicatesId` | notes-app-ui/src/App.tsx:65 | Starting from the seed, deleting id 1 and then adding leaves exactly two notes with id 6. |
| `NotesUi.SaveAfterCollisionOverwritesBoth` | notes-app-ui/src/App.tsx:89 | Once an added note's id collides with an existing note's, a later save of that id overwrites both notes, because the save replaces every matching id. |
| `NotesUi.SaveAfterDuplicateOverwritesBoth` | notes-app-ui/src/App.tsx:89 | Starting from the seed, after deleting id 1 and adding, saving an edit of note 6 overwrites both the seed's note 6 and the added note. |
| `NotesUi.DuplicateIdAfterDelete` | notes-app-ui/src/App.tsx:49-72 | The same defect shown through the handlers: construct, delete id 1, add, and there are two notes with id 6. |
| `NotesUi.FreshId` | notes-app-ui/src/App.tsx:65 | The corrected id is larger than every id in the list, and it is the largest id plus 1, or 1 if there is no positive id. |
| `NotesUi.AppendedWithFreshId` | notes-app-ui/src/App.tsx:64-70 | The corrected add: the list is one longer, keeps the old list as its prefix, and ends with a note carrying the form's fields and an id that no earlier note carries. |
| `NotesUi.AppendedWithFreshIdKeepsUniqueIds` | notes-app-ui/src/App.tsx:64-70 | Adding with the corrected id keeps ids unique after any deletes. |
| `NotesUi.FreshIdAgreesWhenSequential` | notes-app-ui/src/App.tsx:65 | If no delete has happened, the corrected id equals the length-based id. |
| `NotesUi.NotesApp.HandleAddNoteWithFreshId` | notes-app-ui/src/App.tsx:60-73 | This is the add handler with the corrected id: one note is appended with a fresh id, unique ids stay unique, the form is cleared and the selection is kept. |
| `NotesUi.NotesApp.HandleCancel` | notes-app-ui/src/App.tsx:97-101 | Title, content and selection are cleared. The list is unchanged. |
| `NotesUi.NotesApp.HandleNoteClick` | notes-app-ui/src/App.tsx:103-107 | The note becomes the selection and its title and content go into the form. The list is unchanged. |
| `NotesUi.NotesApp.Submit` | notes-app-ui/src/App.tsx:111 | With a selection, submit performs the by-id replacement. Without one, it appends with id length+1. Either way the form ends empty and nothing is selected. |
| `NotesUi.NotesApp.ShowsNoNotesIndicator` | notes-app-ui/src/App.tsx:135 | The "no notes" indicator is shown exactly when the list is empty. |
| `NotesServer.Supplied` | notes-app-server/src/index.ts:22 | A body field counts, that is it is truthy, exactly when it is present and is not the empty text. |
| `NotesServer.FieldsSupplied` | notes-app-server/src/index.ts:42 | The falsy guard on title and content fires exactly when either field is missing or empty; this function is its negation, true when both are supplied. |
| `NotesServer.IdRejected` | notes-app-server/src/index.ts:46 | The id guard rejects exactly NaN and 0. Every other integer, negative ones included, passes. The NaN test adds nothing to the falsy test. |
| `NotesServer.StoreResponse` | notes-app-server/src/index.ts:26-35 | A store success gives 200 with the note as JSON. A store failure gives 500 "Oops, something went wrong". |
| `NotesServer.HandlePost` | notes-app-server/src/index.ts:18-36 | A missing or empty title or content gives 400 "title and content fields required", and the store is not called. Otherwise the store is asked to create the note from the two fields. Its success gives 200 with the note and its failure gives 500. |
| `NotesServer.HandlePut` | notes-app-server/src/index.ts:38-60 | A bad body gives the fields message, even when the id is also bad. Good fields with a NaN or 0 id give 400 "ID must be a valid number". Otherwise it sends the store an update by that id with the two fields. Its success gives 200 with the note and its failure gives 500. |
| `NotesServer.HandleDelete` | notes-app-server/src/index.ts:62-77 | Only the id is checked: NaN or 0 gives 400 "ID field required". Otherwise it sends the store a delete by that id. Its success gives 204 with an empty body and its failure gives 500 with the route's own failure text. |
| `NotesServer.Handle` | notes-app-server/src/index.ts:18-77 | Every reply is 200, 204, 400 or 500. A 400 comes exactly when no store call was made. A 500 comes exactly when the store was called and failed. Only DELETE answers 204. |
| `NotesServer.RejectedRequestIgnoresStore` | notes-app-server/src/index.ts:22-24 | A request that fails validation gets the same reply whatever the store would have answered: the store is not consulted. |
| `NotesServer.DeleteIgnoresBody` | notes-app-server/src/index.ts:62-67 | DELETE never reads the body: only the id decides its reply. |
| `NotesServer.PostIgnoresId` | notes-app-server/src/index.ts:18-24 | POST never reads a path id: only the body and the store outcome decide its reply. |
| `NotesServer.BadIdMessagesDiffer` | notes-app-server/src/index.ts:46-66 | With good fields, a NaN or 0 id gives 400 on both PUT and DELETE, with different messages. |
| `NotesServer.PutChecksFieldsBeforeId` | notes-app-server/src/index.ts:42-48 | A PUT with both a bad body and a bad id gets the fields message. |

## Findings

| source | as written | input that shows it | evidently intended | confidence | as-written member | corrected member |
|---|---|---|---|---|---|---|
| notes-app-ui/src/App.tsx:65 | A new note's id is `notes.length + 1`. | Start from the six seed notes, delete the note with id 1, then add a note. Five notes remain, so the new note gets id 6, which note 6 already has. | A new note gets an id no note in the list carries, for example the largest id plus 1. The rest of the component relies on unique ids: the list is keyed by `note.id` (line 140), and delete (line 55) and save (line 89) act on every note with the id. After the duplicate, saving note 6 overwrites both notes (`NotesUi.SaveAfterDuplicateOverwritesBoth`). | not executed | `NotesUi.DeleteThenAddDuplicatesId` | `NotesUi.NotesApp.HandleAddNoteWithFreshId` |

For the corrected version:

- `FreshId`, `AppendedWithFreshIdKeepsUniqueIds` and `HandleAddNoteWithFreshId` prove that unique ids stay unique.
- With that add, every handler keeps unique ids: see the `UniqueIds` postconditions of `DeleteNote`, `HandleUpdateNote` and `HandleAddNoteWithFreshId`.
- `FreshIdAgreesWhenSequential` shows that the correction gives the same ids as the original code until the first delete. Adds and saves keep the ids sequential (`HandleAddNote` and `HandleUpdateNote` both ensure it), so only a delete can make the two ids differ.

`Submit`, like the component itself, still dispatches to the as-written `HandleAddNote`.

## Left out

- JSX rendering, CSS, and the markup of the list and form are user interface. Only the condition for the "no notes" indicator is modelled.
- `event.preventDefault()`, the browser's `required` check on both inputs, and the DOM's handling of the Cancel button are browser behaviour. The Cancel button has no `type`, so the browser also treats it as a submit button. Each handler is modelled as called directly.
- React's `useState` batching and re-rendering are not modelled. Each handler is one atomic state transition on the fields of `NotesApp`.
- Express routing, JSON body parsing, CORS and `app.listen` are I/O plumbing.
- The Prisma calls `create`, `update` and `delete` are calls into a library. Each is represented by the `StoreCall` the handler issues and an abstract `Outcome` (`Ok(note)` or `Fail`). No database is modelled. Not-found and other persistence failures both come back as `Fail`.
- The GET route passes `findMany`'s result straight through and has no logic of its own.
- JavaScript `parseInt` and truthiness: the parsed id is abstracted as `NaN` or an integer, and a body field counts as supplied when it is present and non-empty. Non-string body values are not modelled.
- `async`/`await` and request interleaving: the handlers have no concurrency logic.
