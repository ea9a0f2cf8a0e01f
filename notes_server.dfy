/**
  The request handling of the store service for the three routes that change
  notes (create, update, delete): the checks each route makes on its input,
  in order, the store call it then issues, and the status and body it answers
  with. The store itself is abstract: a call either yields a note or fails.
 */
module NotesServer {
  import opened Notes

  /** A body field as the handler reads it: absent, or some text. */
  datatype Field = Missing | Given(text: string)

  /** The id parsed from the request path: not a number, or an integer. */
  datatype ParsedId = NaN | Int(n: int)

  /** A request as the handlers see it: two body fields and the parsed path id. */
  datatype Request = Request(title: Field, content: Field, id: ParsedId)

  /** What the store answered: the note it created, updated or deleted, or a failure. */
  datatype Outcome = Ok(note: Note) | Fail

  /** The call a handler makes on the store. */
  datatype StoreCall =
    | Create(title: string, content: string)
    | Update(id: int, title: string, content: string)
    | Remove(id: int)

  datatype Body = Text(message: string) | Json(note: Note) | NoBody

  datatype Response = Response(status: nat, body: Body)

  /** A handler's whole effect: the store call it issued (if any) and its response. */
  datatype Reply = Reply(call: Option<StoreCall>, response: Response)

  /** The three routes that change notes. */
  datatype Route = PostNotes | PutNote | DeleteNote

  const FieldsRequired := "title and content fields required"
  const PutInvalidId := "ID must be a valid number"
  const DeleteInvalidId := "ID field required"
  const StoreFailed := "Oops, something went wrong"
  // The delete route's failure text differs by one letter, as in the service.
  const DeleteStoreFailed := "Oops, something whent wrong"

  /** A body field counts as supplied when it is present and not empty. */
  function Supplied(f: Field): (supplied: bool)
    ensures supplied <==> f != Missing && f != Given("")
  {
    f.Given? && f.text != ""
  }

  /** The negation of the guard `!title || !content`: both fields supplied. */
  function FieldsSupplied(req: Request): (ok: bool)
    ensures !ok <==> req.title in {Missing, Given("")} || req.content in {Missing, Given("")}
  {
    Supplied(req.title) && Supplied(req.content)
  }

  /** The id guard `!id || isNaN(id)`: NaN and 0 are falsy, and the NaN test
      adds nothing. Every other integer, negative ones included, passes. */
  function IdRejected(id: ParsedId): (rejected: bool)
    ensures rejected <==> id == NaN || id == Int(0)
    ensures rejected <==> !(id.Int? && id.n != 0)
  {
    var falsy := match id
      case NaN => true
      case Int(n) => n == 0;
    falsy || id.NaN?
  }

  /** The response to a store outcome on the create and update routes. */
  function StoreResponse(outcome: Outcome): (r: Response)
    ensures r.status == 200 <==> outcome.Ok?
    ensures outcome.Ok? ==> r.body == Json(outcome.note)
    ensures outcome.Fail? ==> r == Response(500, Text(StoreFailed))
  {
    match outcome
    case Ok(note) => Response(200, Json(note))
    case Fail => Response(500, Text(StoreFailed))
  }

  /** POST: both fields must be supplied; then the store is asked to create
      the note and its answer decides between the note as JSON and a 500. */
  function HandlePost(req: Request, outcome: Outcome): (r: Reply)
    ensures r.call.None? <==> !FieldsSupplied(req)
    ensures r.response.status == 400 <==> !FieldsSupplied(req)
    ensures r.response.status == 400 ==> r.response.body == Text(FieldsRequired)
    ensures r.call.Some? ==> r.call.value == Create(req.title.text, req.content.text)
    ensures r.response.status == 200 <==> FieldsSupplied(req) && outcome.Ok?
    ensures r.response.status == 200 ==> r.response.body == Json(outcome.note)
    ensures r.response.status == 500 <==> FieldsSupplied(req) && outcome.Fail?
  {
    if !FieldsSupplied(req) then
      Reply(None, Response(400, Text(FieldsRequired)))
    else
      Reply(Some(Create(req.title.text, req.content.text)), StoreResponse(outcome))
  }

  /** PUT: the fields are checked first, then the id; then the store is asked
      to update the note with that id and its answer decides the response. */
  function HandlePut(req: Request, outcome: Outcome): (r: Reply)
    ensures r.call.None? <==> !FieldsSupplied(req) || IdRejected(req.id)
    ensures r.response.status == 400 <==> !FieldsSupplied(req) || IdRejected(req.id)
    ensures !FieldsSupplied(req) ==> r.response.body == Text(FieldsRequired)
    ensures FieldsSupplied(req) && IdRejected(req.id) ==> r.response.body == Text(PutInvalidId)
    ensures r.call.Some? ==>
      r.call.value == Update(req.id.n, req.title.text, req.content.text) && req.id.n != 0
    ensures r.response.status == 200 <==>
      FieldsSupplied(req) && !IdRejected(req.id) && outcome.Ok?
    ensures r.response.status == 200 ==> r.response.body == Json(outcome.note)
    ensures r.response.status == 500 <==>
      FieldsSupplied(req) && !IdRejected(req.id) && outcome.Fail?
  {
    if !FieldsSupplied(req) then
      Reply(None, Response(400, Text(FieldsRequired)))
    else if IdRejected(req.id) then
      Reply(None, Response(400, Text(PutInvalidId)))
    else
      Reply(Some(Update(req.id.n, req.title.text, req.content.text)), StoreResponse(outcome))
  }

  /** DELETE: only the id is checked; then the store is asked to delete the
      note with that id, and success is a 204 with an empty body. */
  function HandleDelete(req: Request, outcome: Outcome): (r: Reply)
    ensures r.call.None? <==> IdRejected(req.id)
    ensures r.response.status == 400 <==> IdRejected(req.id)
    ensures IdRejected(req.id) ==> r.response.body == Text(DeleteInvalidId)
    ensures r.call.Some? ==> r.call.value == Remove(req.id.n) && req.id.n != 0
    ensures r.response.status == 204 <==> !IdRejected(req.id) && outcome.Ok?
    ensures r.response.status == 204 ==> r.response.body == NoBody
    ensures r.response.status == 500 <==> !IdRejected(req.id) && outcome.Fail?
    ensures r.response.status == 500 ==> r.response.body == Text(DeleteStoreFailed)
  {
    if IdRejected(req.id) then
      Reply(None, Response(400, Text(DeleteInvalidId)))
    else
      Reply(Some(Remove(req.id.n)),
            match outcome
            case Ok(_) => Response(204, NoBody)
            case Fail => Response(500, Text(DeleteStoreFailed)))
  }

  /** A request on one of the three routes. */
  function Handle(route: Route, req: Request, outcome: Outcome): (r: Reply)
    ensures r.response.status in {200, 204, 400, 500}
    ensures r.response.status == 400 <==> r.call.None?
    ensures r.response.status == 204 <==> route == DeleteNote && r.call.Some? && outcome.Ok?
    ensures r.response.status == 500 <==> r.call.Some? && outcome.Fail?
  {
    match route
    case PostNotes => HandlePost(req, outcome)
    case PutNote => HandlePut(req, outcome)
    case DeleteNote => HandleDelete(req, outcome)
  }

  /** A request turned away by validation never reaches the store: its reply
      is the same whatever the store would have answered. */
  lemma RejectedRequestIgnoresStore(route: Route, req: Request, o1: Outcome, o2: Outcome)
    requires Handle(route, req, o1).call.None?
    ensures Handle(route, req, o1) == Handle(route, req, o2)
  {
  }

  /** DELETE never reads the body: two requests with the same id get the
      same reply. */
  lemma DeleteIgnoresBody(t1: Field, c1: Field, t2: Field, c2: Field, id: ParsedId, outcome: Outcome)
    ensures Handle(DeleteNote, Request(t1, c1, id), outcome)
         == Handle(DeleteNote, Request(t2, c2, id), outcome)
  {
  }

  /** POST never reads the path id. */
  lemma PostIgnoresId(title: Field, content: Field, id1: ParsedId, id2: ParsedId, outcome: Outcome)
    ensures Handle(PostNotes, Request(title, content, id1), outcome)
         == Handle(PostNotes, Request(title, content, id2), outcome)
  {
  }

  /** Update and delete share the id rule but not the message: a rejected id
      on PUT (with good fields) and on DELETE both give 400, with different texts. */
  lemma BadIdMessagesDiffer(title: string, content: string, id: ParsedId, outcome: Outcome)
    requires title != "" && content != "" && IdRejected(id)
    ensures var req := Request(Given(title), Given(content), id);
      && Handle(PutNote, req, outcome).response == Response(400, Text(PutInvalidId))
      && Handle(DeleteNote, req, outcome).response == Response(400, Text(DeleteInvalidId))
      && PutInvalidId != DeleteInvalidId
  {
  }

  /** On PUT a bad body is reported before a bad id. */
  lemma PutChecksFieldsBeforeId(req: Request, outcome: Outcome)
    requires !FieldsSupplied(req) && IdRejected(req.id)
    ensures Handle(PutNote, req, outcome).response == Response(400, Text(FieldsRequired))
  {
  }
}
