/**
 * Creating one idea from the admin form (`POST` of the idea-creation
 * endpoint): the question and the category are required, the question and
 * notes are trimmed, and the row is written with status `pending`.
 */
module IdeasCreate {
  import opened Basics
  import opened Text
  import opened ContentStore

  /** The request body; an absent field is `None`. */
  datatype IdeaRequest = IdeaRequest(
    proposedQuestion: Option<string>,
    category: Option<string>,
    tags: Option<seq<string>>,
    notes: Option<string>,
    priority: Option<int>)

  /** The row handed to the store. */
  datatype IdeaRecord = IdeaRecord(
    proposedQuestion: string,
    category: string,
    tags: seq<string>,
    notes: Option<string>,
    priority: Option<int>,
    status: IdeaStatus)

  /** An insert issued against the store: the collection written and the row. */
  datatype Write = Write(table: string, record: IdeaRecord)

  /** How the store answers the insert: the created row, or an error with a possibly empty message. */
  datatype StoreAnswer = Created(row: IdeaRecord) | Rejected(message: string)

  datatype Response =
    | Unauthorized
    | QuestionRequired
    | CategoryRequired
      /** 400 with the store's message, or a fixed one when it has none. */
    | StoreFailed(message: string)
      /** 500: the body could not be read. */
    | ServerError
    | IdeaCreated(idea: IdeaRecord)

  /** What the endpoint does: its response, and the insert it issues if any. */
  datatype Outcome = Outcome(response: Response, write: Option<Write>)

  /** The collection this endpoint writes to. */
  const CreateTable: string := "hack_ideas"
  const DefaultStoreMessage: string := "Failed to create idea"

  /** `!q || !q.trim()`: the question is absent, empty or only whitespace. */
  predicate QuestionMissing(q: Option<string>) {
    q.None? || Trim(q.value) == []
  }

  /** `!data.category`. */
  predicate CategoryMissing(c: Option<string>) {
    c.None? || c.value == []
  }

  /** The row built from a request that passed validation. */
  function RecordOf(req: IdeaRequest): (r: IdeaRecord)
    requires !QuestionMissing(req.proposedQuestion) && !CategoryMissing(req.category)
    ensures r.proposedQuestion != [] && IsTrimmed(r.proposedQuestion)
    ensures r.proposedQuestion == Trim(req.proposedQuestion.value)
    ensures r.category == req.category.value && r.category != []
    ensures r.tags == req.tags.GetOr([])
    // notes are trimmed, and dropped when nothing is left
    ensures r.notes.None? <==> req.notes.None? || Trim(req.notes.value) == []
    ensures r.notes.Some? ==> r.notes.value == Trim(req.notes.value) && r.notes.value != [] && IsTrimmed(r.notes.value)
    // a zero priority is dropped, any other is kept
    ensures r.priority.None? <==> req.priority.None? || req.priority.value == 0
    ensures r.priority.Some? ==> r.priority == req.priority && r.priority != Some(0)
    ensures r.status == Pending
  {
    IdeaRecord(
      proposedQuestion := Trim(req.proposedQuestion.value),
      category := req.category.value,
      tags := if req.tags.Some? then req.tags.value else [],
      notes := if req.notes.Some? && Trim(req.notes.value) != [] then Some(Trim(req.notes.value)) else None,
      priority := if req.priority.Some? && req.priority.value != 0 then req.priority else None,
      status := Pending)
  }

  /**
   * `POST`. `body` is `None` when the body cannot be read; `answer` is how
   * the store answers the insert, should one be issued.
   */
  function CreateIdea(authenticated: bool, body: Option<IdeaRequest>, answer: StoreAnswer): (out: Outcome)
    ensures !authenticated ==> out == Outcome(Unauthorized, None)
    ensures authenticated && body.None? ==> out == Outcome(ServerError, None)
    ensures authenticated && body.Some? && QuestionMissing(body.value.proposedQuestion) ==>
      out == Outcome(QuestionRequired, None)
    ensures (authenticated && body.Some? && !QuestionMissing(body.value.proposedQuestion)
             && CategoryMissing(body.value.category)) ==> out == Outcome(CategoryRequired, None)
    ensures out.response == CategoryRequired ==>
      out.write.None? && !QuestionMissing(body.value.proposedQuestion) && CategoryMissing(body.value.category)
    ensures out.write.Some? <==>
      authenticated && body.Some? && !QuestionMissing(body.value.proposedQuestion) && !CategoryMissing(body.value.category)
    ensures out.write.Some? ==>
      out.write.value == Write(CreateTable, RecordOf(body.value))
      && (answer.Created? ==> out.response == IdeaCreated(answer.row))
      && (answer.Rejected? ==> out.response.StoreFailed? && out.response.message != [])
      && (answer.Rejected? && answer.message != [] ==> out.response == StoreFailed(answer.message))
      && (answer.Rejected? && answer.message == [] ==> out.response == StoreFailed(DefaultStoreMessage))
  {
    if !authenticated then Outcome(Unauthorized, None)
    else if body.None? then Outcome(ServerError, None)
    else
      var req := body.value;
      if QuestionMissing(req.proposedQuestion) then Outcome(QuestionRequired, None)
      else if CategoryMissing(req.category) then Outcome(CategoryRequired, None)
      else
        var w := Write(CreateTable, RecordOf(req));
        match answer
        case Created(row) => Outcome(IdeaCreated(row), Some(w))
        case Rejected(m) => Outcome(StoreFailed(if m == [] then DefaultStoreMessage else m), Some(w))
  }

  /** The question is checked before the category: a request missing both is refused for its question. */
  lemma QuestionCheckedFirst(req: IdeaRequest, answer: StoreAnswer)
    requires QuestionMissing(req.proposedQuestion) && CategoryMissing(req.category)
    ensures CreateIdea(true, Some(req), answer).response == QuestionRequired
  {
  }

  /** The trimmed question is what a whitespace-padded question leaves: padding the question changes nothing. */
  lemma {:induction false} PaddingIgnored(req: IdeaRequest, pad: string, answer: StoreAnswer)
    requires forall i :: 0 <= i < |pad| ==> IsSpace(pad[i])
    requires req.proposedQuestion.Some?
    ensures var padded := req.(proposedQuestion := Some(pad + req.proposedQuestion.value + pad));
      CreateIdea(true, Some(padded), answer) == CreateIdea(true, Some(req), answer)
  {
    var q := req.proposedQuestion.value;
    var padded := req.(proposedQuestion := Some(pad + q + pad));
    TrimPadding(pad, q);
    assert QuestionMissing(padded.proposedQuestion) == QuestionMissing(req.proposedQuestion);
    if !QuestionMissing(req.proposedQuestion) && !CategoryMissing(req.category) {
      assert RecordOf(padded) == RecordOf(req);
    }
  }
}
