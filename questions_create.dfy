/**
 * Creating a question from the admin editor (`POST` of the
 * question-creation endpoint): question, slug and category are required; a
 * question submitted as `published` without a publication date is stamped
 * with the current time, in place on the payload, and the payload is
 * inserted as it then stands.
 */
module QuestionsCreate {
  import opened Basics

  /** The payload as a value: the fields the endpoint reads, and every other field passed through untouched. */
  datatype PayloadValue = PayloadValue(
    question: Option<string>,
    slug: Option<string>,
    category: Option<string>,
    status: Option<string>,
    publishedAt: Option<string>,
    others: map<string, string>)

  /** How the store answers the insert: the created row, or an error message. */
  datatype InsertAnswer = Inserted(row: PayloadValue) | InsertError(message: string)

  datatype Response =
    | Unauthorized
      /** 400: question, slug or category missing. */
    | MissingFields
      /** 400 with the store's message. */
    | InsertFailed(message: string)
      /** 500: the body could not be read. */
    | ServerError
    | QuestionCreated(question: PayloadValue)

  const PublishedStatus: string := "published"

  /** JavaScript truthiness of an optional string: present and not empty. */
  predicate Truthy(x: Option<string>) {
    x.Some? && x.value != []
  }

  /** `data.question && data.slug && data.category`. */
  predicate HasRequiredFields(p: PayloadValue) {
    Truthy(p.question) && Truthy(p.slug) && Truthy(p.category)
  }

  /** The payload once a publication date is filled in: only for a published question without one. */
  function WithPublishDate(p: PayloadValue, now: string): (r: PayloadValue)
    requires now != []
    ensures r.(publishedAt := p.publishedAt) == p
    ensures r.status == Some(PublishedStatus) ==> Truthy(r.publishedAt)
    ensures Truthy(p.publishedAt) ==> r == p
  {
    if p.status == Some(PublishedStatus) && !Truthy(p.publishedAt) then p.(publishedAt := Some(now)) else p
  }

  /** Filling in the date twice is filling it in once, whatever the second clock reading. */
  lemma WithPublishDateIdempotent(p: PayloadValue, now: string, later: string)
    requires now != [] && later != []
    ensures WithPublishDate(WithPublishDate(p, now), later) == WithPublishDate(p, now)
  {
  }

  /** The date is set exactly for a published question that has none. */
  lemma WithPublishDateWhen(p: PayloadValue, now: string)
    requires now != []
    ensures WithPublishDate(p, now).publishedAt != p.publishedAt <==>
      p.status == Some(PublishedStatus) && !Truthy(p.publishedAt)
    ensures WithPublishDate(p, now).publishedAt != p.publishedAt ==> WithPublishDate(p, now).publishedAt == Some(now)
  {
  }

  /** The request body, which the endpoint updates in place before inserting it. */
  class QuestionPayload {
    var question: Option<string>
    var slug: Option<string>
    var category: Option<string>
    var status: Option<string>
    var publishedAt: Option<string>
    var others: map<string, string>

    constructor(v: PayloadValue)
      ensures Value() == v
    {
      question := v.question;
      slug := v.slug;
      category := v.category;
      status := v.status;
      publishedAt := v.publishedAt;
      others := v.others;
    }

    function Value(): PayloadValue
      reads this
    {
      PayloadValue(question, slug, category, status, publishedAt, others)
    }

    /** `if (data.status === 'published' && !data.published_at) data.published_at = now`. */
    method StampPublishDate(now: string)
      requires now != []
      modifies this
      ensures Value() == WithPublishDate(old(Value()), now)
    {
      if status == Some(PublishedStatus) && !Truthy(publishedAt) {
        publishedAt := Some(now);
      }
    }
  }

  /**
   * `POST`. `parseFails` says whether the body can be read, `now` is the
   * current time as an ISO string and `answer` how the store answers the
   * insert. `written` is the row sent to the store, if any.
   */
  method CreateQuestion(authenticated: bool, parseFails: bool, payload: QuestionPayload, now: string, answer: InsertAnswer)
    returns (resp: Response, written: Option<PayloadValue>)
    requires now != []
    modifies payload
    ensures !authenticated ==> resp == Unauthorized
    ensures authenticated && parseFails ==> resp == ServerError
    ensures authenticated && !parseFails && !HasRequiredFields(old(payload.Value())) ==> resp == MissingFields
    ensures written.None? ==> payload.Value() == old(payload.Value())
    ensures written.Some? <==> authenticated && !parseFails && HasRequiredFields(old(payload.Value()))
    ensures written.Some? ==>
      && written.value == payload.Value() == WithPublishDate(old(payload.Value()), now)
      && resp == match answer
                 case Inserted(row) => QuestionCreated(row)
                 case InsertError(m) => InsertFailed(m)
  {
    written := None;
    if !authenticated {
      return Unauthorized, None;
    }
    if parseFails {
      return ServerError, None;
    }
    if !Truthy(payload.question) || !Truthy(payload.slug) || !Truthy(payload.category) {
      return MissingFields, None;
    }
    payload.StampPublishDate(now);
    written := Some(payload.Value());
    match answer
    case Inserted(row) =>
      resp := QuestionCreated(row);
    case InsertError(m) =>
      resp := InsertFailed(m);
  }

  /** Every question this endpoint writes as published carries a publication date. */
  lemma PublishedWritesAreDated(p: PayloadValue, now: string)
    requires now != [] && HasRequiredFields(p)
    ensures var w := WithPublishDate(p, now);
      w.status == Some(PublishedStatus) ==> Truthy(w.publishedAt)
    ensures HasRequiredFields(WithPublishDate(p, now))
  {
  }
}
