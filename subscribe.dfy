/**
 * The newsletter sign-up (`POST` of the subscribe endpoint): an address
 * without `@` is refused, the stored address is lower-cased and trimmed,
 * and a unique-key violation counts as being subscribed already.
 */
module Subscribe {
  import opened Basics
  import opened Text

  /** How the store answers the insert: success, or an error with its code and message. */
  datatype InsertAnswer = InsertOk | InsertError(code: string, message: string)

  datatype Response =
      /** 400: the address is missing or has no `@`. */
    | InvalidEmail
    | Subscribed
    | AlreadySubscribed
      /** 400 with the store's message. */
    | InsertFailed(message: string)
      /** 500: the body could not be read. */
    | ServerError

  /** What the endpoint does: its response, and the address it inserts if any. */
  datatype Outcome = Outcome(response: Response, inserted: Option<string>)

  /** PostgreSQL's `unique_violation`. */
  const UniqueViolation: string := "23505"

  /** `!email || !email.includes('@')`. */
  predicate InvalidAddress(email: Option<string>) {
    email.None? || '@' !in email.value
  }

  /** The address as stored: `email.toLowerCase().trim()`. */
  function NormalizeEmail(email: string): (r: string)
    ensures IsTrimmed(r) && IsLowered(r)
    // lower-casing and trimming commute: the address with its surrounding whitespace cut, in lower case
    ensures r == Trim(Lower(email)) && r == Lower(Trim(email))
  {
    var r := Trim(Lower(email));
    LowerTrimCommute(email);
    LowerIsLowered(Trim(email));
    r
  }

  /** `POST`. `body` is `None` when the body cannot be read, otherwise the `email` field. */
  function SubscribeEmail(body: Option<Option<string>>, answer: InsertAnswer): (out: Outcome)
    ensures body.None? ==> out == Outcome(ServerError, None)
    ensures out.inserted.Some? <==> body.Some? && !InvalidAddress(body.value)
    ensures out.inserted.Some? ==> out.inserted.value == NormalizeEmail(body.value.value)
    ensures out.response == InvalidEmail <==> body.Some? && InvalidAddress(body.value)
    ensures out.inserted.Some? ==>
      (out.response == Subscribed <==> answer.InsertOk?)
      && (out.response == AlreadySubscribed <==> answer.InsertError? && answer.code == UniqueViolation)
      && (out.response.InsertFailed? <==> answer.InsertError? && answer.code != UniqueViolation)
      && (answer.InsertError? && answer.code != UniqueViolation ==> out.response == InsertFailed(answer.message))
  {
    if body.None? then Outcome(ServerError, None)
    else if InvalidAddress(body.value) then Outcome(InvalidEmail, None)
    else
      var stored := NormalizeEmail(body.value.value);
      match answer
      case InsertOk => Outcome(Subscribed, Some(stored))
      case InsertError(code, message) =>
        if code == UniqueViolation then Outcome(AlreadySubscribed, Some(stored))
        else Outcome(InsertFailed(message), Some(stored))
  }

  /** Normalising is idempotent: a stored address normalises to itself. */
  lemma NormalizeEmailIdempotent(email: string)
    ensures NormalizeEmail(NormalizeEmail(email)) == NormalizeEmail(email)
  {
    var r := NormalizeEmail(email);
    LoweredFixed(r);
    TrimmedFixed(r);
  }

  /** Addresses that differ only in ASCII case and surrounding whitespace are stored alike. */
  lemma NormalizeEmailIgnoresCaseAndPadding(email: string, other: string, pad: string)
    requires Lower(other) == Lower(email)
    requires forall i :: 0 <= i < |pad| ==> IsSpace(pad[i])
    ensures NormalizeEmail(pad + other + pad) == NormalizeEmail(email)
  {
    LowerConcat(pad + other, pad);
    LowerConcat(pad, other);
    LowerSpaces(pad);
    TrimPadding(pad, Lower(email));
  }

  /** The stored address still contains `@`: neither lower-casing nor trimming removes it. */
  lemma {:induction false} StoredKeepsAt(email: string)
    requires '@' in email
    ensures '@' in NormalizeEmail(email)
  {
    var k :| 0 <= k < |email| && email[k] == '@';
    var l := Lower(email);
    assert l[k] == '@';
    TrimKeepsNonSpace(l, k);
  }
}
