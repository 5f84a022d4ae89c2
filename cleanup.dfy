/**
 * The admin cleanup pass over waiting ideas (`POST` of the
 * idea-status cleanup endpoint): each idea still `new` or `pending` whose
 * proposed text matches a published question is marked `generated`, linked
 * to the first such question in creation order.
 */
module Cleanup {
  import opened Basics
  import opened ContentStore
  import opened Similarity

  /** How the store answers the status update of one matched idea. */
  datatype UpdateFault =
    | NoFault
      /** The update failed with a message about a missing column; the retry without the link fails (with `retryMessage`) or not. */
    | MissingColumn(retryFails: bool, retryMessage: string)
      /** Any other update error, with the store's message. */
    | OtherFault(message: string)

  /** One element of the response's `results`. */
  datatype Entry =
    | Updated(ideaId: IdeaId, proposedQuestion: string, matchedQuestion: string, matchedQuestionId: QuestionId)
    | UpdateFailed(ideaId: IdeaId, proposedQuestion: string, error: string)
    | NoMatch(ideaId: IdeaId, proposedQuestion: string)

  /** The response of the endpoint. */
  datatype Response =
    | Unauthorized
      /** 500: one of the two read queries failed. */
    | ServerError
      /** No idea is waiting: `{ message, updated: 0 }`. */
    | NothingWaiting
    | Cleaned(total: nat, updated: nat, notFound: int, results: seq<Entry>)

  predicate IsWaiting(s: IdeaStatus) {
    s == New || s == Pending
  }

  /**
   * The position of the first question of `published`, from position `j`
   * on, that the matcher `sim` pairs with `text`. The matcher is a
   * parameter so that the search can be reasoned about on its own; the
   * endpoint uses `Similar`.
   */
  function FirstMatchFrom(sim: (string, string) -> bool, text: string, published: seq<Question>, j: nat): (r: Option<nat>)
    ensures r.Some? ==> j <= r.value < |published|
    decreases |published| - j
  {
    if j >= |published| then None
    else if sim(text, published[j].question) then Some(j)
    else FirstMatchFrom(sim, text, published, j + 1)
  }

  /** The position found is one the matcher accepts. */
  lemma {:induction false} FoundMatches(sim: (string, string) -> bool, text: string, published: seq<Question>, j: nat)
    requires FirstMatchFrom(sim, text, published, j).Some?
    ensures sim(text, published[FirstMatchFrom(sim, text, published, j).value].question)
    decreases |published| - j
  {
    if !sim(text, published[j].question) {
      FoundMatches(sim, text, published, j + 1);
    }
  }

  /** No position between `j` and the one found is accepted. */
  lemma {:induction false} NoneBefore(sim: (string, string) -> bool, text: string, published: seq<Question>, j: nat, k: nat)
    requires FirstMatchFrom(sim, text, published, j).Some?
    requires j <= k < FirstMatchFrom(sim, text, published, j).value
    ensures !sim(text, published[k].question)
    decreases |published| - j
  {
    if k > j {
      NoneBefore(sim, text, published, j + 1, k);
    }
  }

  /** When nothing is found, no position from `j` on is accepted. */
  lemma {:induction false} NoneAtAll(sim: (string, string) -> bool, text: string, published: seq<Question>, j: nat, k: nat)
    requires FirstMatchFrom(sim, text, published, j).None?
    requires j <= k < |published|
    ensures !sim(text, published[k].question)
    decreases |published| - j
  {
    if k > j {
      NoneAtAll(sim, text, published, j + 1, k);
    }
  }

  /** The position of the first question of `published` whose text is similar to `text`. */
  function FirstMatch(text: string, published: seq<Question>): (r: Option<nat>)
    ensures r.Some? ==> r.value < |published|
  {
    FirstMatchFrom(Similar, text, published, 0)
  }

  /** `FirstMatch` finds a question similar to the text, and none before it. */
  lemma FirstMatchFound(text: string, published: seq<Question>)
    requires FirstMatch(text, published).Some?
    ensures var j := FirstMatch(text, published).value;
      && Similar(text, published[j].question)
      && forall k :: 0 <= k < j ==> !Similar(text, published[k].question)
  {
    FoundMatches(Similar, text, published, 0);
    forall k | 0 <= k < FirstMatch(text, published).value ensures !Similar(text, published[k].question) {
      NoneBefore(Similar, text, published, 0, k);
    }
  }

  /** The search from the start finds nothing exactly when the matcher accepts no position. */
  lemma NothingFound(sim: (string, string) -> bool, text: string, published: seq<Question>)
    ensures FirstMatchFrom(sim, text, published, 0).None? <==>
      forall k :: 0 <= k < |published| ==> !sim(text, published[k].question)
  {
    if FirstMatchFrom(sim, text, published, 0).None? {
      forall k | 0 <= k < |published| ensures !sim(text, published[k].question) {
        NoneAtAll(sim, text, published, 0, k);
      }
    } else {
      FoundMatches(sim, text, published, 0);
    }
  }

  /** `FirstMatch` finds nothing exactly when no question is similar to the text. */
  lemma FirstMatchNone(text: string, published: seq<Question>)
    ensures FirstMatch(text, published).None? <==>
      forall k :: 0 <= k < |published| ==> !Similar(text, published[k].question)
  {
    NothingFound(Similar, text, published);
  }

  /** The inner loop of `POST`: walk the published questions and stop at the first match. */
  method FindMatch(text: string, published: seq<Question>) returns (r: Option<nat>)
    ensures r == FirstMatch(text, published)
  {
    var j := 0;
    while j < |published|
      invariant j <= |published|
      invariant FirstMatchFrom(Similar, text, published, j) == FirstMatch(text, published)
    {
      var similar := AreQuestionsSimilar(text, published[j].question);
      if similar {
        return Some(j);
      }
      j := j + 1;
    }
    return None;
  }

  /** Whether the status update of a matched idea gets through, first try or retry. */
  predicate UpdateLands(fault: UpdateFault) {
    fault.NoFault? || (fault.MissingColumn? && !fault.retryFails)
  }

  /** The store's message for an update that did not get through: the retry's after a column error, else the first update's. */
  function FailureMessage(fault: UpdateFault): string {
    match fault
    case NoFault => []
    case MissingColumn(_, retryMessage) => retryMessage
    case OtherFault(message) => message
  }

  /** The entry `POST` reports for one waiting idea when questions are matched by `sim` (the endpoint's is `Similar`). */
  function EntryFor(sim: (string, string) -> bool, id: IdeaId, idea: Idea, published: seq<Question>, fault: UpdateFault): Entry
  {
    match FirstMatchFrom(sim, idea.proposedQuestion, published, 0)
    case None => NoMatch(id, idea.proposedQuestion)
    case Some(j) =>
      if UpdateLands(fault)
      then Updated(id, idea.proposedQuestion, published[j].question, published[j].id)
      else UpdateFailed(id, idea.proposedQuestion, FailureMessage(fault))
  }

  /** The idea's row once `POST` has handled it, questions being matched by `sim`. */
  function RowAfter(sim: (string, string) -> bool, idea: Idea, published: seq<Question>, fault: UpdateFault): Idea
  {
    match FirstMatchFrom(sim, idea.proposedQuestion, published, 0)
    case None => idea
    case Some(j) =>
      var q := published[j];
      match fault
      case NoFault => idea.(status := Generated, processedAt := Some(q.createdAt), generatedQuestionId := Some(q.id))
      case MissingColumn(retryFails, _) =>
        if retryFails then idea else idea.(status := Generated, processedAt := Some(q.createdAt))
      case OtherFault(_) => idea
  }

  /**
   * An idea reported `updated` is now `generated`, processed at the
   * creation time of the question it is reported to match, which is the
   * first published question similar to it.
   */
  lemma UpdatedMeansGenerated(id: IdeaId, idea: Idea, published: seq<Question>, fault: UpdateFault)
    requires EntryFor(Similar, id, idea, published, fault).Updated?
    ensures var e := EntryFor(Similar, id, idea, published, fault);
      var row := RowAfter(Similar, idea, published, fault);
      var j := FirstMatch(idea.proposedQuestion, published).value;
      && e.ideaId == id && UpdateLands(fault)
      && published[j].id == e.matchedQuestionId && published[j].question == e.matchedQuestion
      && Similar(idea.proposedQuestion, published[j].question)
      && (forall k :: 0 <= k < j ==> !Similar(idea.proposedQuestion, published[k].question))
      && row.status == Generated && row.processedAt == Some(published[j].createdAt)
      && (fault.NoFault? ==> row.generatedQuestionId == Some(published[j].id))
  {
    FirstMatchFound(idea.proposedQuestion, published);
  }

  /** An idea not reported `updated` keeps its row as it was. */
  lemma OthersUntouched(id: IdeaId, idea: Idea, published: seq<Question>, fault: UpdateFault)
    requires !EntryFor(Similar, id, idea, published, fault).Updated?
    ensures EntryFor(Similar, id, idea, published, fault).ideaId == id
    ensures RowAfter(Similar, idea, published, fault) == idea
    ensures EntryFor(Similar, id, idea, published, fault).UpdateFailed? ==>
      !UpdateLands(fault) && EntryFor(Similar, id, idea, published, fault).error == FailureMessage(fault)
  {
  }

  /** An idea is reported `no_match` exactly when no published question is similar to it. */
  lemma NoMatchMeansNoneSimilar(id: IdeaId, idea: Idea, published: seq<Question>, fault: UpdateFault)
    ensures EntryFor(Similar, id, idea, published, fault).NoMatch? <==>
      forall k :: 0 <= k < |published| ==> !Similar(idea.proposedQuestion, published[k].question)
  {
    NothingFound(Similar, idea.proposedQuestion, published);
  }

  function CountUpdated(rs: seq<Entry>): (n: nat)
    ensures n <= |rs|
  {
    if rs == [] then 0 else (if rs[0].Updated? then 1 else 0) + CountUpdated(rs[1..])
  }

  function CountNotUpdated(rs: seq<Entry>): nat {
    if rs == [] then 0 else (if rs[0].Updated? then 0 else 1) + CountNotUpdated(rs[1..])
  }

  /** `notFound` counts the unmatched ideas and the matched ones whose update failed alike. */
  lemma {:induction false} NotFoundCountsFailures(rs: seq<Entry>)
    ensures CountNotUpdated(rs) == |rs| - CountUpdated(rs)
  {
    if rs != [] {
      NotFoundCountsFailures(rs[1..]);
    }
  }

  lemma {:induction false} CountUpdatedAppend(rs: seq<Entry>, e: Entry)
    ensures CountUpdated(rs + [e]) == CountUpdated(rs) + if e.Updated? then 1 else 0
  {
    if rs != [] {
      assert (rs + [e])[1..] == rs[1..] + [e];
      CountUpdatedAppend(rs[1..], e);
    }
  }

  /**
   * The first `|results|` ideas of `ideaIds` are handled: their entries and
   * rows are as `EntryFor` and `RowAfter` say; every other idea is as it was.
   */
  ghost predicate HandledSoFar(sim: (string, string) -> bool, ideas: map<IdeaId, Idea>, start: map<IdeaId, Idea>,
                               ideaIds: seq<IdeaId>, results: seq<Entry>, published: seq<Question>,
                               faults: IdeaId -> UpdateFault)
  {
    && |results| <= |ideaIds|
    && ideas.Keys == start.Keys
    && (forall k :: 0 <= k < |ideaIds| ==> ideaIds[k] in start)
    && (forall k :: 0 <= k < |results| ==>
          results[k] == EntryFor(sim, ideaIds[k], start[ideaIds[k]], published, faults(ideaIds[k])))
    && (forall k :: 0 <= k < |results| ==>
          ideas[ideaIds[k]] == RowAfter(sim, start[ideaIds[k]], published, faults(ideaIds[k])))
    && (forall k :: |results| <= k < |ideaIds| ==> ideas[ideaIds[k]] == start[ideaIds[k]])
    && (forall id :: id in start && id !in ideaIds ==> ideas[id] == start[id])
  }

  /** Handling the next idea of `ideaIds` extends what is handled by one. */
  lemma HandledStep(sim: (string, string) -> bool, ideas: map<IdeaId, Idea>, start: map<IdeaId, Idea>,
                    ideaIds: seq<IdeaId>, results: seq<Entry>, published: seq<Question>,
                    faults: IdeaId -> UpdateFault, after: map<IdeaId, Idea>, e: Entry)
    requires Distinct(ideaIds) && |results| < |ideaIds|
    requires HandledSoFar(sim, ideas, start, ideaIds, results, published, faults)
    requires var id := ideaIds[|results|];
      && after == ideas[id := RowAfter(sim, ideas[id], published, faults(id))]
      && e == EntryFor(sim, id, ideas[id], published, faults(id))
    ensures HandledSoFar(sim, after, start, ideaIds, results + [e], published, faults)
  {
    var n := |results|;
    var id := ideaIds[n];
    assert ideas[id] == start[id];
    forall k | 0 <= k < |ideaIds| && k != n ensures after[ideaIds[k]] == ideas[ideaIds[k]] {
      assert ideaIds[k] != id;
    }
  }

  /** The body of the outer loop for one waiting idea: match, then update and retry on a column error. */
  method CleanOne(store: Store, id: IdeaId, published: seq<Question>, fault: UpdateFault)
    returns (e: Entry)
    requires store.Valid() && id in store.ideas
    modifies store
    ensures store.Valid() && store.questions == old(store.questions) && store.nextIdeaId == old(store.nextIdeaId)
    ensures e == EntryFor(Similar, id, old(store.ideas)[id], published, fault)
    ensures store.ideas == old(store.ideas)[id := RowAfter(Similar, old(store.ideas)[id], published, fault)]
  {
    var idea := store.ideas[id];
    var found := FindMatch(idea.proposedQuestion, published);
    if found.None? {
      assert store.ideas == store.ideas[id := idea];
      return NoMatch(id, idea.proposedQuestion);
    }
    var q := published[found.value];
    var ok := store.SetIdeaStatus(id, Generated, q.createdAt, Some(q.id), !fault.NoFault?);
    if !ok && fault.MissingColumn? {
      ok := store.SetIdeaStatus(id, Generated, q.createdAt, None, fault.retryFails);
    }
    if ok {
      e := Updated(id, idea.proposedQuestion, q.question, q.id);
    } else {
      assert store.ideas == old(store.ideas)[id := idea];
      e := UpdateFailed(id, idea.proposedQuestion, FailureMessage(fault));
    }
  }

  /**
   * `POST`. `authenticated` is the session check; `ideaIds` is the store's
   * answer to the waiting-ideas query (in creation order) and `published`
   * to the published-questions query, ordered by creation time;
   * `ideasQueryFails`/`questionsQueryFails` say whether those queries fail
   * and `faults` how the store answers each idea's update.
   */
  method CleanupIdeaStatuses(store: Store, authenticated: bool,
                             ideasQueryFails: bool, ideaIds: seq<IdeaId>,
                             questionsQueryFails: bool, published: seq<Question>,
                             faults: IdeaId -> UpdateFault)
    returns (resp: Response)
    requires store.Valid()
    requires Distinct(ideaIds)
    requires forall id :: id in ideaIds <==> id in store.ideas && IsWaiting(store.ideas[id].status)
    requires forall q :: q in published <==> q in store.questions && q.status == Published
    requires forall j, k :: 0 <= j < k < |published| ==> published[j].createdAt <= published[k].createdAt
    modifies store
    ensures store.Valid() && store.questions == old(store.questions) && store.nextIdeaId == old(store.nextIdeaId)
    ensures !authenticated ==> resp == Unauthorized
    ensures authenticated && ideasQueryFails ==> resp == ServerError
    ensures authenticated && !ideasQueryFails && ideaIds == [] ==> resp == NothingWaiting
    ensures authenticated && !ideasQueryFails && ideaIds != [] && questionsQueryFails ==> resp == ServerError
    ensures !resp.Cleaned? ==> store.ideas == old(store.ideas)
    ensures resp.Cleaned? ==>
      && authenticated && !ideasQueryFails && !questionsQueryFails
      && resp.total == |ideaIds| == |resp.results|
      && resp.updated == CountUpdated(resp.results) <= resp.total
      && resp.notFound == resp.total - resp.updated == CountNotUpdated(resp.results)
      && HandledSoFar(Similar, store.ideas, old(store.ideas), ideaIds, resp.results, published, faults)
  {
    if !authenticated {
      return Unauthorized;
    }
    if ideasQueryFails {
      return ServerError;
    }
    if |ideaIds| == 0 {
      return NothingWaiting;
    }
    if questionsQueryFails {
      return ServerError;
    }
    var results: seq<Entry> := [];
    var updatedCount := 0;
    var i := 0;
    while i < |ideaIds|
      invariant i <= |ideaIds| && |results| == i
      invariant updatedCount == CountUpdated(results)
      invariant store.Valid() && store.questions == old(store.questions) && store.nextIdeaId == old(store.nextIdeaId)
      invariant HandledSoFar(Similar, store.ideas, old(store.ideas), ideaIds, results, published, faults)
    {
      var id := ideaIds[i];
      ghost var before := store.ideas;
      var e := CleanOne(store, id, published, faults(id));
      HandledStep(Similar, before, old(store.ideas), ideaIds, results, published, faults, store.ideas, e);
      CountUpdatedAppend(results, e);
      if e.Updated? {
        updatedCount := updatedCount + 1;
      }
      results := results + [e];
      i := i + 1;
    }
    NotFoundCountsFailures(results);
    resp := Cleaned(|ideaIds|, updatedCount, |ideaIds| - updatedCount, results);
  }
}
