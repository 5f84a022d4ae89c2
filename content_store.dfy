/**
 * The content store the site talks to: its `ideas` and `questions`
 * collections, and the handful of writes the modelled code issues against
 * them. Each write either takes effect or fails as a whole; whether it fails
 * is decided by the caller's `fails` argument, since the store is an
 * external service.
 */
module ContentStore {
  import opened Basics
  import opened GeneratorHelpers

  type IdeaId = nat
  type QuestionId = nat
  /** Store timestamps, ordered as time passes. */
  type Timestamp = nat

  /** The lifecycle of an idea: `new`/`pending` wait, `processing` is owned by a run, the rest are terminal. */
  datatype IdeaStatus = New | Pending | Processing | Generated | Duplicate | Error

  predicate IsTerminal(s: IdeaStatus) {
    s == Generated || s == Duplicate || s == Error
  }

  /** A row of the `ideas` collection. */
  datatype Idea = Idea(
    proposedQuestion: string,
    category: Option<string>,
    tags: TagsField,
    notes: Option<string>,
    priority: Option<int>,
    status: IdeaStatus,
    processingStartedAt: Option<Timestamp>,
    processedAt: Option<Timestamp>,
    generatedQuestionId: Option<QuestionId>)

  datatype QuestionStatus = Draft | Approved | Scheduled | Published

  datatype Evidence = Evidence(title: string, url: string, explanation: string)

  /** A row of the `questions` collection (a published or draft article). */
  datatype Question = Question(
    id: QuestionId,
    slug: string,
    question: string,
    shortAnswer: Option<string>,
    verdict: Option<string>,
    category: string,
    summary: Option<string>,
    body: Option<string>,
    evidence: Option<seq<Evidence>>,
    tags: seq<string>,
    sources: seq<string>,
    status: QuestionStatus,
    publishedAt: Option<Timestamp>,
    createdAt: Timestamp)

  /** `rows` stored under consecutive identifiers from `first` on. */
  function WithRows(m: map<IdeaId, Idea>, first: IdeaId, rows: seq<Idea>): map<IdeaId, Idea>
    decreases |rows|
  {
    if rows == [] then m
    else WithRows(m[first := rows[0]], first + 1, rows[1..])
  }

  /** The new rows sit under `first`, `first + 1`, ...; every other identifier keeps its row. */
  lemma {:induction false} WithRowsContents(m: map<IdeaId, Idea>, first: IdeaId, rows: seq<Idea>)
    ensures var r := WithRows(m, first, rows);
      && (forall id :: id in r <==> id in m || first <= id < first + |rows|)
      && (forall i :: first <= i < first + |rows| ==> r[i] == rows[i - first])
      && (forall id :: id in m && !(first <= id < first + |rows|) ==> r[id] == m[id])
    decreases |rows|
  {
    if rows != [] {
      var m' := m[first := rows[0]];
      WithRowsContents(m', first + 1, rows[1..]);
      assert forall id :: id in m' <==> id in m || id == first;
    }
  }

  /** Storing two runs of rows one after the other is storing their concatenation. */
  lemma {:induction false} WithRowsAppend(m: map<IdeaId, Idea>, first: IdeaId, a: seq<Idea>, b: seq<Idea>)
    ensures WithRows(WithRows(m, first, a), first + |a|, b) == WithRows(m, first, a + b)
    decreases |a|
  {
    if a == [] {
      assert a + b == b;
    } else {
      assert (a + b)[0] == a[0] && (a + b)[1..] == a[1..] + b;
      WithRowsAppend(m[first := a[0]], first + 1, a[1..], b);
    }
  }

  class Store {
    var ideas: map<IdeaId, Idea>
    var questions: seq<Question>
    /** The identifier the store gives the next inserted idea. */
    var nextIdeaId: IdeaId

    /** Question identifiers are their positions; idea identifiers are below `nextIdeaId`. */
    ghost predicate Valid()
      reads this
    {
      && (forall id :: id in ideas ==> id < nextIdeaId)
      && (forall i :: 0 <= i < |questions| ==> questions[i].id == i)
    }

    constructor (ideas0: map<IdeaId, Idea>, questions0: seq<Question>, nextIdeaId0: IdeaId)
      requires forall id :: id in ideas0 ==> id < nextIdeaId0
      requires forall i :: 0 <= i < |questions0| ==> questions0[i].id == i
      ensures Valid()
      ensures ideas == ideas0 && questions == questions0 && nextIdeaId == nextIdeaId0
    {
      ideas := ideas0;
      questions := questions0;
      nextIdeaId := nextIdeaId0;
    }

    /**
     * `update({ status: 'processing', processing_started_at: now }).in('id', ids)`.
     * Ids the store does not hold are ignored.
     */
    method MarkProcessing(ids: set<IdeaId>, now: Timestamp, fails: bool) returns (ok: bool)
      requires Valid()
      modifies this
      ensures Valid()
      ensures ok == !fails
      ensures questions == old(questions) && nextIdeaId == old(nextIdeaId)
      ensures ideas.Keys == old(ideas).Keys
      ensures forall id :: id in ideas ==>
        ideas[id] == if ok && id in ids
                     then old(ideas)[id].(status := Processing, processingStartedAt := Some(now))
                     else old(ideas)[id]
    {
      ok := !fails;
      if ok {
        ideas := map id | id in ideas ::
          if id in ids then ideas[id].(status := Processing, processingStartedAt := Some(now))
          else ideas[id];
      }
    }

    /**
     * `update({ status, processed_at: now [, generated_question_id: link] }).eq('id', id)`.
     * An id the store does not hold matches no row and changes nothing.
     */
    method SetIdeaStatus(id: IdeaId, status: IdeaStatus, now: Timestamp, link: Option<QuestionId>, fails: bool)
      returns (ok: bool)
      requires Valid()
      modifies this
      ensures Valid()
      ensures ok == !fails
      ensures questions == old(questions) && nextIdeaId == old(nextIdeaId)
      ensures ideas == if ok && id in old(ideas)
        then old(ideas)[id := old(ideas)[id].(
          status := status, processedAt := Some(now),
          generatedQuestionId := if link.Some? then link else old(ideas)[id].generatedQuestionId)]
        else old(ideas)
    {
      ok := !fails;
      if ok && id in ideas {
        var idea := ideas[id];
        ideas := ideas[id := idea.(
          status := status, processedAt := Some(now),
          generatedQuestionId := if link.Some? then link else idea.generatedQuestionId)];
      }
    }

    /** `insert(row).select().single()`: the store gives the row the next identifier. */
    method InsertQuestion(row: Question, fails: bool) returns (inserted: Option<Question>)
      requires Valid()
      modifies this
      ensures Valid()
      ensures ideas == old(ideas) && nextIdeaId == old(nextIdeaId)
      ensures fails ==> inserted.None? && questions == old(questions)
      ensures !fails ==>
        && inserted == Some(row.(id := |old(questions)|))
        && questions == old(questions) + [inserted.value]
    {
      if fails {
        inserted := None;
      } else {
        var q := row.(id := |questions|);
        questions := questions + [q];
        inserted := Some(q);
      }
    }

    /** `insert(rows).select()` on `ideas`: all rows are stored, or none. */
    method InsertIdeas(rows: seq<Idea>, fails: bool) returns (inserted: Option<nat>)
      requires Valid()
      modifies this
      ensures Valid()
      ensures questions == old(questions)
      ensures fails ==> inserted.None? && ideas == old(ideas) && nextIdeaId == old(nextIdeaId)
      ensures !fails ==>
        && inserted == Some(|rows|)
        && ideas == WithRows(old(ideas), old(nextIdeaId), rows)
        && nextIdeaId == old(nextIdeaId) + |rows|
    {
      if fails {
        inserted := None;
      } else {
        WithRowsContents(ideas, nextIdeaId, rows);
        ideas := WithRows(ideas, nextIdeaId, rows);
        nextIdeaId := nextIdeaId + |rows|;
        inserted := Some(|rows|);
      }
    }
  }
}
