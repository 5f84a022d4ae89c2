/**
 * The admin bulk import of ideas (`POST` of the bulk-import endpoint):
 * every submitted idea is normalised, the ones without a question are
 * dropped, and the rest are inserted in consecutive batches of 50, a failed
 * batch not stopping the later ones.
 */
module BulkImport {
  import opened Basics
  import opened Text
  import opened GeneratorHelpers
  import opened ContentStore

  /** The `tags` field of a submitted idea: absent or falsy, an array, or some other truthy value. */
  datatype RawTags = NoTags | TagArray(items: seq<string>) | TagScalar(value: string)

  /** A submitted idea; an absent field is `None`. */
  datatype RawIdea = RawIdea(
    proposedQuestion: Option<string>,
    category: Option<string>,
    tags: RawTags,
    notes: Option<string>,
    priority: Option<int>)

  /** The request body: not JSON at all, an `ideas` field that is not an array, or an array of ideas. */
  datatype Body = Unparseable | NotAnArray | IdeaArray(items: seq<RawIdea>)

  /** The outcome of one batch insert, numbered from 1. */
  datatype BatchResult = BatchInserted(batch: nat, inserted: nat) | BatchFailed(batch: nat)

  datatype Response =
    | Unauthorized
      /** 400: `ideas` is not an array, or no idea has a question. */
    | BadRequest
      /** 500: the body could not be read. */
    | ServerError
    | Imported(total: nat, inserted: nat, results: seq<BatchResult>)

  const BatchSize: nat := 50
  const DefaultCategory: string := "general_health"

  /** `x || fallback` for a string: the empty string counts as absent. */
  function StringOr(x: Option<string>, fallback: string): (r: string)
    ensures x.Some? && x.value != [] ==> r == x.value
    ensures x.None? || x.value == [] ==> r == fallback
  {
    if x.Some? && x.value != [] then x.value else fallback
  }

  /** Tags as stored: the array itself, a truthy scalar wrapped in a one-element array, or none. */
  function TagsOf(tags: RawTags): (r: seq<string>)
    ensures tags.TagArray? ==> r == tags.items
    ensures tags.TagScalar? && tags.value != [] ==> r == [tags.value]
    ensures tags.NoTags? || (tags.TagScalar? && tags.value == []) ==> r == []
  {
    match tags
    case NoTags => []
    case TagArray(items) => items
    case TagScalar(v) => if v == [] then [] else [v]
  }

  /** The row prepared from one submitted idea. */
  function NormalizeIdea(raw: RawIdea): (idea: Idea)
    ensures IsTrimmed(idea.proposedQuestion)
    ensures raw.proposedQuestion.None? ==> idea.proposedQuestion == []
    ensures raw.proposedQuestion.Some? ==> idea.proposedQuestion == Trim(raw.proposedQuestion.value)
    // the category given, or the default when it is absent or empty
    ensures idea.category == Some(StringOr(raw.category, DefaultCategory)) && idea.category.value != []
    ensures idea.tags == TagList(TagsOf(raw.tags))
    // notes are trimmed, and dropped when nothing is left
    ensures idea.notes.None? <==> raw.notes.None? || Trim(raw.notes.value) == []
    ensures idea.notes.Some? ==> idea.notes.value == Trim(raw.notes.value) && IsTrimmed(idea.notes.value)
    // a zero priority is dropped, any other is kept
    ensures idea.priority.None? <==> raw.priority.None? || raw.priority.value == 0
    ensures idea.priority.Some? ==> idea.priority == raw.priority
    // a fresh idea: pending, never processed, not linked
    ensures idea.status == Pending
    ensures idea.processingStartedAt.None? && idea.processedAt.None? && idea.generatedQuestionId.None?
  {
    Idea(
      proposedQuestion := if raw.proposedQuestion.Some? then Trim(raw.proposedQuestion.value) else [],
      category := Some(StringOr(raw.category, DefaultCategory)),
      tags := TagList(TagsOf(raw.tags)),
      notes := if raw.notes.Some? && Trim(raw.notes.value) != [] then Some(Trim(raw.notes.value)) else None,
      priority := if raw.priority.Some? && raw.priority.value != 0 then raw.priority else None,
      status := Pending,
      processingStartedAt := None,
      processedAt := None,
      generatedQuestionId := None)
  }

  /** Whether a submitted idea survives the filter: its normalised question is not empty. */
  predicate HasQuestion(raw: RawIdea) {
    NormalizeIdea(raw).proposedQuestion != []
  }

  /** `ideas.map(normalise)`. */
  function NormalizeAll(items: seq<RawIdea>): (r: seq<Idea>)
    ensures |r| == |items|
    ensures forall i :: 0 <= i < |r| ==> r[i] == NormalizeIdea(items[i])
  {
    seq(|items|, i requires 0 <= i < |items| => NormalizeIdea(items[i]))
  }

  /** `.filter(i => i.proposed_question)`: the rows whose question is not empty, in order. */
  function WithQuestion(rows: seq<Idea>): (r: seq<Idea>)
    ensures |r| <= |rows|
    ensures forall i :: 0 <= i < |r| ==> r[i].proposedQuestion != []
  {
    if rows == [] then []
    else (if rows[0].proposedQuestion != [] then [rows[0]] else []) + WithQuestion(rows[1..])
  }

  /** The rows `POST` goes on to insert. */
  function ValidIdeas(items: seq<RawIdea>): (r: seq<Idea>)
    ensures |r| <= |items|
    ensures forall i :: 0 <= i < |r| ==> r[i].proposedQuestion != []
  {
    WithQuestion(NormalizeAll(items))
  }

  lemma {:induction false} WithQuestionAppend(a: seq<Idea>, b: seq<Idea>)
    ensures WithQuestion(a + b) == WithQuestion(a) + WithQuestion(b)
  {
    if a == [] {
      assert a + b == b;
    } else {
      assert (a + b)[1..] == a[1..] + b;
      WithQuestionAppend(a[1..], b);
    }
  }

  lemma {:induction false} WithQuestionKeeps(rows: seq<Idea>, k: nat)
    requires k < |rows| && rows[k].proposedQuestion != []
    ensures rows[k] in WithQuestion(rows)
  {
    if k > 0 {
      WithQuestionKeeps(rows[1..], k - 1);
    }
  }

  lemma {:induction false} WithQuestionFrom(rows: seq<Idea>, row: Idea)
    requires row in WithQuestion(rows)
    ensures row in rows
  {
    if rows != [] && row != rows[0] {
      WithQuestionFrom(rows[1..], row);
    }
  }

  /** The filter works idea by idea, so it keeps the submitted order. */
  lemma ValidIdeasAppend(a: seq<RawIdea>, b: seq<RawIdea>)
    ensures ValidIdeas(a + b) == ValidIdeas(a) + ValidIdeas(b)
  {
    assert NormalizeAll(a + b) == NormalizeAll(a) + NormalizeAll(b);
    WithQuestionAppend(NormalizeAll(a), NormalizeAll(b));
  }

  /** Every submitted idea with a question is kept, normalised. */
  lemma ValidIdeasKeeps(items: seq<RawIdea>, k: nat)
    requires k < |items| && HasQuestion(items[k])
    ensures NormalizeIdea(items[k]) in ValidIdeas(items)
  {
    WithQuestionKeeps(NormalizeAll(items), k);
  }

  /** Every kept row is the normalisation of a submitted idea, with a trimmed question. */
  lemma ValidIdeasFrom(items: seq<RawIdea>, row: Idea)
    requires row in ValidIdeas(items)
    ensures exists k :: 0 <= k < |items| && HasQuestion(items[k]) && row == NormalizeIdea(items[k])
    ensures row.proposedQuestion != [] && IsTrimmed(row.proposedQuestion)
  {
    WithQuestionFrom(NormalizeAll(items), row);
    var k :| 0 <= k < |items| && NormalizeAll(items)[k] == row;
  }

  /** The consecutive slices of at most `BatchSize` rows that `POST` inserts one by one. */
  function Batches(rows: seq<Idea>): (bs: seq<seq<Idea>>)
    ensures forall k :: 0 <= k < |bs| ==> 0 < |bs[k]| <= BatchSize
    decreases |rows|
  {
    if rows == [] then []
    else if |rows| <= BatchSize then [rows]
    else [rows[..BatchSize]] + Batches(rows[BatchSize..])
  }

  function Flatten(bs: seq<seq<Idea>>): seq<Idea> {
    if bs == [] then [] else bs[0] + Flatten(bs[1..])
  }

  /** The batches cover the rows exactly once, in order. */
  lemma {:induction false} BatchesCover(rows: seq<Idea>)
    ensures Flatten(Batches(rows)) == rows
    decreases |rows|
  {
    if |rows| > BatchSize {
      BatchesCover(rows[BatchSize..]);
      assert rows[..BatchSize] + rows[BatchSize..] == rows;
    }
  }

  /** There are `ceil(n / 50)` batches. */
  lemma {:induction false} BatchCount(rows: seq<Idea>)
    ensures |Batches(rows)| == (|rows| + BatchSize - 1) / BatchSize
    decreases |rows|
  {
    if |rows| > BatchSize {
      BatchCount(rows[BatchSize..]);
    }
  }

  /** Batch `k` (from 0) is the slice of rows from `50 k` on, 50 long except possibly the last. */
  lemma {:induction false} BatchAt(rows: seq<Idea>, k: nat)
    requires k < |Batches(rows)|
    ensures BatchSize * k < |rows|
    ensures Batches(rows)[k] == rows[BatchSize * k .. Min(BatchSize * k + BatchSize, |rows|)]
    decreases |rows|
  {
    if k > 0 {
      var rest := rows[BatchSize..];
      BatchAt(rest, k - 1);
      assert rest[BatchSize * (k - 1) .. Min(BatchSize * (k - 1) + BatchSize, |rest|)]
          == rows[BatchSize * k .. Min(BatchSize * k + BatchSize, |rows|)];
    }
  }

  /** What `POST` records for batch `batch`, numbered `number`; `fails` says which batch inserts fail. */
  function Outcome(batch: seq<Idea>, number: nat, fails: nat -> bool): BatchResult {
    if fails(number) then BatchFailed(number) else BatchInserted(number, |batch|)
  }

  /** The results reported for batches `bs`, the first numbered `number`. */
  function BatchResults(bs: seq<seq<Idea>>, number: nat, fails: nat -> bool): (rs: seq<BatchResult>)
    ensures |rs| == |bs|
  {
    if bs == [] then [] else [Outcome(bs[0], number, fails)] + BatchResults(bs[1..], number + 1, fails)
  }

  /** The rows of the batches whose insert succeeds, in order. */
  function StoredRows(bs: seq<seq<Idea>>, number: nat, fails: nat -> bool): seq<Idea> {
    if bs == [] then []
    else (if fails(number) then [] else bs[0]) + StoredRows(bs[1..], number + 1, fails)
  }

  /** `results.reduce((sum, r) => sum + (r.inserted || 0), 0)`. */
  function TotalInserted(rs: seq<BatchResult>): nat {
    if rs == [] then 0
    else (if rs[0].BatchInserted? then rs[0].inserted else 0) + TotalInserted(rs[1..])
  }

  /** The batches are numbered consecutively from `number`, and a batch is reported inserted exactly when its insert succeeds. */
  lemma {:induction false} BatchResultsAt(bs: seq<seq<Idea>>, number: nat, fails: nat -> bool, k: nat)
    requires k < |bs|
    ensures BatchResults(bs, number, fails)[k].batch == number + k
    ensures BatchResults(bs, number, fails)[k].BatchInserted? <==> !fails(number + k)
    ensures BatchResults(bs, number, fails)[k].BatchInserted? ==>
      BatchResults(bs, number, fails)[k].inserted == |bs[k]|
  {
    if k > 0 {
      BatchResultsAt(bs[1..], number + 1, fails, k - 1);
    }
  }

  /** The reported total is the number of rows actually stored. */
  lemma {:induction false} TotalIsStored(bs: seq<seq<Idea>>, number: nat, fails: nat -> bool)
    ensures TotalInserted(BatchResults(bs, number, fails)) == |StoredRows(bs, number, fails)|
  {
    if bs != [] {
      TotalIsStored(bs[1..], number + 1, fails);
    }
  }

  lemma {:induction false} StoredAtMostAll(bs: seq<seq<Idea>>, number: nat, fails: nat -> bool)
    ensures |StoredRows(bs, number, fails)| <= |Flatten(bs)|
  {
    if bs != [] {
      StoredAtMostAll(bs[1..], number + 1, fails);
    }
  }

  lemma {:induction false} StoredAllWhenNoFailure(bs: seq<seq<Idea>>, number: nat, fails: nat -> bool)
    requires forall n :: number <= n < number + |bs| ==> !fails(n)
    ensures StoredRows(bs, number, fails) == Flatten(bs)
  {
    if bs != [] {
      StoredAllWhenNoFailure(bs[1..], number + 1, fails);
    }
  }

  /** `inserted` never exceeds `total`, and equals it when no batch fails. */
  lemma InsertedAtMostTotal(rows: seq<Idea>, fails: nat -> bool)
    ensures TotalInserted(BatchResults(Batches(rows), 1, fails)) <= |rows|
    ensures (forall n :: 1 <= n <= |Batches(rows)| ==> !fails(n)) ==>
      TotalInserted(BatchResults(Batches(rows), 1, fails)) == |rows|
  {
    TotalIsStored(Batches(rows), 1, fails);
    StoredAtMostAll(Batches(rows), 1, fails);
    BatchesCover(rows);
    if forall n :: 1 <= n <= |Batches(rows)| ==> !fails(n) {
      StoredAllWhenNoFailure(Batches(rows), 1, fails);
    }
  }

  lemma {:induction false} BatchResultsSnoc(bs: seq<seq<Idea>>, b: seq<Idea>, number: nat, fails: nat -> bool)
    ensures BatchResults(bs + [b], number, fails) == BatchResults(bs, number, fails) + [Outcome(b, number + |bs|, fails)]
  {
    if bs == [] {
      assert bs + [b] == [b];
    } else {
      assert (bs + [b])[1..] == bs[1..] + [b];
      BatchResultsSnoc(bs[1..], b, number + 1, fails);
    }
  }

  lemma {:induction false} StoredRowsSnoc(bs: seq<seq<Idea>>, b: seq<Idea>, number: nat, fails: nat -> bool)
    ensures StoredRows(bs + [b], number, fails)
      == StoredRows(bs, number, fails) + (if fails(number + |bs|) then [] else b)
  {
    if bs == [] {
      assert bs + [b] == [b];
    } else {
      assert (bs + [b])[1..] == bs[1..] + [b];
      var head: seq<Idea> := if fails(number) then [] else bs[0];
      var last: seq<Idea> := if fails(number + |bs|) then [] else b;
      assert head + (StoredRows(bs[1..], number + 1, fails) + last) == (head + StoredRows(bs[1..], number + 1, fails)) + last;
      StoredRowsSnoc(bs[1..], b, number + 1, fails);
    }
  }

  /** The results and stored rows after the loop has handled the first `|results|` batches of `rows`. */
  ghost predicate Progress(rows: seq<Idea>, fails: nat -> bool, results: seq<BatchResult>, stored: seq<Idea>) {
    var bs := Batches(rows);
    && |results| <= |bs|
    && results == BatchResults(bs[..|results|], 1, fails)
    && stored == StoredRows(bs[..|results|], 1, fails)
  }

  /** One more batch, the slice of rows at offset `i`, handled. */
  lemma ProgressStep(rows: seq<Idea>, fails: nat -> bool, results: seq<BatchResult>, stored: seq<Idea>, i: nat)
    requires Progress(rows, fails, results, stored)
    requires i == Min(BatchSize * |results|, |rows|) && i < |rows|
    ensures var batch := rows[i..Min(i + BatchSize, |rows|)];
      var number := |results| + 1;
      Progress(rows, fails, results + [Outcome(batch, number, fails)],
               stored + (if fails(number) then [] else batch))
    ensures Min(i + BatchSize, |rows|) == Min(BatchSize * (|results| + 1), |rows|)
  {
    var bs := Batches(rows);
    var k := |results|;
    BatchCount(rows);
    assert k < |bs|;
    BatchAt(rows, k);
    var batch := rows[i..Min(i + BatchSize, |rows|)];
    assert bs[..k + 1] == bs[..k] + [batch];
    BatchResultsSnoc(bs[..k], batch, 1, fails);
    StoredRowsSnoc(bs[..k], batch, 1, fails);
  }

  /** Once the offset reaches the end, every batch is handled. */
  lemma ProgressDone(rows: seq<Idea>, fails: nat -> bool, results: seq<BatchResult>, stored: seq<Idea>)
    requires Progress(rows, fails, results, stored)
    requires Min(BatchSize * |results|, |rows|) == |rows|
    ensures results == BatchResults(Batches(rows), 1, fails)
    ensures stored == StoredRows(Batches(rows), 1, fails)
  {
    BatchCount(rows);
    assert Batches(rows)[..|results|] == Batches(rows);
  }

  /** The batching loop: insert each batch, record its result, go on whatever happened. */
  method InsertInBatches(store: Store, rows: seq<Idea>, fails: nat -> bool) returns (results: seq<BatchResult>)
    requires store.Valid()
    modifies store
    ensures store.Valid() && store.questions == old(store.questions)
    ensures results == BatchResults(Batches(rows), 1, fails)
    ensures var stored := StoredRows(Batches(rows), 1, fails);
      && store.ideas == WithRows(old(store.ideas), old(store.nextIdeaId), stored)
      && store.nextIdeaId == old(store.nextIdeaId) + |stored|
  {
    results := [];
    ghost var stored: seq<Idea> := [];
    var i := 0;
    while i < |rows|
      invariant i == Min(BatchSize * |results|, |rows|)
      invariant Progress(rows, fails, results, stored)
      invariant store.Valid() && store.questions == old(store.questions)
      invariant store.ideas == WithRows(old(store.ideas), old(store.nextIdeaId), stored)
      invariant store.nextIdeaId == old(store.nextIdeaId) + |stored|
      decreases |rows| - i
    {
      var end := Min(i + BatchSize, |rows|);
      var batch := rows[i..end];
      var number := i / BatchSize + 1;
      assert number == |results| + 1;
      ProgressStep(rows, fails, results, stored, i);
      WithRowsAppend(old(store.ideas), old(store.nextIdeaId), stored, batch);
      var inserted := store.InsertIdeas(batch, fails(number));
      if inserted.None? {
        results := results + [BatchFailed(number)];
      } else {
        stored := stored + batch;
        results := results + [BatchInserted(number, inserted.value)];
      }
      i := end;
    }
    ProgressDone(rows, fails, results, stored);
  }

  /**
   * `POST`. `authenticated` is the session check and `fails` says which
   * batch inserts fail (by batch number).
   */
  method BulkImportIdeas(store: Store, authenticated: bool, body: Body, fails: nat -> bool)
    returns (resp: Response)
    requires store.Valid()
    modifies store
    ensures store.Valid() && store.questions == old(store.questions)
    ensures !authenticated ==> resp == Unauthorized
    ensures authenticated && body.Unparseable? ==> resp == ServerError
    ensures authenticated && body.NotAnArray? ==> resp == BadRequest
    ensures authenticated && body.IdeaArray? && ValidIdeas(body.items) == [] ==> resp == BadRequest
    ensures !resp.Imported? ==> store.ideas == old(store.ideas) && store.nextIdeaId == old(store.nextIdeaId)
    ensures resp.Imported? ==>
      && authenticated && body.IdeaArray?
      && var rows := ValidIdeas(body.items);
      && rows != []
      && resp.total == |rows|
      && resp.results == BatchResults(Batches(rows), 1, fails)
      && resp.inserted == TotalInserted(resp.results) <= resp.total
      && store.ideas == WithRows(old(store.ideas), old(store.nextIdeaId), StoredRows(Batches(rows), 1, fails))
  {
    if !authenticated {
      return Unauthorized;
    }
    if body.Unparseable? {
      return ServerError;
    }
    if body.NotAnArray? {
      return BadRequest;
    }
    var rows := ValidIdeas(body.items);
    if |rows| == 0 {
      return BadRequest;
    }
    var results := InsertInBatches(store, rows, fails);
    InsertedAtMostTotal(rows, fails);
    resp := Imported(|rows|, TotalInserted(results), results);
  }
}
