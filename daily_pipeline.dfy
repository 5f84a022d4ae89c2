/**
 * The daily idea-to-article run, `generateDailyQuestions`
 * (lib/generator/generateDailyQuestions.ts:98-637): quota, pool, duplicate
 * filter, random selection, the bulk "processing" mark, and the per-idea
 * state machine that ends every selected idea as `generated`, `duplicate`
 * or `error`.
 *
 * The clock, the count of questions published today, the store's answer to
 * the pool query, the article generator and the failures of individual
 * store calls are inputs; the shuffle is any permutation.
 */
module DailyPipeline {
  import opened Basics
  import opened Text
  import opened LikePattern
  import opened GeneratorHelpers
  import opened ContentStore

  /** Run options; the source's defaults are `DefaultOptions`. */
  datatype Options = Options(batchSize: int, poolSize: nat, dryRun: bool)

  const DefaultOptions: Options := Options(5, 50, false)

  /** What the generator is asked for one idea. */
  datatype GenRequest = GenRequest(question: string, category: string, tags: seq<string>, notes: Option<string>)

  /** The generator's article; an empty string stands for a missing text field. */
  datatype Article = Article(
    question: string,
    slug: string,
    shortAnswer: string,
    verdict: string,
    summary: string,
    body: string,
    evidence: Option<seq<Evidence>>,
    sources: Option<seq<string>>,
    tags: seq<string>)

  datatype GenOutcome = GenFailed(message: string) | GenOk(content: Article)

  /** Which of the store calls made for one idea fail. */
  datatype StoreFaults = StoreFaults(
    duplicateQueryFails: bool,
    slugQueryFails: bool,
    relatedQueryFails: bool,
    insertFails: bool,
    linkUpdateFails: bool,
    statusWriteFails: bool)

  /**
   * The outside world of one run, per idea: what the generator answers and
   * which store calls fail. Each idea is handled at most once per run, so a
   * function of the idea covers every behaviour of the real services.
   */
  datatype Environment = Environment(
    generate: (IdeaId, GenRequest) -> GenOutcome,
    faults: IdeaId -> StoreFaults)

  datatype Failure =
    | InvalidCategory
    | GeneratorError(message: string)
    | DuplicateCheckError
    | SlugCheckError
    | InsertError

  datatype Skip = DuplicateText | DuplicateSlug

  /** How one idea ended: published with a slug, failed, or skipped as a duplicate. */
  datatype Outcome = Succeeded(slug: string) | Failed(failure: Failure) | Skipped(skip: Skip)

  datatype IdeaResult = IdeaResult(ideaId: IdeaId, outcome: Outcome)

  datatype Summary = QuotaReached | NoNewIdeas | AllDuplicates | DryRun | Processed

  datatype RunResult = RunResult(
    publishedToday: nat,
    remaining: nat,
    attempted: nat,
    successful: nat,
    failed: nat,
    duplicates: nat,
    errors: nat,
    createdSlugs: seq<string>,
    totalPublishedToday: nat,
    summary: Summary)

  /** The run-level failures, each of which ends the run with an exception. */
  datatype RunError = CountQueryFailed | PoolQueryFailed | ExistingQueryFailed | MarkProcessingFailed

  /** Which of the run's read queries fail: today's count, the pool, the stored questions. */
  datatype ReadFaults = ReadFaults(countFails: bool, poolFails: bool, existingFails: bool)

  // ---------------------------------------------------------------------
  // Quota and selection

  /** `Math.max(0, batchSize - publishedToday)` */
  function Remaining(batchSize: int, publishedToday: nat): (r: nat)
    ensures r == 0 <==> batchSize <= publishedToday
    ensures r > 0 ==> r == batchSize - publishedToday
  {
    Max(0, batchSize - publishedToday)
  }

  /** The duplicate-check form of a question text: `toLowerCase().trim()`. */
  function NormalizeQuestion(s: string): string {
    Trim(Lower(s))
  }

  /** The normalised texts of all stored questions, whatever their status. */
  function ExistingTexts(questions: seq<Question>): set<string> {
    set i | 0 <= i < |questions| :: NormalizeQuestion(questions[i].question)
  }

  /** The idea's proposed text is not among the stored questions' texts. */
  predicate IsUnseen(ideas: map<IdeaId, Idea>, existing: set<string>, x: IdeaId)
    requires x in ideas
  {
    NormalizeQuestion(ideas[x].proposedQuestion) !in existing
  }

  /** The pool without the ideas whose proposed text is already a stored question, in pool order. */
  function UniqueIdeas(pool: seq<IdeaId>, ideas: map<IdeaId, Idea>, existing: set<string>): (r: seq<IdeaId>)
    requires forall k :: 0 <= k < |pool| ==> pool[k] in ideas
    ensures |r| <= |pool|
    ensures forall x :: x in r <==> x in pool && IsUnseen(ideas, existing, x)
  {
    if pool == [] then []
    else
      var rest := UniqueIdeas(pool[1..], ideas, existing);
      if IsUnseen(ideas, existing, pool[0]) then [pool[0]] + rest else rest
  }

  /** Filtering a pool without repeats leaves no repeats. */
  lemma {:induction false} UniqueIdeasDistinct(pool: seq<IdeaId>, ideas: map<IdeaId, Idea>, existing: set<string>)
    requires forall k :: 0 <= k < |pool| ==> pool[k] in ideas
    requires Distinct(pool)
    ensures Distinct(UniqueIdeas(pool, ideas, existing))
  {
    if pool != [] {
      var t := pool[1..];
      assert pool == [pool[0]] + t;
      DistinctCons(pool[0], t);
      UniqueIdeasDistinct(t, ideas, existing);
      var rest := UniqueIdeas(t, ideas, existing);
      if IsUnseen(ideas, existing, pool[0]) {
        DistinctCons(pool[0], rest);
      }
    }
  }

  /** `a` lists the elements of `b` in some order. */
  predicate IsPermutation(a: seq<IdeaId>, b: seq<IdeaId>) {
    multiset(a) == multiset(b)
  }

  lemma {:induction false} DistinctCounts(s: seq<IdeaId>)
    ensures Distinct(s) <==> forall x :: multiset(s)[x] <= 1
  {
    if s != [] {
      var t := s[1..];
      DistinctCounts(t);
      assert s == [s[0]] + t;
      DistinctCons(s[0], t);
      assert multiset(s) == multiset{s[0]} + multiset(t);
      if Distinct(s) {
        forall x ensures multiset(s)[x] <= 1 {
          assert multiset(s)[x] == (if x == s[0] then 1 else 0) + multiset(t)[x];
        }
      } else if s[0] in t {
        assert multiset(s)[s[0]] == 1 + multiset(t)[s[0]];
      } else {
        var x :| multiset(t)[x] > 1;
        assert multiset(s)[x] >= multiset(t)[x];
      }
    }
  }

  /** A reordering of a list without repeats has no repeats. */
  lemma PermutationKeepsDistinct(a: seq<IdeaId>, b: seq<IdeaId>)
    requires IsPermutation(a, b) && Distinct(b)
    ensures Distinct(a)
  {
    DistinctCounts(b);
    DistinctCounts(a);
  }

  // ---------------------------------------------------------------------
  // One idea

  /** The request sent to the generator: proposed text, category, parsed tags, notes unless empty. */
  function RequestFor(idea: Idea, category: string): GenRequest {
    GenRequest(idea.proposedQuestion, category, ParseTags(idea.tags),
               if idea.notes.Some? && idea.notes.value != [] then idea.notes else None)
  }

  /**
   * The in-run duplicate lookup as issued: stored rows whose text
   * ILIKE-matches the pattern the store receives for the escaped normalised
   * text (every `*` read as `%`), kept if their own normalised text equals it.
   */
  predicate HasDuplicateText(questions: seq<Question>, text: string) {
    var norm := NormalizeQuestion(text);
    exists i :: 0 <= i < |questions| &&
      ILike(questions[i].question, LookupPattern(norm)) && NormalizeQuestion(questions[i].question) == norm
  }

  lemma TrimKeepsLowered(s: string)
    requires IsLowered(s)
    ensures IsLowered(Trim(s))
  {
    var d := TrimSlice(s);
    var r := Trim(s);
    forall i | 0 <= i < |r| ensures !IsUpperAscii(r[i]) {
      assert r[i] == s[d + i];
    }
  }

  /**
   * The in-run lookup finds a stored question exactly when that question's
   * lower-cased text (untrimmed) matches the generated text lower-cased and
   * trimmed, read as a glob, and its trimmed form equals that text. A stored
   * question whose lower-cased text is the normalised text is always found,
   * and when the normalised text holds no `*` no other question is.
   */
  lemma HasDuplicateTextMeaning(questions: seq<Question>, text: string)
    ensures HasDuplicateText(questions, text) <==>
      exists i :: 0 <= i < |questions| && GlobMatch(Lower(questions[i].question), NormalizeQuestion(text))
        && NormalizeQuestion(questions[i].question) == NormalizeQuestion(text)
    ensures (exists i :: 0 <= i < |questions| && Lower(questions[i].question) == NormalizeQuestion(text)) ==>
      HasDuplicateText(questions, text)
    ensures '*' !in NormalizeQuestion(text) ==>
      (HasDuplicateText(questions, text) <==>
        exists i :: 0 <= i < |questions| && Lower(questions[i].question) == NormalizeQuestion(text))
  {
    var norm := NormalizeQuestion(text);
    LowerIsLowered(text);
    TrimKeepsLowered(Lower(text));
    forall i | 0 <= i < |questions|
      ensures ILike(questions[i].question, LookupPattern(norm)) <==> GlobMatch(Lower(questions[i].question), norm)
      ensures Lower(questions[i].question) == norm ==>
        ILike(questions[i].question, LookupPattern(norm)) && NormalizeQuestion(questions[i].question) == norm
      ensures '*' !in norm ==> (ILike(questions[i].question, LookupPattern(norm)) <==> Lower(questions[i].question) == norm)
    {
      LookupSelects(questions[i].question, norm);
      if Lower(questions[i].question) == norm {
        TrimmedFixed(norm);
      }
    }
  }

  /** Leading whitespace does not change a text's duplicate-check form. */
  lemma PaddedNormalizes(pad: string, text: string)
    requires forall i :: 0 <= i < |pad| ==> IsSpace(pad[i])
    ensures Lower(pad + text) == pad + Lower(text)
    ensures NormalizeQuestion(pad + text) == NormalizeQuestion(text)
  {
    LowerConcat(pad, text);
    LowerSpaces(pad);
    TrimStartPadded(pad, Lower(text));
  }

  /**
   * A stored question whose text carries leading whitespace is caught by the
   * pool filter (which trims stored texts) but not by the in-run lookup
   * (whose ILIKE compares the stored text untrimmed), unless the normalised
   * text starts with a `*` that the store reads as a wildcard
   * (`StarredQuestionFound`).
   */
  lemma PaddedQuestionEscapesInRunLookup(q: Question, text: string, pad: string)
    requires pad != [] && forall i :: 0 <= i < |pad| ==> IsSpace(pad[i])
    requires q.question == pad + text
    requires NormalizeQuestion(text) == [] || NormalizeQuestion(text)[0] != '*'
    ensures NormalizeQuestion(q.question) == NormalizeQuestion(text)
    ensures NormalizeQuestion(q.question) in ExistingTexts([q])
    ensures !HasDuplicateText([q], text)
  {
    PaddedNormalizes(pad, text);
    assert [q][0] == q;
    PaddedMissedByLookup(q, text, pad);
  }

  lemma PaddedMissedByLookup(q: Question, text: string, pad: string)
    requires pad != [] && IsSpace(pad[0]) && q.question == pad + text
    requires Lower(q.question) == pad + Lower(text)
    requires NormalizeQuestion(text) == [] || NormalizeQuestion(text)[0] != '*'
    ensures !HasDuplicateText([q], text)
  {
    HasDuplicateTextMeaning([q], text);
    var norm := NormalizeQuestion(text);
    var t := Lower(q.question);
    assert t[0] == pad[0];
    assert !GlobMatch(t, norm);
    assert [q][0] == q;
  }

  /**
   * The exception: a normalised text starting with `*` reaches the store as
   * a pattern starting with `%`, so the lookup also selects a stored copy
   * behind leading whitespace (for instance `" *x"` for `"*x"`), and the
   * idea is a duplicate although no stored lower-cased text equals the
   * normalised text.
   */
  lemma StarredQuestionFound(q: Question, text: string, pad: string)
    requires pad != [] && forall i :: 0 <= i < |pad| ==> IsSpace(pad[i])
    requires q.question == pad + text
    requires IsLowered(text) && IsTrimmed(text) && text != [] && text[0] == '*'
    ensures NormalizeQuestion(text) == text
    ensures HasDuplicateText([q], text)
    ensures Lower(q.question) != NormalizeQuestion(text)
  {
    PaddedNormalizes(pad, text);
    LoweredFixed(text);
    TrimmedFixed(text);
    GlobMatchesItself(text);
    GlobStarAbsorbs(pad, text, text);
    LookupSelects(q.question, text);
    assert [q][0] == q;
  }

  /** Number of stored questions with the slug; `maybeSingle` fails when it exceeds one. */
  function SlugCount(questions: seq<Question>, slug: string): (n: nat)
    ensures n == 0 <==> forall i :: 0 <= i < |questions| ==> questions[i].slug != slug
  {
    if questions == [] then 0
    else (if questions[0].slug == slug then 1 else 0) + SlugCount(questions[1..], slug)
  }

  /**
   * The outcome of handling one idea, given the stored questions at the
   * time (lib/generator/generateDailyQuestions.ts:301-530): an invalid
   * category and a generator failure are errors; a text or slug collision
   * skips the idea; a failing lookup or insert is an error.
   */
  function Decide(questions: seq<Question>, id: IdeaId, idea: Idea, known: set<string>, env: Environment): Outcome {
    var category := ResolveCategory(idea.category, known);
    if category.None? then Failed(InvalidCategory)
    else
      match env.generate(id, RequestFor(idea, category.value))
      case GenFailed(message) => Failed(GeneratorError(message))
      case GenOk(g) =>
        var faults := env.faults(id);
        if faults.duplicateQueryFails then Failed(DuplicateCheckError)
        else if HasDuplicateText(questions, g.question) then Skipped(DuplicateText)
        else if faults.slugQueryFails || SlugCount(questions, g.slug) > 1 then Failed(SlugCheckError)
        else if SlugCount(questions, g.slug) == 1 then Skipped(DuplicateSlug)
        else if faults.insertFails then Failed(InsertError)
        else Succeeded(g.slug)
  }

  /** The generated article for an idea whose category resolved and whose generator call succeeded. */
  function GeneratedFor(id: IdeaId, idea: Idea, known: set<string>, env: Environment): Article
    requires ResolveCategory(idea.category, known).Some?
    requires env.generate(id, RequestFor(idea, ResolveCategory(idea.category, known).value)).GenOk?
  {
    env.generate(id, RequestFor(idea, ResolveCategory(idea.category, known).value)).content
  }

  /** Published questions of `category` other than `exclude`, newest first (store order is creation order). */
  function NewestRelated(questions: seq<Question>, category: string, exclude: string): seq<RelatedLink> {
    if questions == [] then []
    else
      var q := questions[|questions| - 1];
      (if q.category == category && q.slug != exclude && q.status == Published
       then [RelatedLink(q.question, q.slug)] else [])
      + NewestRelated(questions[..|questions| - 1], category, exclude)
  }

  /** The related-questions query: at most 20 candidates, none when the query fails. */
  function RelatedCandidates(questions: seq<Question>, category: string, exclude: string, fails: bool): seq<RelatedLink> {
    if fails then []
    else
      var all := NewestRelated(questions, category, exclude);
      all[..Min(20, |all|)]
  }

  /** The row inserted for a successful idea (the store then assigns its identifier). */
  function NewQuestion(g: Article, category: string, ideaTags: seq<string>, related: string, now: Timestamp): Question {
    Question(
      id := 0,
      slug := g.slug,
      question := g.question,
      shortAnswer := OrNull(g.shortAnswer),
      verdict := OrNull(g.verdict),
      category := category,
      summary := OrNull(g.summary),
      body := OrNull(CombineBody(g.body, related)),
      evidence := g.evidence,
      tags := QuestionTags(g.tags, ideaTags),
      sources := g.sources.GetOr([]),
      status := Published,
      publishedAt := Some(now),
      createdAt := now)
  }

  /** Without a duplicate, no stored question's lower-cased text is the normalised text. */
  lemma NoDuplicateText(questions: seq<Question>, text: string)
    requires !HasDuplicateText(questions, text)
    ensures forall i :: 0 <= i < |questions| ==> Lower(questions[i].question) != NormalizeQuestion(text)
  {
    HasDuplicateTextMeaning(questions, text);
  }

  /**
   * What a success implies: the category resolved, the generator answered,
   * no lookup or insert failed, and the generated slug is not stored.
   */
  lemma DecideSucceeded(questions: seq<Question>, id: IdeaId, idea: Idea, known: set<string>, env: Environment)
    requires Decide(questions, id, idea, known, env).Succeeded?
    ensures ResolveCategory(idea.category, known).Some?
    ensures env.generate(id, RequestFor(idea, ResolveCategory(idea.category, known).value)).GenOk?
    ensures !env.faults(id).duplicateQueryFails && !env.faults(id).slugQueryFails && !env.faults(id).insertFails
    ensures Decide(questions, id, idea, known, env).slug == GeneratedFor(id, idea, known, env).slug
    ensures !HasDuplicateText(questions, GeneratedFor(id, idea, known, env).question)
    ensures SlugCount(questions, GeneratedFor(id, idea, known, env).slug) == 0
  {
    var category := ResolveCategory(idea.category, known);
    assert category.Some?;
    var gen := env.generate(id, RequestFor(idea, category.value));
    assert gen.GenOk?;
    var g := gen.content;
    var f := env.faults(id);
    assert Decide(questions, id, idea, known, env) ==
      if f.duplicateQueryFails then Failed(DuplicateCheckError)
      else if HasDuplicateText(questions, g.question) then Skipped(DuplicateText)
      else if f.slugQueryFails || SlugCount(questions, g.slug) > 1 then Failed(SlugCheckError)
      else if SlugCount(questions, g.slug) == 1 then Skipped(DuplicateSlug)
      else if f.insertFails then Failed(InsertError)
      else Succeeded(g.slug);
  }

  /**
   * A success also implies that no stored question's lower-cased text is
   * the generated text lower-cased and trimmed.
   */
  lemma DecideSucceededText(questions: seq<Question>, id: IdeaId, idea: Idea, known: set<string>, env: Environment)
    requires Decide(questions, id, idea, known, env).Succeeded?
    ensures ResolveCategory(idea.category, known).Some?
    ensures env.generate(id, RequestFor(idea, ResolveCategory(idea.category, known).value)).GenOk?
    ensures forall i :: 0 <= i < |questions| ==>
      Lower(questions[i].question) != NormalizeQuestion(GeneratedFor(id, idea, known, env).question)
  {
    DecideSucceeded(questions, id, idea, known, env);
    NoDuplicateText(questions, GeneratedFor(id, idea, known, env).question);
  }

  /** A success happens exactly when every check of the idea passes. */
  lemma DecideSucceedsExactly(questions: seq<Question>, id: IdeaId, idea: Idea, known: set<string>, env: Environment)
    ensures Decide(questions, id, idea, known, env).Succeeded? <==>
      && ResolveCategory(idea.category, known).Some?
      && env.generate(id, RequestFor(idea, ResolveCategory(idea.category, known).value)).GenOk?
      && !env.faults(id).duplicateQueryFails && !env.faults(id).slugQueryFails && !env.faults(id).insertFails
      && !HasDuplicateText(questions, GeneratedFor(id, idea, known, env).question)
      && SlugCount(questions, GeneratedFor(id, idea, known, env).slug) == 0
  {
  }

  /**
   * An idea is skipped for its text only when its lookup ran and found a
   * stored question whose lower-cased text matches the generated text
   * lower-cased and trimmed, read as a glob, and whose trimmed form equals
   * it; when that text holds no `*`, the stored lower-cased text is the
   * normalised text itself.
   */
  lemma DecideSkippedText(questions: seq<Question>, id: IdeaId, idea: Idea, known: set<string>, env: Environment)
    requires Decide(questions, id, idea, known, env) == Skipped(DuplicateText)
    ensures ResolveCategory(idea.category, known).Some?
    ensures env.generate(id, RequestFor(idea, ResolveCategory(idea.category, known).value)).GenOk?
    ensures !env.faults(id).duplicateQueryFails
    ensures HasDuplicateText(questions, GeneratedFor(id, idea, known, env).question)
    ensures exists i :: (0 <= i < |questions| &&
      GlobMatch(Lower(questions[i].question), NormalizeQuestion(GeneratedFor(id, idea, known, env).question)) &&
      NormalizeQuestion(questions[i].question) == NormalizeQuestion(GeneratedFor(id, idea, known, env).question))
    ensures '*' !in NormalizeQuestion(GeneratedFor(id, idea, known, env).question) ==>
      exists i :: (0 <= i < |questions| &&
        Lower(questions[i].question) == NormalizeQuestion(GeneratedFor(id, idea, known, env).question))
  {
    var category := ResolveCategory(idea.category, known);
    assert category.Some?;
    var gen := env.generate(id, RequestFor(idea, category.value));
    assert gen.GenOk?;
    var g := gen.content;
    assert g == GeneratedFor(id, idea, known, env);
    var f := env.faults(id);
    assert Decide(questions, id, idea, known, env) ==
      if f.duplicateQueryFails then Failed(DuplicateCheckError)
      else if HasDuplicateText(questions, g.question) then Skipped(DuplicateText)
      else if f.slugQueryFails || SlugCount(questions, g.slug) > 1 then Failed(SlugCheckError)
      else if SlugCount(questions, g.slug) == 1 then Skipped(DuplicateSlug)
      else if f.insertFails then Failed(InsertError)
      else Succeeded(g.slug);
    HasDuplicateTextMeaning(questions, g.question);
  }

  /** The row the run inserts for an idea whose outcome is a success. */
  function PlannedQuestion(questions: seq<Question>, id: IdeaId, idea: Idea, known: set<string>,
                           env: Environment, now: Timestamp): (q: Question)
    requires Decide(questions, id, idea, known, env).Succeeded?
    ensures q.id == |questions| && q.status == Published && q.publishedAt == Some(now)
    ensures q.slug == Decide(questions, id, idea, known, env).slug
    ensures forall k :: 0 <= k < |questions| ==> questions[k].slug != q.slug
    ensures Some(q.category) == ResolveCategory(idea.category, known)
  {
    DecideSucceeded(questions, id, idea, known, env);
    var category := ResolveCategory(idea.category, known).value;
    var g := GeneratedFor(id, idea, known, env);
    var related := RelatedQuestionsBlock(RelatedCandidates(questions, category, g.slug, env.faults(id).relatedQueryFails));
    NewQuestion(g, category, ParseTags(idea.tags), related, now).(id := |questions|)
  }

  /**
   * What the inserted row holds: the generated article's fields (empty
   * strings stored as null), the generator's tags or else the idea's own,
   * and the body followed by the related-questions block of the same
   * category, newest first.
   */
  lemma PlannedQuestionContents(questions: seq<Question>, id: IdeaId, idea: Idea, known: set<string>,
                                env: Environment, now: Timestamp)
    requires Decide(questions, id, idea, known, env).Succeeded?
    ensures ResolveCategory(idea.category, known).Some?
    ensures env.generate(id, RequestFor(idea, ResolveCategory(idea.category, known).value)).GenOk?
    ensures var q := PlannedQuestion(questions, id, idea, known, env, now);
      var g := GeneratedFor(id, idea, known, env);
      && q.question == g.question && q.evidence == g.evidence && q.createdAt == now
      && q.shortAnswer == OrNull(g.shortAnswer) && q.verdict == OrNull(g.verdict) && q.summary == OrNull(g.summary)
      && q.sources == g.sources.GetOr([])
      && q.tags == (if g.tags != [] then g.tags else ParseTags(idea.tags))
      && q.body == OrNull(CombineBody(g.body,
           RelatedQuestionsBlock(RelatedCandidates(questions, q.category, g.slug, env.faults(id).relatedQueryFails))))
  {
    DecideSucceeded(questions, id, idea, known, env);
  }

  /** The status an outcome asks for. */
  function TerminalStatus(o: Outcome): (s: IdeaStatus)
    ensures IsTerminal(s)
  {
    match o
    case Succeeded(_) => Generated
    case Failed(_) => Error
    case Skipped(_) => Duplicate
  }

  /**
   * Whether the status write for an outcome reaches the store: a success
   * writes twice (with the link, then without it if that failed); the other
   * outcomes write once. The source ignores the result of these writes.
   */
  predicate StatusWritten(o: Outcome, f: StoreFaults) {
    if o.Succeeded? then !f.linkUpdateFails || !f.statusWriteFails else !f.statusWriteFails
  }

  /** The idea after its outcome has been written back. */
  function Settled(idea: Idea, o: Outcome, f: StoreFaults, link: QuestionId, now: Timestamp): Idea {
    var written := StatusWritten(o, f);
    idea.(status := if written then TerminalStatus(o) else idea.status,
          processedAt := if written then Some(now) else idea.processedAt,
          generatedQuestionId := if o.Succeeded? && !f.linkUpdateFails then Some(link) else idea.generatedQuestionId)
  }

  /**
   * What writing an outcome back does to an idea: when the write gets
   * through, the outcome's status and the time; on a success whose link
   * write got through, the link; nothing else.
   */
  lemma SettledFields(idea: Idea, o: Outcome, f: StoreFaults, link: QuestionId, now: Timestamp)
    ensures var r := Settled(idea, o, f, link, now);
      && r.status == (if StatusWritten(o, f) then TerminalStatus(o) else idea.status)
      && r.processedAt == (if StatusWritten(o, f) then Some(now) else idea.processedAt)
      && r.generatedQuestionId == (if o.Succeeded? && !f.linkUpdateFails then Some(link) else idea.generatedQuestionId)
      && r.proposedQuestion == idea.proposedQuestion && r.category == idea.category && r.tags == idea.tags
      && r.notes == idea.notes && r.priority == idea.priority && r.processingStartedAt == idea.processingStartedAt
  {
  }

  /**
   * Writing the idea's outcome back (lib/generator/generateDailyQuestions.ts:553-577
   * and the status writes of the other branches): a success is linked to
   * its question (and, should that write fail, marked `generated` without
   * the link); any other outcome is marked `error` or `duplicate`.
   */
  method WriteBack(store: Store, id: IdeaId, outcome: Outcome, link: QuestionId, faults: StoreFaults, now: Timestamp)
    requires store.Valid() && id in store.ideas
    modifies store
    ensures store.Valid()
    ensures store.questions == old(store.questions) && store.nextIdeaId == old(store.nextIdeaId)
    ensures store.ideas == old(store.ideas)[id := Settled(old(store.ideas[id]), outcome, faults, link, now)]
  {
    if outcome.Succeeded? {
      var linked := store.SetIdeaStatus(id, Generated, now, Some(link), faults.linkUpdateFails);
      if !linked {
        var _ := store.SetIdeaStatus(id, Generated, now, None, faults.statusWriteFails);
      }
    } else {
      var _ := store.SetIdeaStatus(id, TerminalStatus(outcome), now, None, faults.statusWriteFails);
    }
  }

  /**
   * Handling one idea against the store, the body of the loop at
   * lib/generator/generateDailyQuestions.ts:298-609: resolve the category,
   * parse the tags, call the generator, check text and slug, build the
   * body, insert the question, write the idea's status back.
   */
  method ProcessIdea(store: Store, id: IdeaId, known: set<string>, env: Environment, now: Timestamp)
    returns (r: IdeaResult)
    requires store.Valid() && id in store.ideas
    modifies store
    ensures store.Valid()
    ensures r.ideaId == id
    ensures r.outcome == Decide(old(store.questions), id, old(store.ideas[id]), known, env)
    ensures store.nextIdeaId == old(store.nextIdeaId)
    ensures store.questions == old(store.questions) +
      if r.outcome.Succeeded?
      then [PlannedQuestion(old(store.questions), id, old(store.ideas[id]), known, env, now)]
      else []
    ensures store.ideas == old(store.ideas)[id :=
      Settled(old(store.ideas[id]), r.outcome, env.faults(id), |old(store.questions)|, now)]
  {
    var idea := store.ideas[id];
    var faults := env.faults(id);
    var link := |store.questions|;
    var category := ResolveCategory(idea.category, known);
    var outcome: Outcome;
    if category.None? {
      outcome := Failed(InvalidCategory);
    } else {
      var ideaTags := ParseTags(idea.tags);
      var request := RequestFor(idea, category.value);
      var generated := env.generate(id, request);
      if generated.GenFailed? {
        outcome := Failed(GeneratorError(generated.message));
      } else {
        var g := generated.content;
        if faults.duplicateQueryFails {
          outcome := Failed(DuplicateCheckError);
        } else if HasDuplicateText(store.questions, g.question) {
          outcome := Skipped(DuplicateText);
        } else {
          var slugRows := SlugCount(store.questions, g.slug);
          if faults.slugQueryFails || slugRows > 1 {
            outcome := Failed(SlugCheckError);
          } else if slugRows == 1 {
            outcome := Skipped(DuplicateSlug);
          } else {
            var related := RelatedQuestionsBlock(
              RelatedCandidates(store.questions, category.value, g.slug, faults.relatedQueryFails));
            var row := NewQuestion(g, category.value, ideaTags, related, now);
            var inserted := store.InsertQuestion(row, faults.insertFails);
            if inserted.None? {
              outcome := Failed(InsertError);
            } else {
              outcome := Succeeded(inserted.value.slug);
            }
          }
        }
      }
    }
    assert outcome == Decide(old(store.questions), id, idea, known, env);
    WriteBack(store, id, outcome, link, faults, now);
    r := IdeaResult(id, outcome);
  }

  // ---------------------------------------------------------------------
  // Counting the results

  function CountSucceeded(rs: seq<IdeaResult>): nat {
    if rs == [] then 0 else (if rs[0].outcome.Succeeded? then 1 else 0) + CountSucceeded(rs[1..])
  }

  function CountFailed(rs: seq<IdeaResult>): nat {
    if rs == [] then 0 else (if rs[0].outcome.Failed? then 1 else 0) + CountFailed(rs[1..])
  }

  function CountSkipped(rs: seq<IdeaResult>): nat {
    if rs == [] then 0 else (if rs[0].outcome.Skipped? then 1 else 0) + CountSkipped(rs[1..])
  }

  /** Slugs of the successful results, in order, leaving out empty ones (`r.success && r.slug`). */
  function CreatedSlugs(rs: seq<IdeaResult>): seq<string> {
    if rs == [] then []
    else (if rs[0].outcome.Succeeded? && rs[0].outcome.slug != [] then [rs[0].outcome.slug] else [])
         + CreatedSlugs(rs[1..])
  }

  /** Slugs of the successful results, in order. */
  function SucceededSlugs(rs: seq<IdeaResult>): (slugs: seq<string>)
    ensures |slugs| == CountSucceeded(rs)
  {
    if rs == [] then []
    else (if rs[0].outcome.Succeeded? then [rs[0].outcome.slug] else []) + SucceededSlugs(rs[1..])
  }

  function Slugs(qs: seq<Question>): (slugs: seq<string>)
    ensures |slugs| == |qs|
    ensures forall i :: 0 <= i < |qs| ==> slugs[i] == qs[i].slug
  {
    if qs == [] then [] else [qs[0].slug] + Slugs(qs[1..])
  }

  /** The ideas the results are about, in order. */
  function IdsOf(rs: seq<IdeaResult>): (ids: seq<IdeaId>)
    ensures |ids| == |rs|
    ensures forall k :: 0 <= k < |rs| ==> ids[k] == rs[k].ideaId
  {
    seq(|rs|, k requires 0 <= k < |rs| => rs[k].ideaId)
  }

  /** Every result is exactly one of success, failure, duplicate. */
  lemma {:induction false} CountsAddUp(rs: seq<IdeaResult>)
    ensures CountSucceeded(rs) + CountFailed(rs) + CountSkipped(rs) == |rs|
  {
    if rs != [] {
      CountsAddUp(rs[1..]);
    }
  }

  /** The created slugs are the successful results' slugs, except the empty ones. */
  lemma {:induction false} CreatedSlugsAreSuccesses(rs: seq<IdeaResult>)
    ensures |CreatedSlugs(rs)| <= CountSucceeded(rs)
    ensures (forall k :: 0 <= k < |rs| && rs[k].outcome.Succeeded? ==> rs[k].outcome.slug != [])
      ==> CreatedSlugs(rs) == SucceededSlugs(rs)
  {
    if rs != [] {
      CreatedSlugsAreSuccesses(rs[1..]);
    }
  }

  lemma {:induction false} CountsAppend(rs: seq<IdeaResult>, r: IdeaResult)
    ensures CountSucceeded(rs + [r]) == CountSucceeded(rs) + (if r.outcome.Succeeded? then 1 else 0)
    ensures SucceededSlugs(rs + [r]) == SucceededSlugs(rs) + (if r.outcome.Succeeded? then [r.outcome.slug] else [])
  {
    if rs != [] {
      assert (rs + [r])[1..] == rs[1..] + [r];
      CountsAppend(rs[1..], r);
    } else {
      assert [r][1..] == [];
    }
  }

  /** The summary counters of a finished run. */
  function Tally(publishedToday: nat, remaining: nat, rs: seq<IdeaResult>): (r: RunResult)
    ensures r.attempted == |rs|
    ensures r.successful + r.failed + r.duplicates == r.attempted
    ensures r.errors == r.failed
    ensures r.totalPublishedToday == publishedToday + r.successful
    ensures |r.createdSlugs| <= r.successful
  {
    CountsAddUp(rs);
    CreatedSlugsAreSuccesses(rs);
    RunResult(publishedToday, remaining, |rs|, CountSucceeded(rs), CountFailed(rs), CountSkipped(rs),
              CountFailed(rs), CreatedSlugs(rs), publishedToday + CountSucceeded(rs), Processed)
  }

  /** A run that stops before touching any idea. */
  function EmptyRun(publishedToday: nat, remaining: nat, summary: Summary): RunResult {
    RunResult(publishedToday, remaining, 0, 0, 0, 0, 0, [], publishedToday, summary)
  }

  // ---------------------------------------------------------------------
  // The run

  /** No two stored questions at or after position `from` share a slug with an earlier one. */
  ghost predicate FreshSlugsFrom(qs: seq<Question>, from: nat) {
    forall j, k :: 0 <= k < j < |qs| && from <= j ==> qs[k].slug != qs[j].slug
  }

  lemma FreshSlugsAppend(qs: seq<Question>, from: nat, q: Question)
    requires FreshSlugsFrom(qs, from) && from <= |qs|
    requires forall k :: 0 <= k < |qs| ==> qs[k].slug != q.slug
    ensures FreshSlugsFrom(qs + [q], from)
  {
    var r := qs + [q];
    forall j, k | 0 <= k < j < |r| && from <= j ensures r[k].slug != r[j].slug {
      if j < |qs| {
        assert r[k] == qs[k] && r[j] == qs[j];
      } else {
        assert r[k] == qs[k] && r[j] == q;
      }
    }
  }

  lemma SlugsAppend(qs: seq<Question>, q: Question)
    ensures Slugs(qs + [q]) == Slugs(qs) + [q.slug]
  {
    assert forall i :: 0 <= i < |qs| ==> (qs + [q])[i] == qs[i];
  }

  /**
   * The ideas once the ideas of `results` are handled: each of those is
   * settled by its outcome, the k-th linked (on success) to the question
   * numbered `linkBase` plus the successes before it; every other idea is as
   * it was at the start.
   */
  ghost predicate IdeasSettled(ideas: map<IdeaId, Idea>, start: map<IdeaId, Idea>, results: seq<IdeaResult>,
                               env: Environment, linkBase: nat, now: Timestamp)
  {
    && (forall k :: 0 <= k < |results| ==> results[k].ideaId in start)
    && ideas.Keys == start.Keys
    && (forall id :: id in start && id !in IdsOf(results) ==> ideas[id] == start[id])
    && (forall k :: 0 <= k < |results| ==> SettledAt(ideas, start, results, k, env, linkBase, now))
  }

  /** The k-th idea of `results` is settled by its outcome, linked after the successes before it. */
  ghost predicate SettledAt(ideas: map<IdeaId, Idea>, start: map<IdeaId, Idea>, results: seq<IdeaResult>, k: nat,
                            env: Environment, linkBase: nat, now: Timestamp)
    requires k < |results|
  {
    var id := results[k].ideaId;
    id in ideas && id in start &&
    ideas[id] == Settled(start[id], results[k].outcome, env.faults(id), linkBase + CountSucceeded(results[..k]), now)
  }

  ghost predicate QuestionsAppended(qs: seq<Question>, start: seq<Question>, results: seq<IdeaResult>) {
    && |start| <= |qs| && qs[..|start|] == start
    && (forall j :: |start| <= j < |qs| ==> qs[j].status == Published)
    && FreshSlugsFrom(qs, |start|)
    && Slugs(qs[|start|..]) == SucceededSlugs(results)
  }

  /** The run added exactly one question per success. */
  lemma AppendedCount(qs: seq<Question>, start: seq<Question>, results: seq<IdeaResult>)
    requires QuestionsAppended(qs, start, results)
    ensures |qs| == |start| + CountSucceeded(results)
  {
    assert |Slugs(qs[|start|..])| == |SucceededSlugs(results)|;
  }

  lemma IdsOfAppend(rs: seq<IdeaResult>, r: IdeaResult)
    ensures IdsOf(rs + [r]) == IdsOf(rs) + [r.ideaId]
  {
    assert forall k :: 0 <= k < |rs| ==> (rs + [r])[k] == rs[k];
  }

  lemma IdeasStep(ideas: map<IdeaId, Idea>, start: map<IdeaId, Idea>, results: seq<IdeaResult>,
                  env: Environment, linkBase: nat, now: Timestamp, r: IdeaResult, link: QuestionId)
    requires IdeasSettled(ideas, start, results, env, linkBase, now)
    requires r.ideaId in start && r.ideaId !in IdsOf(results)
    requires link == linkBase + CountSucceeded(results)
    ensures IdeasSettled(ideas[r.ideaId := Settled(ideas[r.ideaId], r.outcome, env.faults(r.ideaId), link, now)],
                         start, results + [r], env, linkBase, now)
  {
    var id := r.ideaId;
    var rs := results + [r];
    var settled := Settled(ideas[id], r.outcome, env.faults(id), link, now);
    var after := ideas[id := settled];
    IdsOfAppend(results, r);
    assert ideas[id] == start[id];
    assert forall k :: 0 <= k < |rs| ==> rs[k].ideaId in start by {
      forall k | 0 <= k < |rs| ensures rs[k].ideaId in start {
        if k < |results| { assert rs[k] == results[k]; }
      }
    }
    assert after.Keys == start.Keys;
    assert forall x :: x in start && x !in IdsOf(rs) ==> after[x] == start[x];
    assert forall k :: 0 <= k < |rs| ==> SettledAt(after, start, rs, k, env, linkBase, now) by {
      forall k | 0 <= k < |rs| ensures SettledAt(after, start, rs, k, env, linkBase, now) {
        if k < |results| {
          assert IdsOf(results)[k] == results[k].ideaId;
          SettledAtStep(ideas, start, results, env, linkBase, now, r, settled, k);
        } else {
          SettledAtLast(ideas, start, results, env, linkBase, now, r, link, settled);
        }
      }
    }
  }

  lemma SettledAtStep(ideas: map<IdeaId, Idea>, start: map<IdeaId, Idea>, results: seq<IdeaResult>,
                      env: Environment, linkBase: nat, now: Timestamp, r: IdeaResult, v: Idea, k: nat)
    requires k < |results| && SettledAt(ideas, start, results, k, env, linkBase, now)
    requires results[k].ideaId != r.ideaId
    ensures SettledAt(ideas[r.ideaId := v], start, results + [r], k, env, linkBase, now)
  {
    var rs := results + [r];
    assert rs[k] == results[k];
    assert rs[..k] == results[..k];
  }

  lemma SettledAtLast(ideas: map<IdeaId, Idea>, start: map<IdeaId, Idea>, results: seq<IdeaResult>,
                      env: Environment, linkBase: nat, now: Timestamp, r: IdeaResult, link: QuestionId, v: Idea)
    requires r.ideaId in start && link == linkBase + CountSucceeded(results)
    requires v == Settled(start[r.ideaId], r.outcome, env.faults(r.ideaId), link, now)
    ensures SettledAt(ideas[r.ideaId := v], start, results + [r], |results|, env, linkBase, now)
  {
    var rs := results + [r];
    assert rs[|results|] == r;
    assert rs[..|results|] == results;
  }

  lemma QuestionsStep(qs: seq<Question>, start: seq<Question>, results: seq<IdeaResult>, r: IdeaResult,
                      added: seq<Question>)
    requires QuestionsAppended(qs, start, results)
    requires r.outcome.Succeeded? ==>
      && |added| == 1 && added[0].status == Published && added[0].slug == r.outcome.slug
      && forall k :: 0 <= k < |qs| ==> qs[k].slug != added[0].slug
    requires !r.outcome.Succeeded? ==> added == []
    ensures QuestionsAppended(qs + added, start, results + [r])
  {
    CountsAppend(results, r);
    if r.outcome.Succeeded? {
      var q := added[0];
      var after := qs + [q];
      assert added == [q];
      assert after[..|start|] == qs[..|start|];
      assert forall j :: |start| <= j < |after| ==> after[j].status == Published by {
        forall j | |start| <= j < |after| ensures after[j].status == Published {
          if j < |qs| { assert after[j] == qs[j]; }
        }
      }
      FreshSlugsAppend(qs, |start|, q);
      SlugsAppend(qs[|start|..], q);
      assert after[|start|..] == qs[|start|..] + [q];
    } else {
      assert qs + added == qs;
    }
  }

  lemma ResultsStep(results: seq<IdeaResult>, r: IdeaResult, selected: seq<IdeaId>)
    requires |results| < |selected| && IdsOf(results) == selected[..|results|]
    requires r.ideaId == selected[|results|]
    ensures IdsOf(results + [r]) == selected[..|results| + 1]
  {
    var ids := IdsOf(results + [r]);
    forall k | 0 <= k < |results| + 1 ensures ids[k] == selected[k] {
      if k < |results| {
        assert ids[k] == results[k].ideaId == IdsOf(results)[k];
      }
    }
  }

  /**
   * One turn of the loop over the selected ideas: handle the next selected idea and
   * account for it in the run's view of the ideas and questions.
   */
  method ProcessNext(store: Store, selected: seq<IdeaId>, results: seq<IdeaResult>,
                     ghost startIdeas: map<IdeaId, Idea>, ghost startQuestions: seq<Question>,
                     known: set<string>, env: Environment, now: Timestamp)
    returns (r: IdeaResult)
    requires store.Valid() && Distinct(selected) && |results| < |selected|
    requires IdsOf(results) == selected[..|results|] && selected[|results|] in startIdeas
    requires IdeasSettled(store.ideas, startIdeas, results, env, |startQuestions|, now)
    requires QuestionsAppended(store.questions, startQuestions, results)
    modifies store
    ensures store.Valid() && store.nextIdeaId == old(store.nextIdeaId)
    ensures r.ideaId == selected[|results|]
    ensures IdsOf(results + [r]) == selected[..|results| + 1]
    ensures CountSucceeded(results + [r]) == CountSucceeded(results) + (if r.outcome.Succeeded? then 1 else 0)
    ensures IdeasSettled(store.ideas, startIdeas, results + [r], env, |startQuestions|, now)
    ensures QuestionsAppended(store.questions, startQuestions, results + [r])
  {
    var id := selected[|results|];
    ghost var qsBefore := store.questions;
    ghost var ideasBefore := store.ideas;
    r := ProcessIdea(store, id, known, env, now);
    assert id !in IdsOf(results) by {
      assert forall k :: 0 <= k < |results| ==> selected[..|results|][k] == selected[k];
    }
    assert |qsBefore| == |startQuestions| + CountSucceeded(results) by {
      assert |Slugs(qsBefore[|startQuestions|..])| == |SucceededSlugs(results)|;
    }
    IdeasStep(ideasBefore, startIdeas, results, env, |startQuestions|, now, r, |qsBefore|);
    QuestionsStep(qsBefore, startQuestions, results, r, store.questions[|qsBefore|..]);
    assert store.questions == qsBefore + store.questions[|qsBefore|..];
    ResultsStep(results, r, selected);
    CountsAppend(results, r);
  }

  /**
   * The loop over the selected ideas, in order. It would stop once
   * `remaining` ideas had succeeded, which cannot happen before the end
   * since at most `remaining` ideas are selected.
   */
  method ProcessSelected(store: Store, selected: seq<IdeaId>, remaining: nat,
                         known: set<string>, env: Environment, now: Timestamp)
    returns (results: seq<IdeaResult>)
    requires store.Valid() && Distinct(selected) && |selected| <= remaining
    requires forall k :: 0 <= k < |selected| ==> selected[k] in store.ideas
    modifies store
    ensures store.Valid() && store.nextIdeaId == old(store.nextIdeaId)
    ensures IdsOf(results) == selected
    ensures CountSucceeded(results) <= remaining
    ensures IdeasSettled(store.ideas, old(store.ideas), results, env, |old(store.questions)|, now)
    ensures QuestionsAppended(store.questions, old(store.questions), results)
  {
    results := [];
    var successfulCount := 0;
    var i := 0;
    while i < |selected|
      invariant 0 <= i <= |selected| && |results| == i
      invariant IdsOf(results) == selected[..i]
      invariant successfulCount == CountSucceeded(results) && successfulCount <= i
      invariant store.Valid() && store.nextIdeaId == old(store.nextIdeaId)
      invariant IdeasSettled(store.ideas, old(store.ideas), results, env, |old(store.questions)|, now)
      invariant QuestionsAppended(store.questions, old(store.questions), results)
    {
      if successfulCount >= remaining {
        assert false;
        break;
      }
      var r := ProcessNext(store, selected, results, old(store.ideas), old(store.questions), known, env, now);
      results := results + [r];
      if r.outcome.Succeeded? {
        successfulCount := successfulCount + 1;
      }
      i := i + 1;
    }
    assert selected[..i] == selected;
  }

  /**
   * The ideas after a run that handled `selected`: only those changed. Each
   * was marked `processing` and then settled by its outcome, the k-th linked
   * (on success) to the question numbered `linkBase` plus the successes
   * before it; it carries its outcome's status, or is left `processing` when
   * that write did not get through.
   */
  ghost predicate RunSettled(after: map<IdeaId, Idea>, before: map<IdeaId, Idea>, selected: seq<IdeaId>,
                             results: seq<IdeaResult>, env: Environment, linkBase: nat, now: Timestamp)
  {
    && after.Keys == before.Keys
    && (forall id :: id in before && id !in selected ==> after[id] == before[id])
    && (forall k :: 0 <= k < |selected| && k < |results| && selected[k] in before ==>
          after[selected[k]] ==
            Settled(before[selected[k]].(status := Processing, processingStartedAt := Some(now)),
                    results[k].outcome, env.faults(selected[k]), linkBase + CountSucceeded(results[..k]), now))
    && (forall k :: 0 <= k < |selected| && k < |results| && selected[k] in after ==>
          after[selected[k]].status ==
            if StatusWritten(results[k].outcome, env.faults(selected[k]))
            then TerminalStatus(results[k].outcome) else Processing)
  }

  lemma MarkedThenSettled(before: map<IdeaId, Idea>, marked: map<IdeaId, Idea>, after: map<IdeaId, Idea>,
                          ids: set<IdeaId>, selected: seq<IdeaId>, results: seq<IdeaResult>, env: Environment,
                          linkBase: nat, now: Timestamp)
    requires forall x :: x in ids <==> x in selected
    requires marked.Keys == before.Keys
    requires forall id :: id in marked ==>
      marked[id] == if id in ids then before[id].(status := Processing, processingStartedAt := Some(now))
                    else before[id]
    requires IdeasSettled(after, marked, results, env, linkBase, now) && IdsOf(results) == selected
    ensures RunSettled(after, before, selected, results, env, linkBase, now)
  {
    forall k | 0 <= k < |selected| ensures results[k].ideaId == selected[k] {
      assert IdsOf(results)[k] == results[k].ideaId;
    }
    forall k | 0 <= k < |selected| && k < |results| && selected[k] in before
      ensures after[selected[k]] ==
        Settled(before[selected[k]].(status := Processing, processingStartedAt := Some(now)),
                results[k].outcome, env.faults(selected[k]), linkBase + CountSucceeded(results[..k]), now)
    {
      assert SettledAt(after, marked, results, k, env, linkBase, now);
    }
    forall k | 0 <= k < |selected| && k < |results| && selected[k] in after
      ensures after[selected[k]].status ==
        if StatusWritten(results[k].outcome, env.faults(selected[k]))
        then TerminalStatus(results[k].outcome) else Processing
    {
      SettledFields(before[selected[k]].(status := Processing, processingStartedAt := Some(now)),
                    results[k].outcome, env.faults(selected[k]), linkBase + CountSucceeded(results[..k]), now);
    }
  }

  /**
   * The part of `generateDailyQuestions` that only reads the store: the
   * quota, the pool, the duplicate filter and the random pick. `stop` is
   * the run's result when it ends here; otherwise `selected` is the batch.
   */
  method SelectIdeas(store: Store, options: Options, publishedToday: nat, pool: seq<IdeaId>, queries: ReadFaults)
    returns (stop: Option<Result<RunResult, RunError>>, selected: seq<IdeaId>)
    requires Distinct(pool)
    requires forall k :: 0 <= k < |pool| ==> pool[k] in store.ideas
    ensures queries.countFails ==> stop == Some(Err(CountQueryFailed))
    ensures !queries.countFails && Remaining(options.batchSize, publishedToday) == 0 ==>
      stop == Some(Ok(EmptyRun(publishedToday, 0, QuotaReached)))
    ensures stop.Some? && stop.value.Ok? ==>
      && stop.value.value.remaining == Remaining(options.batchSize, publishedToday)
      && stop.value.value.summary in {QuotaReached, NoNewIdeas, AllDuplicates, DryRun}
      && (stop.value.value.summary == DryRun) == (options.dryRun && selected != [])
      && stop.value.value == EmptyRun(publishedToday, Remaining(options.batchSize, publishedToday),
                                      stop.value.value.summary).(attempted := |selected|)
    ensures stop.Some? && stop.value.Err? ==> stop.value.error != MarkProcessingFailed && selected == []
    ensures stop.None? ==> !options.dryRun && selected != []
    ensures stop.Some? && !(stop.value.Ok? && stop.value.value.summary == DryRun) ==> selected == []
    ensures Distinct(selected) && |selected| <= Remaining(options.batchSize, publishedToday)
    ensures forall x :: x in selected ==> x in pool && IsUnseen(store.ideas, ExistingTexts(store.questions), x)
    ensures forall k :: 0 <= k < |selected| ==> selected[k] in store.ideas
    ensures selected != [] || stop == Some(Ok(EmptyRun(publishedToday, Remaining(options.batchSize, publishedToday), AllDuplicates))) ==>
      |selected| == Min(Remaining(options.batchSize, publishedToday),
                        |UniqueIdeas(pool, store.ideas, ExistingTexts(store.questions))|)
  {
    selected := [];
    if queries.countFails {
      return Some(Err(CountQueryFailed)), [];
    }
    var remaining := Remaining(options.batchSize, publishedToday);
    if remaining == 0 {
      return Some(Ok(EmptyRun(publishedToday, 0, QuotaReached))), [];
    }
    if queries.poolFails {
      return Some(Err(PoolQueryFailed)), [];
    }
    if |pool| == 0 {
      return Some(Ok(EmptyRun(publishedToday, remaining, NoNewIdeas))), [];
    }
    if queries.existingFails {
      return Some(Err(ExistingQueryFailed)), [];
    }
    var existing := ExistingTexts(store.questions);
    var unique := UniqueIdeas(pool, store.ideas, existing);
    UniqueIdeasDistinct(pool, store.ideas, existing);
    if |unique| == 0 {
      return Some(Ok(EmptyRun(publishedToday, remaining, AllDuplicates))), [];
    }
    assert IsPermutation(unique, unique);
    var shuffled :| IsPermutation(shuffled, unique);
    PermutationKeepsDistinct(shuffled, unique);
    assert |shuffled| == |unique| by {
      assert |multiset(shuffled)| == |multiset(unique)|;
    }
    selected := shuffled[..Min(remaining, |shuffled|)];
    assert forall x :: x in selected ==> x in multiset(unique);
    assert forall x :: x in pool ==> x in store.ideas;
    if |selected| == 0 {
      assert false;
    }
    if options.dryRun {
      return Some(Ok(EmptyRun(publishedToday, remaining, DryRun).(attempted := |selected|))), selected;
    }
    stop := None;
  }

  /**
   * `generateDailyQuestions`. `publishedToday` and `pool` are the store's
   * answers to the count and pool queries (the pool holds ideas with status
   * `new`, at most `poolSize` of them), `queries` says which read queries
   * fail, `now` is the clock and `markFails` whether the bulk "processing"
   * update fails.
   */
  method GenerateDailyQuestions(
    store: Store, options: Options, publishedToday: nat, pool: seq<IdeaId>, queries: ReadFaults,
    known: set<string>, env: Environment, now: Timestamp, markFails: bool)
    returns (res: Result<RunResult, RunError>, selected: seq<IdeaId>, results: seq<IdeaResult>)
    requires store.Valid()
    requires Distinct(pool) && |pool| <= options.poolSize
    requires forall k :: 0 <= k < |pool| ==> pool[k] in store.ideas && store.ideas[pool[k]].status == New
    modifies store
    ensures store.Valid() && store.nextIdeaId == old(store.nextIdeaId)
    // the quota
    ensures queries.countFails ==> res == Err(CountQueryFailed)
    ensures !queries.countFails && Remaining(options.batchSize, publishedToday) == 0 ==>
      res == Ok(EmptyRun(publishedToday, 0, QuotaReached))
    ensures res.Ok? ==> res.value.remaining == Remaining(options.batchSize, publishedToday)
    // the selection
    ensures Distinct(selected)
    ensures forall x :: x in selected ==>
      x in pool && IsUnseen(old(store.ideas), ExistingTexts(old(store.questions)), x)
    ensures selected != [] || res == Ok(EmptyRun(publishedToday, Remaining(options.batchSize, publishedToday), AllDuplicates)) ==>
      |selected| == Min(Remaining(options.batchSize, publishedToday),
                        |UniqueIdeas(pool, old(store.ideas), ExistingTexts(old(store.questions)))|)
    // nothing is written unless the run gets to process ideas
    ensures !(res.Ok? && res.value.summary == Processed) ==> results == []
    ensures !(res.Ok? && res.value.summary == Processed) && res != Err(MarkProcessingFailed) ==>
      store.ideas == old(store.ideas) && store.questions == old(store.questions)
    ensures res == Err(MarkProcessingFailed) ==>
      markFails && store.ideas == old(store.ideas) && store.questions == old(store.questions)
    // what the store holds afterwards
    ensures store.ideas.Keys == old(store.ideas).Keys
    ensures forall id :: id in old(store.ideas) && id !in selected ==> store.ideas[id] == old(store.ideas)[id]
    ensures |old(store.questions)| <= |store.questions| && store.questions[..|old(store.questions)|] == old(store.questions)
    ensures forall j :: |old(store.questions)| <= j < |store.questions| ==> store.questions[j].status == Published
    ensures |store.questions| == |old(store.questions)| + if res.Ok? then res.value.successful else 0
    ensures res.Ok? && res.value.summary == DryRun ==> options.dryRun && res.value.attempted == |selected| > 0
    // the processing
    ensures res.Ok? && res.value.summary == Processed ==>
      && !options.dryRun && !markFails
      && IdsOf(results) == selected
      && res.value == Tally(publishedToday, res.value.remaining, results)
      && RunSettled(store.ideas, old(store.ideas), selected, results, env, |old(store.questions)|, now)
      && QuestionsAppended(store.questions, old(store.questions), results)
    ensures res.Ok? ==>
      && (res.value.summary != DryRun ==>
            res.value.successful + res.value.failed + res.value.duplicates == res.value.attempted)
      && res.value.errors == res.value.failed
      && res.value.successful <= res.value.remaining
      && res.value.totalPublishedToday == publishedToday + res.value.successful
  {
    results := [];
    var stop;
    stop, selected := SelectIdeas(store, options, publishedToday, pool, queries);
    if stop.Some? {
      res := stop.value;
      return;
    }
    var remaining := Remaining(options.batchSize, publishedToday);
    ghost var before := store.ideas;
    var ids := set x | x in selected :: x;
    assert forall x :: x in ids <==> x in selected;
    var marked := store.MarkProcessing(ids, now, markFails);
    if !marked {
      res := Err(MarkProcessingFailed);
      return;
    }
    ghost var markedIdeas := store.ideas;
    results := ProcessSelected(store, selected, remaining, known, env, now);
    MarkedThenSettled(before, markedIdeas, store.ideas, ids, selected, results, env, |old(store.questions)|, now);
    AppendedCount(store.questions, old(store.questions), results);
    res := Ok(Tally(publishedToday, remaining, results));
  }
}
