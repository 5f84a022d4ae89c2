/**
 * The command-line entry of the daily run: it calls the pipeline with fixed
 * options and turns the outcome into a process exit code. Only a run that
 * published nothing while some idea failed, or a run that threw, exits
 * with 1.
 */
module DailyScript {
  import opened Basics
  import opened ContentStore
  import opened DailyPipeline

  /** The options the script passes: five articles a day, a pool of fifty, not a dry run. */
  const ScriptOptions: Options := Options(5, 50, false)

  /** Which closing message the script prints. */
  datatype Verdict =
    | NothingPublished
    | PartialErrors
    | Completed
    | NothingGenerated
      /** The run threw. */
    | Fatal

  /** The script's verdict on the pipeline's outcome; an `Err` is the thrown error. */
  function VerdictOf(res: Result<RunResult, RunError>): (v: Verdict)
    ensures v == Fatal <==> res.Err?
    ensures v == NothingPublished <==> res.Ok? && res.value.successful == 0 && res.value.failed > 0
    ensures v == PartialErrors <==> res.Ok? && res.value.successful > 0 && res.value.failed > 0
    ensures v == Completed <==> res.Ok? && res.value.failed == 0 && (res.value.successful > 0 || res.value.remaining == 0)
    ensures v == NothingGenerated <==> res.Ok? && res.value.successful == 0 && res.value.failed == 0 && res.value.remaining > 0
  {
    match res
    case Err(_) => Fatal
    case Ok(r) =>
      if r.successful == 0 && r.failed > 0 then NothingPublished
      else if r.successful > 0 && r.failed > 0 then PartialErrors
      else if r.successful > 0 || r.remaining == 0 then Completed
      else NothingGenerated
  }

  /** The exit code that goes with each verdict. */
  function ExitCodeOf(v: Verdict): (code: nat)
    ensures code <= 1
    ensures code == 1 <==> v == NothingPublished || v == Fatal
  {
    match v
    case NothingPublished => 1
    case Fatal => 1
    case _ => 0
  }

  /** The exit code of the script for the pipeline's outcome. */
  function ExitCode(res: Result<RunResult, RunError>): (code: nat)
    ensures code <= 1
    ensures code == 1 <==> res.Err? || (res.value.successful == 0 && res.value.failed > 0)
  {
    ExitCodeOf(VerdictOf(res))
  }

  /** Publishing anything makes the run a success, whatever else failed. */
  lemma AnySuccessExitsZero(r: RunResult)
    requires r.successful > 0
    ensures ExitCode(Ok(r)) == 0
  {
  }

  /** A run in which no idea failed exits with 0, even when it published nothing. */
  lemma NoFailureExitsZero(r: RunResult)
    requires r.failed == 0
    ensures ExitCode(Ok(r)) == 0
  {
  }

  /**
   * Runs that stop before processing anything (quota reached, nothing
   * eligible, all duplicates, dry run) have no failures and exit with 0.
   */
  lemma EarlyStopExitsZero(publishedToday: nat, remaining: nat, summary: Summary)
    ensures ExitCode(Ok(EmptyRun(publishedToday, remaining, summary))) == 0
  {
  }

  /** A run that exits with 1 without throwing published nothing: today's total is unchanged. */
  lemma FailingRunPublishedNothing(r: RunResult, publishedBefore: nat)
    requires r.totalPublishedToday == publishedBefore + r.successful
    requires ExitCode(Ok(r)) == 1
    ensures r.totalPublishedToday == publishedBefore && r.failed > 0
  {
  }

  /**
   * `main`: one run of the pipeline with the script's options, its outcome
   * and the exit code. The run's inputs are as for `GenerateDailyQuestions`.
   */
  method RunScript(
    store: Store, publishedToday: nat, pool: seq<IdeaId>, queries: ReadFaults,
    known: set<string>, env: Environment, now: Timestamp, markFails: bool)
    returns (res: Result<RunResult, RunError>, code: nat)
    requires store.Valid()
    requires Distinct(pool) && |pool| <= ScriptOptions.poolSize
    requires forall k :: 0 <= k < |pool| ==> pool[k] in store.ideas && store.ideas[pool[k]].status == New
    modifies store
    ensures store.Valid()
    ensures code == ExitCode(res)
    ensures res.Ok? ==> res.value.successful <= ScriptOptions.batchSize
    ensures code == 1 && res.Ok? ==> res.value.totalPublishedToday == publishedToday
    // the store: only pool ideas change, and the run appends one published question per success
    ensures store.ideas.Keys == old(store.ideas).Keys
    ensures forall id :: id in old(store.ideas) && id !in pool ==> store.ideas[id] == old(store.ideas)[id]
    ensures |old(store.questions)| <= |store.questions| && store.questions[..|old(store.questions)|] == old(store.questions)
    ensures forall j :: |old(store.questions)| <= j < |store.questions| ==> store.questions[j].status == Published
    ensures |store.questions| - |old(store.questions)| <= ScriptOptions.batchSize
    // a failing run leaves the questions as they were
    ensures code == 1 ==> store.questions == old(store.questions)
  {
    var selected, results;
    res, selected, results := GenerateDailyQuestions(store, ScriptOptions, publishedToday, pool, queries, known, env, now, markFails);
    code := ExitCode(res);
    if code == 1 && res.Ok? {
      FailingRunPublishedNothing(res.value, publishedToday);
    }
  }
}
