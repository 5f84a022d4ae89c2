# Question-and-answer site: daily generation pipeline and admin endpoints, modelled in Dafny

This project models the server-side core of a question-and-answer site. Articles answer everyday questions. They are generated from an `ideas` backlog and stored in a `questions` collection. The model covers these parts:

- **The daily pipeline** (`generateDailyQuestions`, module `DailyPipeline`):
  1. It works out the day's remaining quota.
  2. It filters the pool of `new` ideas against the texts of the stored questions.
  3. It picks a random batch of at most the remaining quota and marks the batch `processing`.
  4. It handles the ideas one by one: resolve the category, parse the tags, call the generator, check the text and the slug, build the body, insert the question and write the idea's status back.
  5. It tallies the results.

  The store is a `class` (`ContentStore.Store`) whose `ideas` map and `questions` sequence the methods update in place. The generator and the store's failures are parameters of the run (`Environment`, `ReadFaults`). The helpers the pipeline uses are pure functions: category normalisation, tag parsing, LIKE escaping and the related-questions block (`GeneratorHelpers`, `LikePattern`).
- **The command-line script** (`DailyScript`): it runs the pipeline with fixed options and maps the outcome to an exit code.
- **The status clean-up endpoint** (`Similarity`, `Cleanup`): text normalisation, the word-overlap similarity test (its counting loop is a method) and the `POST` loop. The loop marks every waiting idea that matches a published question as `generated`.
- **The category list** and its display form (`Categories`).
- **Admin bulk import** (`BulkImport`): it normalises each idea, drops the ideas without a question and inserts the rest in batches of 50.
- **Single-idea creation** (`IdeasCreate`), **question creation** (`QuestionsCreate`, which stamps the publication date in place on the payload) and **newsletter sign-up** (`Subscribe`).
- **The admin middleware** (`AdminGate`).
- **The markdown helper's post-processing** (`EnhanceMarkdown`): the source list offered to the language model, and the trimming and code-fence removal applied to its answer.

`Text` holds the string primitives the code relies on: JavaScript's `trim`, ASCII `toLowerCase`, `split` and `join`. `Basics` holds `Option`, `Result`, `Distinct`, `Max` and `Min`.

In these places the code's behaviour is easy to misread; the model follows the code:

- The idea-creation endpoint writes to the `hack_ideas` collection. The pipeline and the other endpoints use `ideas`. The model keeps the name the code uses (`IdeasCreate.CreateTable`).
- Creators write ideas as `pending`, but the pipeline's pool holds only `new` ideas. The clean-up endpoint considers both statuses.
- `normalizeCategory` is idempotent except on whitespace-only input. There `"  "` becomes `""`, and `""` then becomes absent. `GeneratorHelpers.NormalizeCategoryIdempotent` carries that exception, and `GeneratorHelpers.NormalizeCategoryBlank` exhibits it.
- A dry run reports `attempted` equal to the number of selected ideas, with every other counter 0. So the identity `successful + failed + duplicates == attempted` holds only for runs that are not dry runs.
- The pipeline's result does not carry today's total as a field. The total appears only inside the summary text. The model records it as `RunResult.totalPublishedToday`.
- The duplicate-text check runs twice, and the two checks differ:
  - The pool filter compares trimmed, lower-cased texts on both sides.
  - The in-run check first selects rows with `ilike` on the escaped normalised text, then compares their trimmed, lower-cased text. The `ilike` selects on the stored text untrimmed, so a stored question with leading whitespace is not found by the in-run check, although the pool filter catches it.
  - The escape covers `%`, `_` and `\` but not `*`, which PostgREST's `like` and `ilike` operators read as `%`. A generated text containing `*` therefore selects more rows than its own text. When the normalised text starts with `*`, a stored copy behind leading whitespace is found after all (`" *x"` for `"*x"`).

  `DailyPipeline.HasDuplicateText` models the in-run check as written, with the `*` substitution (`LikePattern.StarAsPercent`). `DailyPipeline.PaddedQuestionEscapesInRunLookup` states the difference for texts not starting with `*`, and `DailyPipeline.StarredQuestionFound` the exception.

## Model

| member | source | states |
|---|---|---|
| Categories.CategoriesCount | lib/categories.ts:1-25 | the category list holds 23 identifiers |
| Categories.CategoriesDistinct | lib/categories.ts:1-25 | no identifier occurs twice in the list |
| Categories.CategoriesLowerSnake | lib/categories.ts:1-25 | every identifier is non-empty lower-case ASCII words joined by single underscores |
| Categories.IsValidCategory | lib/categories.ts:36-38 | true exactly when the argument equals one of the listed identifiers |
| Categories.FormatIsFormatted | lib/categories.ts:30-33 | split on `_`, capitalise each piece and join with spaces equals the character-by-character display rule (both when the text starts a segment and when it does not) |
| Categories.FormatCategoryNameSpec | lib/categories.ts:29-34 | the display name has the identifier's length; each `_` becomes a space, the first character of every segment is upper-cased, every other character is kept, so empty segments survive as consecutive spaces |
| Categories.FormatCategoryNameNoUnderscore | lib/categories.ts:29-34 | no underscore is left in a display name |
| GeneratorHelpers.NormalizeCategory | lib/generator/generateDailyQuestions.ts:5-41 | an absent or empty category gives nothing; otherwise the trimmed, lower-cased text, replaced by its alias when the table holds one; its partners are NormalizeCategoryIdempotent and NormalizeCategoryBlank |
| GeneratorHelpers.NormalizeCategoryIdempotent | lib/generator/generateDailyQuestions.ts:5-41 | normalising an already normalised, non-empty category gives it back, because every table target maps to itself if it is a key at all |
| GeneratorHelpers.NormalizeCategoryBlank | lib/generator/generateDailyQuestions.ts:5-41 | a whitespace-only category normalises to the empty string, and that normalises to nothing: the one place idempotence fails |
| GeneratorHelpers.AliasTargetsStable | lib/generator/generateDailyQuestions.ts:8-38 | every value of the alias table is a lower-case identifier that the table, if it holds it as a key, maps to itself |
| GeneratorHelpers.ResolveCategory | lib/generator/generateDailyQuestions.ts:301-304 | a category is found exactly when the normalised category is a known identifier, and then it is that identifier |
| GeneratorHelpers.ParseTags | lib/generator/generateDailyQuestions.ts:325-333 | a tag list is kept as it is, a value of any other type gives no tags, and a comma-separated string gives non-empty, trimmed tags without commas |
| GeneratorHelpers.DropEmpty | lib/generator/generateDailyQuestions.ts:326-330 | the kept pieces are exactly the non-empty pieces of the input: none is empty, each comes from the input, and every non-empty input piece is kept |
| GeneratorHelpers.ParseTagsAppend | lib/generator/generateDailyQuestions.ts:325-333 | the tags of two texts joined by a comma are the tags of the first followed by the tags of the second, so a string is parsed piece by piece, in order |
| GeneratorHelpers.ParseTagsSingle | lib/generator/generateDailyQuestions.ts:325-333 | a text without a comma gives one tag, the text trimmed, or no tag when it is only whitespace |
| GeneratorHelpers.ParseTagsRoundTrip | lib/generator/generateDailyQuestions.ts:325-333 | writing clean tags as one comma-separated string and parsing it gives the same tags back, in order |
| GeneratorHelpers.RelatedQuestionsBlockLines | lib/generator/generateDailyQuestions.ts:56-64 | the block is empty exactly when fewer than three candidates came back; otherwise it reads as two blank lines, the heading and one link line for each of the first six candidates |
| GeneratorHelpers.CombineBody | lib/generator/generateDailyQuestions.ts:490-493 | the body starts with the generated body and ends with the related block, is empty only when both are, and puts a blank line (`\n\n`) between them exactly when both are present |
| LikePattern.EscapeLike | lib/generator/generateDailyQuestions.ts:371-374 | escaping lengthens the text by exactly one character per `%`, `_` or `\` |
| LikePattern.UnescapeEscape | lib/generator/generateDailyQuestions.ts:371-374 | removing the escapes gives the original text back |
| LikePattern.EscapedMatchesOnlyItself | lib/generator/generateDailyQuestions.ts:371-379 | under LIKE with backslash escapes, the escaped text matches exactly the original text and nothing else |
| LikePattern.LowerEscapeCommute | lib/generator/generateDailyQuestions.ts:369-374 | lower-casing before or after escaping gives the same pattern |
| LikePattern.ILikeEscapedLowered | lib/generator/generateDailyQuestions.ts:369-379 | at the store, ILIKE with the escaped pattern of a lower-cased text selects exactly the rows whose lower-cased text equals it; this is the lookup before the request layer rewrites `*` |
| LikePattern.LookupPatternIsGlob | lib/generator/generateDailyQuestions.ts:371-379 | the pattern the store receives (escaped, then every `*` read as `%`) matches under LIKE exactly what the text matches as a glob in which `*` stands for any run of characters |
| LikePattern.LookupSelects | lib/generator/generateDailyQuestions.ts:369-379 | the `ilike` lookup with a lower-cased text selects the rows whose lower-cased text matches it as a glob: always the rows whose lower-cased text equals it, and only those when the text holds no `*` |
| DailyPipeline.Remaining | lib/generator/generateDailyQuestions.ts:134-135 | the remaining quota is zero exactly when today's count has reached the batch size, and otherwise is their difference |
| DailyPipeline.UniqueIdeas | lib/generator/generateDailyQuestions.ts:193-202 | the filtered pool holds exactly the pool ideas whose lower-cased, trimmed text is not a stored question's, and is no longer than the pool |
| DailyPipeline.UniqueIdeasDistinct | lib/generator/generateDailyQuestions.ts:199-202 | filtering a pool without repeats leaves no repeats |
| DailyPipeline.PermutationKeepsDistinct | lib/generator/generateDailyQuestions.ts:70-75 | any reordering of a list without repeats, which is what the shuffle produces, has no repeats |
| DailyPipeline.HasDuplicateTextMeaning | lib/generator/generateDailyQuestions.ts:369-410 | the in-run duplicate check finds a stored question exactly when its lower-cased (untrimmed) text matches the generated text lower-cased and trimmed, read as a glob, and its trimmed form equals that text; a question whose lower-cased text equals it is always found, and when the text holds no `*` no other is |
| DailyPipeline.PaddedNormalizes | lib/generator/generateDailyQuestions.ts:193-195 | leading whitespace changes neither the lower-cased text (beyond the padding) nor the trimmed, lower-cased form |
| DailyPipeline.PaddedQuestionEscapesInRunLookup | lib/generator/generateDailyQuestions.ts:369-410 | a stored question whose text is the generated text behind leading whitespace is in the pool filter's set of texts, yet the in-run check does not find it unless the normalised text starts with `*` |
| DailyPipeline.StarredQuestionFound | lib/generator/generateDailyQuestions.ts:369-410 | a lower-cased, trimmed text starting with `*` is found as a duplicate of a stored copy behind leading whitespace, although that copy's lower-cased text differs from it |
| DailyPipeline.SlugCount | lib/generator/generateDailyQuestions.ts:435-439 | no stored question has the slug exactly when the count is zero |
| DailyPipeline.DecideSucceeded | lib/generator/generateDailyQuestions.ts:301-483 | an idea succeeds only if its category resolved, the generator answered, no duplicate, slug or insert call failed, the in-run text lookup found nothing and no stored question has the generated slug; the reported slug is the generated one |
| DailyPipeline.DecideSucceededText | lib/generator/generateDailyQuestions.ts:367-432 | after a success, no stored question's lower-cased text equals the generated text lower-cased and trimmed |
| DailyPipeline.DecideSucceedsExactly | lib/generator/generateDailyQuestions.ts:301-530 | an idea succeeds if and only if its category resolves, the generator answers, no lookup or insert fails, the text lookup finds nothing and the slug is not stored |
| DailyPipeline.DecideSkippedText | lib/generator/generateDailyQuestions.ts:367-432 | an idea skipped for its text had a resolved category, a generator answer and a working lookup, and some stored question's lower-cased text matches the normalised generated text as a glob while its trimmed form equals it; without a `*`, that stored lower-cased text is the normalised text |
| DailyPipeline.PlannedQuestion | lib/generator/generateDailyQuestions.ts:485-520 | the inserted row is published, dated now, takes the next identifier and the resolved category, and its slug is the reported slug and differs from every stored question's |
| DailyPipeline.PlannedQuestionContents | lib/generator/generateDailyQuestions.ts:485-520 | the inserted row holds the generated question, short answer, verdict, summary (empty ones as null), evidence and sources (none as empty); the generated tags or, when there are none, the idea's parsed tags; and the generated body followed by the related-questions block of at most 20 published questions of the same category, newest first |
| DailyPipeline.SettledFields | lib/generator/generateDailyQuestions.ts:553-577 | writing an outcome back sets the outcome's terminal status and the processing time when a status write gets through, and leaves both otherwise; a success is linked to its question only when the first write succeeds; no other field changes |
| DailyPipeline.TerminalStatus | lib/generator/generateDailyQuestions.ts:308-609 | every outcome asks for one of `generated`, `duplicate`, `error` |
| DailyPipeline.WriteBack | lib/generator/generateDailyQuestions.ts:554-575 | only the handled idea's row changes, to its settled form; the questions are untouched |
| DailyPipeline.ProcessIdea | lib/generator/generateDailyQuestions.ts:298-609 | the result is about the handled idea; its outcome is the decision on the store as it was before; exactly the planned question is appended on success and nothing otherwise; only the idea's own row changes |
| DailyPipeline.CountsAddUp | lib/generator/generateDailyQuestions.ts:612-614 | every result is counted exactly once as a success, a failure or a duplicate |
| DailyPipeline.CreatedSlugsAreSuccesses | lib/generator/generateDailyQuestions.ts:616-618 | there are no more created slugs than successes, and they are the successes' slugs in order when no successful slug is empty |
| DailyPipeline.Tally | lib/generator/generateDailyQuestions.ts:612-636 | attempted is the number of results, the three counters add up to it, errors equal failures, today's total is the earlier count plus the successes, and there are no more created slugs than successes |
| DailyPipeline.ProcessNext | lib/generator/generateDailyQuestions.ts:289-610 | one turn of the loop handles the next selected idea, adds one result for it and keeps the loop's account of ideas and questions |
| DailyPipeline.ProcessSelected | lib/generator/generateDailyQuestions.ts:286-610 | every selected idea gets exactly one result, in selection order; successes never exceed the quota, so the early exit never fires; the k-th handled idea is settled by its outcome and, on success, linked to the question numbered the starting count plus the successes before it; every other idea is unchanged; the appended questions are published, have fresh slugs and are exactly the successes' |
| DailyPipeline.MarkedThenSettled | lib/generator/generateDailyQuestions.ts:259-267 | after the bulk `processing` mark and the loop, only selected ideas have changed; each is its marked form settled by its outcome with the link the loop gave it, so it carries its terminal status, or is still `processing` when its status write failed |
| DailyPipeline.SelectIdeas | lib/generator/generateDailyQuestions.ts:123-256 | a failing count ends the run with an error; a met quota ends it with every counter 0; the batch is distinct, drawn from the filtered pool, at most the quota, and of size the smaller of the quota and the filtered pool; a dry run reports the batch size as attempted and writes nothing |
| DailyPipeline.GenerateDailyQuestions | lib/generator/generateDailyQuestions.ts:98-637 | the early endings write nothing (a failed `processing` mark included); a processed run has one result per selected idea, leaves every other idea alone and settles the selected ones with their links, appends exactly one published question with a fresh slug per success, and reports counters that add up, errors equal to failures, successes within the quota and today's total as the earlier count plus the successes |
| ContentStore.WithRowsContents | app/api/admin/bulk-import-ideas/route.ts:44-47 | inserted rows sit under consecutive new identifiers; every other identifier keeps its row |
| ContentStore.WithRowsAppend | app/api/admin/bulk-import-ideas/route.ts:42-47 | inserting two runs of rows one after the other stores the same as inserting their concatenation |
| ContentStore.Store.MarkProcessing | lib/generator/generateDailyQuestions.ts:261-267 | when the update succeeds, exactly the listed ideas become `processing` with the given start time; nothing else changes |
| ContentStore.Store.SetIdeaStatus | lib/generator/generateDailyQuestions.ts:554-575 | when the update succeeds, only the idea's status, processing time and (if given) link change |
| ContentStore.Store.InsertQuestion | lib/generator/generateDailyQuestions.ts:516-520 | a successful insert appends the row under the next identifier and returns it; a failed one changes nothing |
| ContentStore.Store.InsertIdeas | app/api/admin/bulk-import-ideas/route.ts:44-47 | a successful insert stores every row under new consecutive identifiers; a failed one stores none |
| Similarity.StripKeeps | app/api/admin/cleanup-idea-statuses/route.ts:11 | punctuation removal keeps exactly the word characters and the whitespace |
| Similarity.CollapseSpaces | app/api/admin/cleanup-idea-statuses/route.ts:12 | after collapsing, no two spaces are adjacent, nothing got longer, and the text starts with a space exactly when the input started with whitespace |
| Similarity.NormalizedIsNormal | app/api/admin/cleanup-idea-statuses/route.ts:8-14 | a normalised text holds only lower-case word characters and single spaces, with no space at either end |
| Similarity.NormalFixed | app/api/admin/cleanup-idea-statuses/route.ts:8-14 | a text already in that form is its own normalisation |
| Similarity.NormalizeIdempotent | app/api/admin/cleanup-idea-statuses/route.ts:8-14 | normalising twice is normalising once |
| Similarity.NormalizeIgnoresCase | app/api/admin/cleanup-idea-statuses/route.ts:8-14 | normalisation ignores ASCII case |
| Similarity.SplitOnSingleSpaces | app/api/admin/cleanup-idea-statuses/route.ts:27-28 | on normalised text, splitting on whitespace runs is splitting on single spaces |
| Similarity.WordsOfNormal | app/api/admin/cleanup-idea-statuses/route.ts:27-28 | the word set is exactly the space-separated pieces longer than two characters, and joining the pieces with spaces gives the text back |
| Similarity.CountOverlap | app/api/admin/cleanup-idea-statuses/route.ts:34-39 | the loop counts exactly the words the two sets share |
| Similarity.CompareNormalized | app/api/admin/cleanup-idea-statuses/route.ts:23-42 | the comparison of two normalised texts is equality, or else non-empty word sets whose overlap is at least four fifths of the larger |
| Similarity.AreQuestionsSimilar | app/api/admin/cleanup-idea-statuses/route.ts:19-43 | the method's answer is the similarity relation on the two questions |
| Similarity.SimilarReflexive | app/api/admin/cleanup-idea-statuses/route.ts:20-25 | every question is similar to itself, the empty one included |
| Similarity.SimilarSymmetric | app/api/admin/cleanup-idea-statuses/route.ts:19-43 | similarity does not depend on the order of the two questions |
| Similarity.SimilarIgnoresCase | app/api/admin/cleanup-idea-statuses/route.ts:19-43 | similarity ignores ASCII case on either side |
| Similarity.NoWordsNoMatch | app/api/admin/cleanup-idea-statuses/route.ts:27-32 | texts that normalise differently never match when one of them has no word longer than two characters |
| Similarity.MatchThreshold | app/api/admin/cleanup-idea-statuses/route.ts:34-42 | otherwise they match exactly when five times the overlap is at least four times the larger word count |
| Similarity.MatchNeedsCloseSizes | app/api/admin/cleanup-idea-statuses/route.ts:27-42 | two differently normalised texts can only match if the smaller word set has at least four fifths as many words as the larger |
| Cleanup.FirstMatchFound | app/api/admin/cleanup-idea-statuses/route.ts:89-97 | the match found is similar to the idea, and no earlier published question is |
| Cleanup.FirstMatchNone | app/api/admin/cleanup-idea-statuses/route.ts:89-97 | no match is found exactly when no published question is similar |
| Cleanup.FindMatch | app/api/admin/cleanup-idea-statuses/route.ts:89-97 | the inner loop with its `break` returns the first similar question's position, or none |
| Cleanup.UpdatedMeansGenerated | app/api/admin/cleanup-idea-statuses/route.ts:99-163 | an idea reported `updated` names the first similar published question and is now `generated`, processed at that question's creation time, and linked to it when the first update succeeded |
| Cleanup.OthersUntouched | app/api/admin/cleanup-idea-statuses/route.ts:138-172 | an idea reported `no_match` or `error` keeps its row unchanged; an `error` entry comes from an update that did not get through and carries the store's message, the retry's after a missing-column error |
| Cleanup.NoMatchMeansNoneSimilar | app/api/admin/cleanup-idea-statuses/route.ts:164-172 | an idea is reported `no_match` exactly when no published question is similar to it |
| Cleanup.NotFoundCountsFailures | app/api/admin/cleanup-idea-statuses/route.ts:175-181 | the not-found count is the total minus the updated ones, so failed updates count as not found |
| Cleanup.CleanOne | app/api/admin/cleanup-idea-statuses/route.ts:85-173 | one waiting idea's entry and its new row are as the matching and update rules say; no other row changes |
| Cleanup.CleanupIdeaStatuses | app/api/admin/cleanup-idea-statuses/route.ts:45-189 | unauthenticated requests and failing queries change nothing; otherwise there is one entry per waiting idea, in order, `updated` is at most the total and `notFound` is the rest, each idea's row is as its entry says, and no question changes |
| BulkImport.TagsOf | app/api/admin/bulk-import-ideas/route.ts:25 | an array of tags is kept, a non-empty scalar is wrapped in a one-element list, and anything else gives none |
| BulkImport.NormalizeIdea | app/api/admin/bulk-import-ideas/route.ts:22-28 | the prepared row has the trimmed question (empty when absent), the given category or `general_health` when it is absent or empty, the tags as given (a truthy scalar wrapped in a list), the trimmed notes or none when nothing is left, the priority unless it is absent or 0, status `pending`, and no processing data |
| BulkImport.WithQuestion | app/api/admin/bulk-import-ideas/route.ts:29 | the filter keeps only rows with a non-empty question and is never longer than its input |
| BulkImport.ValidIdeas | app/api/admin/bulk-import-ideas/route.ts:22-29 | the rows to insert all have a question, and there are no more of them than submitted ideas |
| BulkImport.ValidIdeasAppend | app/api/admin/bulk-import-ideas/route.ts:22-29 | the filter works idea by idea, so the submitted order is kept |
| BulkImport.ValidIdeasKeeps | app/api/admin/bulk-import-ideas/route.ts:29 | every submitted idea with a question is imported, normalised |
| BulkImport.ValidIdeasFrom | app/api/admin/bulk-import-ideas/route.ts:22-29 | every imported row is the normalisation of a submitted idea and has a trimmed, non-empty question |
| BulkImport.Batches | app/api/admin/bulk-import-ideas/route.ts:42-43 | each batch holds between 1 and 50 rows |
| BulkImport.BatchesCover | app/api/admin/bulk-import-ideas/route.ts:42-43 | the batches cover the rows exactly once, in order |
| BulkImport.BatchCount | app/api/admin/bulk-import-ideas/route.ts:39-43 | there are `ceil(n / 50)` batches |
| BulkImport.BatchAt | app/api/admin/bulk-import-ideas/route.ts:42-43 | batch `k` is the slice starting at row `50 k`, 50 rows long except possibly the last |
| BulkImport.BatchResultsAt | app/api/admin/bulk-import-ideas/route.ts:44-54 | batches are numbered consecutively, and a batch is reported inserted, with its row count, exactly when its insert succeeds |
| BulkImport.TotalIsStored | app/api/admin/bulk-import-ideas/route.ts:57 | the reported total equals the number of rows actually stored |
| BulkImport.InsertedAtMostTotal | app/api/admin/bulk-import-ideas/route.ts:57-62 | `inserted` never exceeds `total`, and equals it when no batch fails |
| BulkImport.InsertInBatches | app/api/admin/bulk-import-ideas/route.ts:39-55 | the loop reports one result per batch, carries on after a failed batch, and stores exactly the rows of the successful batches, in order |
| BulkImport.BulkImportIdeas | app/api/admin/bulk-import-ideas/route.ts:5-72 | unauthenticated, unreadable, non-array and empty imports are refused with nothing stored; otherwise `total` is the number of valid ideas, the results are the batches', `inserted` is their sum and at most `total`, and exactly the successful batches' rows are stored |
| IdeasCreate.RecordOf | app/api/ideas/create/route.ts:29-38 | the inserted record has the trimmed question, the category as given, the tags or an empty list, the trimmed notes or none when nothing is left, the priority unless it is absent or 0, and status `pending` |
| IdeasCreate.CreateIdea | app/api/ideas/create/route.ts:5-58 | 401 before anything else; 500 for an unreadable body; 400 for a missing or blank question, and then 400 for a missing category; an insert into `hack_ideas` happens exactly when both are present, and its answer is either the created idea or a 400 carrying the store's message, or `Failed to create idea` when that message is empty |
| IdeasCreate.QuestionCheckedFirst | app/api/ideas/create/route.ts:15-27 | a request missing both the question and the category is refused for its question |
| IdeasCreate.PaddingIgnored | app/api/ideas/create/route.ts:15-38 | surrounding whitespace on the question changes neither the validation nor the record |
| QuestionsCreate.WithPublishDate | app/api/questions/create/route.ts:23-25 | only the publication date may change, a published payload always ends up dated, and a payload that already has a date is unchanged |
| QuestionsCreate.WithPublishDateWhen | app/api/questions/create/route.ts:23-25 | the date is set exactly for a published payload that has none, and is then the current time |
| QuestionsCreate.WithPublishDateIdempotent | app/api/questions/create/route.ts:23-25 | filling in the date twice is filling it in once, whatever the second clock reading |
| QuestionsCreate.QuestionPayload.StampPublishDate | app/api/questions/create/route.ts:23-25 | stamping in place leaves the payload as the date rule says |
| QuestionsCreate.CreateQuestion | app/api/questions/create/route.ts:5-44 | 401, then 500 for an unreadable body, then 400 when question, slug or category is missing; only then is the payload stamped and written, and the store's answer decides between the created question and a 400 with its message |
| QuestionsCreate.PublishedWritesAreDated | app/api/questions/create/route.ts:15-31 | every question this endpoint writes as published carries a publication date, and stamping keeps the required fields |
| Subscribe.NormalizeEmail | app/api/subscribe/route.ts:18 | the stored address is the address trimmed and lower-cased, in either order, so it is trimmed and holds no upper-case ASCII letter |
| Subscribe.NormalizeEmailIdempotent | app/api/subscribe/route.ts:18 | a stored address normalises to itself |
| Subscribe.NormalizeEmailIgnoresCaseAndPadding | app/api/subscribe/route.ts:18 | addresses that differ only in ASCII case and surrounding whitespace are stored alike |
| Subscribe.StoredKeepsAt | app/api/subscribe/route.ts:8-18 | an address accepted for containing `@` still contains it once stored |
| Subscribe.SubscribeEmail | app/api/subscribe/route.ts:4-38 | an unreadable body gives 500; a missing address or one without `@` gives 400 and no insert; otherwise the normalised address is inserted, and the store's answer gives `Subscribed`, `Already subscribed` for code 23505, or 400 with the store's own message |
| AdminGate.Gate | middleware.ts:4-23 | the login page always passes; paths outside the `/admin` prefix pass; other admin paths pass exactly when the session cookie is `authenticated`; any redirect goes to the login page |
| AdminGate.RedirectTerminates | middleware.ts:8-18 | the redirect target passes whatever the cookie, so there is no redirect loop |
| AdminGate.SigningInOnlyHelps | middleware.ts:13-20 | a request that passes still passes once signed in |
| AdminGate.PrefixIsTextual | middleware.ts:13-19 | the prefix test is on characters: called on `/administrator` without the cookie, the middleware function redirects to the login page (the deployed matcher never calls it on that path) |
| EnhanceMarkdown.SourceListLines | lib/enhance-markdown.ts:21-24 | read line by line, the source list is the `- title: url` lines followed by the `- url` lines |
| EnhanceMarkdown.SourceListEmpty | lib/enhance-markdown.ts:21-24 | no evidence and no sources give an empty list |
| EnhanceMarkdown.DropOpening | lib/enhance-markdown.ts:78 | what is removed is the fence followed by one line break when the text has one there, and the fence alone otherwise |
| EnhanceMarkdown.DropClosing | lib/enhance-markdown.ts:78 | a text ending with a fence loses that fence and the one line break before it if there is one; a text without a closing fence is unchanged |
| EnhanceMarkdown.Unfence | lib/enhance-markdown.ts:77-81 | fence removal never lengthens the text and leaves a text that starts with no fence unchanged; what it cuts from a fenced text is stated by UnfenceParts |
| EnhanceMarkdown.UnfenceParts | lib/enhance-markdown.ts:77-81 | a fenced text is the removed opening (the `markdown`-tagged fence whenever the text starts with it, else the plain fence, with its line break if any), the result, and the removed closing (nothing, or the fence with the line break before it if any) |
| EnhanceMarkdown.CleanResponse | lib/enhance-markdown.ts:76-83 | the cleaned answer is trimmed, and an answer that does not start with a fence is only trimmed |
| EnhanceMarkdown.Enhance | lib/enhance-markdown.ts:70-83 | a missing or empty answer is an error; any other answer comes back trimmed |
| EnhanceMarkdown.UnwrapMarkdownFence | lib/enhance-markdown.ts:77-78 | a body wrapped in a `markdown` fence comes back as the trimmed body |
| EnhanceMarkdown.UnwrapPlainFence | lib/enhance-markdown.ts:79-80 | a body wrapped in a plain fence comes back as the trimmed body |
| EnhanceMarkdown.CleanUnfencedIdempotent | lib/enhance-markdown.ts:76-83 | cleaning an answer that does not start with a fence twice is cleaning it once |
| DailyScript.VerdictOf | scripts/generateQuestionsDaily.ts:53-82 | the script's verdicts, each stated exactly: a thrown run is fatal; no success with failures is a failure; successes with failures are partial; no failure with a success or a met quota is complete; anything else is "nothing generated" |
| DailyScript.ExitCodeOf | scripts/generateQuestionsDaily.ts:53-82 | the code is 0 or 1, and 1 exactly for a failed or fatal run |
| DailyScript.ExitCode | scripts/generateQuestionsDaily.ts:53-82 | the exit code is 1 exactly when the run threw or published nothing while some idea failed |
| DailyScript.AnySuccessExitsZero | scripts/generateQuestionsDaily.ts:57-63 | publishing anything exits with 0, whatever else failed |
| DailyScript.NoFailureExitsZero | scripts/generateQuestionsDaily.ts:61-67 | a run without failures exits with 0, even when it published nothing |
| DailyScript.EarlyStopExitsZero | scripts/generateQuestionsDaily.ts:61-67 | runs that stop before handling any idea exit with 0 |
| DailyScript.FailingRunPublishedNothing | scripts/generateQuestionsDaily.ts:53-56 | a run that exits with 1 without throwing had failures and left today's total unchanged |
| DailyScript.RunScript | scripts/generateQuestionsDaily.ts:15-83 | the script runs the pipeline with five articles and a pool of fifty, publishes at most five, and exits with 1 only when, if the run did not throw, nothing was published; only pool ideas change, at most five published questions are appended, and a run that exits with 1 leaves the questions as they were |

## Left out

- Unicode: `toLowerCase` and `toUpperCase` are modelled on ASCII letters only. Other characters pass through unchanged. JavaScript's whitespace set for `trim` and `\s` is written out in `Text.IsSpace`.
- Clock, randomness and I/O:
  - The current time is a parameter, and a publication timestamp is an uninterpreted value.
  - The UTC day window behind today's count is not modelled; the count is an input.
  - The shuffle is any permutation of the filtered pool; `Math.random` is not modelled.
  - Console output and `process.exit` are not modelled; the exit code is a returned value.
  - The summary and message texts are not modelled; a summary is one of five kinds.
- The store is a value held by the `Store` class. Queries are answered by parameters, and which call fails is decided by fault parameters. Network errors, partial writes and concurrent runs are not modelled.
- The language model and the generator are oracles:
  - `Environment.generate` answers per idea.
  - The generator is assumed to return the `question`, `slug`, `tags` and `sources` fields the pipeline reads (lib/generator/generateDailyQuestions.ts:339-344, 369, 438, 505), from the four arguments the pipeline passes. The `generateQuestionAnswer` of lib/openai.ts:7-22 takes two parameters and returns none of those fields. With it, every idea would throw at line 369 and take the per-idea `catch` of lines 588-609, which marks the idea `error` and records the exception's message.
  - That per-idea `catch` has no path of its own in the model. A `GenFailed` answer leaves the idea in the same state (status `error`, processed now, a failed result) and stands for it.
  - The prompt text and the OpenAI call of the markdown helper are not modelled. Its answer is the helper's input.
  - The enhance-articles endpoint that loops over the helper is not part of this model.
- The category lookup the pipeline imports is not defined in `lib/categories.ts`. It is modelled as a set of known identifiers passed to the run (`known`), and a found category's identifier is the normalised text.
- The alias table of `normalizeCategory` is a Dafny `map`. Keys inherited by a JavaScript object from its prototype (such as `constructor`) are not modelled.
- Fields with the wrong JSON type are not modelled beyond what each endpoint checks: a non-string question, a non-array `ideas` element, and so on. So are the outer `catch` blocks that turn such values into a 500 response.
- Similarity: the threshold `overlap / max >= 0.8` is stated in integers as `5 * overlap >= 4 * max`. Floating-point rounding is not modelled.
- Cleanup.CleanupIdeaStatuses: the idea and question queries are answered by parameters. The model requires those answers to be the waiting ideas and the published questions in creation order, as the queries ask. A question's missing `created_at` (the `|| now` fallback) is not modelled, because stored questions always carry one.
- DailyPipeline.GenerateDailyQuestions: the status writes whose errors the source ignores can fail, and then the idea stays `processing`. "Each selected idea ends in a terminal status" is therefore proved for ideas whose write got through, and the others are shown to stay `processing`.
- DailyPipeline.ProcessSelected: the early exit at the start of each loop turn is kept as a branch the proof shows unreachable, because at most `remaining` ideas are selected.
- DailyPipeline.SelectIdeas: the batch-size equation `|selected| == min(remaining, |unique|)` is stated for runs that reached the selection step. Earlier stops select nothing.
- BulkImport.InsertInBatches: the inserted count of a successful batch is the batch's length. The store returning fewer rows than it inserted (`data?.length || 0`) is not modelled.
- BulkImport.ValidIdeas: its own contract states the length bound and the non-empty question only. That every kept row is trimmed and comes from a submitted idea is stated by `BulkImport.ValidIdeasFrom`.
- GeneratorHelpers.NormalizeCategoryIdempotent: it holds only when the first result is not the empty string. `GeneratorHelpers.NormalizeCategoryBlank` shows the input for which the source's normalisation is not idempotent.
- EnhanceMarkdown.CleanResponse: fence removal is proved for answers of the shape fence, newline, body, newline, closing fence (`EnhanceMarkdown.UnwrapMarkdownFence`, `EnhanceMarkdown.UnwrapPlainFence`). Other fenced shapes are modelled but have no lemma of their own.
- The related-questions query returns the newest published questions of the category in store order, which is creation order. Ordering by a separate `created_at` column is not modelled.
- The middleware's route matcher configuration (`/admin/:path*`, middleware.ts:25-27) is not modelled. The decision function covers every path, including paths such as `/administrator` on which the matcher never runs it, so those are served without the cookie check.
- Authentication (`verifyAdminSession`, the login and logout endpoints and the cookie contents) is a boolean input to each admin endpoint.
