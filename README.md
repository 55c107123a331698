# Resume ranking service: verified model of the `/rank` endpoint's logic

This project models, in Dafny, the logic of the Flask ranking service in `backend/app.py`.
The HTTP layer and the machine-learning calls are not modelled. The model covers five pieces:

- **Request validation** (`validate_request`). The job description is stripped and checked by an
  if/elif chain: required, at least 50 characters, at most 50,000. The number of files is checked by
  a second chain: at least one, at most 10. Then every file whose `content_length` is set and above
  5 MiB adds one error naming it. Errors accumulate: every check runs. The 400 response joins the
  messages with `"; "`.
- **Rate limiter** (the `rate_limit` wrapper). It keeps a map from client to the timestamps of the
  requests it let through. Each request first prunes the client's list to the entries inside the
  one-hour window. It is refused when 10 or more entries remain. Otherwise `now` is appended and the
  route runs. It is a class over `map<string, seq<int>>`. It keeps the invariant that no client has
  more than 10 entries.
- **Embedding cache** (`cache_embedding`, `clear_cache`). It keeps two maps side by side: hash to
  embedding and hash to timestamp. A lookup is served from the cache only while the entry is younger
  than one hour. Otherwise the embedding is computed, stored and stamped. It is a class whose
  invariant also says every cached embedding is the embedding of some text with that hash.
- **Assessment** (`analyze_resume_match`). A fixed four-tier classification of the similarity
  score at 0.8, 0.6 and 0.4; the lowest tier is "Limited match". When the language-model call fails,
  the assessment is the score as a one-decimal percentage instead.
- **Ranking and summary** (`rank_resumes`). One result per file. An unreadable file, or one whose
  processing raised, gets score 0. The results are stable-sorted by descending score and ranked 1..n.
  The summary gives the total, the top score (0 when empty) and the average rounded to two decimals
  (0 when empty).

Elapsed time is measured as the code measures it, `(now - t).seconds`. A Python `timedelta`
keeps in `.seconds` only the part below one day. So the model uses `(now - t) % 86400`, which is
never negative. Lemmas spell out the consequences:
- an entry one day older is treated the same as the entry itself (`RateLimit.DayOldEntryStillCounts`,
  `EmbeddingCache.StaleEntryHitsAgainNextDay`);
- a timestamp slightly in the future is dropped (`RateLimit.FutureEntryDropped`).

Modules: `Wrappers` (Option, Result), `Text` (Python's `strip` and `join`), `Timing`
(`timedelta.seconds`), `Numbers` (rounding and percentage formatting), `Validation`, `RateLimit`,
`EmbeddingCache`, `Assessment`, `Ranking`, `RankService` (the route behind its rate limiter).

## Model

| member | source | states |
|---|---|---|
| `Text.TrimStart` | backend/app.py:129 | the first kept character is not whitespace and every dropped character was whitespace |
| `Text.TrimEnd` | backend/app.py:129 | the last kept character is not whitespace and every dropped character was whitespace |
| `Text.Strip` | backend/app.py:129 | `str.strip()` leaves no whitespace (Python's `isspace` set) at either end |
| `Text.StripEmptyIff` | backend/app.py:129-130 | the stripped text is empty exactly when the input is all whitespace, so `not jd_text` tests that |
| `Text.StripIsSlice` | backend/app.py:129 | what `strip()` keeps is one contiguous slice of the input, with only whitespace around it |
| `Text.StripIdempotent` | backend/app.py:129 | stripping twice is stripping once |
| `Text.Join` | backend/app.py:188 | joining a single message gives that message unchanged |
| `Text.JoinEmptyIff` | backend/app.py:187-188 | joining non-empty messages with `"; "` gives the empty text exactly when there are no messages |
| `Text.JoinStartsWithFirst` | backend/app.py:188 | the joined error text starts with the first message |
| `Timing.TimedeltaSeconds` | backend/app.py:62 | `(now - t).seconds` is in [0, 86400) and differs from the true difference by whole days |
| `Timing.TimedeltaSecondsWithinDay` | backend/app.py:62 | below one day, `.seconds` is the true elapsed time |
| `Timing.TimedeltaSecondsForgetsDays` | backend/app.py:85 | a timestamp one day older gives the same `.seconds` |
| `Validation.Message` | backend/app.py:131-147 | each validation message is non-empty |
| `Validation.JobDescriptionErrors` | backend/app.py:129-135 | at most one job-description error: "required" iff the stripped text is empty, "at least 50" iff length in 1..49, "exceeds maximum" iff length > 50000, none iff length in [50, 50000] |
| `Validation.FileCountErrors` | backend/app.py:138-142 | at most one count error: "at least one" iff no files, "maximum 10" iff more than 10, none iff 1..10 files |
| `Validation.FileSizeErrors` | backend/app.py:144-147 | the size loop yields at most one error per file, and each error names a file that is oversized |
| `Validation.RequestErrors` | backend/app.py:124-149 | everything validation reports: at most two errors beyond one per file, and only the first two places can hold a job-description or file-count error |
| `Validation.ErrorText` | backend/app.py:187-188 | the joined 400 message is empty exactly when there are no errors |
| `Validation.ValidateRequest` | backend/app.py:124-149 | the loop's errors are the job-description errors, then the count errors, then one error per oversized file in file order; it returns the stripped text and the files unchanged |
| `Validation.FileSizeErrorsAppend` | backend/app.py:145-147 | the size errors of a concatenation of file lists are the errors of each part, in order |
| `Validation.FileSizeErrorsSingle` | backend/app.py:146-147 | one file gives exactly one error naming it when its length is set, non-zero and above 5 MiB, and none otherwise |
| `Validation.FileSizeErrorsEmptyIff` | backend/app.py:145-147 | there are no size errors exactly when no file is oversized |
| `Validation.FileSizeErrorsCount` | backend/app.py:145-147 | the number of size errors equals the number of oversized files |
| `Validation.RequestValidIff` | backend/app.py:124-149 | a request has no errors exactly when the text has 50..50000 characters, there are 1..10 files and none is oversized |
| `Validation.TooManyFilesKeepsSizeErrors` | backend/app.py:139-147 | with more than 10 files, the count error is followed by every size error: errors accumulate and none is dropped |
| `RateLimit.Prune` | backend/app.py:59-63 | the pruned history is no longer than the original, and holds exactly the original entries whose `.seconds` is below 3600 |
| `RateLimit.PruneAppend` | backend/app.py:60-63 | pruning keeps the order of the entries (it distributes over concatenation) |
| `RateLimit.PruneIdempotent` | backend/app.py:60-63 | pruning twice at the same instant is pruning once |
| `RateLimit.RecentEntryKept` | backend/app.py:62 | an entry less than 3600 true seconds old is always kept |
| `RateLimit.DayOldEntryStillCounts` | backend/app.py:62 | an entry one day older is kept exactly when the entry itself is, so a request 24 h 10 s old still counts |
| `RateLimit.FutureEntryDropped` | backend/app.py:62 | a timestamp up to 23 hours in the future is dropped |
| `RateLimit.AdmittedRequestCounts` | backend/app.py:60-72 | after an admitted request, a retry in the same second sees one more entry in the window |
| `RateLimit.RateLimiter.constructor` | backend/app.py:39 | the history starts empty and within bounds |
| `RateLimit.RateLimiter.Admit` | backend/app.py:55-73 | the pruned history is stored back; the request is allowed iff fewer than 10 entries remain; only then is exactly `now` appended; other clients' histories are unchanged; every history stays at most 10 long |
| `EmbeddingCache.Cache.constructor` | backend/app.py:34-35 | both maps start empty |
| `EmbeddingCache.Cache.CacheEmbedding` | backend/app.py:78-93 | on a hit it returns the stored embedding and changes neither map; on a miss it returns `embed(text)`, stores it with timestamp `now` and touches no other key; the two maps keep one key set; the result is always the embedding of a text with the same hash, so it is `embed(text)` when the hash is injective |
| `EmbeddingCache.Cache.Clear` | backend/app.py:269-280 | both maps are emptied and the count of embeddings held before is returned |
| `EmbeddingCache.StoredEntryHitsWithinTtl` | backend/app.py:83-91 | an entry stored at `t` is a hit for every lookup less than 3600 s later |
| `EmbeddingCache.StoreLeavesOtherKeys` | backend/app.py:90-91 | storing one key changes no other key's hit or miss |
| `EmbeddingCache.StaleEntryHitsAgainNextDay` | backend/app.py:85 | by the `.seconds` measure, an entry is a hit one day later exactly when it is a hit now |
| `Numbers.Round2` | backend/app.py:224 | `round(x, 2)` is a whole number of hundredths within half a hundredth of `x` |
| `Numbers.Round2Hundredths` | backend/app.py:254 | rounding a value that already has two decimals gives it back |
| `Numbers.Round2Monotone` | backend/app.py:224 | rounding keeps the order of scores |
| `Numbers.DigitChar` | backend/app.py:119 | a digit value becomes a character '0'..'9' |
| `Numbers.NatToString` | backend/app.py:119 | the decimal text of a number is non-empty, all digits, with no leading zero |
| `Numbers.NatToStringRoundTrip` | backend/app.py:119 | reading the decimal text back gives the number |
| `Numbers.FormatPercent1` | backend/app.py:119 | `f"{score:.1%}"` ends in a point, one decimal digit and a percent sign |
| `Numbers.DigitCharValue` | backend/app.py:119 | the digit character of `d` reads back as `d` |
| `Numbers.PercentTextValue` | backend/app.py:119 | a sign, the digits of `m / 10`, a point, the last digit of `m` and "%" read back as `m` tenths, negative exactly when a minus sign leads |
| `Numbers.FormatPercent1Value` | backend/app.py:119 | the percentage text reads back as `score * 1000` rounded to the nearest tenth of a percent (within half a tenth), with a minus sign exactly when that is negative |
| `Assessment.TierOf` | backend/app.py:103-110 | Excellent iff score >= 0.8, Good iff 0.6 <= score < 0.8, Fair iff 0.4 <= score < 0.6, Limited iff score < 0.4 |
| `Assessment.TierMonotone` | backend/app.py:103-110 | a higher score never earns a lower tier |
| `Assessment.TierText` | backend/app.py:104-110 | every assessment text is non-empty |
| `Assessment.TierTextInjective` | backend/app.py:104-110 | the four texts are distinct, so the text identifies the tier |
| `Assessment.AnalyzeResumeMatch` | backend/app.py:96-121 | the assessment is never empty; when the explanation call succeeds, the explanation is kept as given and the assessment is the Excellent text iff score >= 0.8, Good iff 0.6 <= score < 0.8, Fair iff 0.4 <= score < 0.6, Limited iff score < 0.4; when it raises, the explanation is the fixed apology and the assessment is "Score: " followed by a percentage that reads back as the score to the nearest tenth of a percent |
| `Ranking.ResultFor` | backend/app.py:199-238 | the result carries the file's name and no rank yet; it has an assessment exactly when extraction succeeded, the stripped text has at least 10 characters and scoring succeeded; otherwise the score is 0 and the explanation is the unreadable-text notice, or "Error processing file: " with the message of the exception raised by extraction or by scoring |
| `Ranking.BuildResults` | backend/app.py:196-238 | the loop produces exactly one result per file, in file order |
| `Ranking.Insert` | backend/app.py:241 | inserting adds exactly one element |
| `Ranking.SortDesc` | backend/app.py:241 | the sort keeps the length |
| `Ranking.InsertPermutation` | backend/app.py:241 | insertion adds exactly one element to the multiset |
| `Ranking.InsertSorted` | backend/app.py:241 | insertion into a sorted list keeps it sorted |
| `Ranking.InsertWithScore` | backend/app.py:241 | insertion places an element ahead of the results that share its score |
| `Ranking.SortDescSorted` | backend/app.py:241 | the sorted scores are non-increasing |
| `Ranking.SortDescPermutation` | backend/app.py:241 | the sort returns a permutation of its input |
| `Ranking.SortDescStable` | backend/app.py:241 | the sort is stable: for every score, the results with it keep their original relative order |
| `Ranking.RankedView` | backend/app.py:240-245 | the ranked list has one entry per result and rank = position + 1 |
| `Ranking.ClearRanks` | backend/app.py:244-245 | resetting ranks keeps the length |
| `Ranking.RankResults` | backend/app.py:240-245 | the rank loop yields the sorted results with rank = position + 1 |
| `Ranking.SortOfUnranked` | backend/app.py:240-241 | sorting results that have no rank yet yields results with no rank |
| `Ranking.RankedViewProperties` | backend/app.py:240-245 | the ranked list has one entry per result, rank = position + 1, non-increasing scores, the same results (ranks aside) and the original order among equal scores |
| `Ranking.TopScore` | backend/app.py:253 | `max(..., default=0)` is 0 for no results, and otherwise one of the scores and no less than any of them |
| `Ranking.Summarize` | backend/app.py:249-256 | total = number of results; top score and average are 0 for no results; otherwise the top score bounds every score and the average is within half a hundredth of the mean score |
| `Ranking.SumInsert` | backend/app.py:254 | insertion adds the inserted score to the sum |
| `Ranking.SumSortDesc` | backend/app.py:254 | sorting does not change the sum of the scores |
| `Ranking.TopScoreOfPermutation` | backend/app.py:253 | the top score depends only on the multiset of results |
| `Ranking.ScoresIgnoreRanks` | backend/app.py:244-254 | the sum and top score do not depend on the ranks |
| `Ranking.SumIgnoresRanks` | backend/app.py:244-254 | the sum of the scores does not depend on the ranks |
| `Ranking.SummaryOfRankedView` | backend/app.py:249-254 | total, top score and average of the ranked list equal those of the results before sorting |
| `Ranking.TopScoreIsFirst` | backend/app.py:241-253 | for a non-empty list the top score is the score of rank 1 |
| `Ranking.SumBounds` | backend/app.py:254 | the sum of n scores between lo and hi lies between n*lo and n*hi |
| `Ranking.MeanWithinScores` | backend/app.py:254 | the unrounded average lies between the lowest score and the top score |
| `RankService.Metas` | backend/app.py:138 | one file record per upload |
| `RankService.ResumeFiles` | backend/app.py:198 | one resume per upload |
| `RankService.BuiltResults` | backend/app.py:196-238 | one built result per upload |
| `RankService.RankResponse` | backend/app.py:180-266 | the route itself never answers "too many requests"; a 400 carries a non-empty message; a 500 means the job-description embedding raised; a ranked answer has one result per upload and total = number of uploads |
| `RankService.RankResumes` | backend/app.py:180-266 | the route validates, answers 400 with the joined messages, 500 when the job-description embedding raises, and otherwise the ranked results with their summary |
| `RankService.HandleRankRequest` | backend/app.py:52-75 | a refused request gets the rate-limit answer and the route does not run; an allowed one gets the route's answer; the client's history becomes its pruned history, plus `now` when allowed; other clients' histories are unchanged; the limiter's bound is kept |
| `RankService.BadRequestIffInvalid` | backend/app.py:186-188 | the answer is 400 exactly when the stripped text is outside [50, 50000] characters, or the file count is outside 1..10, or some file is oversized |
| `RankService.RankedResponseProperties` | backend/app.py:196-256 | a ranked answer has one result per upload, ranks 1..n, non-increasing scores, the built results (ranks aside) with equal scores in upload order, and total = number of uploads |
| `RankService.FailedUploadScoresZero` | backend/app.py:198-238 | every upload whose text is unreadable or whose processing raised appears in the answer, under its name, with score 0 |

## Left out

- Flask plumbing is not modelled: `request`, `jsonify`, CORS, route decorators, status codes (they appear as `Response` constructors), the error handlers at backend/app.py:287-299 and `app.run`. The form field and the file metadata are plain values.
- The `/health` and `/stats` endpoints only report map sizes and constants, so they are not modelled. Neither is the `processed_at` timestamp, or the `details` field shown in debug mode.
- `print` logging and traceback printing are left out. They have no effect on results.
- Threading (`threaded=True`) is left out. The shared maps are modelled as single-threaded, sequential state.
- Foreign calls become inputs or parameters:
  - `extract_text_from_pdf`, `clean_text`, `similarity_score` and `explain` are per-file `Result`/`Option` inputs;
  - `hashlib.md5` and `get_embedding` are function fields of the cache;
  - `datetime.now` is an integer `now`;
  - backend/src/similarity.py (a floating-point cosine similarity) is not part of this model, and the score is an uninterpreted real.
- `get_embedding` is taken to be deterministic, because it is modelled as a function.
- Timestamps are whole seconds. `.seconds` drops the microseconds of the difference, not of each timestamp, so rounding both timestamps to seconds can move the 3600-second boundary by one second. For example, an entry at 10.9 s seen at 3610.1 s has `.seconds` 3599 and is kept, while the whole-second model sees 3600 and drops it.
- EmbeddingCache.Cache.CacheEmbedding: `embed` cannot fail. In the code, a `get_embedding` that raises (backend/app.py:89) leaves both maps unchanged, and the exception reaches the route's 500 handler.
- EmbeddingCache.Cache.CacheEmbedding: uses one `now` for both `datetime.now()` calls (the check and the store). In the code, the store happens after `get_embedding` has run.
- The route's own calls to the cache are not modelled: `RankResumes` takes the scores as inputs and does not update the cache. The cache operations themselves are modelled; wiring them to the route would add nothing, since the scores are uninterpreted anyway.
- An `extract_text_from_pdf` that returns `None` is modelled as returning the empty string, which takes the same branch.
- A result that failed has no `rank` key until the rank loop, and no `assessment` key. The model represents these as `rank` 0 and `assessment` None. Python's integer `0` score is the real `0.0`.
- Numbers.Round2: rounds halves up on exact reals. Python's `round` rounds the binary float half to even, so the two can differ on ties and in the last binary digit.
- Numbers.FormatPercent1: rounds halves up (see `Numbers.FormatPercent1Value`). Python formats the binary float half to even and prints `-0.0%` for tiny negative scores; the model prints `0.0%`.
- Assessment.TierOf: compares against the exact reals 0.8, 0.6 and 0.4, not their binary float approximations.
- Ranking.SumScores: an exact real sum. Python's `sum` of floats rounds at each step.
