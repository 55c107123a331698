/**
 * The `/rank` endpoint, behind its rate limiter: validation, then one result per resume, the
 * ranking and the summary. The form and the uploaded files arrive as plain values; what the
 * foreign calls did for each resume is part of the input.
 */
module RankService {
  import opened Wrappers
  import opened Text
  import opened Validation
  import opened Ranking
  import opened RateLimit

  const InternalErrorMessage: string := "Internal server error. Please try again."

  /** One uploaded resume: what validation sees of it and what processing it produced. */
  datatype Upload = Upload(meta: FileMeta, outcome: ResumeOutcome)

  datatype Response =
    | TooManyRequests(message: string)
    | BadRequest(message: string)
    | InternalError(message: string)
    | Ranked(results: seq<RankedResult>, summary: Summary)

  function Metas(uploads: seq<Upload>): (r: seq<FileMeta>)
    ensures |r| == |uploads|
  {
    seq(|uploads|, k requires 0 <= k < |uploads| => uploads[k].meta)
  }

  function ResumeFiles(uploads: seq<Upload>): (r: seq<ResumeFile>)
    ensures |r| == |uploads|
  {
    seq(|uploads|, k requires 0 <= k < |uploads| => ResumeFile(uploads[k].meta.filename, uploads[k].outcome))
  }

  /** The results the ranking loop builds, in upload order, before sorting. */
  function BuiltResults(uploads: seq<Upload>): (r: seq<RankedResult>)
    ensures |r| == |uploads|
  {
    var files := ResumeFiles(uploads);
    seq(|files|, k requires 0 <= k < |files| => ResultFor(files[k]))
  }

  /**
   * What `rank_resumes` answers. `jobEmbeddingError` is the message of the exception that
   * cleaning or embedding the job description raised, if any: that one is not caught per file.
   */
  function RankResponse(jobField: Option<string>, uploads: seq<Upload>, jobEmbeddingError: Option<string>): (r: Response)
    ensures !r.TooManyRequests?
    ensures r.BadRequest? ==> r.message != []
    ensures r.InternalError? ==> jobEmbeddingError.Some?
    ensures r.Ranked? ==> |r.results| == |uploads| && r.summary.total == |uploads|
  {
    var errors := RequestErrors(Strip(jobField.GetOr("")), Metas(uploads));
    if errors != [] then BadRequest(ErrorText(errors))
    else if jobEmbeddingError.Some? then InternalError(InternalErrorMessage)
    else
      var ranked := RankedView(BuiltResults(uploads));
      Ranked(ranked, Summarize(ranked))
  }

  /** `rank_resumes`, the route body under the rate limiter. */
  method RankResumes(jobField: Option<string>, uploads: seq<Upload>, jobEmbeddingError: Option<string>)
    returns (resp: Response)
    ensures resp == RankResponse(jobField, uploads, jobEmbeddingError)
  {
    var errors, jdText, files := ValidateRequest(jobField, Metas(uploads));
    if errors != [] {
      return BadRequest(ErrorText(errors));
    }
    if jobEmbeddingError.Some? {
      return InternalError(InternalErrorMessage);
    }
    var results := BuildResults(ResumeFiles(uploads));
    assert results == BuiltResults(uploads);
    var ranked := RankResults(results);
    resp := Ranked(ranked, Summarize(ranked));
  }

  /** A request of `client` at `now`: the rate limiter first, then the route. */
  method HandleRankRequest(limiter: RateLimiter, client: string, now: int,
                           jobField: Option<string>, uploads: seq<Upload>, jobEmbeddingError: Option<string>)
    returns (resp: Response)
    requires limiter.Valid()
    modifies limiter
    ensures limiter.Valid()
    ensures var allowed := |Prune(HistoryOf(old(limiter.history), client), now)| < RateLimitRequests;
      && (allowed ==> resp == RankResponse(jobField, uploads, jobEmbeddingError))
      && (!allowed ==> resp == TooManyRequests(RateLimitMessage))
    ensures var kept := Prune(HistoryOf(old(limiter.history), client), now);
      limiter.history == old(limiter.history)[client := if |kept| < RateLimitRequests then kept + [now] else kept]
    ensures forall c :: c != client ==> HistoryOf(limiter.history, c) == HistoryOf(old(limiter.history), c)
  {
    var allowed := limiter.Admit(client, now);
    if !allowed {
      return TooManyRequests(RateLimitMessage);
    }
    resp := RankResumes(jobField, uploads, jobEmbeddingError);
  }

  /** Any failed validation answers 400 with every message, and nothing is ranked. */
  lemma BadRequestIffInvalid(jobField: Option<string>, uploads: seq<Upload>, jobEmbeddingError: Option<string>)
    ensures var jd := Strip(jobField.GetOr(""));
      RankResponse(jobField, uploads, jobEmbeddingError).BadRequest? <==>
        !(&& MinJobDescriptionLength <= |jd| <= MaxJobDescriptionLength
          && 1 <= |uploads| <= MaxResumeFiles
          && forall k :: 0 <= k < |uploads| ==> !Oversized(uploads[k].meta))
  {
    var jd := Strip(jobField.GetOr(""));
    RequestValidIff(jd, Metas(uploads));
    assert forall k :: 0 <= k < |uploads| ==> Metas(uploads)[k] == uploads[k].meta;
  }

  /**
   * A successful answer: one result per upload, scores non-increasing with ties in upload order,
   * ranks 1..n, the built results rearranged (ranks aside), and a summary equal to that of the
   * results before sorting.
   */
  lemma RankedResponseProperties(jobField: Option<string>, uploads: seq<Upload>, jobEmbeddingError: Option<string>, v: real)
    requires RankResponse(jobField, uploads, jobEmbeddingError).Ranked?
    ensures var resp := RankResponse(jobField, uploads, jobEmbeddingError);
      && |resp.results| == |uploads|
      && (forall k :: 0 <= k < |uploads| ==> resp.results[k].rank == k + 1)
      && SortedByScore(resp.results)
      && multiset(ClearRanks(resp.results)) == multiset(BuiltResults(uploads))
      && WithScore(ClearRanks(resp.results), v) == WithScore(BuiltResults(uploads), v)
      && resp.summary == Summarize(BuiltResults(uploads))
      && resp.summary.total == |uploads|
  {
    var built := BuiltResults(uploads);
    assert forall k :: 0 <= k < |built| ==> built[k].rank == 0;
    RankedViewProperties(built, v);
    SummaryOfRankedView(built);
  }

  /** Every upload whose text could not be read, or whose processing raised, is in the answer with score 0. */
  lemma FailedUploadScoresZero(jobField: Option<string>, uploads: seq<Upload>, jobEmbeddingError: Option<string>, k: nat)
    requires RankResponse(jobField, uploads, jobEmbeddingError).Ranked?
    requires k < |uploads|
    requires var o := uploads[k].outcome;
      o.extracted.Failure? || Unreadable(o.extracted.value) || o.similarity.Failure?
    ensures var results := RankResponse(jobField, uploads, jobEmbeddingError).results;
      exists j :: 0 <= j < |results| && results[j].name == uploads[k].meta.filename && results[j].score == 0.0
  {
    var built := BuiltResults(uploads);
    assert built[k].name == uploads[k].meta.filename && built[k].score == 0.0;
    assert forall i :: 0 <= i < |built| ==> built[i].rank == 0;
    RankedViewProperties(built, 0.0);
    var results := RankedView(built);
    assert built[k] in multiset(ClearRanks(results));
    var j :| 0 <= j < |results| && ClearRanks(results)[j] == built[k];
    assert results[j].name == built[k].name && results[j].score == built[k].score;
  }
}
