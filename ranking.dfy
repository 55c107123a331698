/**
 * The ranking step of the endpoint: one result per uploaded resume (score 0 when its text could
 * not be read or its processing raised), a stable sort by descending score, ranks 1..n, and the
 * summary figures (count, top score, rounded average).
 */
module Ranking {
  import opened Wrappers
  import opened Text
  import opened Numbers
  import opened Assessment

  const MinResumeTextLength: int := 10
  const UnreadableExplanation: string := "Unable to extract text from PDF"
  const ErrorPrefix: string := "Error processing file: "

  /**
   * One entry of the `results` list. `assessment` is absent for the resumes that scored 0 by
   * failure; `rank` is 0 until the ranks are assigned.
   */
  datatype RankedResult = RankedResult(
    name: string,
    score: real,
    explanation: string,
    assessment: Option<string>,
    rank: nat)

  /**
   * What the foreign calls did for one resume: the text `extract_text_from_pdf` returned (or the
   * message of the exception it raised); the similarity score that `clean_text`, `cache_embedding`
   * and `similarity_score` produced from it (or the message of the exception one of them raised);
   * and the explanation `explain` wrote (None when it raised).
   */
  datatype ResumeOutcome = ResumeOutcome(
    extracted: Result<string, string>,
    similarity: Result<real, string>,
    explanation: Option<string>)

  datatype ResumeFile = ResumeFile(filename: string, outcome: ResumeOutcome)

  /** `not resume_text or len(resume_text.strip()) < 10`. */
  predicate Unreadable(text: string) {
    |Strip(text)| < MinResumeTextLength
  }

  /** The body of the ranking loop for one file. */
  function ResultFor(f: ResumeFile): (r: RankedResult)
    ensures r.name == f.filename && r.rank == 0
    ensures r.assessment.Some? <==>
      f.outcome.extracted.Success? && !Unreadable(f.outcome.extracted.value) && f.outcome.similarity.Success?
    ensures r.assessment.None? ==> r.score == 0.0
    ensures r.assessment.Some? ==>
      && r.score == Round2(f.outcome.similarity.value * 100.0)
      && Analysis(r.assessment.value, r.explanation)
         == AnalyzeResumeMatch(f.outcome.similarity.value, f.outcome.explanation)
    ensures f.outcome.extracted.Failure? ==> r.explanation == ErrorPrefix + f.outcome.extracted.error
    ensures f.outcome.extracted.Success? && Unreadable(f.outcome.extracted.value) ==>
      r.explanation == UnreadableExplanation
    ensures f.outcome.extracted.Success? && !Unreadable(f.outcome.extracted.value) && f.outcome.similarity.Failure? ==>
      r.explanation == ErrorPrefix + f.outcome.similarity.error
  {
    match f.outcome.extracted
    case Failure(message) => RankedResult(f.filename, 0.0, ErrorPrefix + message, None, 0)
    case Success(text) =>
      if Unreadable(text) then RankedResult(f.filename, 0.0, UnreadableExplanation, None, 0)
      else
        match f.outcome.similarity
        case Failure(message) => RankedResult(f.filename, 0.0, ErrorPrefix + message, None, 0)
        case Success(score) =>
          var analysis := AnalyzeResumeMatch(score, f.outcome.explanation);
          RankedResult(f.filename, Round2(score * 100.0), analysis.detailedAnalysis, Some(analysis.assessment), 0)
  }

  /** The ranking loop: appends one result per file, in file order. */
  method BuildResults(files: seq<ResumeFile>) returns (results: seq<RankedResult>)
    ensures |results| == |files|
    ensures forall k :: 0 <= k < |files| ==> results[k] == ResultFor(files[k])
  {
    results := [];
    var i := 0;
    while i < |files|
      invariant 0 <= i <= |files|
      invariant |results| == i
      invariant forall k :: 0 <= k < i ==> results[k] == ResultFor(files[k])
    {
      results := results + [ResultFor(files[i])];
      i := i + 1;
    }
  }

  // ---------------------------------------------------------------------------------------------
  // Sorting by descending score, stably (Python's `list.sort(key=..., reverse=True)`)

  predicate SortedByScore(s: seq<RankedResult>) {
    forall i, j :: 0 <= i < j < |s| ==> s[i].score >= s[j].score
  }

  /** Places `x` before the first element whose score is not above its own. */
  function Insert(x: RankedResult, s: seq<RankedResult>): (r: seq<RankedResult>)
    ensures |r| == |s| + 1
  {
    if s == [] || x.score >= s[0].score then [x] + s else [s[0]] + Insert(x, s[1..])
  }

  /** The sorted list: each element inserted in front of the sorted rest, ahead of its ties. */
  function SortDesc(s: seq<RankedResult>): (r: seq<RankedResult>)
    ensures |r| == |s|
  {
    if s == [] then [] else Insert(s[0], SortDesc(s[1..]))
  }

  /** The results with a given score, in the order they appear. */
  function WithScore(s: seq<RankedResult>, v: real): seq<RankedResult> {
    if s == [] then [] else (if s[0].score == v then [s[0]] else []) + WithScore(s[1..], v)
  }

  lemma {:induction false} InsertPermutation(x: RankedResult, s: seq<RankedResult>)
    ensures multiset(Insert(x, s)) == multiset(s) + multiset{x}
  {
    if s != [] && x.score < s[0].score {
      InsertPermutation(x, s[1..]);
      assert s == [s[0]] + s[1..];
    }
  }

  lemma {:induction false} InsertSorted(x: RankedResult, s: seq<RankedResult>)
    requires SortedByScore(s)
    ensures SortedByScore(Insert(x, s))
    ensures Insert(x, s)[0] == x || (s != [] && Insert(x, s)[0] == s[0])
  {
    if s != [] && x.score < s[0].score {
      InsertSorted(x, s[1..]);
      var r := Insert(x, s[1..]);
      assert Insert(x, s) == [s[0]] + r;
      assert r[0] == x || r[0] == s[1];
      forall i, j | 0 <= i < j < |r| + 1
        ensures ([s[0]] + r)[i].score >= ([s[0]] + r)[j].score
      {
        if i == 0 {
          assert r[0].score <= s[0].score;
          assert r[j - 1].score <= r[0].score || j - 1 == 0;
        }
      }
    }
  }

  lemma {:induction false} InsertWithScore(x: RankedResult, s: seq<RankedResult>, v: real)
    ensures WithScore(Insert(x, s), v) == (if x.score == v then [x] else []) + WithScore(s, v)
  {
    if s == [] || x.score >= s[0].score {
      assert ([x] + s)[1..] == s;
    } else {
      var r := Insert(x, s[1..]);
      InsertWithScore(x, s[1..], v);
      assert Insert(x, s) == [s[0]] + r;
      assert ([s[0]] + r)[1..] == r;
      var rest := WithScore(s[1..], v);
      assert WithScore(s, v) == (if s[0].score == v then [s[0]] else []) + rest;
      if x.score == v {
        assert s[0].score != v;
        assert WithScore(Insert(x, s), v) == WithScore(r, v) == [x] + rest;
      } else {
        assert WithScore(r, v) == rest;
      }
    }
  }

  /** The sort returns the scores in non-increasing order. */
  lemma {:induction false} SortDescSorted(s: seq<RankedResult>)
    ensures SortedByScore(SortDesc(s))
  {
    if s != [] {
      SortDescSorted(s[1..]);
      InsertSorted(s[0], SortDesc(s[1..]));
    }
  }

  /** The sort returns exactly the results it was given. */
  lemma {:induction false} SortDescPermutation(s: seq<RankedResult>)
    ensures multiset(SortDesc(s)) == multiset(s)
  {
    if s != [] {
      SortDescPermutation(s[1..]);
      InsertPermutation(s[0], SortDesc(s[1..]));
      assert s == [s[0]] + s[1..];
    }
  }

  /** The sort is stable: the results of any one score keep their original relative order. */
  lemma {:induction false} SortDescStable(s: seq<RankedResult>, v: real)
    ensures WithScore(SortDesc(s), v) == WithScore(s, v)
  {
    if s != [] {
      SortDescStable(s[1..], v);
      InsertWithScore(s[0], SortDesc(s[1..]), v);
    }
  }

  // ---------------------------------------------------------------------------------------------
  // Ranks

  /** The sorted results with `rank` set to position + 1. */
  function RankedView(results: seq<RankedResult>): (r: seq<RankedResult>)
    ensures |r| == |results|
    ensures forall k :: 0 <= k < |r| ==> r[k].rank == k + 1
  {
    var sorted := SortDesc(results);
    seq(|sorted|, k requires 0 <= k < |sorted| => sorted[k].(rank := k + 1))
  }

  /** The results as they were before ranking: every `rank` reset to 0. */
  function ClearRanks(s: seq<RankedResult>): (r: seq<RankedResult>)
    ensures |r| == |s|
  {
    seq(|s|, k requires 0 <= k < |s| => s[k].(rank := 0))
  }

  /** `results.sort(...)` followed by the loop that numbers the results. */
  method RankResults(results: seq<RankedResult>) returns (ranked: seq<RankedResult>)
    ensures ranked == RankedView(results)
  {
    ranked := SortDesc(results);
    ghost var sorted := ranked;
    var i := 0;
    while i < |ranked|
      invariant 0 <= i <= |ranked| == |sorted|
      invariant forall k :: 0 <= k < i ==> ranked[k] == sorted[k].(rank := k + 1)
      invariant forall k :: i <= k < |ranked| ==> ranked[k] == sorted[k]
    {
      ranked := ranked[i := ranked[i].(rank := i + 1)];
      i := i + 1;
    }
  }

  /** Every result of an unranked list has rank 0, so each element of its sort does too. */
  lemma SortOfUnranked(results: seq<RankedResult>)
    requires forall k :: 0 <= k < |results| ==> results[k].rank == 0
    ensures ClearRanks(SortDesc(results)) == SortDesc(results)
  {
    SortDescPermutation(results);
    var sorted := SortDesc(results);
    forall k | 0 <= k < |sorted|
      ensures sorted[k].rank == 0
    {
      assert sorted[k] in multiset(results);
    }
  }

  /**
   * The ranked list, as the endpoint returns it: one entry per result, scores non-increasing,
   * ties in their original order, rank equal to position + 1, and (ranks aside) a permutation of
   * the results that were built.
   */
  lemma {:induction false} RankedViewProperties(results: seq<RankedResult>, v: real)
    requires forall k :: 0 <= k < |results| ==> results[k].rank == 0
    ensures |RankedView(results)| == |results|
    ensures forall k :: 0 <= k < |results| ==> RankedView(results)[k].rank == k + 1
    ensures SortedByScore(RankedView(results))
    ensures multiset(ClearRanks(RankedView(results))) == multiset(results)
    ensures WithScore(ClearRanks(RankedView(results)), v) == WithScore(results, v)
  {
    var sorted := SortDesc(results);
    var view := RankedView(results);
    assert ClearRanks(view) == sorted by {
      SortOfUnranked(results);
      assert ClearRanks(view) == ClearRanks(sorted);
    }
    assert SortedByScore(view) by {
      SortDescSorted(results);
      assert forall k :: 0 <= k < |view| ==> view[k].score == sorted[k].score;
    }
    SortDescPermutation(results);
    SortDescStable(results, v);
  }

  // ---------------------------------------------------------------------------------------------
  // Summary

  datatype Summary = Summary(total: nat, topScore: real, avgScore: real)

  function SumScores(s: seq<RankedResult>): real {
    if s == [] then 0.0 else s[0].score + SumScores(s[1..])
  }

  /** `max([r["score"] for r in results], default=0)`. */
  function TopScore(s: seq<RankedResult>): (m: real)
    ensures s == [] ==> m == 0.0
    ensures s != [] ==> exists i :: 0 <= i < |s| && s[i].score == m
    ensures forall i :: 0 <= i < |s| ==> s[i].score <= m
  {
    if s == [] then 0.0
    else if |s| == 1 then s[0].score
    else
      var rest := TopScore(s[1..]);
      assert forall i :: 1 <= i < |s| ==> s[i] == s[1..][i - 1];
      if s[0].score >= rest then s[0].score else rest
  }

  /** The `summary` object of the response. */
  function Summarize(s: seq<RankedResult>): (r: Summary)
    ensures r.total == |s|
    ensures s == [] ==> r.topScore == 0.0 && r.avgScore == 0.0
    ensures s != [] ==> forall k :: 0 <= k < |s| ==> s[k].score <= r.topScore
    ensures s != [] ==>
      var mean := SumScores(s) / |s| as real;
      mean - 0.005 < r.avgScore <= mean + 0.005
  {
    Summary(|s|, TopScore(s), if s == [] then 0.0 else Round2(SumScores(s) / |s| as real))
  }

  lemma {:induction false} SumInsert(x: RankedResult, s: seq<RankedResult>)
    ensures SumScores(Insert(x, s)) == x.score + SumScores(s)
  {
    if s != [] && x.score < s[0].score {
      SumInsert(x, s[1..]);
      assert ([s[0]] + Insert(x, s[1..]))[1..] == Insert(x, s[1..]);
    } else {
      assert ([x] + s)[1..] == s;
    }
  }

  lemma {:induction false} SumSortDesc(s: seq<RankedResult>)
    ensures SumScores(SortDesc(s)) == SumScores(s)
  {
    if s != [] {
      SumSortDesc(s[1..]);
      SumInsert(s[0], SortDesc(s[1..]));
    }
  }

  /** The top score depends only on the multiset of results. */
  lemma TopScoreOfPermutation(a: seq<RankedResult>, b: seq<RankedResult>)
    requires multiset(a) == multiset(b)
    ensures TopScore(a) == TopScore(b)
  {
    if a != [] {
      assert |multiset(a)| == |a| && |multiset(b)| == |b|;
      var i :| 0 <= i < |a| && a[i].score == TopScore(a);
      var j :| 0 <= j < |b| && b[j].score == TopScore(b);
      assert a[i] in multiset(b);
      assert b[j] in multiset(a);
    } else {
      assert |b| == 0;
    }
  }

  /** Resetting ranks changes no score. */
  lemma ScoresIgnoreRanks(s: seq<RankedResult>)
    ensures SumScores(ClearRanks(s)) == SumScores(s)
    ensures TopScore(ClearRanks(s)) == TopScore(s)
  {
    SumIgnoresRanks(s);
    var c := ClearRanks(s);
    if s != [] {
      var i :| 0 <= i < |s| && s[i].score == TopScore(s);
      var j :| 0 <= j < |c| && c[j].score == TopScore(c);
      assert c[i].score == s[i].score && c[j].score == s[j].score;
    }
  }

  lemma {:induction false} SumIgnoresRanks(s: seq<RankedResult>)
    ensures SumScores(ClearRanks(s)) == SumScores(s)
  {
    if s != [] {
      SumIgnoresRanks(s[1..]);
      assert ClearRanks(s)[1..] == ClearRanks(s[1..]);
    }
  }

  /** The summary of the ranked list is the summary of the results before sorting and ranking. */
  lemma SummaryOfRankedView(results: seq<RankedResult>)
    requires forall k :: 0 <= k < |results| ==> results[k].rank == 0
    ensures Summarize(RankedView(results)) == Summarize(results)
  {
    var sorted := SortDesc(results);
    var view := RankedView(results);
    SortOfUnranked(results);
    assert ClearRanks(view) == sorted;
    ScoresIgnoreRanks(view);
    SumSortDesc(results);
    SortDescPermutation(results);
    TopScoreOfPermutation(sorted, results);
  }

  /** The top score of a non-empty ranked list is the score of rank 1. */
  lemma TopScoreIsFirst(results: seq<RankedResult>)
    requires results != []
    requires forall k :: 0 <= k < |results| ==> results[k].rank == 0
    ensures TopScore(results) == RankedView(results)[0].score
  {
    var sorted := SortDesc(results);
    SortDescSorted(results);
    SortDescPermutation(results);
    TopScoreOfPermutation(sorted, results);
    var i :| 0 <= i < |sorted| && sorted[i].score == TopScore(sorted);
    assert i == 0 || sorted[0].score >= sorted[i].score;
  }

  /** A sum of n scores, each between lo and hi, lies between n * lo and n * hi. */
  lemma {:induction false} SumBounds(s: seq<RankedResult>, lo: real, hi: real)
    requires forall k :: 0 <= k < |s| ==> lo <= s[k].score <= hi
    ensures |s| as real * lo <= SumScores(s) <= |s| as real * hi
  {
    if s != [] {
      SumBounds(s[1..], lo, hi);
      assert (|s| as real) * lo == lo + (|s| - 1) as real * lo;
      assert (|s| as real) * hi == hi + (|s| - 1) as real * hi;
    }
  }

  /** The mean lies between the lowest and the highest score. */
  lemma {:induction false} MeanWithinScores(s: seq<RankedResult>, lo: real)
    requires s != []
    requires forall k :: 0 <= k < |s| ==> lo <= s[k].score
    ensures lo <= SumScores(s) / |s| as real <= TopScore(s)
  {
    var top, n, sum := TopScore(s), |s| as real, SumScores(s);
    SumBounds(s, lo, top);
    DivideBounds(sum, n, lo, top);
  }

  lemma DivideBounds(x: real, n: real, lo: real, hi: real)
    requires n > 0.0 && n * lo <= x <= n * hi
    ensures lo <= x / n <= hi
  {
    var q := x / n;
    assert x == q * n;
    assert n * (q - lo) >= 0.0;
    assert n * (hi - q) >= 0.0;
  }
}
