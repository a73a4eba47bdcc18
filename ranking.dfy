/**
 * The weighted ranking engine (ClassifierUtil.kt lines 117-151): every candidate that passes
 * the pre-filter is scored analyzer by analyzer, abandoned as soon as its running mismatch
 * reaches the budget, and the survivors are sorted by descending score.
 */
module Ranking {

  import opened Wrappers

  /** A weighted similarity signal over a pair of entities. */
  datatype Analyzer<!T> = Analyzer(weight: real, getScore: (T, T) -> real)

  /** The raw score one analyzer gave; the analyzer is identified by its position. */
  datatype AnalyzerResult = AnalyzerResult(analyzer: nat, score: real)

  /** A surviving candidate, its total weighted score and the per-analyzer scores. */
  datatype RankResult<T> = RankResult(subject: T, score: real, results: seq<AnalyzerResult>)

  // ---------------------------------------------------------------------------------------
  // Specification of one candidate.

  /** The mismatch accumulated over the first `k` analyzers. */
  function Mismatch<T>(src: T, dst: T, analyzers: seq<Analyzer<T>>, k: nat): real
    requires k <= |analyzers|
  {
    if k == 0 then 0.0
    else
      var an := analyzers[k - 1];
      Mismatch(src, dst, analyzers, k - 1) + (an.weight - an.getScore(src, dst) * an.weight)
  }

  /** The weighted score accumulated over the first `k` analyzers. */
  function WeightedScore<T>(src: T, dst: T, analyzers: seq<Analyzer<T>>, k: nat): real
    requires k <= |analyzers|
  {
    if k == 0 then 0.0
    else
      var an := analyzers[k - 1];
      WeightedScore(src, dst, analyzers, k - 1) + an.getScore(src, dst) * an.weight
  }

  /** The per-analyzer results of the first `k` analyzers, one each, in analyzer order. */
  function AnalyzerResults<T>(src: T, dst: T, analyzers: seq<Analyzer<T>>, k: nat): (rs: seq<AnalyzerResult>)
    requires k <= |analyzers|
    ensures |rs| == k
    ensures forall i :: 0 <= i < k ==> rs[i] == AnalyzerResult(i, analyzers[i].getScore(src, dst))
  {
    if k == 0 then []
    else AnalyzerResults(src, dst, analyzers, k - 1) + [AnalyzerResult(k - 1, analyzers[k - 1].getScore(src, dst))]
  }

  /** The candidate survives the budget: no running mismatch ever reaches it. */
  predicate WithinBudget<T>(src: T, dst: T, analyzers: seq<Analyzer<T>>, maxMismatch: real) {
    forall k :: 1 <= k <= |analyzers| ==> Mismatch(src, dst, analyzers, k) < maxMismatch
  }

  /**
   * The ranking of one candidate: nothing when the pre-filter rejects it or some running
   * mismatch reaches the budget; otherwise its full weighted score and all analyzer results.
   */
  function CandidateRank<T>(src: T, dst: T, analyzers: seq<Analyzer<T>>,
                            check: (T, T) -> bool, maxMismatch: real): Option<RankResult<T>>
  {
    if check(src, dst) && WithinBudget(src, dst, analyzers, maxMismatch) then
      var n := |analyzers|;
      Some(RankResult(dst, WeightedScore(src, dst, analyzers, n), AnalyzerResults(src, dst, analyzers, n)))
    else None
  }

  /** The loop of the source over the analyzers of one candidate, with early rejection. */
  method RankCandidate<T>(src: T, dst: T, analyzers: seq<Analyzer<T>>,
                          check: (T, T) -> bool, maxMismatch: real) returns (r: Option<RankResult<T>>)
    ensures r == CandidateRank(src, dst, analyzers, check, maxMismatch)
  {
    if !check(src, dst) {
      return None;
    }
    var score := 0.0;
    var mismatch := 0.0;
    var results: seq<AnalyzerResult> := [];
    for i := 0 to |analyzers|
      invariant score == WeightedScore(src, dst, analyzers, i)
      invariant mismatch == Mismatch(src, dst, analyzers, i)
      invariant results == AnalyzerResults(src, dst, analyzers, i)
      invariant forall k :: 1 <= k <= i ==> Mismatch(src, dst, analyzers, k) < maxMismatch
    {
      var analyzer := analyzers[i];
      var cscore := analyzer.getScore(src, dst);
      var weight := analyzer.weight;
      var weightedScore := cscore * weight;
      mismatch := mismatch + (weight - weightedScore);
      if mismatch >= maxMismatch {
        assert !WithinBudget(src, dst, analyzers, maxMismatch) by {
          assert Mismatch(src, dst, analyzers, i + 1) >= maxMismatch;
        }
        return None;
      }
      score := score + weightedScore;
      results := results + [AnalyzerResult(i, cscore)];
    }
    return Some(RankResult(dst, score, results));
  }

  // ---------------------------------------------------------------------------------------
  // The early exit agrees with the brute-force rule.

  /** Weights are non-negative and every analyzer scores within [0, 1] on this pair. */
  predicate WellBehaved<T>(src: T, dst: T, analyzers: seq<Analyzer<T>>) {
    forall i :: 0 <= i < |analyzers| ==>
      analyzers[i].weight >= 0.0 && 0.0 <= analyzers[i].getScore(src, dst) <= 1.0
  }

  /** One analyzer never lowers the running mismatch. */
  lemma MismatchStep<T>(src: T, dst: T, analyzers: seq<Analyzer<T>>, k: nat)
    requires WellBehaved(src, dst, analyzers)
    requires k < |analyzers|
    ensures Mismatch(src, dst, analyzers, k) <= Mismatch(src, dst, analyzers, k + 1)
  {
    StepBounds(src, dst, analyzers, k + 1);
  }

  /** The running mismatch is monotone over the analyzer sequence. */
  lemma {:induction false} MismatchMonotone<T>(src: T, dst: T, analyzers: seq<Analyzer<T>>, j: nat, k: nat)
    requires WellBehaved(src, dst, analyzers)
    requires j <= k <= |analyzers|
    ensures Mismatch(src, dst, analyzers, j) <= Mismatch(src, dst, analyzers, k)
    decreases k - j
  {
    if j < k {
      MismatchStep(src, dst, analyzers, j);
      MismatchMonotone(src, dst, analyzers, j + 1, k);
    }
  }

  /**
   * The brute-force rule: compute the whole score and keep the candidate when its total
   * mismatch stays below the budget.
   */
  function BruteForceRank<T>(src: T, dst: T, analyzers: seq<Analyzer<T>>,
                             check: (T, T) -> bool, maxMismatch: real): Option<RankResult<T>>
  {
    var n := |analyzers|;
    if check(src, dst) && Mismatch(src, dst, analyzers, n) < maxMismatch then
      Some(RankResult(dst, WeightedScore(src, dst, analyzers, n), AnalyzerResults(src, dst, analyzers, n)))
    else None
  }

  /**
   * With non-negative weights and scores in [0, 1] and at least one analyzer, the early exit
   * selects exactly the candidates the brute-force rule selects, with the same scores.
   */
  lemma EarlyExitIsBruteForce<T>(src: T, dst: T, analyzers: seq<Analyzer<T>>,
                                 check: (T, T) -> bool, maxMismatch: real)
    requires WellBehaved(src, dst, analyzers)
    requires |analyzers| > 0
    ensures CandidateRank(src, dst, analyzers, check, maxMismatch)
         == BruteForceRank(src, dst, analyzers, check, maxMismatch)
  {
    var n := |analyzers|;
    if Mismatch(src, dst, analyzers, n) < maxMismatch {
      forall k | 1 <= k <= n ensures Mismatch(src, dst, analyzers, k) < maxMismatch {
        MismatchMonotone(src, dst, analyzers, k, n);
      }
    }
  }

  /** The sum of the weights. */
  function TotalWeight<T>(analyzers: seq<Analyzer<T>>): real {
    if analyzers == [] then 0.0 else TotalWeight(analyzers[..|analyzers| - 1]) + analyzers[|analyzers| - 1].weight
  }

  /** The running mismatch and the score each stay between 0 and the weights seen so far. */
  lemma {:induction false} MismatchAndScoreBounds<T>(src: T, dst: T, analyzers: seq<Analyzer<T>>, k: nat)
    requires WellBehaved(src, dst, analyzers)
    requires k <= |analyzers|
    ensures 0.0 <= Mismatch(src, dst, analyzers, k) <= TotalWeight(analyzers[..k])
    ensures 0.0 <= WeightedScore(src, dst, analyzers, k) <= TotalWeight(analyzers[..k])
    ensures Mismatch(src, dst, analyzers, k) + WeightedScore(src, dst, analyzers, k) == TotalWeight(analyzers[..k])
  {
    if k > 0 {
      MismatchAndScoreBounds(src, dst, analyzers, k - 1);
      assert analyzers[..k][..k - 1] == analyzers[..k - 1];
      assert TotalWeight(analyzers[..k]) == TotalWeight(analyzers[..k - 1]) + analyzers[k - 1].weight;
      StepBounds(src, dst, analyzers, k);
    }
  }

  /** Analyzer k − 1 adds to mismatch and score two non-negative parts of its weight. */
  lemma StepBounds<T>(src: T, dst: T, analyzers: seq<Analyzer<T>>, k: nat)
    requires WellBehaved(src, dst, analyzers)
    requires 0 < k <= |analyzers|
    ensures var w, dm, ds := analyzers[k - 1].weight,
                             Mismatch(src, dst, analyzers, k) - Mismatch(src, dst, analyzers, k - 1),
                             WeightedScore(src, dst, analyzers, k) - WeightedScore(src, dst, analyzers, k - 1);
      0.0 <= dm <= w && 0.0 <= ds <= w && dm + ds == w
  {
    var an := analyzers[k - 1];
    ScaledScoreBounds(an.getScore(src, dst), an.weight);
  }

  /** A score in [0, 1] scales a non-negative weight into [0, weight]. */
  lemma ScaledScoreBounds(s: real, w: real)
    requires 0.0 <= s <= 1.0 && 0.0 <= w
    ensures 0.0 <= s * w <= w
  {
    assert s * w <= 1.0 * w;
  }

  /**
   * A budget above the total weight never rejects: every candidate that passes the
   * pre-filter is ranked.
   */
  lemma GenerousBudgetKeepsAll<T>(src: T, dst: T, analyzers: seq<Analyzer<T>>,
                                  check: (T, T) -> bool, maxMismatch: real)
    requires WellBehaved(src, dst, analyzers)
    requires maxMismatch > TotalWeight(analyzers)
    ensures CandidateRank(src, dst, analyzers, check, maxMismatch).Some? <==> check(src, dst)
  {
    forall k | 1 <= k <= |analyzers| ensures Mismatch(src, dst, analyzers, k) < maxMismatch {
      MismatchAndScoreBounds(src, dst, analyzers, k);
      MismatchAndScoreBounds(src, dst, analyzers, |analyzers|);
      MismatchMonotone(src, dst, analyzers, k, |analyzers|);
      assert analyzers[..|analyzers|] == analyzers;
    }
  }

  // ---------------------------------------------------------------------------------------
  // All candidates.

  /** The ranked candidates, in candidate order, before sorting. */
  function Survivors<T>(src: T, dsts: seq<T>, analyzers: seq<Analyzer<T>>,
                        check: (T, T) -> bool, maxMismatch: real): seq<RankResult<T>>
  {
    if dsts == [] then []
    else
      var rest := Survivors(src, dsts[..|dsts| - 1], analyzers, check, maxMismatch);
      match CandidateRank(src, dsts[|dsts| - 1], analyzers, check, maxMismatch)
      case Some(res) => rest + [res]
      case None => rest
  }

  /** A result is among the survivors exactly when some candidate ranks to it. */
  lemma {:induction false} SurvivorsMembership<T>(src: T, dsts: seq<T>, analyzers: seq<Analyzer<T>>,
                                                  check: (T, T) -> bool, maxMismatch: real, res: RankResult<T>)
    ensures res in Survivors(src, dsts, analyzers, check, maxMismatch)
        <==> exists i :: 0 <= i < |dsts| && CandidateRank(src, dsts[i], analyzers, check, maxMismatch) == Some(res)
  {
    if dsts != [] {
      var init := dsts[..|dsts| - 1];
      SurvivorsMembership(src, init, analyzers, check, maxMismatch, res);
      if exists i :: 0 <= i < |dsts| && CandidateRank(src, dsts[i], analyzers, check, maxMismatch) == Some(res) {
        var i :| 0 <= i < |dsts| && CandidateRank(src, dsts[i], analyzers, check, maxMismatch) == Some(res);
        if i < |dsts| - 1 {
          assert init[i] == dsts[i];
        }
      }
      if exists i :: 0 <= i < |init| && CandidateRank(src, init[i], analyzers, check, maxMismatch) == Some(res) {
        var i :| 0 <= i < |init| && CandidateRank(src, init[i], analyzers, check, maxMismatch) == Some(res);
        assert dsts[i] == init[i];
      }
    }
  }

  /** The results sorted by descending score (RankResult::score, reversed; a stable sort). */
  predicate SortedByScore<T>(s: seq<RankResult<T>>) {
    forall i, j :: 0 <= i < j < |s| ==> s[i].score >= s[j].score
  }

  /** Insertion into a descending list, before the first result that does not score higher. */
  function InsertByScore<T>(x: RankResult<T>, s: seq<RankResult<T>>): (r: seq<RankResult<T>>)
    ensures |r| == |s| + 1
  {
    if s == [] || x.score >= s[0].score then [x] + s
    else [s[0]] + InsertByScore(x, s[1..])
  }

  /** No result of `s` scores above `b`. */
  predicate AllAtMost<T>(s: seq<RankResult<T>>, b: real) {
    forall i :: 0 <= i < |s| ==> s[i].score <= b
  }

  /** Insertion adds exactly the inserted result. */
  lemma {:induction false} InsertByScorePermutes<T>(x: RankResult<T>, s: seq<RankResult<T>>)
    ensures multiset(InsertByScore(x, s)) == multiset(s) + multiset{x}
  {
    if s != [] && x.score < s[0].score {
      InsertByScorePermutes(x, s[1..]);
      assert s == [s[0]] + s[1..];
    }
  }

  /** Insertion keeps an upper bound on the scores. */
  lemma {:induction false} InsertByScoreAtMost<T>(x: RankResult<T>, s: seq<RankResult<T>>, b: real)
    requires AllAtMost(s, b) && x.score <= b
    ensures AllAtMost(InsertByScore(x, s), b)
  {
    if s != [] && x.score < s[0].score {
      InsertByScoreAtMost(x, s[1..], b);
    }
  }

  /** Insertion keeps the list sorted. */
  lemma {:induction false} InsertByScoreSorted<T>(x: RankResult<T>, s: seq<RankResult<T>>)
    requires SortedByScore(s)
    ensures SortedByScore(InsertByScore(x, s))
  {
    if s != [] && x.score < s[0].score {
      var tail := InsertByScore(x, s[1..]);
      InsertByScoreSorted(x, s[1..]);
      InsertByScoreAtMost(x, s[1..], s[0].score);
      var r := [s[0]] + tail;
      assert r == InsertByScore(x, s);
      forall i, j | 0 <= i < j < |r| ensures r[i].score >= r[j].score {
        assert r[j] == tail[j - 1];
        if i > 0 {
          assert r[i] == tail[i - 1];
        }
      }
    }
  }

  /** The stable sort by descending score. */
  function SortByScore<T>(s: seq<RankResult<T>>): (r: seq<RankResult<T>>)
    ensures |r| == |s|
  {
    if s == [] then [] else InsertByScore(s[0], SortByScore(s[1..]))
  }

  /** The sort returns a sorted permutation of its input. */
  lemma {:induction false} SortByScoreCorrect<T>(s: seq<RankResult<T>>)
    ensures multiset(SortByScore(s)) == multiset(s)
    ensures SortedByScore(SortByScore(s))
  {
    if s != [] {
      SortByScoreCorrect(s[1..]);
      InsertByScorePermutes(s[0], SortByScore(s[1..]));
      InsertByScoreSorted(s[0], SortByScore(s[1..]));
      assert s == [s[0]] + s[1..];
    }
  }

  /** The results with one given score, in order. */
  function WithScore<T>(s: seq<RankResult<T>>, v: real): seq<RankResult<T>> {
    if s == [] then [] else (if s[0].score == v then [s[0]] else []) + WithScore(s[1..], v)
  }

  lemma {:induction false} InsertByScoreStable<T>(x: RankResult<T>, s: seq<RankResult<T>>, v: real)
    requires SortedByScore(s)
    ensures WithScore(InsertByScore(x, s), v) == (if x.score == v then [x] else []) + WithScore(s, v)
  {
    if s == [] || x.score >= s[0].score {
      assert InsertByScore(x, s) == [x] + s;
      assert ([x] + s)[1..] == s;
    } else {
      InsertByScoreStable(x, s[1..], v);
      var tail := InsertByScore(x, s[1..]);
      assert ([s[0]] + tail)[1..] == tail;
      if x.score == v {
        assert s[0].score != v;
      }
    }
  }

  /** The sort is stable: results of equal score keep their relative order. */
  lemma {:induction false} SortByScoreStable<T>(s: seq<RankResult<T>>, v: real)
    ensures WithScore(SortByScore(s), v) == WithScore(s, v)
  {
    if s != [] {
      SortByScoreStable(s[1..], v);
      SortByScoreCorrect(s[1..]);
      InsertByScoreStable(s[0], SortByScore(s[1..]), v);
    }
  }

  /**
   * Ranks every candidate and sorts the survivors by descending score. The result is a
   * permutation of the survivors.
   */
  method Rank<T>(src: T, dsts: seq<T>, analyzers: seq<Analyzer<T>>,
                 check: (T, T) -> bool, maxMismatch: real) returns (results: seq<RankResult<T>>)
    ensures results == SortByScore(Survivors(src, dsts, analyzers, check, maxMismatch))
    ensures SortedByScore(results)
    ensures multiset(results) == multiset(Survivors(src, dsts, analyzers, check, maxMismatch))
  {
    results := [];
    for i := 0 to |dsts|
      invariant results == Survivors(src, dsts[..i], analyzers, check, maxMismatch)
    {
      assert dsts[..i + 1][..i] == dsts[..i];
      var result := RankCandidate(src, dsts[i], analyzers, check, maxMismatch);
      if result.Some? {
        results := results + [result.value];
      }
    }
    assert dsts[..|dsts|] == dsts;
    SortByScoreCorrect(results);
    results := SortByScore(results);
  }

}
