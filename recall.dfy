/** compute_recall.py: the recall of one answer line against its ground
    truth line, and the mean over two files paired line by line. */
module Recall {
  import opened Common
  import opened Text

  /** Recall of a prediction against a ground-truth set: the share of the
      truth that the prediction contains; an empty truth set counts as fully
      recalled. */
  function Recall(truth: set<int>, prediction: set<int>): (r: real)
    ensures truth == {} ==> r == 1.0
    ensures truth != {} ==> r == Ratio(|truth * prediction|, |truth|)
    ensures 0.0 <= r <= 1.0
  {
    if truth == {} then 1.0
    else
      SubsetCard(truth * prediction, truth);
      Ratio(|truth * prediction|, |truth|)
  }

  lemma SubsetCard(a: set<int>, b: set<int>)
    requires a <= b
    ensures |a| <= |b|
  {
    assert b == a + (b - a);
  }

  /** `hits / total` as a real number. */
  function Ratio(hits: nat, total: nat): (r: real)
    requires total > 0
    ensures r * total as real == hits as real
    ensures hits <= total ==> 0.0 <= r <= 1.0
    ensures r == 1.0 <==> hits == total
    ensures r == 0.0 <==> hits == 0
  {
    var r := hits as real / total as real;
    assert r * total as real == hits as real;
    r
  }

  lemma RatioMonotone(a: nat, b: nat, total: nat)
    requires a <= b && total > 0
    ensures Ratio(a, total) <= Ratio(b, total)
  {
    var d := (b - a) as real / total as real;
    assert d >= 0.0;
    assert Ratio(a, total) + d == Ratio(b, total);
  }

  /** A non-empty truth set is fully recalled by itself and not at all by
      an empty prediction. */
  lemma RecallExtremes(truth: set<int>)
    ensures Recall(truth, truth) == 1.0
    ensures truth != {} ==> Recall(truth, {}) == 0.0
  {
    assert truth * truth == truth;
    assert truth * {} == {};
  }

  /** A recall of 1 means every true id was predicted. */
  lemma FullRecall(truth: set<int>, prediction: set<int>)
    ensures Recall(truth, prediction) == 1.0 <==> truth <= prediction
  {
    if forall x | x in truth :: x in prediction {
      assert truth * prediction == truth;
      assert truth <= prediction;
    } else {
      var x :| x in truth && x !in prediction;
      MissedIdLowersRecall(truth, prediction, x);
    }
  }

  /** One true id missing from the prediction keeps the recall below 1. */
  lemma MissedIdLowersRecall(truth: set<int>, prediction: set<int>, x: int)
    requires x in truth && x !in prediction
    ensures Recall(truth, prediction) < 1.0
  {
    assert truth * prediction <= truth - {x};
    SubsetCard(truth * prediction, truth - {x});
  }

  /** Predicting more ids never lowers the recall. */
  lemma RecallMonotone(truth: set<int>, p: set<int>, q: set<int>)
    requires p <= q
    ensures Recall(truth, p) <= Recall(truth, q)
  {
    if truth != {} {
      SubsetCard(truth * p, truth * q);
      RatioMonotone(|truth * p|, |truth * q|, |truth|);
    }
  }

  /** The set of ids on one line: `set(map(int, line.strip().split()))`. */
  function IdSet(ids: seq<int>): (r: set<int>)
    ensures forall x :: x in r <==> x in ids
  {
    set x | x in ids
  }

  /** A line's set has at most one element per token, and exactly one per
      token when no id repeats: the repeats are what the set drops. */
  lemma {:induction false} IdSetSize(ids: seq<int>)
    ensures |IdSet(ids)| <= |ids|
    ensures |IdSet(ids)| == |ids| <==> Distinct(ids)
  {
    if ids != [] {
      var init, last := ids[..|ids| - 1], ids[|ids| - 1];
      IdSetSize(init);
      assert ids == init + [last];
      assert IdSet(ids) == IdSet(init) + {last};
      if last in init {
        assert IdSet(ids) == IdSet(init);
        var j :| 0 <= j < |init| && init[j] == last;
        assert ids[j] == ids[|ids| - 1];
      } else {
        assert last !in IdSet(init);
        if Distinct(init) {
          forall i, j | 0 <= i < j < |ids| ensures ids[i] != ids[j] {
            if j == |ids| - 1 {
              assert ids[i] == init[i];
            } else {
              assert ids[i] == init[i] && ids[j] == init[j];
            }
          }
        } else {
          var i, j :| 0 <= i < j < |init| && init[i] == init[j];
          assert ids[i] == ids[j];
        }
      }
    }
  }

  /** Repeating an id on a line does not change its score. */
  lemma DuplicatesCollapse(truth: seq<int>, pred: seq<int>, i: nat)
    requires i < |pred|
    ensures Recall(IdSet(truth), IdSet(pred + [pred[i]])) == Recall(IdSet(truth), IdSet(pred))
  {
    assert IdSet(pred + [pred[i]]) == IdSet(pred);
  }

  /** How a run ends: the usage message (exit status 1) when the argument
      count is wrong, the mean printed, "No data found.", or the ValueError
      that `int()` raises on a token that is not an integer. */
  datatype Outcome = Usage | Average(mean: real) | NoData | ParseError

  function Sum(xs: seq<real>): real
  {
    if xs == [] then 0.0 else Sum(xs[..|xs| - 1]) + xs[|xs| - 1]
  }

  predicate AllScores(xs: seq<real>)
  {
    forall i | 0 <= i < |xs| :: 0.0 <= xs[i] <= 1.0
  }

  lemma {:induction false} SumBounds(xs: seq<real>)
    requires AllScores(xs)
    ensures 0.0 <= Sum(xs) <= |xs| as real
  {
    if xs != [] {
      SumBounds(xs[..|xs| - 1]);
    }
  }

  lemma {:induction false} SumOfOnes(xs: seq<real>)
    requires forall i | 0 <= i < |xs| :: xs[i] == 1.0
    ensures Sum(xs) == |xs| as real
  {
    if xs != [] {
      SumOfOnes(xs[..|xs| - 1]);
    }
  }

  /** `sum(recalls) / len(recalls)`: a mean of scores is a score. */
  function Mean(xs: seq<real>): (m: real)
    requires |xs| > 0
    ensures AllScores(xs) ==> 0.0 <= m <= 1.0
    ensures (forall i | 0 <= i < |xs| :: xs[i] == 1.0) ==> m == 1.0
  {
    MeanFacts(xs);
    Sum(xs) / |xs| as real
  }

  lemma MeanFacts(xs: seq<real>)
    requires |xs| > 0
    ensures AllScores(xs) ==> 0.0 <= Sum(xs) / |xs| as real <= 1.0
    ensures (forall i | 0 <= i < |xs| :: xs[i] == 1.0) ==> Sum(xs) / |xs| as real == 1.0
  {
    if AllScores(xs) {
      SumBounds(xs);
      MeanBounds(Sum(xs), |xs| as real);
    }
    if forall i | 0 <= i < |xs| :: xs[i] == 1.0 {
      SumOfOnes(xs);
    }
  }

  lemma MeanBounds(sum: real, n: real)
    requires 0.0 < n && 0.0 <= sum <= n
    ensures 0.0 <= sum / n <= 1.0
  {
    assert sum / n * n == sum;
  }

  /** The score of line pair `i`, or None when a line does not parse. */
  function LineRecall(std: seq<string>, eval: seq<string>, i: nat): (r: Option<real>)
    requires i < |std| && i < |eval|
    ensures r.Some? <==> ParseIds(std[i]).Some? && ParseIds(eval[i]).Some?
    ensures r.Some? ==> 0.0 <= r.value <= 1.0
  {
    var truth := ParseIds(std[i]);
    var prediction := ParseIds(eval[i]);
    if truth.Some? && prediction.Some? then Some(Recall(IdSet(truth.value), IdSet(prediction.value)))
    else None
  }

  /** Every line among the first `n` pairs parses. */
  predicate AllParse(std: seq<string>, eval: seq<string>, n: nat)
    requires n <= |std| && n <= |eval|
  {
    forall i | 0 <= i < n :: LineRecall(std, eval, i).Some?
  }

  /** The per-line recalls of the first `n` pairs. */
  function LineRecalls(std: seq<string>, eval: seq<string>, n: nat): (r: seq<real>)
    requires n <= |std| && n <= |eval| && AllParse(std, eval, n)
    ensures |r| == n && AllScores(r)
    ensures forall i | 0 <= i < n :: r[i] == LineRecall(std, eval, i).value
  {
    if n == 0 then [] else LineRecalls(std, eval, n - 1) + [LineRecall(std, eval, n - 1).value]
  }

  /** One more line pair that parses extends the scores by its recall. */
  lemma ParseStep(std: seq<string>, eval: seq<string>, i: nat)
    requires i < |std| && i < |eval| && AllParse(std, eval, i) && LineRecall(std, eval, i).Some?
    ensures AllParse(std, eval, i + 1)
    ensures LineRecalls(std, eval, i + 1) == LineRecalls(std, eval, i) + [LineRecall(std, eval, i).value]
  {
  }

  /** A line pair that does not parse spoils every longer prefix. */
  lemma ParseStop(std: seq<string>, eval: seq<string>, i: nat, n: nat)
    requires i < n <= |std| && n <= |eval| && LineRecall(std, eval, i).None?
    ensures !AllParse(std, eval, n)
  {
  }

  /** `main`: lines are paired by position (zip stops at the end of the
      shorter file), each pair is scored, and the scores averaged. */
  method AverageRecall(argCount: nat, std: seq<string>, eval: seq<string>) returns (out: Outcome)
    ensures out == Usage <==> argCount != 3
    ensures argCount == 3 ==>
      var n := Min(|std|, |eval|);
      (out == ParseError <==> !AllParse(std, eval, n)) &&
      (out == NoData <==> AllParse(std, eval, n) && n == 0) &&
      (out.Average? ==> n > 0 && AllParse(std, eval, n) && out.mean == Mean(LineRecalls(std, eval, n)))
    ensures out.Average? ==> 0.0 <= out.mean <= 1.0
  {
    if argCount != 3 {
      return Usage;
    }
    var n := Min(|std|, |eval|);
    var recalls: seq<real> := [];
    var i := 0;
    while i < n
      invariant 0 <= i <= n
      invariant AllParse(std, eval, i)
      invariant recalls == LineRecalls(std, eval, i)
    {
      var score := LineRecall(std, eval, i);
      if score.None? {
        ParseStop(std, eval, i, n);
        return ParseError;
      }
      ParseStep(std, eval, i);
      recalls := recalls + [score.value];
      i := i + 1;
    }
    if |recalls| > 0 {
      out := Average(Mean(recalls));
    } else {
      out := NoData;
    }
  }

  lemma SelfLine(lines: seq<string>, i: nat)
    requires i < |lines| && LineRecall(lines, lines, i).Some?
    ensures LineRecall(lines, lines, i).value == 1.0
  {
    var g := ParseIds(lines[i]).value;
    RecallExtremes(IdSet(g));
  }

  /** Scoring a file of well-formed lines against itself gives mean recall 1. */
  lemma SelfScoreIsOne(lines: seq<string>)
    requires |lines| > 0 && AllParse(lines, lines, |lines|)
    ensures Mean(LineRecalls(lines, lines, |lines|)) == 1.0
  {
    var rs := LineRecalls(lines, lines, |lines|);
    forall i | 0 <= i < |rs| ensures rs[i] == 1.0 {
      SelfLine(lines, i);
    }
  }

  /** Result files written by main.cpp score as their sets of ids. */
  lemma WrittenLinesScore(truth: seq<int>, prediction: seq<int>)
    ensures LineRecall([FormatIds(truth)], [FormatIds(prediction)], 0)
      == Some(Recall(IdSet(truth), IdSet(prediction)))
  {
    IdsRoundTrip(truth);
    IdsRoundTrip(prediction);
  }
}
