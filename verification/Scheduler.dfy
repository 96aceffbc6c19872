/** Smooth weighted round robin over the upstream endpoints. */
module Scheduler {
  const MAX_WEIGHT: int := 1000
  const MAX_ENDPOINTS: nat := 32

  /** What the configuration guarantees of the parsed endpoints. */
  predicate ValidWeights(w: seq<int>) {
    1 <= |w| <= MAX_ENDPOINTS && forall i :: 0 <= i < |w| ==> 1 <= w[i] <= MAX_WEIGHT
  }

  function Sum(s: seq<int>): int {
    if s == [] then 0 else Sum(s[..|s| - 1]) + s[|s| - 1]
  }

  function Count(picks: seq<nat>, i: nat): nat {
    if picks == [] then 0
    else Count(picks[..|picks| - 1], i) + (if picks[|picks| - 1] == i then 1 else 0)
  }

  /** An endpoint's score after a run of picks: each pick raises every endpoint
      by its weight and takes the total back from the one chosen. */
  function Score(w: seq<int>, picks: seq<nat>, i: nat): int
    requires i < |w|
  {
    if picks == [] then 0
    else
      Score(w, picks[..|picks| - 1], i) + w[i] - (if picks[|picks| - 1] == i then Sum(w) else 0)
  }

  function Scores(w: seq<int>, picks: seq<nat>): (s: seq<int>)
    ensures |s| == |w| && forall i :: 0 <= i < |w| ==> s[i] == Score(w, picks, i)
  {
    seq(|w|, i requires 0 <= i < |w| => Score(w, picks, i))
  }

  /** `p` is the first endpoint with the largest raised score. */
  predicate FirstLargest(w: seq<int>, scores: seq<int>, p: nat)
    requires |scores| == |w|
  {
    && p < |w|
    && (forall i :: 0 <= i < |w| ==> scores[i] + w[i] <= scores[p] + w[p])
    && (forall i :: 0 <= i < p ==> scores[i] + w[i] < scores[p] + w[p])
  }

  /** Pick `k` of a run follows the scores the earlier picks leave. */
  predicate Follows(w: seq<int>, picks: seq<nat>, k: nat)
    requires k < |picks|
  {
    FirstLargest(w, Scores(w, picks[..k]), picks[k])
  }

  /** A run of the weighted branch. */
  predicate Schedule(w: seq<int>, picks: seq<nat>) {
    forall k :: 0 <= k < |picks| ==> Follows(w, picks, k)
  }

  class Pool {
    const weights: seq<int>
    const scores: array<int>
    ghost var picks: seq<nat>

    ghost predicate Valid()
      reads this, scores
    {
      && ValidWeights(weights)
      && scores.Length == |weights|
      && Schedule(weights, picks)
      && scores[..] == Scores(weights, picks)
    }

    constructor (weights: seq<int>)
      requires ValidWeights(weights)
      ensures Valid() && fresh(scores)
      ensures this.weights == weights && picks == []
    {
      this.weights := weights;
      scores := new int[|weights|](_ => 0);
      picks := [];
      new;
      assert scores[..] == Scores(weights, []);
    }

    /** One locked selection. */
    method Pick() returns (selected: nat)
      requires Valid()
      modifies this, scores
      ensures Valid()
      ensures picks == old(picks) + [selected]
      ensures FirstLargest(weights, old(scores[..]), selected)
    {
      ghost var before := scores[..];
      selected := 0;
      var total := 0;
      for i := 0 to |weights|
        modifies scores
        invariant total == Sum(weights[..i])
        invariant selected < |weights| && (i > 0 ==> selected < i)
        invariant forall k :: 0 <= k < i ==> scores[k] == before[k] + weights[k]
        invariant forall k :: i <= k < |weights| ==> scores[k] == before[k]
        invariant forall k :: 0 <= k < i ==> scores[k] <= scores[selected]
        invariant i > 0 ==> forall k :: 0 <= k < selected ==> scores[k] < scores[selected]
        invariant i == 0 ==> selected == 0
      {
        assert weights[..i + 1][..i] == weights[..i];
        scores[i] := scores[i] + weights[i];
        total := total + weights[i];
        if scores[i] > scores[selected] {
          selected := i;
        }
      }
      assert weights[..|weights|] == weights;
      assert FirstLargest(weights, before, selected);
      scores[selected] := scores[selected] - total;
      ScheduleGrows(weights, picks, selected);
      ScoresGrow(weights, picks, selected, scores[..]);
      picks := picks + [selected];
    }
  }

  lemma ScoresGrow(w: seq<int>, picks: seq<nat>, p: nat, after: seq<int>)
    requires |after| == |w|
    requires forall k :: 0 <= k < |w| ==>
      after[k] == Scores(w, picks)[k] + w[k] - (if k == p then Sum(w) else 0)
    ensures after == Scores(w, picks + [p])
  {
    forall k | 0 <= k < |w|
      ensures after[k] == Score(w, picks + [p], k)
    {
      ScoreGrows(w, picks, p, k);
    }
  }

  lemma ScoreGrows(w: seq<int>, picks: seq<nat>, p: nat, i: nat)
    requires i < |w|
    ensures Score(w, picks + [p], i) == Score(w, picks, i) + w[i] - (if p == i then Sum(w) else 0)
  {
    assert (picks + [p])[..|picks|] == picks;
  }

  /** The score is what the endpoint has earned less what it was given. */
  lemma {:induction false} ScoreClosedForm(w: seq<int>, picks: seq<nat>, i: nat)
    requires i < |w|
    ensures Score(w, picks, i) == |picks| * w[i] - Count(picks, i) * Sum(w)
  {
    if picks != [] {
      var k := |picks| - 1;
      ScoreClosedForm(w, picks[..k], i);
      var c := Count(picks[..k], i);
      assert |picks| * w[i] == k * w[i] + w[i];
      assert (c + 1) * Sum(w) == c * Sum(w) + Sum(w);
    }
  }

  lemma ScheduleGrows(w: seq<int>, picks: seq<nat>, p: nat)
    requires Schedule(w, picks) && FirstLargest(w, Scores(w, picks), p)
    ensures Schedule(w, picks + [p])
  {
    var longer := picks + [p];
    forall k | 0 <= k < |longer|
      ensures Follows(w, longer, k)
    {
      if k < |picks| {
        assert Follows(w, picks, k);
        assert longer[..k] == picks[..k];
      } else {
        assert longer[..k] == picks;
      }
    }
  }

  lemma SchedulePrefix(w: seq<int>, picks: seq<nat>, k: nat)
    requires Schedule(w, picks) && k <= |picks|
    ensures Schedule(w, picks[..k])
  {
    forall j | 0 <= j < k
      ensures Follows(w, picks[..k], j)
    {
      assert Follows(w, picks, j);
      assert picks[..k][..j] == picks[..j];
    }
  }

  lemma {:induction false} SumAdd(a: seq<int>, b: seq<int>, c: seq<int>)
    requires |a| == |b| == |c| && forall i :: 0 <= i < |a| ==> c[i] == a[i] + b[i]
    ensures Sum(c) == Sum(a) + Sum(b)
  {
    if a != [] {
      var n := |a| - 1;
      SumAdd(a[..n], b[..n], c[..n]);
    }
  }

  lemma {:induction false} SumUpdate(s: seq<int>, i: nat, v: int)
    requires i < |s|
    ensures Sum(s[i := v]) == Sum(s) - s[i] + v
  {
    var n := |s| - 1;
    if i == n {
      assert s[i := v][..n] == s[..n];
    } else {
      assert s[i := v][..n] == s[..n][i := v];
      SumUpdate(s[..n], i, v);
    }
  }

  lemma {:induction false} SumAtLeast(s: seq<int>, m: int, j: nat)
    requires j < |s| && forall i :: 0 <= i < |s| ==> m <= s[i]
    ensures Sum(s) >= s[j] + (|s| - 1) * m
  {
    var n := |s| - 1;
    if j < n {
      SumAtLeast(s[..n], m, j);
      assert (n - 1) * m + m == n * m;
    } else {
      SumBelow(s[..n], m);
    }
  }

  lemma {:induction false} SumBelow(s: seq<int>, m: int)
    requires forall i :: 0 <= i < |s| ==> m <= s[i]
    ensures Sum(s) >= |s| * m
  {
    if s != [] {
      var n := |s| - 1;
      SumBelow(s[..n], m);
      assert n * m + m == |s| * m;
    }
  }

  lemma {:induction false} SumNotPositive(s: seq<int>)
    requires forall i :: 0 <= i < |s| ==> s[i] <= 0
    ensures Sum(s) <= 0
  {
    if s != [] {
      SumNotPositive(s[..|s| - 1]);
    }
  }

  lemma {:induction false} SumZeros(s: seq<int>)
    requires forall i :: 0 <= i < |s| ==> s[i] == 0
    ensures Sum(s) == 0
  {
    if s != [] {
      SumZeros(s[..|s| - 1]);
    }
  }

  lemma TotalPositive(w: seq<int>)
    requires ValidWeights(w)
    ensures |w| <= Sum(w) <= |w| * MAX_WEIGHT
  {
    SumBelow(w, 1);
    SumAbove(w, MAX_WEIGHT);
  }

  lemma {:induction false} SumAbove(s: seq<int>, m: int)
    requires forall i :: 0 <= i < |s| ==> s[i] <= m
    ensures Sum(s) <= |s| * m
  {
    if s != [] {
      SumAbove(s[..|s| - 1], m);
    }
  }

  /** The scores always add up to nothing: every pick takes back exactly what
      the raise handed out. */
  lemma {:induction false} ScoresSumToZero(w: seq<int>, picks: seq<nat>)
    requires Schedule(w, picks)
    ensures Sum(Scores(w, picks)) == 0
  {
    if picks == [] {
      SumZeros(Scores(w, picks));
    } else {
      var k := |picks| - 1;
      var p := picks[k];
      SchedulePrefix(w, picks, k);
      ScoresSumToZero(w, picks[..k]);
      RaisedSum(w, picks[..k]);
      assert picks == picks[..k] + [p];
      var raised := Raised(w, picks[..k]);
      assert Follows(w, picks, k);
      assert Scores(w, picks) == raised[p := raised[p] - Sum(w)] by {
        forall i | 0 <= i < |w|
          ensures Scores(w, picks)[i] == raised[p := raised[p] - Sum(w)][i]
        {
          ScoreGrows(w, picks[..k], p, i);
        }
      }
      SumUpdate(raised, p, raised[p] - Sum(w));
    }
  }

  function Raised(w: seq<int>, picks: seq<nat>): (s: seq<int>)
    ensures |s| == |w| && forall i :: 0 <= i < |w| ==> s[i] == Score(w, picks, i) + w[i]
  {
    seq(|w|, i requires 0 <= i < |w| => Score(w, picks, i) + w[i])
  }

  lemma RaisedSum(w: seq<int>, picks: seq<nat>)
    ensures Sum(Raised(w, picks)) == Sum(Scores(w, picks)) + Sum(w)
  {
    SumAdd(Scores(w, picks), w, Raised(w, picks));
  }

  /** No endpoint is ever a whole round behind. */
  lemma {:induction false} ScoreAboveMinusTotal(w: seq<int>, picks: seq<nat>, i: nat)
    requires ValidWeights(w) && Schedule(w, picks) && i < |w|
    ensures Score(w, picks, i) > -Sum(w)
  {
    TotalPositive(w);
    if picks == [] {
    } else {
      var k := |picks| - 1;
      var p := picks[k];
      SchedulePrefix(w, picks, k);
      ScoreAboveMinusTotal(w, picks[..k], i);
      assert picks == picks[..k] + [p];
      ScoreGrows(w, picks[..k], p, i);
      if i == p {
        var raised := Raised(w, picks[..k]);
        ScoresSumToZero(w, picks[..k]);
        RaisedSum(w, picks[..k]);
        assert Follows(w, picks, k);
        if raised[p] <= 0 {
          SumNotPositive(raised);
          assert false;
        }
      }
    }
  }

  /** With two endpoints or more every score stays strictly between minus the
      total and the total times the other endpoints. */
  lemma ScoreBounds(w: seq<int>, picks: seq<nat>, i: nat)
    requires ValidWeights(w) && Schedule(w, picks) && i < |w|
    ensures -Sum(w) < Score(w, picks, i)
    ensures |w| >= 2 ==> Score(w, picks, i) < (|w| - 1) * Sum(w)
    ensures |w| == 1 ==> Score(w, picks, i) == 0
  {
    ScoresSumToZero(w, picks);
    var s := Scores(w, picks);
    forall j | 0 <= j < |w| ensures 1 - Sum(w) <= s[j] {
      ScoreAboveMinusTotal(w, picks, j);
    }
    SumAtLeast(s, 1 - Sum(w), i);
    Distribute(|w| - 1, Sum(w));
  }

  lemma Distribute(n: int, t: int)
    ensures n * (1 - t) == n - n * t
  {
  }

  /** 64-bit scores cannot overflow, neither stored nor while being raised. */
  lemma ScoresFitMachineWord(w: seq<int>, picks: seq<nat>, i: nat)
    requires ValidWeights(w) && Schedule(w, picks) && i < |w|
    ensures -32_000 < Score(w, picks, i) < Score(w, picks, i) + w[i] < 1_000_000
    ensures 1 <= Sum(w) <= 32_000
  {
    ScoreBounds(w, picks, i);
    TotalPositive(w);
    MulMonotone(|w| - 1, 31, Sum(w));
  }

  lemma MulMonotone(a: int, b: int, t: int)
    requires a <= b && 0 <= t
    ensures a * t <= b * t
  {
    assert 0 <= (b - a) * t;
  }

  /** Fairness at every moment: after any number of picks each endpoint has less
      than one pick above its share, and fewer than |w| - 1 picks below it. */
  lemma NearShare(w: seq<int>, picks: seq<nat>, i: nat)
    requires ValidWeights(w) && Schedule(w, picks) && i < |w|
    ensures Count(picks, i) * Sum(w) < |picks| * w[i] + Sum(w)
    ensures |w| >= 2 ==> |picks| * w[i] < Count(picks, i) * Sum(w) + (|w| - 1) * Sum(w)
  {
    ScoreBounds(w, picks, i);
    ScoreClosedForm(w, picks, i);
  }

  /** A multiple of the total above minus the total is not negative. */
  lemma MultipleNotNegative(a: int, c: int, t: int)
    requires t > 0 && t * a - c * t > -t
    ensures t * a - c * t == (a - c) * t >= 0
    ensures c <= a
  {
    assert t * a - c * t == (a - c) * t;
    if a < c {
      MulMonotone(a - c, -1, t);
      assert false;
    }
    MulMonotone(0, a - c, t);
  }

  lemma RoundScore(w: seq<int>, picks: seq<nat>, i: nat)
    requires ValidWeights(w) && Schedule(w, picks) && |picks| == Sum(w) && i < |w|
    ensures Score(w, picks, i) == (w[i] - Count(picks, i)) * Sum(w)
    ensures Score(w, picks, i) >= 0 && Count(picks, i) <= w[i]
  {
    ScoreClosedForm(w, picks, i);
    ScoreAboveMinusTotal(w, picks, i);
    TotalPositive(w);
    MultipleNotNegative(w[i], Count(picks, i), Sum(w));
  }

  /** One round is as many picks as the total weight.  It hands every endpoint
      exactly its weight and leaves every score at zero again. */
  lemma RoundIsExact(w: seq<int>, picks: seq<nat>, i: nat)
    requires ValidWeights(w) && Schedule(w, picks) && |picks| == Sum(w) && i < |w|
    ensures Count(picks, i) == w[i]
    ensures Score(w, picks, i) == 0
  {
    hide Schedule, Count, Score, ValidWeights;
    ScoresSumToZero(w, picks);
    forall j | 0 <= j < |w| ensures 0 <= Scores(w, picks)[j] {
      RoundScore(w, picks, j);
    }
    SumAtLeast(Scores(w, picks), 0, i);
    RoundScore(w, picks, i);
    TotalPositive(w);
    ZeroMultiple(w[i] - Count(picks, i), Sum(w));
  }

  lemma ZeroMultiple(d: nat, t: nat)
    requires t > 0 && d * t <= 0
    ensures d == 0
  {
    if d > 0 {
      MulMonotone(1, d, t);
    }
  }

  lemma FirstLargestUnique(w: seq<int>, scores: seq<int>, p: nat, q: nat)
    requires |scores| == |w| && FirstLargest(w, scores, p) && FirstLargest(w, scores, q)
    ensures p == q
  {
    assert scores[p] + w[p] <= scores[q] + w[q];
  }

  /** The schedule repeats: the pick one round later is the same pick, and the
      scores are the same scores. */
  lemma {:induction false} RoundsRepeat(w: seq<int>, picks: seq<nat>, k: nat)
    requires ValidWeights(w) && Schedule(w, picks) && Sum(w) + k <= |picks|
    ensures 0 <= Sum(w) && Scores(w, picks[..Sum(w) + k]) == Scores(w, picks[..k])
    ensures Sum(w) + k < |picks| ==> picks[Sum(w) + k] == picks[k]
  {
    TotalPositive(w);
    var total := Sum(w);
    if k == 0 {
      SchedulePrefix(w, picks, total);
      forall i | 0 <= i < |w|
        ensures Score(w, picks[..total], i) == Score(w, picks[..0], i)
      {
        RoundIsExact(w, picks[..total], i);
      }
    } else {
      RoundsRepeat(w, picks, k - 1);
      var p := picks[k - 1];
      assert picks[..k] == picks[..k - 1] + [p];
      assert picks[..total + k] == picks[..total + k - 1] + [p];
      forall i | 0 <= i < |w|
        ensures Score(w, picks[..total + k], i) == Score(w, picks[..k], i)
      {
        ScoreGrows(w, picks[..k - 1], p, i);
        ScoreGrows(w, picks[..total + k - 1], p, i);
        assert Scores(w, picks[..total + k - 1])[i] == Scores(w, picks[..k - 1])[i];
      }
    }
    if total + k < |picks| {
      assert Follows(w, picks, k) && Follows(w, picks, total + k);
      FirstLargestUnique(w, Scores(w, picks[..k]), picks[total + k], picks[k]);
    }
  }

  lemma {:induction false} CountSplit(a: seq<nat>, b: seq<nat>, i: nat)
    ensures Count(a + b, i) == Count(a, i) + Count(b, i)
  {
    if b == [] {
      assert a + b == a;
    } else {
      var n := |b| - 1;
      CountSplit(a, b[..n], i);
      assert (a + b)[..|a + b| - 1] == a + b[..n];
    }
  }

  /** Fairness of every window: any run of one round's length, wherever it
      starts, holds each endpoint exactly as often as its weight. */
  lemma AnyWindowIsExact(w: seq<int>, picks: seq<nat>, start: nat, i: nat)
    requires ValidWeights(w) && Schedule(w, picks) && i < |w|
    requires 0 <= Sum(w) && start + Sum(w) <= |picks|
    ensures Count(picks[start..start + Sum(w)], i) == w[i]
  {
    hide Schedule, Count, Score, ValidWeights;
    TotalPositive(w);
    var total := Sum(w);
    var before, window := picks[..start], picks[start..start + total];
    assert picks[..total + start] == before + window;
    CountSplit(before, window, i);
    RoundsRepeat(w, picks, start);
    assert Scores(w, before + window)[i] == Scores(w, before)[i];
    ScoreClosedForm(w, before + window, i);
    ScoreClosedForm(w, before, i);
    EqualShares(start, total, w[i], Count(before, i), Count(window, i));
  }

  lemma EqualShares(k: int, t: int, a: int, b: int, c: int)
    requires t > 0 && (k + t) * a - (b + c) * t == k * a - b * t
    ensures c == a
  {
    assert (k + t) * a == k * a + t * a;
    assert (b + c) * t == b * t + c * t;
    assert (a - c) * t == 0;
    if a < c {
      MulMonotone(a - c, -1, t);
    } else if c < a {
      MulMonotone(1, a - c, t);
    }
  }
}
