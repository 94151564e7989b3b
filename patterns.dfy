/** `SmurfingPattern`, the per-pattern suspicion score of both detector versions, and the
    summary statistics over detected patterns (pattern_detector.py). */
module Patterns {
  import opened Common
  import opened Graph

  datatype PatternType = FanOutFanIn | Cyclic | Layered | PeelingChain

  /** Which of the two detector files a matcher follows: `Current` is
      src/smurfing_hunter/core/pattern_detector.py, `Legacy` the older root copy. */
  datatype Version = Current | Legacy

  /** The matchers' default parameters. */
  const DefaultMinFanout := 3
  const DefaultMinFanin := 3
  const DefaultMinCycleLength := 3
  const DefaultMaxCycleLength := 10
  const DefaultMaxLayers := 5
  const DefaultMinSplit := 2
  const DefaultPeelThreshold: real := 0.02

  /** A detected pattern: three role sets, its kind, its score and the amount it moves. */
  datatype SmurfingPattern = SmurfingPattern(
    sources: set<Wallet>,
    intermediates: set<Wallet>,
    destinations: set<Wallet>,
    patternType: PatternType,
    suspicionScore: real,
    totalAmount: real)

  /** Every wallet playing some role in the pattern. */
  function Members(p: SmurfingPattern): set<Wallet>
  {
    p.sources + p.intermediates + p.destinations
  }

  // ---------------------------------------------------------------------------
  // _calculate_pattern_suspicion
  // ---------------------------------------------------------------------------

  /** The median edge amount the amount factor divides by: 1 for a graph without edges. */
  function EffectiveMedian(g: TxGraph, median: real): real
  {
    if g.edges == map[] then 1.0 else median
  }

  /** Up to 30 points, reached at ten intermediaries. */
  function IntermediaryFactor(p: SmurfingPattern): real
  {
    MinReal(|p.intermediates| as real / 10.0, 1.0) * 30.0
  }

  /** 40 points times the fraction of members that are illicit. */
  function IllicitFactor(p: SmurfingPattern, illicit: set<Wallet>): real
  {
    if Members(p) == {} then 0.0
    else MinReal(|Members(p) * illicit| as real / |Members(p)| as real, 1.0) * 40.0
  }

  /** Up to 30 points for a positive amount, reached at ten times the median. A zero median
      makes the quotient infinite, which the cap turns into the full 30 points. */
  function AmountFactor(p: SmurfingPattern, median: real): real
  {
    if p.totalAmount <= 0.0 then 0.0
    else if median == 0.0 then 30.0
    else MinReal(p.totalAmount / (median * 10.0), 1.0) * 30.0
  }

  /** 15 points for a peeling chain with more than four intermediaries. */
  function PeelingBonus(p: SmurfingPattern): real
  {
    if p.patternType == PeelingChain && |p.intermediates| > 4 then 15.0 else 0.0
  }

  /** The score of pattern_detector.py under src/: the four parts, capped at 100. */
  function Score(p: SmurfingPattern, illicit: set<Wallet>, median: real): real
  {
    MinReal(IntermediaryFactor(p) + IllicitFactor(p, illicit) + AmountFactor(p, median) + PeelingBonus(p), 100.0)
  }

  /** The score of the older root pattern_detector.py: no peeling bonus. */
  function LegacyScore(p: SmurfingPattern, illicit: set<Wallet>, median: real): real
  {
    MinReal(IntermediaryFactor(p) + IllicitFactor(p, illicit) + AmountFactor(p, median), 100.0)
  }

  /** The score of the given version. */
  function ScoreOf(version: Version, p: SmurfingPattern, illicit: set<Wallet>, median: real): real
  {
    if version == Current then Score(p, illicit, median) else LegacyScore(p, illicit, median)
  }

  /** A pattern carrying the score its version assigns it. */
  function Scored(version: Version, p: SmurfingPattern, illicit: set<Wallet>, median: real): (r: SmurfingPattern)
    ensures r.sources == p.sources && r.intermediates == p.intermediates
    ensures r.destinations == p.destinations && r.patternType == p.patternType
    ensures r.totalAmount == p.totalAmount
    ensures r.suspicionScore <= 100.0
    ensures median >= 0.0 ==> r.suspicionScore >= 0.0
  {
    ScoreBounds(p, illicit, median);
    p.(suspicionScore := ScoreOf(version, p, illicit, median))
  }

  /** The loop counting the illicit members of a pattern. */
  method CountIllicit(members: set<Wallet>, illicit: set<Wallet>) returns (count: nat)
    ensures count == |members * illicit|
  {
    count := 0;
    var pending := members;
    while pending != {}
      invariant pending <= members
      invariant count == |(members - pending) * illicit|
      decreases pending
    {
      var w :| w in pending;
      var before := (members - pending) * illicit;
      if w in illicit {
        count := count + 1;
        assert (members - (pending - {w})) * illicit == before + {w};
      } else {
        assert (members - (pending - {w})) * illicit == before;
      }
      pending := pending - {w};
    }
  }

  method CalculatePatternSuspicion(p: SmurfingPattern, illicit: set<Wallet>, median: real)
    returns (score: real)
    ensures score == Score(p, illicit, median)
  {
    score := MinReal(|p.intermediates| as real / 10.0, 1.0) * 30.0;
    var members := p.sources + p.intermediates + p.destinations;
    var illicitCount := CountIllicit(members, illicit);
    if members != {} {
      score := score + MinReal(illicitCount as real / |members| as real, 1.0) * 40.0;
    }
    if p.totalAmount > 0.0 {
      score := score + (if median == 0.0 then 30.0 else MinReal(p.totalAmount / (median * 10.0), 1.0) * 30.0);
    }
    if p.patternType == PeelingChain && |p.intermediates| > 4 {
      score := score + 15.0;
    }
    score := MinReal(score, 100.0);
  }

  method LegacyCalculatePatternSuspicion(p: SmurfingPattern, illicit: set<Wallet>, median: real)
    returns (score: real)
    ensures score == LegacyScore(p, illicit, median)
  {
    score := MinReal(|p.intermediates| as real / 10.0, 1.0) * 30.0;
    var members := p.sources + p.intermediates + p.destinations;
    var illicitCount := CountIllicit(members, illicit);
    if members != {} {
      score := score + MinReal(illicitCount as real / |members| as real, 1.0) * 40.0;
    }
    if p.totalAmount > 0.0 {
      score := score + (if median == 0.0 then 30.0 else MinReal(p.totalAmount / (median * 10.0), 1.0) * 30.0);
    }
    score := MinReal(score, 100.0);
  }

  /** Scores `p` as its version does. */
  method ScorePattern(version: Version, p: SmurfingPattern, illicit: set<Wallet>, median: real)
    returns (r: SmurfingPattern)
    ensures r == Scored(version, p, illicit, median)
  {
    var score;
    if version == Current {
      score := CalculatePatternSuspicion(p, illicit, median);
    } else {
      score := LegacyCalculatePatternSuspicion(p, illicit, median);
    }
    r := p.(suspicionScore := score);
  }

  lemma CardIntersection(A: set<Wallet>, B: set<Wallet>)
    ensures |A * B| <= |A|
  {
    assert A == (A * B) + (A - B);
    assert (A * B) * (A - B) == {};
  }

  /** Each part stays in its band; the amount part is non-negative unless the median is
      negative. */
  lemma FactorBounds(p: SmurfingPattern, illicit: set<Wallet>, median: real)
    ensures 0.0 <= IntermediaryFactor(p) <= 30.0
    ensures 0.0 <= IllicitFactor(p, illicit) <= 40.0
    ensures AmountFactor(p, median) <= 30.0
    ensures median >= 0.0 ==> AmountFactor(p, median) >= 0.0
    ensures PeelingBonus(p) == 0.0 || PeelingBonus(p) == 15.0
  {
    CardIntersection(Members(p), illicit);
    if p.totalAmount > 0.0 && median > 0.0 {
      assert p.totalAmount / (median * 10.0) > 0.0;
    }
  }

  /** The score never exceeds 100, and is non-negative whenever the median is. */
  lemma ScoreBounds(p: SmurfingPattern, illicit: set<Wallet>, median: real)
    ensures Score(p, illicit, median) <= 100.0 && LegacyScore(p, illicit, median) <= 100.0
    ensures median >= 0.0 ==> 0.0 <= LegacyScore(p, illicit, median) <= Score(p, illicit, median)
  {
    FactorBounds(p, illicit, median);
  }

  /** The two versions agree on every pattern that is not a peeling chain. */
  lemma LegacyAgreesOffPeeling(p: SmurfingPattern, illicit: set<Wallet>, median: real)
    requires p.patternType != PeelingChain
    ensures LegacyScore(p, illicit, median) == Score(p, illicit, median)
  {
  }

  /** Marking more wallets illicit never lowers a pattern's score. */
  lemma ScoreIllicitMonotone(p: SmurfingPattern, illicit: set<Wallet>, more: set<Wallet>, median: real)
    requires illicit <= more
    ensures Score(p, illicit, median) <= Score(p, more, median)
    ensures LegacyScore(p, illicit, median) <= LegacyScore(p, more, median)
  {
    if Members(p) != {} {
      SubsetCard(Members(p) * illicit, Members(p) * more);
      DivideMonotone(|Members(p) * illicit| as real, |Members(p) * more| as real, |Members(p)| as real);
    }
  }

  lemma DivideMonotone(a: real, b: real, n: real)
    requires a <= b && n > 0.0
    ensures a / n <= b / n
  {
  }

  /** A pattern with ten intermediaries, only illicit members and an amount of at least ten
      positive medians scores the full 100. */
  lemma ScoreSaturates(p: SmurfingPattern, illicit: set<Wallet>, median: real)
    requires |p.intermediates| >= 10 && Members(p) <= illicit
    requires median > 0.0 && p.totalAmount >= median * 10.0
    ensures Score(p, illicit, median) == 100.0
  {
    assert Members(p) * illicit == Members(p);
    assert Members(p) != {} by { SubsetCard(p.intermediates, Members(p)); }
    assert IllicitFactor(p, illicit) == 40.0;
    assert |p.intermediates| as real / 10.0 >= 1.0;
    assert IntermediaryFactor(p) == 30.0;
    assert p.totalAmount / (median * 10.0) >= 1.0;
    assert AmountFactor(p, median) == 30.0;
  }

  // ---------------------------------------------------------------------------
  // get_pattern_statistics
  // ---------------------------------------------------------------------------

  datatype Statistics = Statistics(
    totalPatterns: nat,
    byType: map<PatternType, nat>,
    avgSuspicionScore: real,
    maxSuspicionScore: real,
    totalAmountFlagged: real)

  function CountOfType(ps: seq<SmurfingPattern>, t: PatternType): nat
  {
    if ps == [] then 0
    else CountOfType(ps[..|ps| - 1], t) + (if ps[|ps| - 1].patternType == t then 1 else 0)
  }

  function SumScores(ps: seq<SmurfingPattern>): real
  {
    if ps == [] then 0.0 else SumScores(ps[..|ps| - 1]) + ps[|ps| - 1].suspicionScore
  }

  function SumAmounts(ps: seq<SmurfingPattern>): real
  {
    if ps == [] then 0.0 else SumAmounts(ps[..|ps| - 1]) + ps[|ps| - 1].totalAmount
  }

  function MaxScore(ps: seq<SmurfingPattern>): real
    requires ps != []
  {
    if |ps| == 1 then ps[0].suspicionScore
    else
      var m := MaxScore(ps[..|ps| - 1]);
      if ps[|ps| - 1].suspicionScore > m then ps[|ps| - 1].suspicionScore else m
  }

  /** `get_pattern_statistics`: the empty dictionary when nothing was detected. */
  function PatternStatistics(ps: seq<SmurfingPattern>): (r: Option<Statistics>)
    ensures r.None? <==> ps == []
    ensures r.Some? ==> r.value.totalPatterns == |ps|
    ensures r.Some? ==> forall t :: t in r.value.byType <==> exists i :: 0 <= i < |ps| && ps[i].patternType == t
  {
    if ps == [] then None
    else
      Some(Statistics(|ps|, TypeCounts(ps), SumScores(ps) / |ps| as real, MaxScore(ps), SumAmounts(ps)))
  }

  /** The kinds occurring in `ps`, each with its number of patterns. */
  function TypeCounts(ps: seq<SmurfingPattern>): map<PatternType, nat>
  {
    map t | t in (set i | 0 <= i < |ps| :: ps[i].patternType) :: CountOfType(ps, t)
  }

  /** Counting one more pattern: its kind's count goes up by one. */
  lemma TypeCountsStep(ps: seq<SmurfingPattern>, i: int)
    requires 0 <= i < |ps|
    ensures var m, t := TypeCounts(ps[..i]), ps[i].patternType;
      TypeCounts(ps[..i + 1]) == m[t := (if t in m then m[t] else 0) + 1]
  {
    var q := ps[..i + 1];
    assert q[..i] == ps[..i];
    var m, t := TypeCounts(ps[..i]), ps[i].patternType;
    var A, B := TypeCounts(q), m[t := (if t in m then m[t] else 0) + 1];
    forall u
      ensures (u in A <==> u in B) && (u in A ==> A[u] == B[u])
    {
      CountOfTypePositive(ps[..i], u);
      CountOfTypePositive(q, u);
      assert q[i] == ps[i];
    }
  }

  /** The loop of `get_pattern_statistics` grouping the patterns by kind. */
  method CollectStatistics(ps: seq<SmurfingPattern>) returns (r: Option<Statistics>)
    ensures r == PatternStatistics(ps)
  {
    if ps == [] {
      return None;
    }
    var byType: map<PatternType, nat> := map[];
    assert TypeCounts(ps[..0]) == map[];
    for i := 0 to |ps|
      invariant byType == TypeCounts(ps[..i])
    {
      TypeCountsStep(ps, i);
      var t := ps[i].patternType;
      byType := byType[t := (if t in byType then byType[t] else 0) + 1];
    }
    assert ps[..|ps|] == ps;
    r := Some(Statistics(|ps|, byType, SumScores(ps) / |ps| as real, MaxScore(ps), SumAmounts(ps)));
  }

  lemma {:induction false} CountOfTypeSum(ps: seq<SmurfingPattern>)
    ensures CountOfType(ps, FanOutFanIn) + CountOfType(ps, Cyclic) + CountOfType(ps, Layered)
            + CountOfType(ps, PeelingChain) == |ps|
  {
    if ps != [] {
      CountOfTypeSum(ps[..|ps| - 1]);
    }
  }

  lemma {:induction false} CountOfTypePositive(ps: seq<SmurfingPattern>, t: PatternType)
    ensures CountOfType(ps, t) > 0 <==> exists i :: 0 <= i < |ps| && ps[i].patternType == t
  {
    if ps != [] {
      var pre := ps[..|ps| - 1];
      CountOfTypePositive(pre, t);
      assert forall i :: 0 <= i < |pre| ==> pre[i] == ps[i];
    }
  }

  lemma {:induction false} MaxScoreBounds(ps: seq<SmurfingPattern>)
    requires ps != []
    ensures forall i :: 0 <= i < |ps| ==> ps[i].suspicionScore <= MaxScore(ps)
  {
    if |ps| > 1 {
      var pre := ps[..|ps| - 1];
      MaxScoreBounds(pre);
      assert forall i :: 0 <= i < |pre| ==> pre[i] == ps[i];
    }
  }

  lemma {:induction false} MaxScoreAttained(ps: seq<SmurfingPattern>) returns (i: nat)
    requires ps != []
    ensures i < |ps| && ps[i].suspicionScore == MaxScore(ps)
  {
    var n := |ps| - 1;
    if n == 0 || ps[n].suspicionScore > MaxScore(ps[..n]) {
      i := n;
    } else {
      i := MaxScoreAttained(ps[..n]);
      assert ps[..n][i] == ps[i];
    }
  }

  lemma {:induction false} SumAtMostMax(ps: seq<SmurfingPattern>)
    requires ps != []
    ensures SumScores(ps) <= |ps| as real * MaxScore(ps)
  {
    var n := |ps| - 1;
    if n > 0 {
      var pre := ps[..n];
      SumAtMostMax(pre);
      var m, m' := MaxScore(pre), MaxScore(ps);
      ScaleMonotone(n as real, m, m');
    }
  }

  lemma ScaleMonotone(k: real, a: real, b: real)
    requires k >= 0.0 && a <= b
    ensures k * a <= k * b
  {
  }

  /** The per-kind counts: a kind appears exactly when some pattern has it, with the number
      of such patterns, and the counts add up to the total. */
  lemma StatisticsByType(ps: seq<SmurfingPattern>)
    requires ps != []
    ensures var s := PatternStatistics(ps).value;
      && (forall t :: t in s.byType ==> s.byType[t] == CountOfType(ps, t) > 0)
      && (forall t :: t !in s.byType ==> CountOfType(ps, t) == 0)
      && CountOfType(ps, FanOutFanIn) + CountOfType(ps, Cyclic) + CountOfType(ps, Layered)
         + CountOfType(ps, PeelingChain) == s.totalPatterns
  {
    var s := PatternStatistics(ps).value;
    CountOfTypeSum(ps);
    forall t
      ensures t in s.byType ==> s.byType[t] == CountOfType(ps, t) > 0
      ensures t !in s.byType ==> CountOfType(ps, t) == 0
    {
      CountOfTypePositive(ps, t);
    }
  }

  /** The maximum is attained by some pattern and bounds every score, and the average does
      not exceed it. */
  lemma StatisticsScores(ps: seq<SmurfingPattern>)
    requires ps != []
    ensures var s := PatternStatistics(ps).value;
      && (forall i :: 0 <= i < |ps| ==> ps[i].suspicionScore <= s.maxSuspicionScore)
      && (exists i :: 0 <= i < |ps| && ps[i].suspicionScore == s.maxSuspicionScore)
      && s.avgSuspicionScore <= s.maxSuspicionScore
  {
    MaxScoreBounds(ps);
    var i := MaxScoreAttained(ps);
    SumAtMostMax(ps);
    AverageAtMostMax(SumScores(ps), |ps|, MaxScore(ps));
  }

  lemma AverageAtMostMax(sum: real, n: nat, m: real)
    requires n > 0 && sum <= n as real * m
    ensures sum / n as real <= m
  {
  }
}
