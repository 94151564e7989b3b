/** The `SuspicionScorer` of suspicion_scorer.py: it computes the four component scores
    from the graph, the numerical measures and the detector's patterns, and keeps the
    composite scores in `walletScores`. */
module SuspicionScorer {
  import opened Common
  import opened Graph
  import opened Patterns
  import opened Scoring
  import GraphQueries
  import PatternDetection

  /** Adding one more wallet to a dictionary built along a list. */
  lemma TabulateStep(ws: seq<Wallet>, vs: seq<real>, i: int)
    requires |ws| == |vs| && 0 <= i < |ws|
    ensures Tabulate(ws[..i + 1], vs[..i + 1]) == Tabulate(ws[..i], vs[..i])[ws[i] := vs[i]]
  {
    assert ws[..i + 1][..i] == ws[..i];
    assert vs[..i + 1][..i] == vs[..i];
  }

  /** Completing a dictionary over one more key. */
  lemma FillStep(m: Scores, K: set<Wallet>, w: Wallet)
    ensures Fill(m, K + {w}) == if w in Fill(m, K) then Fill(m, K) else Fill(m, K)[w := 0.0]
  {
  }

  /** The elements of a list grow by one entry at a time. */
  lemma ElemsPrefix(s: seq<Wallet>, i: int)
    requires 0 <= i < |s|
    ensures Elems(s[..i + 1]) == Elems(s[..i]) + {s[i]}
  {
    assert s[..i + 1] == s[..i] + [s[i]];
  }

  lemma ElemsWhole(s: seq<Wallet>)
    ensures Elems(s[..|s|]) == Elems(s)
    ensures Elems(s[..0]) == {}
  {
    assert s[..|s|] == s;
  }

  /** Scores given wallet by wallet to every wallet of the graph are the proximity
      scores. */
  lemma ProximityCovered(g: TxGraph, illicit: set<Wallet>, decay: int -> real, scores: Scores)
    requires Valid(g) && scores.Keys == g.wallets.Keys
    requires forall w :: w in scores ==> scores[w] == Proximity(g, illicit, decay, w)
    ensures scores == ProximityScores(g, illicit, decay)
  {
  }

  /** One more pattern added to the involvement sums. */
  lemma InvolvementStep(g: TxGraph, ps: seq<SmurfingPattern>, j: int, scores: Scores, next: Scores)
    requires 0 <= j < |ps| && scores == RawInvolvement(g, ps[..j])
    requires next.Keys == scores.Keys
    requires forall w :: w in next ==> next[w] == scores[w] + RoleWeight(ps[j], w)
    ensures next == RawInvolvement(g, ps[..j + 1])
  {
    assert ps[..j + 1][..j] == ps[..j];
  }

  /** `m` with the entries of `src` at the keys `K` written over it. */
  function Overwrite(m: Scores, src: Scores, K: set<Wallet>): Scores
  {
    m + map w | w in K && w in src :: src[w]
  }

  lemma OverwriteStep(m: Scores, src: Scores, K: set<Wallet>, w: Wallet)
    requires w in src
    ensures Overwrite(m, src, K + {w}) == Overwrite(m, src, K)[w := src[w]]
  {
  }

  /** Writing the composites of every wallet of the graph over scores that were either
      empty or for the same wallets leaves exactly the composites. */
  lemma CompositesStored(g: TxGraph, before: Scores, c: Scores, p: Scores, inv: Scores, a: Scores)
    requires Valid(g) && (before == map[] || before.Keys == g.wallets.Keys)
    ensures var combined := CompositeScores(g, c, p, inv, a);
      && Overwrite(before, combined, Elems(g.nodes)) == combined
      && combined.Keys == g.wallets.Keys
  {
    NodesAreWallets(g);
  }

  /** Five columns of deviations, each that of its feature, are the deviations. */
  lemma DeviationsAre(rows: seq<seq<real>>, zscore: seq<real> -> seq<real>, devs: seq<seq<real>>)
    requires Table(rows) && ZScoreShape(zscore)
    requires |devs| == FeatureCount
    requires forall j :: 0 <= j < FeatureCount ==> devs[j] == Deviation(Column(rows, j), zscore)
    ensures devs == Deviations(rows, zscore)
  {
  }

  /** The wallets of a well-formed graph are those its node order lists. */
  lemma NodesAreWallets(g: TxGraph)
    requires Valid(g)
    ensures Elems(g.nodes) == g.wallets.Keys
    ensures g.nodes == [] <==> g.wallets == map[]
  {
    if g.nodes != [] {
      assert g.nodes[0] in g.wallets;
    }
  }

  class Scorer {
    /** The transaction graph. */
    const g: TxGraph
    /** The known illicit wallets. */
    const illicit: set<Wallet>
    /** The pattern detector over the same graph, whose reported patterns are scored. */
    const detector: PatternDetection.PatternDetector
    /** The centralities, the decay and the z-score the numerical libraries provide. */
    const lib: Measures
    /** The composite score of every wallet, once calculated. */
    var walletScores: Scores

    /** The detector works on the same graph and illicit set, and the measures fit the
        graph. */
    ghost predicate Valid()
    {
      && Graph.Valid(g) && detector.Valid() && detector.g == g && detector.illicit == illicit
      && Fits(g, lib)
    }

    /** The scores are either not yet calculated or cover exactly the graph's wallets. */
    ghost predicate Covers()
      reads this
    {
      walletScores == map[] || walletScores.Keys == g.wallets.Keys
    }

    constructor(detector: PatternDetection.PatternDetector, lib: Measures)
      requires detector.Valid() && Fits(detector.g, lib)
      ensures Valid() && Covers()
      ensures this.g == detector.g && this.illicit == detector.illicit
      ensures this.detector == detector && this.lib == lib
      ensures walletScores == map[]
    {
      this.g := detector.g;
      this.illicit := detector.illicit;
      this.detector := detector;
      this.lib := lib;
      walletScores := map[];
    }

    /** `_calculate_centrality_scores`: the three normalised centralities combined, node
        by node. */
    method CalculateCentralityScores() returns (scores: Scores)
      requires Valid()
      ensures scores == Centralities(g, lib)
    {
      var prNorm := Normalize(lib.pagerank);
      var btNorm := Normalize(lib.betweenness);
      var clNorm := Normalize(lib.closeness);
      ghost var combined := Combined(prNorm, btNorm, clNorm);
      scores := map[];
      for i := 0 to |g.nodes|
        invariant scores == Tabulate(g.nodes[..i], combined[..i])
      {
        TabulateStep(g.nodes, combined, i);
        assert combined[i] == Centrality(prNorm[i], btNorm[i], clNorm[i]);
        scores := scores[g.nodes[i] := Centrality(prNorm[i], btNorm[i], clNorm[i])];
      }
      assert g.nodes[..|g.nodes|] == g.nodes && combined[..|g.nodes|] == combined;
    }

    /** `_calculate_illicit_proximity_scores`: 100 for an illicit wallet; otherwise the
        distance score from the detector's nearest illicit wallet, raised by 10 per
        illicit neighbour and capped at 100. */
    method CalculateIllicitProximityScores() returns (scores: Scores)
      requires Valid()
      ensures scores == ProximityScores(g, illicit, lib.decay)
    {
      scores := map[];
      NodesAreWallets(g);
      for i := 0 to |g.nodes|
        invariant scores.Keys == Elems(g.nodes[..i])
        invariant forall w :: w in scores ==> w in g.wallets && scores[w] == Proximity(g, illicit, lib.decay, w)
      {
        var w := g.nodes[i];
        ElemsPrefix(g.nodes, i);
        if w in illicit {
          scores := scores[w := 100.0];
          continue;
        }
        var score := ConnectionScore(w);
        scores := scores[w := score];
      }
      ElemsWhole(g.nodes);
      ProximityCovered(g, illicit, lib.decay, scores);
    }

    /** The proximity score of a wallet that is not itself illicit. */
    method ConnectionScore(w: Wallet) returns (score: real)
      requires Valid() && w in g.wallets && w !in illicit
      ensures score == Proximity(g, illicit, lib.decay, w)
    {
      var found := detector.FindShortestPathToIllicit(w);
      score := DistanceScore(found.value.1, lib.decay);
      var illicitNeighbours := |GraphQueries.Neighbors(g, w, GraphQueries.Both) * illicit|;
      if illicitNeighbours > 0 {
        score := MinReal(score + illicitNeighbours as real * 10.0, 100.0);
      }
    }

    /** The inner loop of `_calculate_pattern_involvement_scores`: every member of `p`
        that has an entry gains its role weight. */
    static method Accrue(scores: Scores, p: SmurfingPattern) returns (r: Scores)
      ensures r.Keys == scores.Keys
      ensures forall w :: w in r ==> r[w] == scores[w] + RoleWeight(p, w)
    {
      r := scores;
      var pending := Members(p);
      while pending != {}
        invariant pending <= Members(p)
        invariant r.Keys == scores.Keys
        invariant forall w :: w in r ==>
          r[w] == if w in Members(p) && w !in pending then scores[w] + RoleWeight(p, w) else scores[w]
        decreases pending
      {
        var w :| w in pending;
        if w in r {
          if w in p.sources || w in p.destinations {
            r := r[w := r[w] + p.suspicionScore * 1.0];
          } else {
            r := r[w := r[w] + p.suspicionScore * 0.7];
          }
        }
        pending := pending - {w};
      }
    }

    /** `_calculate_pattern_involvement_scores`: the role weights summed pattern by
        pattern, then rescaled so that the largest positive sum becomes 100. */
    method CalculatePatternInvolvementScores() returns (scores: Scores)
      requires Valid()
      ensures scores == InvolvementScores(g, detector.detectedPatterns)
    {
      var ps := detector.detectedPatterns;
      scores := map w | w in g.wallets :: 0.0;
      assert ps[..0] == [];
      for j := 0 to |ps|
        invariant scores == RawInvolvement(g, ps[..j])
      {
        var next := Accrue(scores, ps[j]);
        InvolvementStep(g, ps, j, scores, next);
        scores := next;
      }
      assert ps[..|ps|] == ps;
      NodesAreWallets(g);
      if scores != map[] {
        var peak := Greatest(ValuesOf(g.nodes, scores));
        if peak > 0.0 {
          scores := ScaleToPeak(scores, peak);
        }
      }
    }

    /** The first loop of `_calculate_structural_anomaly_scores`: the feature rows of the
        wallets that have features, and those wallets, in node order. */
    method GatherFeatures() returns (rows: seq<seq<real>>, walletList: seq<Wallet>)
      ensures (rows, walletList) == FeatureTable(g, illicit, g.nodes)
    {
      rows, walletList := [], [];
      for i := 0 to |g.nodes|
        invariant (rows, walletList) == FeatureTable(g, illicit, g.nodes[..i])
      {
        assert g.nodes[..i + 1][..i] == g.nodes[..i];
        var features := GraphQueries.WalletFeatures(g, illicit, g.nodes[i]);
        if features.Some? {
          rows := rows + [FeatureVector(features.value)];
          walletList := walletList + [g.nodes[i]];
        }
      }
      assert g.nodes[..|g.nodes|] == g.nodes;
    }

    /** The second loop of `_calculate_structural_anomaly_scores`: per feature, the
        absolute z-scores when the column varies, zeros otherwise. */
    static method FeatureDeviations(rows: seq<seq<real>>, zscore: seq<real> -> seq<real>) returns (deviations: seq<seq<real>>)
      requires Table(rows) && ZScoreShape(zscore)
      ensures deviations == Deviations(rows, zscore)
    {
      deviations := [];
      for k := 0 to FeatureCount
        invariant |deviations| == k
        invariant forall j :: 0 <= j < k ==> deviations[j] == Deviation(Column(rows, j), zscore)
      {
        var column := Column(rows, k);
        if Spread(column) {
          deviations := deviations + [Magnitudes(zscore(column))];
        } else {
          deviations := deviations + [Zeros(|column|)];
        }
      }
      DeviationsAre(rows, zscore, deviations);
    }

    /** The last loop of `_calculate_structural_anomaly_scores`: 0 for every wallet of
        `nodes` without a score. */
    static method FillMissing(found: Scores, nodes: seq<Wallet>) returns (scores: Scores)
      ensures scores == Fill(found, Elems(nodes))
    {
      scores := found;
      ElemsWhole(nodes);
      assert Fill(found, {}) == found;
      for i := 0 to |nodes|
        invariant scores == Fill(found, Elems(nodes[..i]))
      {
        ElemsPrefix(nodes, i);
        FillStep(found, Elems(nodes[..i]), nodes[i]);
        if nodes[i] !in scores {
          scores := scores[nodes[i] := 0.0];
        }
      }
    }

    /** `_calculate_structural_anomaly_scores`: the feature rows gathered node by node,
        the absolute z-scores of each varying feature, each row's largest, rescaled by the
        overall largest, and 0 for every wallet without a row. */
    method CalculateStructuralAnomalyScores() returns (scores: Scores)
      requires Valid()
      ensures scores == AnomalyScores(g, illicit, lib.zscore)
    {
      var rows, walletList := GatherFeatures();
      if rows == [] {
        return map w | w in g.wallets :: 0.0;
      }
      var deviations := FeatureDeviations(rows, lib.zscore);
      var normalized := ScaleByMax(Peaks(deviations, |rows|));
      scores := FillMissing(Tabulate(walletList, normalized), g.nodes);
      NodesAreWallets(g);
    }

    /** `calculate_all_scores`: the four components, then each wallet's weighted
        combination written into `walletScores`. */
    method CalculateAllScores() returns (scores: Scores)
      requires Valid() && Covers()
      modifies this
      ensures Covers()
      ensures walletScores == AllScores(g, illicit, detector.detectedPatterns, lib)
      ensures scores == walletScores
    {
      var centrality := CalculateCentralityScores();
      var proximity := CalculateIllicitProximityScores();
      var involvement := CalculatePatternInvolvementScores();
      var anomaly := CalculateStructuralAnomalyScores();
      StoreComposites(centrality, proximity, involvement, anomaly);
      scores := walletScores;
    }

    /** The loop of `calculate_all_scores`: the weighted combination of the components
        (0 where one is missing) stored for every wallet of the graph, over whatever
        scores were kept before. */
    method StoreComposites(centrality: Scores, proximity: Scores, involvement: Scores, anomaly: Scores)
      requires Valid() && Covers()
      modifies this
      ensures walletScores == CompositeScores(g, centrality, proximity, involvement, anomaly)
      ensures Covers()
    {
      ghost var combined := CompositeScores(g, centrality, proximity, involvement, anomaly);
      ghost var before := walletScores;
      ElemsWhole(g.nodes);
      for i := 0 to |g.nodes|
        invariant walletScores == Overwrite(before, combined, Elems(g.nodes[..i]))
      {
        var w := g.nodes[i];
        ElemsPrefix(g.nodes, i);
        OverwriteStep(before, combined, Elems(g.nodes[..i]), w);
        walletScores := walletScores[w := Composite(Get(centrality, w), Get(proximity, w), Get(involvement, w), Get(anomaly, w))];
      }
      CompositesStored(g, before, centrality, proximity, involvement, anomaly);
    }

    /** `get_top_suspicious_wallets`: the scores (calculated first when there are none),
        sorted by descending score with ties in node order, cut by `[:n]`. */
    method GetTopSuspiciousWallets(n: int) returns (top: Ranked)
      requires Valid() && Covers()
      modifies this
      ensures Covers()
      ensures old(walletScores) != map[] ==> walletScores == old(walletScores)
      ensures old(walletScores) == map[] ==> walletScores == AllScores(g, illicit, detector.detectedPatterns, lib)
      ensures top == Prefix(SortByScore(Items(g.nodes, walletScores)), n)
      ensures Descending(top) && DistinctKeys(top)
      ensures forall i :: 0 <= i < |top| ==> top[i].0 in walletScores && top[i].1 == walletScores[top[i].0]
    {
      if walletScores == map[] {
        var _ := CalculateAllScores();
      }
      NodesAreWallets(g);
      if walletScores == map[] {
        assert g.nodes == [];
      }
      TopSuspicious(g.nodes, walletScores, n);
      top := Prefix(SortByScore(Items(g.nodes, walletScores)), n);
    }

    /** `get_wallet_risk_assessment`: `WalletNotFound` for a wallet outside the graph;
        otherwise the scores are calculated first when there are none, and the assessment
        gathers the wallet's stored score, its components, features, illicit connection
        and patterns. */
    method GetWalletRiskAssessment(w: Wallet) returns (r: AssessmentResult)
      requires Valid() && Covers()
      modifies this
      ensures Covers()
      ensures w !in g.wallets ==> r == WalletNotFound && walletScores == old(walletScores)
      ensures w in g.wallets && old(walletScores) != map[] ==> walletScores == old(walletScores)
      ensures w in g.wallets && old(walletScores) == map[] ==>
        walletScores == AllScores(g, illicit, detector.detectedPatterns, lib)
      ensures w in g.wallets ==>
        r == Assessed(AssessmentOf(g, illicit, detector.detectedPatterns, lib, Get(walletScores, w), w))
    {
      if w !in g.wallets {
        return WalletNotFound;
      }
      if walletScores == map[] {
        var _ := CalculateAllScores();
      }
      var centrality := CalculateCentralityScores();
      var proximity := CalculateIllicitProximityScores();
      var involvement := CalculatePatternInvolvementScores();
      var anomaly := CalculateStructuralAnomalyScores();
      var parts := Components(Get(centrality, w), Get(proximity, w), Get(involvement, w), Get(anomaly, w));
      var features := GraphQueries.WalletFeatures(g, illicit, w);
      var involved := InvolvedPatterns(detector.detectedPatterns, w);
      var found := detector.FindShortestPathToIllicit(w);
      var (path, distance) := found.value;
      var overall := Get(walletScores, w);
      r := Assessed(Assessment(
        w, overall, RiskOf(overall), parts, features, w in illicit,
        if distance.Finite? then Some(distance.n) else None,
        if path != [] then Some(path) else None,
        |involved|, PatternTypes(involved)));
    }
  }
}
