/** The per-wallet scoring rules of SuspicionScorer (suspicion_scorer.py) as functions:
    min-max normalisation, the four score components, their weighted combination, the
    risk bands and the descending ranking. The quantities the scorer takes from numerical
    libraries (PageRank, betweenness, closeness, z-scores, the exponential decay) are
    parameters. */
module Scoring {
  import opened Common
  import opened Graph
  import opened Patterns
  import Paths
  import GraphQueries

  /** A score per wallet (a Python dict from wallet id to float). */
  type Scores = map<Wallet, real>

  /** `scores.get(w, 0)`. */
  function Get(m: Scores, w: Wallet): real
  {
    if w in m then m[w] else 0.0
  }

  // ---------------------------------------------------------------------------
  // Extremes and division
  // ---------------------------------------------------------------------------

  /** Python's `min` over a non-empty list of floats. */
  function Least(s: seq<real>): (r: real)
    requires s != []
    ensures r in s && forall x :: x in s ==> r <= x
  {
    if |s| == 1 then s[0]
    else
      var m := Least(s[1..]);
      assert forall x :: x in s ==> x == s[0] || x in s[1..];
      if s[0] <= m then s[0] else m
  }

  /** Python's `max` over a non-empty list of floats. */
  function Greatest(s: seq<real>): (r: real)
    requires s != []
    ensures r in s && forall x :: x in s ==> x <= r
  {
    if |s| == 1 then s[0]
    else
      var m := Greatest(s[1..]);
      assert forall x :: x in s ==> x == s[0] || x in s[1..];
      if s[0] >= m then s[0] else m
  }

  /** All entries of `s` are equal. */
  predicate Constant(s: seq<real>)
  {
    forall i, j :: 0 <= i < |s| && 0 <= j < |s| ==> s[i] == s[j]
  }

  /** Dividing by a positive number keeps order, and maps `[0, d]` onto `[0, 1]` with
      only `0` going to `0` and only `d` going to `1`. */
  lemma Quotient(a: real, b: real, d: real)
    requires d > 0.0
    ensures a <= b ==> a / d <= b / d
    ensures 0.0 <= a ==> 0.0 <= a / d
    ensures a <= d ==> a / d <= 1.0
    ensures a / d == 0.0 <==> a == 0.0
    ensures a / d == 1.0 <==> a == d
  {
    assert (a / d) * d == a;
    assert (b / d) * d == b;
    assert b / d - a / d == (b - a) / d;
    assert (1.0 - a / d) * d == d - a;
  }

  // ---------------------------------------------------------------------------
  // _normalize_scores
  // ---------------------------------------------------------------------------

  /** Min-max normalisation of a list: empty stays empty, a constant list becomes all
      `0.5`, and otherwise each value becomes its position between the minimum and the
      maximum. */
  function Normalize(s: seq<real>): (r: seq<real>)
    ensures |r| == |s|
  {
    if s == [] then []
    else
      var lo, hi := Least(s), Greatest(s);
      if hi - lo == 0.0 then seq(|s|, _ => 0.5)
      else seq(|s|, i requires 0 <= i < |s| => Position(s[i], lo, hi))
  }

  /** Where `x` lies between `lo` and `hi`, as a fraction of the distance. */
  function Position(x: real, lo: real, hi: real): real
    requires hi - lo != 0.0
  {
    (x - lo) / (hi - lo)
  }

  /** The normalised list of a list that is not constant, entry by entry. */
  lemma NormalizeSpread(s: seq<real>)
    requires !Constant(s)
    ensures s != [] && Greatest(s) - Least(s) > 0.0
    ensures forall i :: 0 <= i < |s| ==> Normalize(s)[i] == Position(s[i], Least(s), Greatest(s))
  {
    var i, j :| 0 <= i < |s| && 0 <= j < |s| && s[i] != s[j];
    var lo, hi := Least(s), Greatest(s);
    assert lo <= s[i] <= hi && lo <= s[j] <= hi by {
      assert s[i] in s && s[j] in s;
    }
    assert hi - lo != 0.0;
  }

  /** A constant list normalises to `0.5` everywhere, and only a constant one does. */
  lemma NormalizeConstant(s: seq<real>)
    ensures Constant(s) <==> forall i :: 0 <= i < |s| ==> Normalize(s)[i] == 0.5
  {
    if s != [] && Greatest(s) - Least(s) == 0.0 {
      forall i, j | 0 <= i < |s| && 0 <= j < |s|
        ensures s[i] == s[j]
      {
        assert s[i] in s && s[j] in s;
      }
    }
    if !Constant(s) {
      NormalizeSpread(s);
      var lo, hi := Least(s), Greatest(s);
      assert lo in s;
      var k :| 0 <= k < |s| && s[k] == lo;
      Quotient(0.0, 0.0, hi - lo);
      assert Normalize(s)[k] == 0.0;
    }
  }

  /** Normalised values lie in `[0, 1]` and keep the order of the inputs. */
  lemma NormalizeRange(s: seq<real>)
    ensures forall i :: 0 <= i < |s| ==> 0.0 <= Normalize(s)[i] <= 1.0
    ensures forall i, j :: 0 <= i < |s| && 0 <= j < |s| && s[i] <= s[j] ==> Normalize(s)[i] <= Normalize(s)[j]
  {
    if !Constant(s) {
      NormalizeSpread(s);
      var r, lo, hi := Normalize(s), Least(s), Greatest(s);
      forall i | 0 <= i < |s|
        ensures 0.0 <= r[i] <= 1.0
      {
        assert s[i] in s;
        Quotient(s[i] - lo, s[i] - lo, hi - lo);
      }
      forall i, j | 0 <= i < |s| && 0 <= j < |s| && s[i] <= s[j]
        ensures r[i] <= r[j]
      {
        Quotient(s[i] - lo, s[j] - lo, hi - lo);
      }
    } else {
      NormalizeConstant(s);
    }
  }

  /** When the list is not constant, exactly its minima normalise to `0` and exactly its
      maxima to `1`. */
  lemma NormalizeExtremes(s: seq<real>)
    requires !Constant(s)
    ensures forall i :: 0 <= i < |s| ==> (Normalize(s)[i] == 0.0 <==> s[i] == Least(s))
    ensures forall i :: 0 <= i < |s| ==> (Normalize(s)[i] == 1.0 <==> s[i] == Greatest(s))
  {
    NormalizeSpread(s);
    var r, lo, hi := Normalize(s), Least(s), Greatest(s);
    forall i | 0 <= i < |s|
      ensures r[i] == 0.0 <==> s[i] == lo
      ensures r[i] == 1.0 <==> s[i] == hi
    {
      PositionEnds(s[i], lo, hi);
    }
  }

  /** Only the lower end of a proper interval sits at 0, and only the upper end at 1. */
  lemma PositionEnds(x: real, lo: real, hi: real)
    requires hi - lo > 0.0
    ensures Position(x, lo, hi) == 0.0 <==> x == lo
    ensures Position(x, lo, hi) == 1.0 <==> x == hi
  {
    Quotient(x - lo, x - lo, hi - lo);
  }

  // ---------------------------------------------------------------------------
  // _get_risk_level
  // ---------------------------------------------------------------------------

  /** The five labels "MINIMAL" … "CRITICAL". */
  datatype RiskLevel = Minimal | Low | Medium | High | Critical

  /** The lower edges of the LOW, MEDIUM, HIGH and CRITICAL bands. */
  const Bands: seq<real> := [20.0, 40.0, 60.0, 80.0]

  /** Position of a label in the order MINIMAL < LOW < MEDIUM < HIGH < CRITICAL. */
  function Severity(l: RiskLevel): nat
  {
    match l
    case Minimal => 0
    case Low => 1
    case Medium => 2
    case High => 3
    case Critical => 4
  }

  /** How many of `bands` the score reaches. */
  function BandsReached(score: real, bands: seq<real>): nat
  {
    if bands == [] then 0
    else (if bands[0] <= score then 1 else 0) + BandsReached(score, bands[1..])
  }

  /** The risk label of a score. */
  function RiskOf(score: real): RiskLevel
  {
    if score >= 80.0 then Critical
    else if score >= 60.0 then High
    else if score >= 40.0 then Medium
    else if score >= 20.0 then Low
    else Minimal
  }

  /** The severity of a score's label is the number of band edges the score reaches. */
  lemma RiskBands(score: real)
    ensures Severity(RiskOf(score)) == BandsReached(score, Bands)
  {
    var b1, b2, b3 := Bands[1..], Bands[2..], Bands[3..];
    assert b1 == [40.0, 60.0, 80.0] && b2 == [60.0, 80.0] && b3 == [80.0] && b3[1..] == [];
    assert b1[1..] == b2 && b2[1..] == b3;
    assert BandsReached(score, b3) == if 80.0 <= score then 1 else 0;
    assert BandsReached(score, b2) == (if 60.0 <= score then 1 else 0) + BandsReached(score, b3);
    assert BandsReached(score, b1) == (if 40.0 <= score then 1 else 0) + BandsReached(score, b2);
  }

  lemma {:induction false} BandsReachedMonotone(a: real, b: real, bands: seq<real>)
    requires a <= b
    ensures BandsReached(a, bands) <= BandsReached(b, bands)
  {
    if bands != [] {
      BandsReachedMonotone(a, b, bands[1..]);
    }
  }

  /** A higher score never gets a milder label. */
  lemma RiskMonotone(a: real, b: real)
    requires a <= b
    ensures Severity(RiskOf(a)) <= Severity(RiskOf(b))
  {
    RiskBands(a);
    RiskBands(b);
    BandsReachedMonotone(a, b, Bands);
  }

  // ---------------------------------------------------------------------------
  // Building a dictionary from parallel lists
  // ---------------------------------------------------------------------------

  /** The dictionary `{ws[i]: vs[i]}` built in list order (a later key overwrites). */
  function Tabulate(ws: seq<Wallet>, vs: seq<real>): (m: Scores)
    requires |ws| == |vs|
    ensures m.Keys == Elems(ws)
    ensures Distinct(ws) ==> forall i :: 0 <= i < |ws| ==> m[ws[i]] == vs[i]
  {
    if ws == [] then map[]
    else
      var n := |ws| - 1;
      var m := Tabulate(ws[..n], vs[..n]);
      assert Elems(ws) == Elems(ws[..n]) + {ws[n]} by {
        assert ws == ws[..n] + [ws[n]];
      }
      assert Distinct(ws) ==> Distinct(ws[..n]) && ws[n] !in ws[..n];
      m[ws[n] := vs[n]]
  }

  // ---------------------------------------------------------------------------
  // _calculate_centrality_scores
  // ---------------------------------------------------------------------------

  /** Combination of the three normalised centralities, scaled to 100. */
  function Centrality(pr: real, bt: real, cl: real): real
  {
    (0.4 * pr + 0.4 * bt + 0.2 * cl) * 100.0
  }

  /** The combinations, position by position, of three lists of normalised centralities. */
  function Combined(prn: seq<real>, btn: seq<real>, cln: seq<real>): (r: seq<real>)
    requires |btn| == |prn| && |cln| == |prn|
    ensures |r| == |prn|
  {
    seq(|prn|, i requires 0 <= i < |prn| => Centrality(prn[i], btn[i], cln[i]))
  }

  /** The combined score of each node, the three centralities being given in node order. */
  function CentralityScores(nodes: seq<Wallet>, pr: seq<real>, bt: seq<real>, cl: seq<real>): Scores
    requires |pr| == |nodes| && |bt| == |nodes| && |cl| == |nodes|
  {
    Tabulate(nodes, Combined(Normalize(pr), Normalize(bt), Normalize(cl)))
  }

  /** Every node gets a centrality score in `[0, 100]`. */
  lemma CentralityRange(nodes: seq<Wallet>, pr: seq<real>, bt: seq<real>, cl: seq<real>)
    requires Distinct(nodes)
    requires |pr| == |nodes| && |bt| == |nodes| && |cl| == |nodes|
    ensures var m := CentralityScores(nodes, pr, bt, cl);
      && m.Keys == Elems(nodes)
      && forall i :: 0 <= i < |nodes| ==> 0.0 <= m[nodes[i]] <= 100.0
  {
    NormalizeRange(pr);
    NormalizeRange(bt);
    NormalizeRange(cl);
  }

  /** A node at least as central as another on all three measures scores at least as
      high. */
  lemma CentralityDominance(nodes: seq<Wallet>, pr: seq<real>, bt: seq<real>, cl: seq<real>, i: int, j: int)
    requires Distinct(nodes)
    requires |pr| == |nodes| && |bt| == |nodes| && |cl| == |nodes|
    requires 0 <= i < |nodes| && 0 <= j < |nodes|
    requires pr[i] <= pr[j] && bt[i] <= bt[j] && cl[i] <= cl[j]
    ensures CentralityScores(nodes, pr, bt, cl)[nodes[i]] <= CentralityScores(nodes, pr, bt, cl)[nodes[j]]
  {
    NormalizeRange(pr);
    NormalizeRange(bt);
    NormalizeRange(cl);
  }

  /** When none of the three measures tells the nodes apart, every node gets 50. */
  lemma CentralityUniform(nodes: seq<Wallet>, pr: seq<real>, bt: seq<real>, cl: seq<real>)
    requires Distinct(nodes)
    requires |pr| == |nodes| && |bt| == |nodes| && |cl| == |nodes|
    requires Constant(pr) && Constant(bt) && Constant(cl)
    ensures forall i :: 0 <= i < |nodes| ==> CentralityScores(nodes, pr, bt, cl)[nodes[i]] == 50.0
  {
    NormalizeConstant(pr);
    NormalizeConstant(bt);
    NormalizeConstant(cl);
  }

  // ---------------------------------------------------------------------------
  // _calculate_illicit_proximity_scores
  // ---------------------------------------------------------------------------

  /** `decay(k)` stands for `exp(-0.3 * k)`: positive and at most 1 for `k >= 0`. */
  ghost predicate DecayBounded(decay: int -> real)
  {
    forall k :: 0 <= k ==> 0.0 < decay(k) <= 1.0
  }

  /** `exp(-0.3 * k)` never grows with `k`. */
  ghost predicate DecayNonIncreasing(decay: int -> real)
  {
    forall a, b :: 0 <= a <= b ==> decay(b) <= decay(a)
  }

  /** How many neighbours of `w`, in either direction, are illicit. */
  function IllicitNeighbours(g: TxGraph, illicit: set<Wallet>, w: Wallet): nat
    requires w in g.wallets
  {
    |GraphQueries.Neighbors(g, w, GraphQueries.Both) * illicit|
  }

  /** The score before the neighbour bonus: `100 * exp(-0.3 * (d - 1))` when the nearest
      illicit wallet is `d` nodes away along its path, 0 when none is reachable. */
  function DistanceScore(distance: Paths.Distance, decay: int -> real): real
  {
    match distance
    case Infinite => 0.0
    case Finite(n) => 100.0 * decay(n - 1)
  }

  /** The illicit-proximity score of one wallet of the graph: 100 for an illicit wallet;
      otherwise the distance score plus 10 per illicit neighbour, capped at 100 once there
      is such a neighbour. */
  function Proximity(g: TxGraph, illicit: set<Wallet>, decay: int -> real, w: Wallet): real
    requires Valid(g) && w in g.wallets
  {
    if w in illicit then 100.0
    else
      var base := DistanceScore(Paths.Nearest(g, w, NodesIn(g, illicit)).1, decay);
      var k := IllicitNeighbours(g, illicit, w);
      if k > 0 then MinReal(base + k as real * 10.0, 100.0) else base
  }

  function ProximityScores(g: TxGraph, illicit: set<Wallet>, decay: int -> real): Scores
    requires Valid(g)
  {
    map w | w in g.wallets :: Proximity(g, illicit, decay, w)
  }

  /** Proximity scores lie in `[0, 100]`, and an illicit wallet scores exactly 100. */
  lemma ProximityRange(g: TxGraph, illicit: set<Wallet>, decay: int -> real, w: Wallet)
    requires Valid(g) && w in g.wallets && DecayBounded(decay)
    ensures 0.0 <= Proximity(g, illicit, decay, w) <= 100.0
    ensures w in illicit ==> Proximity(g, illicit, decay, w) == 100.0
  {
    Paths.NearestIsNearest(g, w, NodesIn(g, illicit));
  }

  /** For a wallet that is not illicit itself: each illicit neighbour is worth 10 points
      (up to 100), and the score is 0 exactly when it has no illicit neighbour and no walk
      leads from it to an illicit wallet of the graph. */
  lemma ProximityZero(g: TxGraph, illicit: set<Wallet>, decay: int -> real, w: Wallet)
    requires Valid(g) && w in g.wallets && w !in illicit && DecayBounded(decay)
    ensures Proximity(g, illicit, decay, w) >= MinReal(IllicitNeighbours(g, illicit, w) as real * 10.0, 100.0)
    ensures Proximity(g, illicit, decay, w) == 0.0 <==>
      && IllicitNeighbours(g, illicit, w) == 0
      && forall t, p :: t in illicit && t in g.wallets ==> !Paths.Walk(g, p, w, t)
  {
    NodesInEnumerates(g, illicit * g.wallets.Keys);
    NodesInWithin(g, illicit);
    Paths.NearestIsNearest(g, w, NodesIn(g, illicit));
  }

  /** Adding wallets to the illicit set never lowers a wallet's proximity score. */
  lemma ProximityMonotone(g: TxGraph, illicit: set<Wallet>, more: set<Wallet>, decay: int -> real, w: Wallet)
    requires Valid(g) && w in g.wallets && illicit <= more
    requires DecayBounded(decay) && DecayNonIncreasing(decay)
    ensures Proximity(g, illicit, decay, w) <= Proximity(g, more, decay, w)
  {
    ProximityRange(g, illicit, decay, w);
    if w !in more {
      Paths.NearestMonotone(g, w, illicit, more);
      Paths.NearestIsNearest(g, w, NodesIn(g, illicit));
      Paths.NearestIsNearest(g, w, NodesIn(g, more));
      var N := GraphQueries.Neighbors(g, w, GraphQueries.Both);
      SubsetCard(N * illicit, N * more);
    }
  }

  // ---------------------------------------------------------------------------
  // _calculate_pattern_involvement_scores
  // ---------------------------------------------------------------------------

  /** What one pattern adds to a wallet: its full score for a source or a destination, 70%
      of it for a wallet that is only an intermediary, nothing for a non-member. */
  function RoleWeight(p: SmurfingPattern, w: Wallet): real
  {
    if w in p.sources || w in p.destinations then p.suspicionScore * 1.0
    else if w in p.intermediates then p.suspicionScore * 0.7
    else 0.0
  }

  /** The sum of the role weights of `w` over the patterns, accumulated in list order. */
  function Involvement(ps: seq<SmurfingPattern>, w: Wallet): real
  {
    if ps == [] then 0.0 else Involvement(ps[..|ps| - 1], w) + RoleWeight(ps[|ps| - 1], w)
  }

  /** Patterns scored by the detector carry a score of at least 0. */
  predicate NonNegativeScores(ps: seq<SmurfingPattern>)
  {
    forall i :: 0 <= i < |ps| ==> ps[i].suspicionScore >= 0.0
  }

  /** With non-negative pattern scores, a wallet's involvement is non-negative, and positive
      exactly when it is a member of some pattern with a positive score. */
  lemma {:induction false} InvolvementSign(ps: seq<SmurfingPattern>, w: Wallet)
    requires NonNegativeScores(ps)
    ensures Involvement(ps, w) >= 0.0
    ensures Involvement(ps, w) > 0.0 <==>
      exists i :: 0 <= i < |ps| && w in Members(ps[i]) && ps[i].suspicionScore > 0.0
  {
    if ps != [] {
      var n := |ps| - 1;
      assert NonNegativeScores(ps[..n]);
      InvolvementSign(ps[..n], w);
      if exists i :: 0 <= i < n && w in Members(ps[..n][i]) && ps[..n][i].suspicionScore > 0.0 {
        var i :| 0 <= i < n && w in Members(ps[..n][i]) && ps[..n][i].suspicionScore > 0.0;
        assert ps[i] == ps[..n][i];
      }
      if exists i :: 0 <= i < |ps| && w in Members(ps[i]) && ps[i].suspicionScore > 0.0 {
        var i :| 0 <= i < |ps| && w in Members(ps[i]) && ps[i].suspicionScore > 0.0;
        if i < n {
          assert ps[..n][i] == ps[i];
        }
      }
    }
  }

  /** The summed involvement of every wallet of the graph. */
  function RawInvolvement(g: TxGraph, ps: seq<SmurfingPattern>): Scores
  {
    map w | w in g.wallets :: Involvement(ps, w)
  }

  /** The values of `m` at the keys `ws`, in the order of `ws`. */
  function ValuesOf(ws: seq<Wallet>, m: Scores): seq<real>
    requires forall w :: w in ws ==> w in m
  {
    seq(|ws|, i requires 0 <= i < |ws| => m[ws[i]])
  }

  /** Each value as a percentage of `peak`, capped at 100. */
  function ScaleToPeak(m: Scores, peak: real): Scores
    requires peak > 0.0
  {
    map w | w in m :: MinReal(m[w] / peak * 100.0, 100.0)
  }

  /** The pattern-involvement scores: the raw sums, rescaled so that the largest becomes
      100 when it is positive. */
  function InvolvementScores(g: TxGraph, ps: seq<SmurfingPattern>): Scores
    requires Valid(g)
  {
    var raw := RawInvolvement(g, ps);
    if g.nodes == [] then raw
    else
      var peak := Greatest(ValuesOf(g.nodes, raw));
      if peak > 0.0 then ScaleToPeak(raw, peak) else raw
  }

  /** The largest raw involvement over the graph's wallets, when there is one. */
  lemma InvolvementPeak(g: TxGraph, ps: seq<SmurfingPattern>)
    requires Valid(g) && g.nodes != []
    ensures var raw := RawInvolvement(g, ps);
      var peak := Greatest(ValuesOf(g.nodes, raw));
      && (forall w :: w in g.wallets ==> raw[w] <= peak)
      && exists w :: w in g.wallets && raw[w] == peak
  {
    var raw := RawInvolvement(g, ps);
    var vs := ValuesOf(g.nodes, raw);
    forall w | w in g.wallets
      ensures raw[w] <= Greatest(vs)
    {
      var i :| 0 <= i < |g.nodes| && g.nodes[i] == w;
      assert vs[i] in vs;
    }
    var i :| 0 <= i < |vs| && vs[i] == Greatest(vs);
    assert raw[g.nodes[i]] == Greatest(vs);
  }

  /** Involvement scores cover the graph's wallets, lie in `[0, 100]` and keep the order of
      the raw sums; a wallet with the largest positive sum gets 100, and when no wallet
      has a positive sum every score is 0. */
  lemma InvolvementSpec(g: TxGraph, ps: seq<SmurfingPattern>)
    requires Valid(g) && NonNegativeScores(ps)
    ensures var m := InvolvementScores(g, ps);
      && m.Keys == g.wallets.Keys
      && (forall w :: w in m ==> 0.0 <= m[w] <= 100.0)
      && (forall u, v :: u in m && v in m && Involvement(ps, u) <= Involvement(ps, v) ==> m[u] <= m[v])
      && (forall w :: w in m && Involvement(ps, w) > 0.0 && (forall v :: v in m ==> Involvement(ps, v) <= Involvement(ps, w))
            ==> m[w] == 100.0)
      && ((forall v :: v in m ==> Involvement(ps, v) == 0.0) ==> forall w :: w in m ==> m[w] == 0.0)
  {
    var m := InvolvementScores(g, ps);
    var raw := RawInvolvement(g, ps);
    forall w | w in g.wallets
      ensures raw[w] >= 0.0
    {
      InvolvementSign(ps, w);
    }
    if g.nodes != [] {
      InvolvementPeak(g, ps);
      var peak := Greatest(ValuesOf(g.nodes, raw));
      if peak > 0.0 {
        forall w | w in m
          ensures 0.0 <= m[w] <= 100.0
        {
          Quotient(raw[w], raw[w], peak);
        }
        forall u, v | u in m && v in m && raw[u] <= raw[v]
          ensures m[u] <= m[v]
        {
          Quotient(raw[u], raw[v], peak);
        }
        forall w | w in m && raw[w] > 0.0 && (forall v :: v in m ==> raw[v] <= raw[w])
          ensures m[w] == 100.0
        {
          var top :| top in g.wallets && raw[top] == peak;
          assert raw[w] == peak;
          Quotient(raw[w], raw[w], peak);
        }
      } else {
        forall w | w in m
          ensures m[w] <= 100.0
        {
          assert raw[w] <= peak;
        }
      }
    }
  }

  // ---------------------------------------------------------------------------
  // _calculate_structural_anomaly_scores
  // ---------------------------------------------------------------------------

  const FeatureCount := 5

  /** Every row has one entry per feature. */
  predicate Table(rows: seq<seq<real>>)
  {
    forall i :: 0 <= i < |rows| ==> |rows[i]| == FeatureCount
  }

  /** The features the anomaly score looks at: in-degree, out-degree, fan-out ratio,
      fan-in ratio and transaction count. */
  function FeatureVector(f: GraphQueries.Features): seq<real>
  {
    [f.inDegree as real, f.outDegree as real, f.fanoutRatio, f.faninRatio, f.txCount as real]
  }

  /** The feature rows of the wallets of `ws` that have features, and those wallets, both
      in the order of `ws`. */
  function FeatureTable(g: TxGraph, illicit: set<Wallet>, ws: seq<Wallet>): (t: (seq<seq<real>>, seq<Wallet>))
    ensures |t.0| == |t.1| && Table(t.0)
    ensures t.1 == Select(ws, g.wallets.Keys)
  {
    if ws == [] then ([], [])
    else
      var n := |ws| - 1;
      var t := FeatureTable(g, illicit, ws[..n]);
      SelectSnoc(ws[..n], ws[n], g.wallets.Keys);
      assert ws[..n] + [ws[n]] == ws;
      match GraphQueries.WalletFeatures(g, illicit, ws[n])
      case None => t
      case Some(f) => (t.0 + [FeatureVector(f)], t.1 + [ws[n]])
  }

  lemma {:induction false} SelectSnoc(xs: seq<Wallet>, x: Wallet, S: set<Wallet>)
    ensures Select(xs + [x], S) == Select(xs, S) + (if x in S then [x] else [])
  {
    if xs != [] {
      assert (xs + [x])[1..] == xs[1..] + [x];
      SelectSnoc(xs[1..], x, S);
    }
  }

  /** Column `k` of the table. */
  function Column(rows: seq<seq<real>>, k: nat): seq<real>
    requires Table(rows) && k < FeatureCount
  {
    seq(|rows|, i requires 0 <= i < |rows| => rows[i][k])
  }

  /** `np.std(c) > 0`: in exact arithmetic, the column is not constant. */
  predicate Spread(c: seq<real>)
  {
    c != [] && Least(c) < Greatest(c)
  }

  lemma SpreadIsVariation(c: seq<real>)
    ensures Spread(c) <==> !Constant(c)
  {
    if Spread(c) {
      assert Least(c) in c && Greatest(c) in c;
    }
    if !Constant(c) {
      var i, j :| 0 <= i < |c| && 0 <= j < |c| && c[i] != c[j];
      assert c[i] in c && c[j] in c;
    }
  }

  function Abs(x: real): real
  {
    if x < 0.0 then -x else x
  }

  /** `zscore` stands for `scipy.stats.zscore`: one score per entry. */
  ghost predicate ZScoreShape(zscore: seq<real> -> seq<real>)
  {
    forall c :: |zscore(c)| == |c|
  }

  /** `np.abs` of a list. */
  function Magnitudes(z: seq<real>): (r: seq<real>)
    ensures |r| == |z|
  {
    seq(|z|, i requires 0 <= i < |z| => Abs(z[i]))
  }

  /** `np.zeros_like` of a list of length `n`. */
  function Zeros(n: nat): (r: seq<real>)
    ensures |r| == n
  {
    seq(n, _ => 0.0)
  }

  /** The absolute z-scores of a column that varies; zeros for a constant column. */
  function Deviation(c: seq<real>, zscore: seq<real> -> seq<real>): (d: seq<real>)
    requires ZScoreShape(zscore)
    ensures |d| == |c|
  {
    if Spread(c) then Magnitudes(zscore(c)) else Zeros(|c|)
  }

  /** The deviations of the five feature columns. */
  function Deviations(rows: seq<seq<real>>, zscore: seq<real> -> seq<real>): (d: seq<seq<real>>)
    requires Table(rows) && ZScoreShape(zscore)
    ensures |d| == FeatureCount && forall k :: 0 <= k < |d| ==> |d[k]| == |rows|
  {
    seq(FeatureCount, k requires 0 <= k < FeatureCount => Deviation(Column(rows, k), zscore))
  }

  /** The entries of the deviations at row `i`, one per feature. */
  function At(devs: seq<seq<real>>, i: nat): seq<real>
    requires forall k :: 0 <= k < |devs| ==> i < |devs[k]|
  {
    seq(|devs|, k requires 0 <= k < |devs| => devs[k][i])
  }

  /** The per-row maximum over the features (`np.max(..., axis=0)`). */
  function Peaks(devs: seq<seq<real>>, n: nat): (r: seq<real>)
    requires devs != [] && forall k :: 0 <= k < |devs| ==> |devs[k]| == n
    ensures |r| == n
  {
    seq(n, i requires 0 <= i < n => Greatest(At(devs, i)))
  }

  /** Each value as a percentage of the largest when that is positive; unchanged
      otherwise. */
  function ScaleByMax(xs: seq<real>): (r: seq<real>)
    requires xs != []
    ensures |r| == |xs|
  {
    var top := Greatest(xs);
    if top > 0.0 then seq(|xs|, i requires 0 <= i < |xs| => xs[i] / top * 100.0) else xs
  }

  /** The largest absolute z-score of each row, rescaled by the population maximum. */
  function AnomalyValues(rows: seq<seq<real>>, zscore: seq<real> -> seq<real>): (r: seq<real>)
    requires Table(rows) && rows != [] && ZScoreShape(zscore)
    ensures |r| == |rows|
  {
    ScaleByMax(Peaks(Deviations(rows, zscore), |rows|))
  }

  /** The scores completed with 0 for every wallet of `K` that has none. */
  function Fill(m: Scores, K: set<Wallet>): Scores
  {
    m + map w | w in K && w !in m :: 0.0
  }

  /** The anomaly scores of the wallets with features, completed with 0 for the others. */
  function AnomalyScores(g: TxGraph, illicit: set<Wallet>, zscore: seq<real> -> seq<real>): Scores
    requires ZScoreShape(zscore)
  {
    var t := FeatureTable(g, illicit, g.nodes);
    if t.0 == [] then map w | w in g.wallets :: 0.0
    else Fill(Tabulate(t.1, AnomalyValues(t.0, zscore)), g.wallets.Keys)
  }

  lemma {:induction false} SelectAll(xs: seq<Wallet>, S: set<Wallet>)
    requires forall x :: x in xs ==> x in S
    ensures Select(xs, S) == xs
  {
    if xs != [] {
      SelectAll(xs[1..], S);
    }
  }

  /** A feature that does not vary across the wallets contributes 0 to every wallet, and
      every deviation is non-negative. */
  lemma DeviationSpec(c: seq<real>, zscore: seq<real> -> seq<real>)
    requires ZScoreShape(zscore)
    ensures forall i :: 0 <= i < |c| ==> Deviation(c, zscore)[i] >= 0.0
    ensures Constant(c) ==> forall i :: 0 <= i < |c| ==> Deviation(c, zscore)[i] == 0.0
  {
    SpreadIsVariation(c);
  }

  /** Rescaling by the maximum keeps non-negative values in `[0, 100]` and keeps their
      order, and a positive value anywhere means some value becomes exactly 100. */
  lemma ScaleByMaxSpec(xs: seq<real>)
    requires xs != [] && forall i :: 0 <= i < |xs| ==> xs[i] >= 0.0
    ensures var r := ScaleByMax(xs);
      && (forall i :: 0 <= i < |xs| ==> 0.0 <= r[i] <= 100.0)
      && (forall i, j :: 0 <= i < |xs| && 0 <= j < |xs| && xs[i] <= xs[j] ==> r[i] <= r[j])
      && ((exists i :: 0 <= i < |xs| && r[i] > 0.0) ==> exists i :: 0 <= i < |xs| && r[i] == 100.0)
  {
    var r, top := ScaleByMax(xs), Greatest(xs);
    if top > 0.0 {
      forall i | 0 <= i < |xs|
        ensures 0.0 <= r[i] <= 100.0
      {
        assert xs[i] in xs;
        Quotient(xs[i], xs[i], top);
      }
      forall i, j | 0 <= i < |xs| && 0 <= j < |xs| && xs[i] <= xs[j]
        ensures r[i] <= r[j]
      {
        Quotient(xs[i], xs[j], top);
      }
      var k :| 0 <= k < |xs| && xs[k] == top;
      Quotient(xs[k], xs[k], top);
      assert r[k] == 100.0;
    } else {
      forall i | 0 <= i < |xs|
        ensures r[i] == 0.0
      {
        assert xs[i] in xs;
      }
    }
  }

  /** The rows of the table are the graph's wallets in node order. */
  lemma FeatureTableNodes(g: TxGraph, illicit: set<Wallet>)
    requires Valid(g)
    ensures FeatureTable(g, illicit, g.nodes).1 == g.nodes
  {
    SelectAll(g.nodes, g.wallets.Keys);
  }

  /** The largest deviations of the rows, each non-negative. */
  lemma PeaksNonNegative(rows: seq<seq<real>>, zscore: seq<real> -> seq<real>)
    requires Table(rows) && ZScoreShape(zscore)
    ensures var p := Peaks(Deviations(rows, zscore), |rows|);
      forall i :: 0 <= i < |p| ==> p[i] >= 0.0
  {
    var devs := Deviations(rows, zscore);
    forall i | 0 <= i < |rows|
      ensures Greatest(At(devs, i)) >= 0.0
    {
      DeviationSpec(Column(rows, 0), zscore);
      assert At(devs, i)[0] in At(devs, i);
    }
  }

  /** The rescaled values lie in `[0, 100]`, and if any is positive, one is 100. */
  lemma AnomalyValuesSpec(rows: seq<seq<real>>, zscore: seq<real> -> seq<real>)
    requires Table(rows) && rows != [] && ZScoreShape(zscore)
    ensures var r := AnomalyValues(rows, zscore);
      && (forall i :: 0 <= i < |r| ==> 0.0 <= r[i] <= 100.0)
      && ((exists i :: 0 <= i < |r| && r[i] > 0.0) ==> exists i :: 0 <= i < |r| && r[i] == 100.0)
  {
    PeaksNonNegative(rows, zscore);
    ScaleByMaxSpec(Peaks(Deviations(rows, zscore), |rows|));
  }

  /** When no feature column varies, every value is 0. */
  lemma AnomalyValuesFlat(rows: seq<seq<real>>, zscore: seq<real> -> seq<real>)
    requires Table(rows) && rows != [] && ZScoreShape(zscore)
    requires forall k :: 0 <= k < FeatureCount ==> Constant(Column(rows, k))
    ensures forall i :: 0 <= i < |rows| ==> AnomalyValues(rows, zscore)[i] == 0.0
  {
    var devs := Deviations(rows, zscore);
    var xs := Peaks(devs, |rows|);
    forall i | 0 <= i < |xs|
      ensures xs[i] == 0.0
    {
      forall k | 0 <= k < FeatureCount
        ensures devs[k][i] == 0.0
      {
        DeviationSpec(Column(rows, k), zscore);
      }
      assert Greatest(At(devs, i)) in At(devs, i);
    }
    assert Greatest(xs) in xs;
  }

  /** Completing scores that already cover `K` changes nothing. */
  lemma FillCovered(m: Scores, K: set<Wallet>)
    requires K <= m.Keys
    ensures Fill(m, K) == m
  {
    assert (map w | w in K && w !in m :: 0.0) == map[];
  }

  /** The anomaly score of the wallet at position `i` of the node order. */
  lemma AnomalyAt(g: TxGraph, illicit: set<Wallet>, zscore: seq<real> -> seq<real>, i: int)
    requires Valid(g) && ZScoreShape(zscore) && 0 <= i < |g.nodes|
    ensures var rows := FeatureTable(g, illicit, g.nodes).0;
      && |rows| == |g.nodes|
      && AnomalyScores(g, illicit, zscore).Keys == g.wallets.Keys
      && AnomalyScores(g, illicit, zscore)[g.nodes[i]] == AnomalyValues(rows, zscore)[i]
  {
    var t := FeatureTable(g, illicit, g.nodes);
    FeatureTableNodes(g, illicit);
    var tab := Tabulate(g.nodes, AnomalyValues(t.0, zscore));
    assert Elems(g.nodes) == g.wallets.Keys;
    FillCovered(tab, g.wallets.Keys);
  }

  /** Anomaly scores cover the graph's wallets and lie in `[0, 100]`. */
  lemma AnomalyRange(g: TxGraph, illicit: set<Wallet>, zscore: seq<real> -> seq<real>)
    requires Valid(g) && ZScoreShape(zscore)
    ensures var m := AnomalyScores(g, illicit, zscore);
      && m.Keys == g.wallets.Keys
      && forall w :: w in m ==> 0.0 <= m[w] <= 100.0
  {
    var m := AnomalyScores(g, illicit, zscore);
    if g.nodes == [] {
      assert m.Keys == {};
    } else {
      var rows := FeatureTable(g, illicit, g.nodes).0;
      AnomalyAt(g, illicit, zscore, 0);
      AnomalyValuesSpec(rows, zscore);
      forall w | w in m
        ensures 0.0 <= m[w] <= 100.0
      {
        var i :| 0 <= i < |g.nodes| && g.nodes[i] == w;
        AnomalyAt(g, illicit, zscore, i);
      }
    }
  }

  /** If any wallet has a positive anomaly score, the most anomalous one scores 100. */
  lemma AnomalyTop(g: TxGraph, illicit: set<Wallet>, zscore: seq<real> -> seq<real>, w: Wallet)
    requires Valid(g) && ZScoreShape(zscore)
    requires w in AnomalyScores(g, illicit, zscore) && AnomalyScores(g, illicit, zscore)[w] > 0.0
    ensures exists v :: v in AnomalyScores(g, illicit, zscore) && AnomalyScores(g, illicit, zscore)[v] == 100.0
  {
    var rows := FeatureTable(g, illicit, g.nodes).0;
    AnomalyRange(g, illicit, zscore);
    assert w in g.nodes;
    var i :| 0 <= i < |g.nodes| && g.nodes[i] == w;
    AnomalyAt(g, illicit, zscore, i);
    AnomalyValuesSpec(rows, zscore);
    var r := AnomalyValues(rows, zscore);
    assert r[i] > 0.0;
    var k :| 0 <= k < |r| && r[k] == 100.0;
    AnomalyAt(g, illicit, zscore, k);
    var m := AnomalyScores(g, illicit, zscore);
    assert g.nodes[k] in m && m[g.nodes[k]] == 100.0;
  }

  /** When no feature varies across the wallets, every anomaly score is 0. */
  lemma AnomalyFlat(g: TxGraph, illicit: set<Wallet>, zscore: seq<real> -> seq<real>)
    requires Valid(g) && ZScoreShape(zscore)
    requires var rows := FeatureTable(g, illicit, g.nodes).0;
      forall k :: 0 <= k < FeatureCount ==> Constant(Column(rows, k))
    ensures forall w :: w in AnomalyScores(g, illicit, zscore) ==> AnomalyScores(g, illicit, zscore)[w] == 0.0
  {
    var m := AnomalyScores(g, illicit, zscore);
    var rows := FeatureTable(g, illicit, g.nodes).0;
    if g.nodes != [] {
      AnomalyAt(g, illicit, zscore, 0);
      AnomalyValuesFlat(rows, zscore);
      forall w | w in m
        ensures m[w] == 0.0
      {
        var i :| 0 <= i < |g.nodes| && g.nodes[i] == w;
        AnomalyAt(g, illicit, zscore, i);
      }
    }
  }

  // ---------------------------------------------------------------------------
  // calculate_all_scores
  // ---------------------------------------------------------------------------

  /** The weighted combination 0.35 centrality + 0.35 proximity + 0.20 involvement +
      0.10 anomaly. */
  function Composite(c: real, p: real, inv: real, a: real): real
  {
    0.35 * c + 0.35 * p + 0.20 * inv + 0.10 * a
  }

  /** Since the weights sum to 1, the composite lies between the smallest and the largest
      component, and equals them when they agree. */
  lemma CompositeBetween(c: real, p: real, inv: real, a: real, lo: real, hi: real)
    requires lo <= c <= hi && lo <= p <= hi && lo <= inv <= hi && lo <= a <= hi
    ensures lo <= Composite(c, p, inv, a) <= hi
    ensures c == p == inv == a ==> Composite(c, p, inv, a) == c
  {
  }

  /** The composite of each wallet of the graph, a missing component counting 0. */
  function CompositeScores(g: TxGraph, c: Scores, p: Scores, inv: Scores, a: Scores): Scores
  {
    map w | w in g.wallets :: Composite(Get(c, w), Get(p, w), Get(inv, w), Get(a, w))
  }

  /** What the scorer takes from numerical libraries: PageRank, betweenness and closeness
      in node order, `exp(-0.3 * k)` as `decay(k)`, and `scipy.stats.zscore`. */
  datatype Measures = Measures(
    pagerank: seq<real>,
    betweenness: seq<real>,
    closeness: seq<real>,
    decay: int -> real,
    zscore: seq<real> -> seq<real>)

  /** The measures fit the graph: one centrality value per node, one z-score per entry. */
  ghost predicate Fits(g: TxGraph, lib: Measures)
  {
    && |lib.pagerank| == |g.nodes| && |lib.betweenness| == |g.nodes| && |lib.closeness| == |g.nodes|
    && ZScoreShape(lib.zscore)
  }

  function Centralities(g: TxGraph, lib: Measures): Scores
    requires Fits(g, lib)
  {
    CentralityScores(g.nodes, lib.pagerank, lib.betweenness, lib.closeness)
  }

  /** The composite scores `calculate_all_scores` computes for the patterns `ps`. */
  function AllScores(g: TxGraph, illicit: set<Wallet>, ps: seq<SmurfingPattern>, lib: Measures): Scores
    requires Valid(g) && Fits(g, lib)
  {
    CompositeScores(g, Centralities(g, lib), ProximityScores(g, illicit, lib.decay),
      InvolvementScores(g, ps), AnomalyScores(g, illicit, lib.zscore))
  }

  /** The four components of a wallet of the graph lie in `[0, 100]`. */
  lemma ComponentsRange(g: TxGraph, illicit: set<Wallet>, ps: seq<SmurfingPattern>, lib: Measures, w: Wallet)
    requires Valid(g) && Fits(g, lib) && w in g.wallets
    requires DecayBounded(lib.decay) && NonNegativeScores(ps)
    ensures 0.0 <= Get(Centralities(g, lib), w) <= 100.0
    ensures 0.0 <= Get(ProximityScores(g, illicit, lib.decay), w) <= 100.0
    ensures 0.0 <= Get(InvolvementScores(g, ps), w) <= 100.0
    ensures 0.0 <= Get(AnomalyScores(g, illicit, lib.zscore), w) <= 100.0
  {
    assert w in g.nodes;
    var i :| 0 <= i < |g.nodes| && g.nodes[i] == w;
    CentralityRange(g.nodes, lib.pagerank, lib.betweenness, lib.closeness);
    ProximityRange(g, illicit, lib.decay, w);
    InvolvementSpec(g, ps);
    AnomalyRange(g, illicit, lib.zscore);
  }

  /** Components within `[0, 100]` for every wallet give composites within `[0, 100]`
      for every wallet. */
  lemma CompositeScoresRange(g: TxGraph, c: Scores, p: Scores, inv: Scores, a: Scores)
    requires forall w :: w in g.wallets ==>
      && 0.0 <= Get(c, w) <= 100.0 && 0.0 <= Get(p, w) <= 100.0
      && 0.0 <= Get(inv, w) <= 100.0 && 0.0 <= Get(a, w) <= 100.0
    ensures var m := CompositeScores(g, c, p, inv, a);
      && m.Keys == g.wallets.Keys
      && forall w :: w in m ==> 0.0 <= m[w] <= 100.0
  {
    forall w | w in g.wallets
      ensures 0.0 <= Composite(Get(c, w), Get(p, w), Get(inv, w), Get(a, w)) <= 100.0
    {
      CompositeBetween(Get(c, w), Get(p, w), Get(inv, w), Get(a, w), 0.0, 100.0);
    }
  }

  /** Every wallet of the graph gets a composite score, and each lies in `[0, 100]`. */
  lemma AllScoresRange(g: TxGraph, illicit: set<Wallet>, ps: seq<SmurfingPattern>, lib: Measures)
    requires Valid(g) && Fits(g, lib)
    requires DecayBounded(lib.decay) && NonNegativeScores(ps)
    ensures var m := AllScores(g, illicit, ps, lib);
      && m.Keys == g.wallets.Keys
      && forall w :: w in m ==> 0.0 <= m[w] <= 100.0
  {
    var c := Centralities(g, lib);
    var p := ProximityScores(g, illicit, lib.decay);
    var inv := InvolvementScores(g, ps);
    var a := AnomalyScores(g, illicit, lib.zscore);
    forall w | w in g.wallets
      ensures && 0.0 <= Get(c, w) <= 100.0 && 0.0 <= Get(p, w) <= 100.0
              && 0.0 <= Get(inv, w) <= 100.0 && 0.0 <= Get(a, w) <= 100.0
    {
      ComponentsRange(g, illicit, ps, lib, w);
    }
    CompositeScoresRange(g, c, p, inv, a);
  }

  // ---------------------------------------------------------------------------
  // get_top_suspicious_wallets
  // ---------------------------------------------------------------------------

  /** A list of `(wallet, score)` pairs. */
  type Ranked = seq<(Wallet, real)>

  /** The items of a score dictionary whose keys were inserted in the order `ws`. */
  function Items(ws: seq<Wallet>, m: Scores): Ranked
    requires forall w :: w in ws ==> w in m
  {
    seq(|ws|, i requires 0 <= i < |ws| => (ws[i], m[ws[i]]))
  }

  /** Places `x` after every entry scoring at least as much. */
  function Insert(x: (Wallet, real), s: Ranked): (r: Ranked)
    ensures multiset(r) == multiset(s) + multiset{x}
  {
    if s == [] then [x]
    else if s[0].1 >= x.1 then
      assert s == [s[0]] + s[1..];
      [s[0]] + Insert(x, s[1..])
    else [x] + s
  }

  /** `sorted(items, key=score, reverse=True)`: a stable sort by descending score,
      inserting the items one by one. */
  function SortByScore(s: Ranked): (r: Ranked)
    ensures multiset(r) == multiset(s)
  {
    if s == [] then []
    else
      var n := |s| - 1;
      assert s == s[..n] + [s[n]];
      Insert(s[n], SortByScore(s[..n]))
  }

  predicate Descending(s: Ranked)
  {
    forall i, j :: 0 <= i < j < |s| ==> s[i].1 >= s[j].1
  }

  /** No wallet appears twice. */
  predicate DistinctKeys(s: Ranked)
  {
    forall i, j :: 0 <= i < j < |s| ==> s[i].0 != s[j].0
  }

  lemma {:induction false} InsertDescending(x: (Wallet, real), s: Ranked)
    requires Descending(s)
    ensures Descending(Insert(x, s))
  {
    if s != [] && s[0].1 >= x.1 {
      assert Descending(s[1..]);
      InsertDescending(x, s[1..]);
      var r := Insert(x, s[1..]);
      forall y | y in r
        ensures s[0].1 >= y.1
      {
        assert y in multiset(r);
        if y != x {
          assert y in s[1..];
        }
      }
    }
  }

  lemma {:induction false} InsertDistinct(x: (Wallet, real), s: Ranked)
    requires DistinctKeys(s) && forall y :: y in s ==> y.0 != x.0
    ensures DistinctKeys(Insert(x, s))
  {
    if s != [] && s[0].1 >= x.1 {
      assert DistinctKeys(s[1..]);
      InsertDistinct(x, s[1..]);
      var r := Insert(x, s[1..]);
      forall y | y in r
        ensures y.0 != s[0].0
      {
        assert y in multiset(r);
        if y != x {
          assert y in s[1..];
        }
      }
    }
  }

  /** The sort yields descending scores and keeps the wallets distinct. */
  lemma {:induction false} SortByScoreSpec(s: Ranked)
    ensures Descending(SortByScore(s))
    ensures DistinctKeys(s) ==> DistinctKeys(SortByScore(s))
  {
    if s != [] {
      var n := |s| - 1;
      SortByScoreSpec(s[..n]);
      InsertDescending(s[n], SortByScore(s[..n]));
      if DistinctKeys(s) {
        assert DistinctKeys(s[..n]);
        forall y | y in SortByScore(s[..n])
          ensures y.0 != s[n].0
        {
          assert y in multiset(SortByScore(s[..n]));
        }
        InsertDistinct(s[n], SortByScore(s[..n]));
      }
    }
  }

  /** Python's slice `s[:n]`, where a negative `n` drops `-n` entries from the end. */
  function Prefix(s: Ranked, n: int): Ranked
  {
    if n >= 0 then (if n <= |s| then s[..n] else s)
    else if |s| + n >= 0 then s[..|s| + n]
    else []
  }

  /** The sorted items of a dictionary are its items: each wallet once, with its own
      score. */
  lemma SortedItems(ws: seq<Wallet>, m: Scores)
    requires Distinct(ws) && Elems(ws) == m.Keys
    ensures var sorted := SortByScore(Items(ws, m));
      && |sorted| == |m|
      && Descending(sorted) && DistinctKeys(sorted)
      && (forall i :: 0 <= i < |sorted| ==> sorted[i].0 in m && sorted[i].1 == m[sorted[i].0])
      && (forall w :: w in m ==> (w, m[w]) in sorted)
  {
    var items := Items(ws, m);
    var sorted := SortByScore(items);
    DistinctCard(ws);
    assert |m| == |ws| by {
      assert m.Keys == Elems(ws);
    }
    assert |sorted| == |items| by {
      assert |multiset(sorted)| == |multiset(items)|;
    }
    SortByScoreSpec(items);
    forall i | 0 <= i < |sorted|
      ensures sorted[i].0 in m && sorted[i].1 == m[sorted[i].0]
    {
      assert sorted[i] in multiset(items);
    }
    forall w | w in m
      ensures (w, m[w]) in sorted
    {
      var k :| 0 <= k < |ws| && ws[k] == w;
      assert items[k] in multiset(sorted);
    }
  }

  /** A prefix of a ranking of all of `m` is a ranking of its best `n` entries. */
  lemma RankingPrefix(sorted: Ranked, m: Scores, n: int)
    requires |sorted| == |m| && Descending(sorted) && DistinctKeys(sorted)
    requires forall i :: 0 <= i < |sorted| ==> sorted[i].0 in m && sorted[i].1 == m[sorted[i].0]
    requires forall w :: w in m ==> (w, m[w]) in sorted
    ensures var top := Prefix(sorted, n);
      && Descending(top)
      && DistinctKeys(top)
      && (0 <= n ==> |top| == if n < |m| then n else |m|)
      && (n < 0 ==> |top| == if -n < |m| then |m| + n else 0)
      && (forall i :: 0 <= i < |top| ==> top[i].0 in m && top[i].1 == m[top[i].0])
      && (forall w, i :: w in m && 0 <= i < |top| && (forall j :: 0 <= j < |top| ==> top[j].0 != w)
            ==> m[w] <= top[i].1)
  {
    var top := Prefix(sorted, n);
    assert top == sorted[..|top|];
    forall w, i | w in m && 0 <= i < |top| && (forall j :: 0 <= j < |top| ==> top[j].0 != w)
      ensures m[w] <= top[i].1
    {
      var h :| 0 <= h < |sorted| && sorted[h] == (w, m[w]);
      assert h >= |top|;
    }
  }

  /** The ranking: `min(n, |m|)` distinct wallets (for `n >= 0`), each with its own score,
      in descending order of score, and no wallet left out scores higher than one
      listed. */
  lemma TopSuspicious(ws: seq<Wallet>, m: Scores, n: int)
    requires Distinct(ws) && Elems(ws) == m.Keys
    ensures var top := Prefix(SortByScore(Items(ws, m)), n);
      && Descending(top)
      && DistinctKeys(top)
      && (0 <= n ==> |top| == if n < |m| then n else |m|)
      && (n < 0 ==> |top| == if -n < |m| then |m| + n else 0)
      && (forall i :: 0 <= i < |top| ==> top[i].0 in m && top[i].1 == m[top[i].0])
      && (forall w, i :: w in m && 0 <= i < |top| && (forall j :: 0 <= j < |top| ==> top[j].0 != w)
            ==> m[w] <= top[i].1)
  {
    SortedItems(ws, m);
    RankingPrefix(SortByScore(Items(ws, m)), m, n);
  }

  // ---------------------------------------------------------------------------
  // get_wallet_risk_assessment
  // ---------------------------------------------------------------------------

  /** The four component scores of a wallet. */
  datatype Components = Components(centrality: real, proximity: real, involvement: real, anomaly: real)

  /** The risk assessment of one wallet of the graph. */
  datatype Assessment = Assessment(
    walletId: Wallet,
    overall: real,
    riskLevel: RiskLevel,
    components: Components,
    features: Option<GraphQueries.Features>,
    isIllicit: bool,
    distanceToIllicit: Option<nat>,
    pathToIllicit: Option<seq<Wallet>>,
    patternsInvolved: nat,
    patternTypes: seq<PatternType>)

  /** `{'error': 'Wallet not found'}` or an assessment. */
  datatype AssessmentResult = WalletNotFound | Assessed(assessment: Assessment)

  /** The patterns `w` is a member of, in list order. */
  function InvolvedPatterns(ps: seq<SmurfingPattern>, w: Wallet): (r: seq<SmurfingPattern>)
    ensures |r| <= |ps|
    ensures forall p :: p in r <==> p in ps && w in Members(p)
  {
    if ps == [] then []
    else
      var rest := InvolvedPatterns(ps[1..], w);
      assert forall p :: p in ps <==> p == ps[0] || p in ps[1..];
      if w in Members(ps[0]) then [ps[0]] + rest else rest
  }

  function PatternTypes(ps: seq<SmurfingPattern>): seq<PatternType>
  {
    seq(|ps|, i requires 0 <= i < |ps| => ps[i].patternType)
  }

  /** The wallet's entries in the four calculators' dictionaries, 0 where absent. */
  function ComponentsOf(g: TxGraph, illicit: set<Wallet>, ps: seq<SmurfingPattern>, lib: Measures, w: Wallet): Components
    requires Valid(g) && Fits(g, lib)
  {
    Components(
      Get(Centralities(g, lib), w),
      Get(ProximityScores(g, illicit, lib.decay), w),
      Get(InvolvementScores(g, ps), w),
      Get(AnomalyScores(g, illicit, lib.zscore), w))
  }

  /** The assessment of a wallet of the graph whose stored overall score is `overall` and
      whose component scores are `parts`. */
  function Assess(g: TxGraph, illicit: set<Wallet>, ps: seq<SmurfingPattern>, overall: real,
                  parts: Components, w: Wallet): Assessment
    requires Valid(g) && w in g.wallets
  {
    var (path, distance) := Paths.Nearest(g, w, NodesIn(g, illicit));
    var involved := InvolvedPatterns(ps, w);
    Assessment(
      w, overall, RiskOf(overall), parts,
      GraphQueries.WalletFeatures(g, illicit, w),
      w in illicit,
      if distance.Finite? then Some(distance.n) else None,
      if path != [] then Some(path) else None,
      |involved|,
      PatternTypes(involved))
  }

  /** What `get_wallet_risk_assessment` reports for a wallet of the graph. */
  function AssessmentOf(g: TxGraph, illicit: set<Wallet>, ps: seq<SmurfingPattern>, lib: Measures,
                        overall: real, w: Wallet): Assessment
    requires Valid(g) && Fits(g, lib) && w in g.wallets
  {
    Assess(g, illicit, ps, overall, ComponentsOf(g, illicit, ps, lib, w), w)
  }

  /** The assessment's score components are the wallet's scores of the four calculators,
      each in `[0, 100]`, and its features are reported. */
  lemma AssessmentComponents(g: TxGraph, illicit: set<Wallet>, ps: seq<SmurfingPattern>, lib: Measures,
                             overall: real, w: Wallet)
    requires Valid(g) && Fits(g, lib) && w in g.wallets
    requires DecayBounded(lib.decay) && NonNegativeScores(ps)
    ensures var a := AssessmentOf(g, illicit, ps, lib, overall, w);
      && a.walletId == w && a.overall == overall && a.riskLevel == RiskOf(overall)
      && 0.0 <= a.components.centrality <= 100.0 && 0.0 <= a.components.proximity <= 100.0
      && 0.0 <= a.components.involvement <= 100.0 && 0.0 <= a.components.anomaly <= 100.0
      && a.features.Some? && a.features.value.isIllicit == a.isIllicit
  {
    ComponentsRange(g, illicit, ps, lib, w);
  }

  /** The nearest illicit wallet of the graph, in terms of the illicit set. */
  lemma NearestIllicit(g: TxGraph, illicit: set<Wallet>, w: Wallet)
    requires Valid(g) && w in g.wallets
    ensures var (path, distance) := Paths.Nearest(g, w, NodesIn(g, illicit));
      && (distance.Finite? <==> exists t, p :: t in illicit && t in g.wallets && Paths.Walk(g, p, w, t))
      && (distance.Infinite? ==> path == [])
      && (distance.Finite? ==>
            && distance.n == |path| && path != [] && path[|path| - 1] in illicit
            && Paths.Walk(g, path, w, path[|path| - 1])
            && forall t, p :: t in illicit && t in g.wallets && Paths.Walk(g, p, w, t) ==> distance.n <= |p|)
  {
    var targets := NodesIn(g, illicit);
    NodesInEnumerates(g, illicit * g.wallets.Keys);
    NodesInWithin(g, illicit);
    assert forall t :: t in targets <==> t in illicit && t in g.wallets;
    Paths.NearestIsNearest(g, w, targets);
    var (path, distance) := Paths.Nearest(g, w, targets);
    if distance.Finite? {
      var t := path[|path| - 1];
      assert t in illicit && t in g.wallets && Paths.Walk(g, path, w, t);
    } else {
      forall t, p | t in illicit && t in g.wallets
        ensures !Paths.Walk(g, p, w, t)
      {
        assert t in targets;
      }
    }
  }

  /** The illicit connection: a distance is reported exactly when an illicit wallet is
      reachable, together with a path of that many wallets from the wallet to one, and no
      illicit wallet is reachable by a shorter walk; the distance is 1 exactly for an
      illicit wallet. */
  lemma AssessmentIllicitConnection(g: TxGraph, illicit: set<Wallet>, ps: seq<SmurfingPattern>, overall: real,
                                    parts: Components, w: Wallet)
    requires Valid(g) && w in g.wallets
    ensures var a := Assess(g, illicit, ps, overall, parts, w);
      && (a.distanceToIllicit.Some? <==>
            exists t, p :: t in illicit && t in g.wallets && Paths.Walk(g, p, w, t))
      && (a.pathToIllicit.Some? <==> a.distanceToIllicit.Some?)
      && (a.pathToIllicit.Some? ==>
            && |a.pathToIllicit.value| == a.distanceToIllicit.value
            && Paths.Walk(g, a.pathToIllicit.value, w, a.pathToIllicit.value[|a.pathToIllicit.value| - 1])
            && a.pathToIllicit.value[|a.pathToIllicit.value| - 1] in illicit
            && forall t, p :: t in illicit && t in g.wallets && Paths.Walk(g, p, w, t) ==>
                 a.distanceToIllicit.value <= |p|)
      && (a.distanceToIllicit == Some(1) <==> w in illicit)
  {
    var r := Paths.Nearest(g, w, NodesIn(g, illicit));
    var a := Assess(g, illicit, ps, overall, parts, w);
    assert a.distanceToIllicit == if r.1.Finite? then Some(r.1.n) else None;
    assert a.pathToIllicit == if r.0 != [] then Some(r.0) else None;
    NearestIllicit(g, illicit, w);
    if w in illicit {
      assert Paths.Walk(g, [w], w, w);
    }
  }

  /** The patterns reported are those of the detector that contain the wallet. */
  lemma AssessmentPatterns(g: TxGraph, illicit: set<Wallet>, ps: seq<SmurfingPattern>, overall: real,
                           parts: Components, w: Wallet)
    requires Valid(g) && w in g.wallets
    ensures var a := Assess(g, illicit, ps, overall, parts, w);
      && a.patternsInvolved <= |ps|
      && |a.patternTypes| == a.patternsInvolved
      && (a.patternsInvolved == 0 <==> forall p :: p in ps ==> w !in Members(p))
      && (forall t :: t in a.patternTypes ==> exists p :: p in ps && w in Members(p) && p.patternType == t)
      && (forall p :: p in ps && w in Members(p) ==> p.patternType in a.patternTypes)
  {
    var a := Assess(g, illicit, ps, overall, parts, w);
    var involved := InvolvedPatterns(ps, w);
    assert a.patternTypes == PatternTypes(involved);
    forall t | t in a.patternTypes
      ensures exists p :: p in ps && w in Members(p) && p.patternType == t
    {
      var k :| 0 <= k < |involved| && involved[k].patternType == t;
      assert involved[k] in involved;
    }
    forall p | p in ps && w in Members(p)
      ensures p.patternType in a.patternTypes
    {
      var k :| 0 <= k < |involved| && involved[k] == p;
      assert a.patternTypes[k] == p.patternType;
    }
    if a.patternsInvolved != 0 {
      assert involved[0] in involved;
    }
  }
}
