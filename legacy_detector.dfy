/** The older `PatternDetector` of the repository root: the fan-out/fan-in, cyclic and
    layered matchers without temporal checks, no peeling chains, and a pattern score
    without the peeling bonus. */
module LegacyDetection {
  import opened Common
  import opened Graph
  import opened Patterns
  import Paths
  import FanOut
  import Cycles
  import Layering

  /** The result of `detect_all_patterns_from_illicit`: three keys only. */
  datatype Detected = Detected(
    fanoutFanin: seq<SmurfingPattern>,
    cyclic: seq<SmurfingPattern>,
    layered: seq<SmurfingPattern>)

  /** What `detect_all_patterns_from_illicit` reports: fan-out/fan-in and cycles over the
      whole graph, then the layered matcher from every illicit wallet of the graph. */
  function FromIllicit(g: TxGraph, illicit: set<Wallet>, cycles: seq<seq<Wallet>>, median: real): Detected
    requires Valid(g) && forall c :: c in cycles ==> c != []
  {
    var m := EffectiveMedian(g, median);
    Detected(
      FanOut.FanOutPatterns(g, Legacy, illicit, m, DefaultMinFanout, DefaultMinFanin),
      Cycles.CyclicFound(g, Legacy, illicit, m, cycles, DefaultMinCycleLength, DefaultMaxCycleLength),
      Layering.LayeredFrom(g, Legacy, illicit, m, NodesIn(g, illicit), DefaultMaxLayers, DefaultMinSplit))
  }

  /** No pattern of the older detector is a peeling chain, and every layered one starts at
      an illicit wallet of the graph. */
  lemma FromIllicitKinds(g: TxGraph, illicit: set<Wallet>, cycles: seq<seq<Wallet>>, median: real)
    requires Valid(g) && forall c :: c in cycles ==> c != []
    ensures var d := FromIllicit(g, illicit, cycles, median);
      && (forall p :: p in d.fanoutFanin ==> p.patternType == FanOutFanIn)
      && (forall p :: p in d.cyclic ==> p.patternType == Cyclic)
      && (forall p :: p in d.layered ==>
            p.patternType == Layered && exists s :: s in illicit && s in g.wallets && p.sources == {s})
  {
    var m := EffectiveMedian(g, median);
    var d := FromIllicit(g, illicit, cycles, median);
    NodesInEnumerates(g, illicit * g.wallets.Keys);
    NodesInWithin(g, illicit);
    Layering.LayeredFromSeeds(g, Legacy, illicit, m, NodesIn(g, illicit), DefaultMaxLayers, DefaultMinSplit);
    forall p | p in d.fanoutFanin
      ensures p.patternType == FanOutFanIn
    {
      FanOut.FanOutPatternsExactly(g, Legacy, illicit, m, DefaultMinFanout, DefaultMinFanin, p);
    }
    forall p | p in d.cyclic
      ensures p.patternType == Cyclic
    {
      Cycles.CyclicFoundSound(g, Legacy, illicit, m, cycles, DefaultMinCycleLength, DefaultMaxCycleLength, p);
    }
  }

  class PatternDetector {
    /** The transaction graph the detector was built on. */
    const g: TxGraph
    /** The known illicit wallets (some may be absent from the graph). */
    const illicit: set<Wallet>
    /** The cycles `nx.simple_cycles` enumerates for the graph, in its order. */
    const cycles: seq<seq<Wallet>>
    /** `np.median` of the edge amounts. */
    const median: real
    /** Every pattern reported so far, in order. */
    var detectedPatterns: seq<SmurfingPattern>

    ghost predicate Valid()
    {
      Graph.Valid(g) && Cycles.LibraryCycles(g, cycles)
    }

    constructor(g: TxGraph, illicit: set<Wallet>, cycles: seq<seq<Wallet>>, median: real)
      requires Graph.Valid(g) && Cycles.LibraryCycles(g, cycles)
      ensures Valid()
      ensures this.g == g && this.illicit == illicit && this.cycles == cycles && this.median == median
      ensures detectedPatterns == []
    {
      this.g := g;
      this.illicit := illicit;
      this.cycles := cycles;
      this.median := median;
      detectedPatterns := [];
    }

    /** `detect_fanout_fanin_patterns`, without the temporal check. */
    method DetectFanOutFanIn(minFanout: int, minFanin: int) returns (patterns: seq<SmurfingPattern>)
      requires Valid()
      modifies this
      ensures patterns == FanOut.FanOutPatterns(g, Legacy, illicit, EffectiveMedian(g, median), minFanout, minFanin)
      ensures detectedPatterns == old(detectedPatterns) + patterns
    {
      patterns := FanOut.FindFanOutFanIn(g, Legacy, illicit, EffectiveMedian(g, median), minFanout, minFanin);
      detectedPatterns := detectedPatterns + patterns;
    }

    /** `detect_cyclic_patterns`, without the temporal check. */
    method DetectCyclic(minLength: int, maxLength: int) returns (patterns: seq<SmurfingPattern>)
      requires Valid()
      modifies this
      ensures patterns == Cycles.CyclicFound(g, Legacy, illicit, EffectiveMedian(g, median), cycles, minLength, maxLength)
      ensures detectedPatterns == old(detectedPatterns) + patterns
    {
      patterns := Cycles.FindCyclic(g, Legacy, illicit, EffectiveMedian(g, median), cycles, minLength, maxLength);
      detectedPatterns := detectedPatterns + patterns;
    }

    /** `detect_layered_patterns`. */
    method DetectLayered(s: Wallet, maxLayers: int, minSplit: int) returns (patterns: seq<SmurfingPattern>)
      requires Valid()
      modifies this
      ensures patterns == Layering.LayeredPatterns(g, Legacy, illicit, EffectiveMedian(g, median), s, maxLayers, minSplit)
      ensures detectedPatterns == old(detectedPatterns) + patterns
    {
      patterns := Layering.FindLayered(g, Legacy, illicit, EffectiveMedian(g, median), s, maxLayers, minSplit);
      detectedPatterns := detectedPatterns + patterns;
    }

    /** The loop of `detect_all_patterns_from_illicit` running the layered matcher from
        each of `seeds` in turn. */
    method DetectLayeredFrom(seeds: seq<Wallet>, maxLayers: int, minSplit: int) returns (layered: seq<SmurfingPattern>)
      requires Valid()
      modifies this
      ensures layered == Layering.LayeredFrom(g, Legacy, illicit, EffectiveMedian(g, median), seeds, maxLayers, minSplit)
      ensures detectedPatterns == old(detectedPatterns) + layered
    {
      layered := [];
      for i := 0 to |seeds|
        invariant layered == Layering.LayeredFrom(g, Legacy, illicit, EffectiveMedian(g, median), seeds[..i], maxLayers, minSplit)
        invariant detectedPatterns == old(detectedPatterns) + layered
        invariant Valid()
      {
        Layering.LayeredFromStep(g, Legacy, illicit, EffectiveMedian(g, median), seeds, i, maxLayers, minSplit);
        var ps := DetectLayered(seeds[i], maxLayers, minSplit);
        layered := layered + ps;
      }
      assert seeds[..|seeds|] == seeds;
    }

    /** `detect_all_patterns_from_illicit`: fan-out, cyclic, then the layered runs seed by
        seed. */
    method DetectAllPatternsFromIllicit() returns (all: Detected)
      requires Valid()
      modifies this
      ensures all == FromIllicit(g, illicit, cycles, median)
      ensures detectedPatterns == old(detectedPatterns) + all.fanoutFanin + all.cyclic + all.layered
    {
      var fanout := DetectFanOutFanIn(DefaultMinFanout, DefaultMinFanin);
      var cyclic := DetectCyclic(DefaultMinCycleLength, DefaultMaxCycleLength);
      var layered := DetectLayeredFrom(NodesIn(g, illicit), DefaultMaxLayers, DefaultMinSplit);
      all := Detected(fanout, cyclic, layered);
    }

    /** `find_shortest_path_to_illicit`: `None` where the path search raises, which is when
        the wallet is not in the graph but some illicit wallet is. */
    method FindShortestPathToIllicit(w: Wallet) returns (r: Option<(seq<Wallet>, Paths.Distance)>)
      requires Valid()
      ensures w in g.wallets ==> r == Some(Paths.Nearest(g, w, NodesIn(g, illicit)))
      ensures w !in g.wallets ==> (r.None? <==> NodesIn(g, illicit) != [])
      ensures w !in g.wallets && r.Some? ==> r.value == ([], Paths.Infinite)
    {
      if w in g.wallets {
        var path, distance := Paths.FindShortestPathToIllicit(g, illicit, w);
        return Some((path, distance));
      }
      if NodesIn(g, illicit) != [] {
        return None;
      }
      return Some(([], Paths.Infinite));
    }

    /** `get_pattern_statistics`. */
    method GetPatternStatistics() returns (r: Option<Statistics>)
      ensures r == PatternStatistics(detectedPatterns)
    {
      r := CollectStatistics(detectedPatterns);
    }
  }
}
