/** The peeling-chain matcher, `detect_peeling_chains`, of the current detector: a chain of
    wallets each passing almost all of what it sends to one successor, peeling small
    amounts off to others. */
module Peeling {
  import opened Common
  import opened Graph
  import opened GraphQueries
  import opened Patterns

  /** A chain stops once it holds this many wallets (the source's `len(chain) > 20`). */
  const MaxChain := 21

  // ---------------------------------------------------------------------------
  // One step of a chain
  // ---------------------------------------------------------------------------

  /** The first position holding the largest value: the head of a stable sort by
      decreasing value. */
  function FirstMaxIndex(xs: seq<real>): (k: nat)
    requires |xs| > 0
    ensures k < |xs|
    ensures forall j :: 0 <= j < |xs| ==> xs[j] <= xs[k]
    ensures forall j :: 0 <= j < k ==> xs[j] < xs[k]
  {
    if |xs| == 1 then 0
    else
      var k := FirstMaxIndex(xs[..|xs| - 1]);
      if xs[|xs| - 1] > xs[k] then |xs| - 1 else k
  }

  /** The amounts sent from `cur` to each wallet of `succs`. */
  function Amounts(g: TxGraph, cur: Wallet, succs: seq<Wallet>): seq<real>
  {
    seq(|succs|, i requires 0 <= i < |succs| => HopAmount(g, cur, succs[i]))
  }

  /** The wallet the chain moves on to from `cur`: the successor receiving the most (the
      first in successor order among equals), provided it receives at least a share
      `1 - threshold` of everything `cur` sent. */
  function Next(g: TxGraph, cur: Wallet, threshold: real): (r: Option<Wallet>)
    requires cur in g.wallets
    ensures r.Some? ==> r.value in Succ(g, cur)
  {
    var succs := SuccList(g, cur);
    var total := g.wallets[cur].totalSent;
    if succs == [] || total == 0.0 then None
    else
      var amounts := Amounts(g, cur, succs);
      var k := FirstMaxIndex(amounts);
      assert succs[k] in succs;
      if amounts[k] / total >= 1.0 - threshold then Some(succs[k]) else None
  }

  /** What a step of the chain means: `cur` sent something, `n` is one of its successors,
      no successor received more than `n`, and `n` received at least the share
      `1 - threshold` of what `cur` sent. */
  lemma NextIsMainSuccessor(g: TxGraph, cur: Wallet, threshold: real)
    requires Valid(g) && cur in g.wallets
    ensures Next(g, cur, threshold).Some? <==>
      exists n :: n in Succ(g, cur) && IsMainSuccessor(g, cur, n, threshold)
    ensures Next(g, cur, threshold).Some? ==>
      var n := Next(g, cur, threshold).value;
      n in Succ(g, cur) && IsMainSuccessor(g, cur, n, threshold)
  {
    var succs := SuccList(g, cur);
    var total := g.wallets[cur].totalSent;
    SuccListEnumerates(g, cur);
    if succs != [] && total != 0.0 {
      var amounts := Amounts(g, cur, succs);
      var k := FirstMaxIndex(amounts);
      forall v | v in Succ(g, cur)
        ensures HopAmount(g, cur, v) <= amounts[k]
      {
        var j :| 0 <= j < |succs| && succs[j] == v;
        assert amounts[j] == HopAmount(g, cur, v);
      }
      assert succs[k] in Succ(g, cur);
      if exists n :: n in Succ(g, cur) && IsMainSuccessor(g, cur, n, threshold) {
        var n :| n in Succ(g, cur) && IsMainSuccessor(g, cur, n, threshold);
        assert HopAmount(g, cur, n) == amounts[k];
      }
    }
  }

  predicate IsMainSuccessor(g: TxGraph, cur: Wallet, n: Wallet, threshold: real)
    requires cur in g.wallets
  {
    && g.wallets[cur].totalSent != 0.0
    && (forall v :: v in Succ(g, cur) ==> HopAmount(g, cur, v) <= HopAmount(g, cur, n))
    && HopAmount(g, cur, n) / g.wallets[cur].totalSent >= 1.0 - threshold
  }

  // ---------------------------------------------------------------------------
  // Following a chain
  // ---------------------------------------------------------------------------

  predicate AllWallets(g: TxGraph, chain: seq<Wallet>)
  {
    forall i :: 0 <= i < |chain| ==> chain[i] in g.wallets
  }

  /** The chain grown from `chain`: it stops at the length cap, when the last wallet has no
      main successor, or when that successor is the empty name or already in the chain. */
  function Extend(g: TxGraph, chain: seq<Wallet>, threshold: real): (r: seq<Wallet>)
    requires |chain| > 0 && AllWallets(g, chain)
    ensures |chain| <= |r| && r[..|chain|] == chain && AllWallets(g, r)
    decreases MaxChain - |chain|
  {
    if |chain| >= MaxChain then chain
    else match Next(g, chain[|chain| - 1], threshold)
      case None => chain
      case Some(n) =>
        if n == "" || n in chain then chain
        else
          var r := Extend(g, chain + [n], threshold);
          assert r[..|chain|] == (chain + [n])[..|chain|];
          r
  }

  /** The chain that starts at wallet `w`. */
  function Chain(g: TxGraph, w: Wallet, threshold: real): (r: seq<Wallet>)
    requires w in g.wallets
    ensures |r| >= 1 && r[0] == w && AllWallets(g, r)
  {
    Extend(g, [w], threshold)
  }

  /** One turn of the chain loop: the chain grows by the main successor of its last
      wallet unless it has reached the cap or that successor is missing, empty or
      already in the chain. */
  lemma ExtendStep(g: TxGraph, chain: seq<Wallet>, threshold: real)
    requires |chain| > 0 && AllWallets(g, chain)
    ensures var next := Next(g, chain[|chain| - 1], threshold);
      Extend(g, chain, threshold)
      == if |chain| < MaxChain && next.Some? && next.value != "" && next.value !in chain
         then Extend(g, chain + [next.value], threshold) else chain
  {
  }

  lemma ElemsSnoc(chain: seq<Wallet>, n: Wallet)
    requires |chain| > 0
    ensures Elems((chain + [n])[1..]) == Elems(chain[1..]) + {n}
  {
    assert (chain + [n])[1..] == chain[1..] + [n];
  }

  /** The successor the chain moves on to from `current`, if any. */
  method MainSuccessor(g: TxGraph, current: Wallet, threshold: real) returns (next: Option<Wallet>)
    requires current in g.wallets
    ensures next == Next(g, current, threshold)
  {
    next := None;
    var successors := SuccList(g, current);
    if successors == [] {
      return;
    }
    var totalSent := g.wallets[current].totalSent;
    if totalSent == 0.0 {
      return;
    }
    var amounts := Amounts(g, current, successors);
    var best := FirstMaxIndex(amounts);
    if amounts[best] / totalSent >= 1.0 - threshold {
      next := Some(successors[best]);
    }
  }

  /** Follows the chain from `w`; every wallet appended is added to `visited`. */
  method FollowChain(g: TxGraph, w: Wallet, threshold: real, visited: set<Wallet>)
    returns (chain: seq<Wallet>, visited': set<Wallet>)
    requires w in g.wallets
    ensures chain == Chain(g, w, threshold)
    ensures visited' == visited + Elems(chain[1..])
  {
    chain := [w];
    visited' := visited;
    var current := w;
    while true
      invariant |chain| > 0 && AllWallets(g, chain) && |chain| < MaxChain
      invariant current == chain[|chain| - 1]
      invariant Extend(g, chain, threshold) == Chain(g, w, threshold)
      invariant visited' == visited + Elems(chain[1..])
      decreases MaxChain - |chain|
    {
      var next := MainSuccessor(g, current, threshold);
      ExtendStep(g, chain, threshold);
      if next.Some? && next.value != "" && next.value !in chain {
        ElemsSnoc(chain, next.value);
        chain := chain + [next.value];
        visited' := visited' + {next.value};
        current := next.value;
        if |chain| > 20 {
          ExtendStep(g, chain, threshold);
          break;
        }
      } else {
        break;
      }
    }
  }

  /** A step of the chain: the hop from position `i` to `i + 1` goes to the main successor. */
  ghost predicate PeelStep(g: TxGraph, chain: seq<Wallet>, i: int, threshold: real)
    requires 0 <= i < |chain| - 1 && AllWallets(g, chain)
  {
    && chain[i + 1] != ""
    && chain[i + 1] in Succ(g, chain[i])
    && IsMainSuccessor(g, chain[i], chain[i + 1], threshold)
  }

  /** Why a chain ends: the length cap, or its last wallet has no main successor, or that
      successor is the empty name or already in the chain. */
  ghost predicate Stopped(g: TxGraph, chain: seq<Wallet>, threshold: real)
    requires |chain| > 0 && AllWallets(g, chain)
  {
    var next := Next(g, chain[|chain| - 1], threshold);
    |chain| == MaxChain || next.None? || next.value == "" || next.value in chain
  }

  lemma {:induction false} ExtendShape(g: TxGraph, chain: seq<Wallet>, threshold: real)
    requires Valid(g)
    requires |chain| > 0 && AllWallets(g, chain) && |chain| <= MaxChain && Distinct(chain)
    requires forall i :: 0 <= i < |chain| - 1 ==> PeelStep(g, chain, i, threshold)
    ensures var c := Extend(g, chain, threshold);
      && |chain| <= |c| <= MaxChain && c[..|chain|] == chain && AllWallets(g, c) && Distinct(c)
      && (forall i :: 0 <= i < |c| - 1 ==> PeelStep(g, c, i, threshold))
      && Stopped(g, c, threshold)
    decreases MaxChain - |chain|
  {
    if |chain| < MaxChain {
      var next := Next(g, chain[|chain| - 1], threshold);
      if next.Some? && next.value != "" && next.value !in chain {
        Grow(g, chain, threshold);
        var longer := chain + [next.value];
        ExtendShape(g, longer, threshold);
        assert longer[..|chain|] == chain;
      }
    }
  }

  /** Appending the main successor of the last wallet keeps a chain a valid peeling chain. */
  lemma Grow(g: TxGraph, chain: seq<Wallet>, threshold: real)
    requires Valid(g)
    requires |chain| > 0 && AllWallets(g, chain) && Distinct(chain)
    requires forall i :: 0 <= i < |chain| - 1 ==> PeelStep(g, chain, i, threshold)
    requires var next := Next(g, chain[|chain| - 1], threshold);
      next.Some? && next.value != "" && next.value !in chain
    ensures var longer := chain + [Next(g, chain[|chain| - 1], threshold).value];
      && AllWallets(g, longer) && Distinct(longer)
      && forall i :: 0 <= i < |longer| - 1 ==> PeelStep(g, longer, i, threshold)
  {
    var cur := chain[|chain| - 1];
    var n := Next(g, cur, threshold).value;
    NextIsMainSuccessor(g, cur, threshold);
    var longer := chain + [n];
    forall i | 0 <= i < |longer| - 1
      ensures PeelStep(g, longer, i, threshold)
    {
      if i < |chain| - 1 {
        assert PeelStep(g, chain, i, threshold);
      }
    }
  }

  /** A chain starts at its seed, holds between 1 and 21 distinct wallets, every hop goes to
      the main successor of its sender, and it ends for one of the stopping reasons. */
  lemma ChainShape(g: TxGraph, w: Wallet, threshold: real)
    requires Valid(g) && w in g.wallets
    ensures var c := Chain(g, w, threshold);
      && 1 <= |c| <= MaxChain && c[0] == w && AllWallets(g, c) && Distinct(c)
      && (forall i :: 0 <= i < |c| - 1 ==> PeelStep(g, c, i, threshold))
      && Stopped(g, c, threshold)
  {
    ExtendShape(g, [w], threshold);
  }

  // ---------------------------------------------------------------------------
  // The scan
  // ---------------------------------------------------------------------------

  /** The seeds: wallets with between one and five successors, in node order. */
  function Seeds(g: TxGraph): seq<Wallet>
  {
    NodesIn(g, set n | n in g.wallets && 1 <= OutDegree(g, n) <= 5)
  }

  /** The pattern reported for a chain of at least three wallets; its amount is what the
      first wallet sent in total. */
  function ChainPattern(g: TxGraph, illicit: set<Wallet>, median: real, chain: seq<Wallet>): SmurfingPattern
    requires |chain| >= 3 && chain[0] in g.wallets
  {
    Scored(Current, SmurfingPattern({chain[0]}, Elems(chain[1..|chain| - 1]), {chain[|chain| - 1]},
                                    PeelingChain, 0.0, g.wallets[chain[0]].totalSent), illicit, median)
  }

  /** The pattern list of one chain: its pattern when it holds at least three wallets. */
  function Found(g: TxGraph, illicit: set<Wallet>, median: real, chain: seq<Wallet>): seq<SmurfingPattern>
    requires |chain| >= 1 && chain[0] in g.wallets
  {
    if |chain| >= 3 then [ChainPattern(g, illicit, median, chain)] else []
  }

  predicate Listed(g: TxGraph, ws: seq<Wallet>)
  {
    forall i :: 0 <= i < |ws| ==> ws[i] in g.wallets
  }

  /** The patterns found from seeds `ws`, none of them started from a wallet in `visited`;
      each chain followed adds its wallets after the first to `visited`. */
  function PeelingFrom(g: TxGraph, illicit: set<Wallet>, median: real, threshold: real,
                       ws: seq<Wallet>, visited: set<Wallet>): seq<SmurfingPattern>
    requires Listed(g, ws)
    decreases |ws|
  {
    if ws == [] then []
    else if ws[0] in visited then PeelingFrom(g, illicit, median, threshold, ws[1..], visited)
    else
      var chain := Chain(g, ws[0], threshold);
      Found(g, illicit, median, chain)
      + PeelingFrom(g, illicit, median, threshold, ws[1..], visited + Elems(chain[1..]))
  }

  lemma SeedsListed(g: TxGraph)
    ensures Listed(g, Seeds(g))
  {
    var ws := Seeds(g);
    forall i | 0 <= i < |ws|
      ensures ws[i] in g.wallets
    {
      assert ws[i] in ws;
    }
  }

  /** All peeling chains of the graph. */
  function PeelingPatterns(g: TxGraph, illicit: set<Wallet>, median: real, threshold: real): seq<SmurfingPattern>
  {
    SeedsListed(g);
    PeelingFrom(g, illicit, median, threshold, Seeds(g), {})
  }

  /** One seed of the scan: skipped when visited, else its chain is followed. */
  lemma PeelingFromStep(g: TxGraph, illicit: set<Wallet>, median: real, threshold: real,
                        ws: seq<Wallet>, visited: set<Wallet>)
    requires Listed(g, ws) && ws != []
    ensures PeelingFrom(g, illicit, median, threshold, ws, visited)
            == if ws[0] in visited then PeelingFrom(g, illicit, median, threshold, ws[1..], visited)
               else Found(g, illicit, median, Chain(g, ws[0], threshold))
                    + PeelingFrom(g, illicit, median, threshold, ws[1..], visited + Elems(Chain(g, ws[0], threshold)[1..]))
  {
  }

  /** The scan's invariant carried past seed `i`: what is reported so far followed by
      what the remaining seeds report is the whole result. */
  lemma ScanStep(g: TxGraph, illicit: set<Wallet>, median: real, threshold: real,
                 ws: seq<Wallet>, i: int, visited: set<Wallet>, patterns: seq<SmurfingPattern>,
                 target: seq<SmurfingPattern>)
    requires Listed(g, ws) && 0 <= i < |ws|
    requires patterns + PeelingFrom(g, illicit, median, threshold, ws[i..], visited) == target
    ensures ws[i] in visited ==>
      patterns + PeelingFrom(g, illicit, median, threshold, ws[i + 1..], visited) == target
    ensures ws[i] !in visited ==>
      var chain := Chain(g, ws[i], threshold);
      (patterns + Found(g, illicit, median, chain))
      + PeelingFrom(g, illicit, median, threshold, ws[i + 1..], visited + Elems(chain[1..])) == target
  {
    var here := ws[i..];
    assert here[0] == ws[i] && here[1..] == ws[i + 1..];
    PeelingFromStep(g, illicit, median, threshold, here, visited);
    if ws[i] !in visited {
      var chain := Chain(g, ws[i], threshold);
      var found := Found(g, illicit, median, chain);
      var later := PeelingFrom(g, illicit, median, threshold, ws[i + 1..], visited + Elems(chain[1..]));
      assert patterns + (found + later) == (patterns + found) + later;
    }
  }

  /** `detect_peeling_chains` without the update of the detector's list. */
  method FindPeeling(g: TxGraph, illicit: set<Wallet>, median: real, threshold: real)
    returns (patterns: seq<SmurfingPattern>)
    ensures patterns == PeelingPatterns(g, illicit, median, threshold)
  {
    var candidates := Seeds(g);
    SeedsListed(g);
    ghost var target := PeelingPatterns(g, illicit, median, threshold);
    var visited: set<Wallet> := {};
    patterns := [];
    for i := 0 to |candidates|
      invariant patterns + PeelingFrom(g, illicit, median, threshold, candidates[i..], visited) == target
    {
      var wallet := candidates[i];
      ScanStep(g, illicit, median, threshold, candidates, i, visited, patterns, target);
      if wallet in visited {
        continue;
      }
      var chain, visited' := FollowChain(g, wallet, threshold, visited);
      var found := FoundOf(g, illicit, median, chain);
      patterns := patterns + found;
      visited := visited';
    }
    assert candidates[|candidates|..] == [];
  }

  method FoundOf(g: TxGraph, illicit: set<Wallet>, median: real, chain: seq<Wallet>) returns (found: seq<SmurfingPattern>)
    requires |chain| >= 1 && chain[0] in g.wallets
    ensures found == Found(g, illicit, median, chain)
  {
    found := [];
    if |chain| >= 3 {
      var p := ScorePattern(Current, SmurfingPattern({chain[0]}, Elems(chain[1..|chain| - 1]), {chain[|chain| - 1]},
                                                     PeelingChain, 0.0, g.wallets[chain[0]].totalSent), illicit, median);
      found := [p];
    }
  }

  // ---------------------------------------------------------------------------
  // Properties of the patterns
  // ---------------------------------------------------------------------------

  /** Every pattern comes from the chain of a seed outside `visited` that holds at least
      three wallets. */
  lemma {:induction false} PeelingFromSound(g: TxGraph, illicit: set<Wallet>, median: real, threshold: real,
                                            ws: seq<Wallet>, visited: set<Wallet>, p: SmurfingPattern)
    returns (w: Wallet)
    requires Listed(g, ws)
    requires p in PeelingFrom(g, illicit, median, threshold, ws, visited)
    ensures w in ws && w !in visited && w in g.wallets
    ensures |Chain(g, w, threshold)| >= 3 && p == ChainPattern(g, illicit, median, Chain(g, w, threshold))
    decreases |ws|
  {
    var rest := ws[1..];
    if ws[0] in visited {
      w := PeelingFromSound(g, illicit, median, threshold, rest, visited, p);
    } else {
      var chain := Chain(g, ws[0], threshold);
      var more := visited + Elems(chain[1..]);
      if p in PeelingFrom(g, illicit, median, threshold, rest, more) {
        w := PeelingFromSound(g, illicit, median, threshold, rest, more, p);
      } else {
        w := ws[0];
      }
    }
  }

  /** The shape of a peeling pattern: one source that is a seed, one destination, the
      wallets in between as intermediaries, no wallet in two roles, and the amount is what
      the source sent. */
  lemma PeelingPatternShape(g: TxGraph, illicit: set<Wallet>, median: real, threshold: real, p: SmurfingPattern)
    requires Valid(g)
    requires p in PeelingPatterns(g, illicit, median, threshold)
    ensures p.patternType == PeelingChain && |p.sources| == 1 && |p.destinations| == 1
    ensures 1 <= |p.intermediates| <= MaxChain - 2
    ensures p.sources !! p.destinations && p.sources !! p.intermediates && p.intermediates !! p.destinations
    ensures forall s :: s in p.sources ==> 1 <= OutDegree(g, s) <= 5 && p.totalAmount == g.wallets[s].totalSent
  {
    SeedsListed(g);
    var w := PeelingFromSound(g, illicit, median, threshold, Seeds(g), {}, p);
    ChainShape(g, w, threshold);
    assert w in Seeds(g);
    ChainPatternShape(g, illicit, median, Chain(g, w, threshold));
  }

  /** The pattern of a chain of distinct wallets has its first wallet as sole source, its
      last as sole destination and the rest as intermediaries. */
  lemma ChainPatternShape(g: TxGraph, illicit: set<Wallet>, median: real, c: seq<Wallet>)
    requires 3 <= |c| <= MaxChain && c[0] in g.wallets && Distinct(c)
    ensures var p := ChainPattern(g, illicit, median, c);
      && p.patternType == PeelingChain && p.sources == {c[0]} && p.destinations == {c[|c| - 1]}
      && 1 <= |p.intermediates| <= MaxChain - 2
      && p.sources !! p.destinations && p.sources !! p.intermediates && p.intermediates !! p.destinations
      && p.totalAmount == g.wallets[c[0]].totalSent
  {
    var mid := c[1..|c| - 1];
    assert Distinct(mid);
    DistinctCard(mid);
    assert c[0] !in Elems(mid) && c[|c| - 1] !in Elems(mid) by {
      forall i | 0 <= i < |mid|
        ensures mid[i] != c[0] && mid[i] != c[|c| - 1]
      {
        assert mid[i] == c[i + 1];
      }
    }
    assert c[0] != c[|c| - 1];
  }

  /** No pattern of `ps` starts at a non-source wallet of a pattern before it. */
  ghost predicate SeedsFresh(ps: seq<SmurfingPattern>)
  {
    forall i, j :: 0 <= i < j < |ps| ==> ps[j].sources !! (ps[i].intermediates + ps[i].destinations)
  }

  lemma FreshCons(head: seq<SmurfingPattern>, tail: seq<SmurfingPattern>, V: set<Wallet>)
    requires |head| <= 1 && SeedsFresh(tail)
    requires forall p :: p in head ==> p.intermediates + p.destinations <= V
    requires forall p :: p in tail ==> p.sources !! V
    ensures SeedsFresh(head + tail)
  {
    var ps := head + tail;
    forall i, j | 0 <= i < j < |ps|
      ensures ps[j].sources !! (ps[i].intermediates + ps[i].destinations)
    {
      if i < |head| {
        assert ps[i] in head && ps[j] in tail;
      } else {
        assert ps[i] == tail[i - |head|] && ps[j] == tail[j - |head|];
      }
    }
  }

  /** No pattern starts at a wallet of `visited`. */
  lemma PeelingFromAvoids(g: TxGraph, illicit: set<Wallet>, median: real, threshold: real,
                          ws: seq<Wallet>, visited: set<Wallet>)
    requires Listed(g, ws)
    ensures forall p :: p in PeelingFrom(g, illicit, median, threshold, ws, visited) ==> p.sources !! visited
  {
    forall p | p in PeelingFrom(g, illicit, median, threshold, ws, visited)
      ensures p.sources !! visited
    {
      var w := PeelingFromSound(g, illicit, median, threshold, ws, visited, p);
    }
  }

  lemma FoundCovers(g: TxGraph, illicit: set<Wallet>, median: real, chain: seq<Wallet>)
    requires |chain| >= 1 && chain[0] in g.wallets
    ensures forall p :: p in Found(g, illicit, median, chain) ==> p.intermediates + p.destinations <= Elems(chain[1..])
  {
    if |chain| >= 3 {
      assert chain[1..] == chain[1..|chain| - 1] + [chain[|chain| - 1]];
    }
  }

  /** A wallet appended to an earlier chain never seeds a later pattern. */
  lemma {:induction false} PeelingFromFresh(g: TxGraph, illicit: set<Wallet>, median: real, threshold: real,
                                            ws: seq<Wallet>, visited: set<Wallet>)
    requires Listed(g, ws)
    ensures SeedsFresh(PeelingFrom(g, illicit, median, threshold, ws, visited))
    decreases |ws|
  {
    if ws != [] {
      var rest := ws[1..];
      PeelingFromStep(g, illicit, median, threshold, ws, visited);
      if ws[0] in visited {
        PeelingFromFresh(g, illicit, median, threshold, rest, visited);
      } else {
        var chain := Chain(g, ws[0], threshold);
        var more := visited + Elems(chain[1..]);
        PeelingFromFresh(g, illicit, median, threshold, rest, more);
        PeelingFromAvoids(g, illicit, median, threshold, rest, more);
        FoundCovers(g, illicit, median, chain);
        FreshCons(Found(g, illicit, median, chain), PeelingFrom(g, illicit, median, threshold, rest, more), more);
      }
    }
  }

  /** The peeling patterns of the graph, in order: none starts at a wallet that an earlier
      one passed through. */
  lemma PeelingSeedsFresh(g: TxGraph, illicit: set<Wallet>, median: real, threshold: real)
    ensures SeedsFresh(PeelingPatterns(g, illicit, median, threshold))
  {
    SeedsListed(g);
    PeelingFromFresh(g, illicit, median, threshold, Seeds(g), {});
  }
}
