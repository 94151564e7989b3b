/** The layered matcher, `detect_layered_patterns`, identical in both detector versions:
    from a source wallet, rounds of wallets that split their funds over at least
    `minSplit` successors, and the wallets outside those rounds where the funds converge
    again. */
module Layering {
  import opened Common
  import opened Graph
  import opened GraphQueries
  import opened Patterns
  import FanOut

  // ---------------------------------------------------------------------------
  // The rounds
  // ---------------------------------------------------------------------------

  /** The successors of the members of `S` that split over at least `minSplit` wallets. */
  function Expand(g: TxGraph, S: set<Wallet>, minSplit: int): set<Wallet>
  {
    set w, v | w in S && OutDegree(g, w) >= minSplit && v in Succ(g, w) :: v
  }

  /** Round `r` of the search from `s`: `{s}`, then each round the expansion of the last. */
  function Layer(g: TxGraph, s: Wallet, minSplit: int, r: nat): set<Wallet>
  {
    if r == 0 then {s} else Expand(g, Layer(g, s, minSplit, r - 1), minSplit)
  }

  /** The intermediaries gathered over the first `n` rounds: rounds `1..n` together. */
  function Gathered(g: TxGraph, s: Wallet, minSplit: int, n: int): set<Wallet>
    decreases n
  {
    if n <= 0 then {} else Gathered(g, s, minSplit, n - 1) + Layer(g, s, minSplit, n)
  }

  lemma ExpandAdd(g: TxGraph, D: set<Wallet>, w: Wallet, minSplit: int)
    ensures Expand(g, D + {w}, minSplit)
            == Expand(g, D, minSplit) + (if OutDegree(g, w) >= minSplit then Succ(g, w) else {})
  {
  }

  /** One round: every wallet of the current round is visited, and the successors of
      those that split are collected. */
  method ExpandLayer(g: TxGraph, current: set<Wallet>, minSplit: int) returns (next: set<Wallet>)
    ensures next == Expand(g, current, minSplit)
  {
    next := {};
    var pending := current;
    while pending != {}
      invariant pending <= current
      invariant next == Expand(g, current - pending, minSplit)
      decreases pending
    {
      var w :| w in pending;
      ExpandAdd(g, current - pending, w, minSplit);
      assert current - (pending - {w}) == (current - pending) + {w};
      var successors := Succ(g, w);
      if |successors| >= minSplit {
        next := next + successors;
      }
      pending := pending - {w};
    }
    assert current - {} == current;
  }

  /** An empty round stays empty. */
  lemma {:induction false} LayerEmptyStays(g: TxGraph, s: Wallet, minSplit: int, r: nat, q: nat)
    requires Layer(g, s, minSplit, r) == {} && r <= q
    ensures Layer(g, s, minSplit, q) == {}
    decreases q - r
  {
    if r < q {
      LayerEmptyStays(g, s, minSplit, r, q - 1);
      assert Expand(g, {}, minSplit) == {};
    }
  }

  /** Once a round is empty, later rounds add nothing to the gathered intermediaries. */
  lemma {:induction false} GatheredStable(g: TxGraph, s: Wallet, minSplit: int, r: nat, n: int)
    requires Layer(g, s, minSplit, r) == {} && r <= n
    ensures Gathered(g, s, minSplit, n) == Gathered(g, s, minSplit, r)
    decreases n - r
  {
    if r < n {
      GatheredStable(g, s, minSplit, r, n - 1);
      LayerEmptyStays(g, s, minSplit, r, n);
    }
  }

  /** The breadth-first rounds of the source: at most `maxLayers` rounds, stopping at the
      first round that adds nothing. */
  method GatherLayers(g: TxGraph, s: Wallet, maxLayers: int, minSplit: int) returns (all: set<Wallet>)
    ensures all == Gathered(g, s, minSplit, maxLayers)
  {
    var current := {s};
    all := {};
    var layer := 0;
    while layer < maxLayers
      invariant 0 <= layer && (maxLayers >= 0 ==> layer <= maxLayers) && (maxLayers < 0 ==> layer == 0)
      invariant current == Layer(g, s, minSplit, layer)
      invariant all == Gathered(g, s, minSplit, layer)
      decreases maxLayers - layer
    {
      var next := ExpandLayer(g, current, minSplit);
      all := all + next;
      if next == {} {
        GatheredStable(g, s, minSplit, layer + 1, maxLayers);
        return;
      }
      current := next;
      layer := layer + 1;
    }
    assert Gathered(g, s, minSplit, 0) == {};
  }

  // ---------------------------------------------------------------------------
  // Splitting walks
  // ---------------------------------------------------------------------------

  /** A walk from `s` to `v` along edges of `g` on which every wallet but the last splits
      over at least `minSplit` successors. */
  ghost predicate SplitWalk(g: TxGraph, p: seq<Wallet>, s: Wallet, v: Wallet, minSplit: int)
  {
    && |p| > 0 && p[0] == s && p[|p| - 1] == v
    && forall j :: 0 <= j < |p| - 1 ==> SplitHop(g, p, j, minSplit)
  }

  ghost predicate SplitHop(g: TxGraph, p: seq<Wallet>, j: int, minSplit: int)
    requires 0 <= j < |p| - 1
  {
    p[j + 1] in g.wallets && (p[j], p[j + 1]) in g.edges && OutDegree(g, p[j]) >= minSplit
  }

  lemma {:induction false} LayerHasSplitWalk(g: TxGraph, s: Wallet, minSplit: int, r: nat, v: Wallet) returns (p: seq<Wallet>)
    requires v in Layer(g, s, minSplit, r)
    ensures SplitWalk(g, p, s, v, minSplit) && |p| == r + 1
  {
    if r == 0 {
      p := [s];
    } else {
      var u :| u in Layer(g, s, minSplit, r - 1) && OutDegree(g, u) >= minSplit && v in Succ(g, u);
      var q := LayerHasSplitWalk(g, s, minSplit, r - 1, u);
      p := q + [v];
      forall j | 0 <= j < |p| - 1
        ensures SplitHop(g, p, j, minSplit)
      {
        if j < |q| - 1 {
          assert SplitHop(g, q, j, minSplit);
        }
      }
    }
  }

  lemma {:induction false} SplitWalkInLayer(g: TxGraph, s: Wallet, minSplit: int, p: seq<Wallet>, v: Wallet)
    requires SplitWalk(g, p, s, v, minSplit)
    ensures v in Layer(g, s, minSplit, |p| - 1)
    decreases |p|
  {
    if |p| > 1 {
      var n := |p| - 1;
      var u := p[n - 1];
      var q := p[..n];
      forall j | 0 <= j < |q| - 1
        ensures SplitHop(g, q, j, minSplit)
      {
        assert SplitHop(g, p, j, minSplit);
      }
      SplitWalkInLayer(g, s, minSplit, q, u);
      assert SplitHop(g, p, n - 1, minSplit);
      assert v in Succ(g, u);
    }
  }

  /** Round `r` holds exactly the ends of the splitting walks of `r` hops from `s`. */
  lemma LayerIsSplitWalks(g: TxGraph, s: Wallet, minSplit: int, r: nat, v: Wallet)
    ensures v in Layer(g, s, minSplit, r) <==> exists p :: SplitWalk(g, p, s, v, minSplit) && |p| == r + 1
  {
    if v in Layer(g, s, minSplit, r) {
      var p := LayerHasSplitWalk(g, s, minSplit, r, v);
    }
    if exists p :: SplitWalk(g, p, s, v, minSplit) && |p| == r + 1 {
      var p :| SplitWalk(g, p, s, v, minSplit) && |p| == r + 1;
      SplitWalkInLayer(g, s, minSplit, p, v);
    }
  }

  /** The gathered intermediaries are the wallets of rounds `1..n`. */
  lemma {:induction false} GatheredIsRounds(g: TxGraph, s: Wallet, minSplit: int, n: int, v: Wallet)
    ensures v in Gathered(g, s, minSplit, n) <==> exists r: nat :: 1 <= r <= n && v in Layer(g, s, minSplit, r)
    decreases n
  {
    if n > 0 {
      GatheredIsRounds(g, s, minSplit, n - 1, v);
      if v in Layer(g, s, minSplit, n) {
        assert 1 <= n <= n && v in Layer(g, s, minSplit, n);
      }
      if exists r: nat :: 1 <= r <= n && v in Layer(g, s, minSplit, r) {
        var r: nat :| 1 <= r <= n && v in Layer(g, s, minSplit, r);
        if r < n {
          assert 1 <= r <= n - 1 && v in Layer(g, s, minSplit, r);
        }
      }
    }
  }

  // ---------------------------------------------------------------------------
  // Convergence
  // ---------------------------------------------------------------------------

  /** The wallets a convergence point may be: outside the rounds and not the source. */
  predicate Outside(g: TxGraph, s: Wallet, all: set<Wallet>, d: Wallet)
  {
    d in g.wallets && d !in all && d != s
  }

  /** The count kept for each wallet outside the rounds that receives from some member of
      `D`: the number of members of `D` sending to it. */
  function Counts(g: TxGraph, s: Wallet, all: set<Wallet>, D: set<Wallet>): map<Wallet, nat>
  {
    map d | d in g.wallets && Outside(g, s, all, d) && Pred(g, d) * D != {} :: |Pred(g, d) * D|
  }

  /** Counting one more sender towards each wallet of `T`. */
  function Bump(counts: map<Wallet, nat>, T: set<Wallet>): map<Wallet, nat>
  {
    map d | d in counts.Keys + T :: (if d in counts then counts[d] else 0) + (if d in T then 1 else 0)
  }

  /** The wallets outside the rounds that `m` sends to. */
  function Targets(g: TxGraph, s: Wallet, all: set<Wallet>, m: Wallet): set<Wallet>
  {
    set d | d in Succ(g, m) && Outside(g, s, all, d)
  }

  lemma BumpNone(counts: map<Wallet, nat>)
    ensures Bump(counts, {}) == counts
  {
    var b := Bump(counts, {});
    assert b.Keys == counts.Keys;
    forall d | d in b
      ensures b[d] == counts[d]
    {
    }
  }

  lemma BumpInsert(counts: map<Wallet, nat>, T: set<Wallet>, d: Wallet)
    requires d !in T
    ensures var b := Bump(counts, T);
      b[d := (if d in b then b[d] else 0) + 1] == Bump(counts, T + {d})
  {
    var b := Bump(counts, T);
    var x := b[d := (if d in b then b[d] else 0) + 1];
    var y := Bump(counts, T + {d});
    assert x.Keys == y.Keys;
    forall e | e in x
      ensures x[e] == y[e]
    {
    }
  }

  lemma CardAddOne(A: set<Wallet>, m: Wallet)
    requires m !in A
    ensures |A + {m}| == |A| + 1
  {
  }

  /** One more sender adds one to the count of exactly the targets of `m`. */
  lemma SendersAdd(g: TxGraph, s: Wallet, all: set<Wallet>, D: set<Wallet>, m: Wallet, d: Wallet)
    requires m !in D && m in g.wallets && d in g.wallets && Outside(g, s, all, d)
    ensures |Pred(g, d) * (D + {m})| == |Pred(g, d) * D| + (if d in Targets(g, s, all, m) then 1 else 0)
    ensures Pred(g, d) * (D + {m}) != {} <==> Pred(g, d) * D != {} || d in Targets(g, s, all, m)
  {
    var P := Pred(g, d) * D;
    if d in Targets(g, s, all, m) {
      assert m in Pred(g, d);
      assert Pred(g, d) * (D + {m}) == P + {m};
      CardAddOne(P, m);
    } else {
      assert Pred(g, d) * (D + {m}) == P;
    }
  }

  /** Counting the senders of `D + {m}` is counting those of `D` and bumping the targets
      of `m`. */
  lemma CountsAdd(g: TxGraph, s: Wallet, all: set<Wallet>, D: set<Wallet>, m: Wallet)
    requires m !in D && m in g.wallets
    ensures Bump(Counts(g, s, all, D), Targets(g, s, all, m)) == Counts(g, s, all, D + {m})
  {
    var A := Bump(Counts(g, s, all, D), Targets(g, s, all, m));
    var B := Counts(g, s, all, D + {m});
    forall d | d in A.Keys + B.Keys
      ensures d in A.Keys && d in B.Keys && A[d] == B[d]
    {
      CountsAddAt(g, s, all, D, m, d);
    }
    SameMaps(A, B);
  }

  lemma SameMaps(A: map<Wallet, nat>, B: map<Wallet, nat>)
    requires forall d :: d in A.Keys + B.Keys ==> d in A.Keys && d in B.Keys && A[d] == B[d]
    ensures A == B
  {
    assert A.Keys == B.Keys;
  }

  /** `CountsAdd` at one wallet. */
  lemma CountsAddAt(g: TxGraph, s: Wallet, all: set<Wallet>, D: set<Wallet>, m: Wallet, d: Wallet)
    requires m !in D && m in g.wallets
    requires d in Bump(Counts(g, s, all, D), Targets(g, s, all, m)) || d in Counts(g, s, all, D + {m})
    ensures d in Bump(Counts(g, s, all, D), Targets(g, s, all, m)) && d in Counts(g, s, all, D + {m})
    ensures Bump(Counts(g, s, all, D), Targets(g, s, all, m))[d] == Counts(g, s, all, D + {m})[d]
  {
    assert d in g.wallets && Outside(g, s, all, d);
    SendersAdd(g, s, all, D, m, d);
  }

  /** The tally for one intermediary: each of its successors outside the rounds, in node
      order, gets one more count. */
  method TallyFrom(g: TxGraph, s: Wallet, all: set<Wallet>, m: Wallet, counts: map<Wallet, nat>)
    returns (r: map<Wallet, nat>)
    requires Valid(g)
    ensures r == Bump(counts, Targets(g, s, all, m))
  {
    var succs := SuccList(g, m);
    SuccListEnumerates(g, m);
    r := counts;
    ghost var T: set<Wallet> := {};
    BumpNone(counts);
    for j := 0 to |succs|
      invariant T == set d | d in succs[..j] && Outside(g, s, all, d)
      invariant r == Bump(counts, T)
    {
      var dest := succs[j];
      TargetsStep(g, s, all, succs, j);
      if dest !in all && dest != s {
        assert Distinct(succs);
        assert dest !in T;
        BumpInsert(counts, T, dest);
        r := r[dest := (if dest in r then r[dest] else 0) + 1];
        T := T + {dest};
      }
    }
    assert succs[..|succs|] == succs;
    TargetsListed(g, s, all, m, T);
  }

  lemma TargetsStep(g: TxGraph, s: Wallet, all: set<Wallet>, succs: seq<Wallet>, j: int)
    requires 0 <= j < |succs|
    requires forall k :: 0 <= k < |succs| ==> succs[k] in g.wallets
    ensures (set d | d in succs[..j + 1] && Outside(g, s, all, d))
            == (set d | d in succs[..j] && Outside(g, s, all, d))
               + (if succs[j] !in all && succs[j] != s then {succs[j]} else {})
  {
    assert forall x :: x in succs[..j + 1] <==> x in succs[..j] || x == succs[j];
  }

  lemma TargetsListed(g: TxGraph, s: Wallet, all: set<Wallet>, m: Wallet, T: set<Wallet>)
    requires Valid(g)
    requires T == set d | d in SuccList(g, m) && Outside(g, s, all, d)
    ensures T == Targets(g, s, all, m)
  {
    SuccListEnumerates(g, m);
  }

  /** The tally over all intermediaries (visited in any order): for each wallet outside
      the rounds, the number of intermediaries sending to it. */
  method TallyConvergence(g: TxGraph, s: Wallet, all: set<Wallet>) returns (counts: map<Wallet, nat>)
    requires Valid(g)
    ensures counts == Counts(g, s, all, all * g.wallets.Keys)
  {
    counts := map[];
    var pending := all;
    assert Counts(g, s, all, {}) == map[];
    while pending != {}
      invariant pending <= all
      invariant counts == Counts(g, s, all, (all - pending) * g.wallets.Keys)
      decreases pending
    {
      var m :| m in pending;
      var D := (all - pending) * g.wallets.Keys;
      if m in g.wallets {
        counts := TallyFrom(g, s, all, m, counts);
        CountsAdd(g, s, all, D, m);
        assert (all - (pending - {m})) * g.wallets.Keys == D + {m};
      } else {
        NoTargets(g, s, all, m);
        BumpNone(counts);
        counts := TallyFrom(g, s, all, m, counts);
        assert (all - (pending - {m})) * g.wallets.Keys == D;
      }
      pending := pending - {m};
    }
    assert all - {} == all;
  }

  lemma NoTargets(g: TxGraph, s: Wallet, all: set<Wallet>, m: Wallet)
    requires Valid(g) && m !in g.wallets
    ensures Targets(g, s, all, m) == {}
  {
  }

  /** The convergence points: wallets outside the rounds that at least `minSplit` (and at
      least one) of the intermediaries send to. */
  function Convergence(g: TxGraph, s: Wallet, all: set<Wallet>, minSplit: int): set<Wallet>
  {
    set d | d in g.wallets && Outside(g, s, all, d) && |Pred(g, d) * all| >= minSplit && Pred(g, d) * all != {}
  }

  /** Reading the convergence points off the tally. */
  lemma ConvergenceOfCounts(g: TxGraph, s: Wallet, all: set<Wallet>, minSplit: int)
    requires Valid(g)
    ensures (set d | d in Counts(g, s, all, all * g.wallets.Keys) && Counts(g, s, all, all * g.wallets.Keys)[d] >= minSplit)
            == Convergence(g, s, all, minSplit)
  {
    forall d | Outside(g, s, all, d)
      ensures Pred(g, d) * (all * g.wallets.Keys) == Pred(g, d) * all
    {
    }
  }

  // ---------------------------------------------------------------------------
  // The pattern
  // ---------------------------------------------------------------------------

  /** The amount sent from the members of `ms` to the members of `ds`. */
  function Inflows(g: TxGraph, ds: seq<Wallet>, ms: seq<Wallet>): real
  {
    if ds == [] then 0.0 else Inflows(g, ds[..|ds| - 1], ms) + FanOut.Inflow(g, ms, ds[|ds| - 1])
  }

  /** The layered patterns of source `s`: none for a wallet outside the graph or without a
      convergence point, else one. */
  function LayeredPatterns(g: TxGraph, version: Version, illicit: set<Wallet>, median: real,
                           s: Wallet, maxLayers: int, minSplit: int): seq<SmurfingPattern>
  {
    if s !in g.wallets then []
    else
      var all := Gathered(g, s, minSplit, maxLayers);
      var conv := Convergence(g, s, all, minSplit);
      if conv == {} then []
      else
        var total := Inflows(g, NodesIn(g, conv), NodesIn(g, all));
        [Scored(version, SmurfingPattern({s}, all, conv, Layered, 0.0, total), illicit, median)]
  }

  /** `for dest in convergence: for m in intermediates: total += amount(m, dest)`. */
  method LayeredTotal(g: TxGraph, ds: seq<Wallet>, ms: seq<Wallet>) returns (total: real)
    ensures total == Inflows(g, ds, ms)
  {
    total := 0.0;
    for i := 0 to |ds|
      invariant total == Inflows(g, ds[..i], ms)
    {
      assert ds[..i + 1][..i] == ds[..i];
      var inflow := InflowFrom(g, ms, ds[i]);
      total := total + inflow;
    }
    assert ds[..|ds|] == ds;
  }

  method InflowFrom(g: TxGraph, ms: seq<Wallet>, d: Wallet) returns (inflow: real)
    ensures inflow == FanOut.Inflow(g, ms, d)
  {
    inflow := 0.0;
    for j := 0 to |ms|
      invariant inflow == FanOut.Inflow(g, ms[..j], d)
    {
      assert ms[..j + 1][..j] == ms[..j];
      if (ms[j], d) in g.edges {
        inflow := inflow + g.edges[(ms[j], d)].amount;
      }
    }
    assert ms[..|ms|] == ms;
  }

  /** `detect_layered_patterns` without the update of the detector's list. */
  method FindLayered(g: TxGraph, version: Version, illicit: set<Wallet>, median: real,
                     s: Wallet, maxLayers: int, minSplit: int) returns (patterns: seq<SmurfingPattern>)
    requires Valid(g)
    ensures patterns == LayeredPatterns(g, version, illicit, median, s, maxLayers, minSplit)
  {
    if s !in g.wallets {
      return [];
    }
    var all := GatherLayers(g, s, maxLayers, minSplit);
    var counts := TallyConvergence(g, s, all);
    var conv := set d | d in counts && counts[d] >= minSplit;
    ConvergenceOfCounts(g, s, all, minSplit);
    patterns := [];
    if conv != {} {
      var total := LayeredTotal(g, NodesIn(g, conv), NodesIn(g, all));
      var p := ScorePattern(version, SmurfingPattern({s}, all, conv, Layered, 0.0, total), illicit, median);
      patterns := [p];
    }
  }

  /** The shape of a layered pattern: the source splits (it has a round-one successor),
      every intermediary ends a splitting walk of at most `maxLayers` hops, and every
      destination lies outside the rounds, is not the source, and receives from at least
      `minSplit` intermediaries. */
  lemma LayeredPatternShape(g: TxGraph, version: Version, illicit: set<Wallet>, median: real,
                            s: Wallet, maxLayers: int, minSplit: int)
    requires LayeredPatterns(g, version, illicit, median, s, maxLayers, minSplit) != []
    ensures var ps := LayeredPatterns(g, version, illicit, median, s, maxLayers, minSplit);
      var p := ps[0];
      && |ps| == 1 && s in g.wallets
      && p.sources == {s} && p.patternType == Layered
      && p.destinations != {} && p.destinations * p.intermediates == {} && s !in p.destinations
      && (forall d :: d in p.destinations ==> |Pred(g, d) * p.intermediates| >= minSplit)
      && p.intermediates == Gathered(g, s, minSplit, maxLayers)
  {
  }

  /** No rounds means no pattern: a non-positive `maxLayers` gathers no intermediary. */
  lemma NoLayersNoPattern(g: TxGraph, version: Version, illicit: set<Wallet>, median: real,
                          s: Wallet, maxLayers: int, minSplit: int)
    requires maxLayers <= 0
    ensures LayeredPatterns(g, version, illicit, median, s, maxLayers, minSplit) == []
  {
    var all := Gathered(g, s, minSplit, maxLayers);
    assert all == {};
    forall d
      ensures d !in Convergence(g, s, all, minSplit)
    {
      assert Pred(g, d) * all == {};
    }
  }

  /** The layered patterns of each seed in turn. */
  function LayeredFrom(g: TxGraph, version: Version, illicit: set<Wallet>, median: real,
                       seeds: seq<Wallet>, maxLayers: int, minSplit: int): seq<SmurfingPattern>
  {
    if seeds == [] then []
    else LayeredFrom(g, version, illicit, median, seeds[..|seeds| - 1], maxLayers, minSplit)
         + LayeredPatterns(g, version, illicit, median, seeds[|seeds| - 1], maxLayers, minSplit)
  }

  lemma LayeredFromStep(g: TxGraph, version: Version, illicit: set<Wallet>, median: real,
                        seeds: seq<Wallet>, i: int, maxLayers: int, minSplit: int)
    requires 0 <= i < |seeds|
    ensures LayeredFrom(g, version, illicit, median, seeds[..i + 1], maxLayers, minSplit)
            == LayeredFrom(g, version, illicit, median, seeds[..i], maxLayers, minSplit)
               + LayeredPatterns(g, version, illicit, median, seeds[i], maxLayers, minSplit)
  {
    assert seeds[..i + 1][..i] == seeds[..i];
  }

  /** Every pattern of the seeds' runs is a layered pattern starting at one of the seeds,
      and each seed contributes at most one. */
  lemma {:induction false} LayeredFromSeeds(g: TxGraph, version: Version, illicit: set<Wallet>, median: real,
                                            seeds: seq<Wallet>, maxLayers: int, minSplit: int)
    ensures var ps := LayeredFrom(g, version, illicit, median, seeds, maxLayers, minSplit);
      && |ps| <= |seeds|
      && forall p :: p in ps ==> p.patternType == Layered && exists s :: s in seeds && p.sources == {s}
  {
    if seeds != [] {
      var pre := seeds[..|seeds| - 1];
      var s := seeds[|seeds| - 1];
      LayeredFromSeeds(g, version, illicit, median, pre, maxLayers, minSplit);
      var ps := LayeredFrom(g, version, illicit, median, seeds, maxLayers, minSplit);
      var left := LayeredFrom(g, version, illicit, median, pre, maxLayers, minSplit);
      var right := LayeredPatterns(g, version, illicit, median, s, maxLayers, minSplit);
      assert ps == left + right;
      if right != [] {
        LayeredPatternShape(g, version, illicit, median, s, maxLayers, minSplit);
      }
      forall p | p in ps
        ensures p.patternType == Layered && exists s' :: s' in seeds && p.sources == {s'}
      {
        if p in left {
          var s' :| s' in pre && p.sources == {s'};
          assert s' in seeds;
        } else {
          assert p == right[0];
        }
      }
    }
  }
}
