/** The read-only queries of BlockchainGraph (graph_builder.py): neighbours, the amount and
    timeline along a path, the feature bundle of a wallet, and the k-hop subgraph. */
module GraphQueries {
  import opened Common
  import opened Graph
  import opened GraphBuild

  // ---------------------------------------------------------------------------
  // get_neighbors
  // ---------------------------------------------------------------------------

  /** `'in'` (predecessors), `'out'` (successors); any other direction string means both. */
  datatype Direction = In | Out | Both

  /** The neighbours of a wallet of the graph (an unknown wallet makes the graph library
      raise, so the wallet must be known). */
  function Neighbors(g: TxGraph, w: Wallet, direction: Direction): (r: set<Wallet>)
    requires w in g.wallets
    ensures r <= g.wallets.Keys
    ensures forall v :: v in r <==>
      (v in g.wallets && ((direction != Out && (v, w) in g.edges) || (direction != In && (w, v) in g.edges)))
  {
    match direction
    case In => Pred(g, w)
    case Out => Succ(g, w)
    case Both => Pred(g, w) + Succ(g, w)
  }

  /** On a graph built from a feed, the neighbours of `w` in both directions are exactly
      the wallets that exchanged at least one row with it. */
  lemma NeighborsOfFeed(txs: seq<Tx>, w: Wallet, v: Wallet)
    requires w in Build(txs).wallets
    ensures v in Neighbors(Build(txs), w, Both) <==>
      exists i :: 0 <= i < |txs| && (IsPair(txs[i], w, v) || IsPair(txs[i], v, w))
  {
    BuildValid(txs);
    BuildEdge(txs, w, v);
    BuildEdge(txs, v, w);
  }

  // ---------------------------------------------------------------------------
  // get_path_amount_flow and get_transaction_timeline
  // ---------------------------------------------------------------------------

  /** The amount of the edge from `u` to `v`, or 0 when there is none. */
  function HopAmount(g: TxGraph, u: Wallet, v: Wallet): real
  {
    if (u, v) in g.edges then g.edges[(u, v)].amount else 0.0
  }

  /** Sum of the edge amounts over the consecutive pairs of `path` that have an edge. */
  function PathAmount(g: TxGraph, path: seq<Wallet>): real
  {
    if |path| < 2 then 0.0 else HopAmount(g, path[0], path[1]) + PathAmount(g, path[1..])
  }

  method GetPathAmountFlow(g: TxGraph, path: seq<Wallet>) returns (total: real)
    ensures total == PathAmount(g, path)
  {
    total := 0.0;
    var n := if |path| > 0 then |path| - 1 else 0;
    for i := 0 to n
      invariant total + PathAmount(g, path[i..]) == PathAmount(g, path)
    {
      if (path[i], path[i + 1]) in g.edges {
        total := total + g.edges[(path[i], path[i + 1])].amount;
      }
      assert path[i..][1..] == path[i + 1..];
    }
    assert path[0..] == path;
  }

  /** Paths compose: the amount along two paths joined at a shared wallet is the sum of
      their amounts. */
  lemma {:induction false} PathAmountJoin(g: TxGraph, p: seq<Wallet>, q: seq<Wallet>)
    requires |p| > 0 && |q| > 0 && p[|p| - 1] == q[0]
    ensures PathAmount(g, p + q[1..]) == PathAmount(g, p) + PathAmount(g, q)
  {
    if |p| == 1 {
      assert p + q[1..] == q;
    } else {
      PathAmountJoin(g, p[1..], q);
      assert (p + q[1..])[1..] == p[1..] + q[1..];
    }
  }

  /** With non-negative edge amounts, the flow along a path is non-negative. */
  lemma {:induction false} PathAmountNonNegative(g: TxGraph, path: seq<Wallet>)
    requires forall e :: e in g.edges ==> g.edges[e].amount >= 0.0
    ensures PathAmount(g, path) >= 0.0
  {
    if |path| >= 2 {
      PathAmountNonNegative(g, path[1..]);
    }
  }

  /** The first-row timestamp of each consecutive pair of `path` that has an edge. */
  function Timeline(g: TxGraph, path: seq<Wallet>): seq<int>
  {
    if |path| < 2 then []
    else (if (path[0], path[1]) in g.edges then [g.edges[(path[0], path[1])].timestamp] else []) + Timeline(g, path[1..])
  }

  method GetTransactionTimeline(g: TxGraph, path: seq<Wallet>) returns (timestamps: seq<int>)
    ensures timestamps == Timeline(g, path)
  {
    timestamps := [];
    var n := if |path| > 0 then |path| - 1 else 0;
    for i := 0 to n
      invariant timestamps + Timeline(g, path[i..]) == Timeline(g, path)
    {
      if (path[i], path[i + 1]) in g.edges {
        timestamps := timestamps + [g.edges[(path[i], path[i + 1])].timestamp];
      }
      assert path[i..][1..] == path[i + 1..];
    }
    assert path[0..] == path;
  }

  /** Along a path whose every hop has an edge, the timeline has one entry per hop, the
      first-row timestamp of that hop's edge. */
  lemma {:induction false} TimelineOfConnectedPath(g: TxGraph, path: seq<Wallet>)
    requires |path| >= 1
    requires forall j :: 0 <= j < |path| - 1 ==> (path[j], path[j + 1]) in g.edges
    ensures |Timeline(g, path)| == |path| - 1
    ensures forall j :: 0 <= j < |path| - 1 ==> Timeline(g, path)[j] == g.edges[(path[j], path[j + 1])].timestamp
  {
    if |path| >= 2 {
      TimelineOfConnectedPath(g, path[1..]);
    }
  }

  // ---------------------------------------------------------------------------
  // get_wallet_features
  // ---------------------------------------------------------------------------

  datatype Features = Features(
    inDegree: nat,
    outDegree: nat,
    totalReceived: real,
    totalSent: real,
    txCount: nat,
    isIllicit: bool,
    balance: real,
    fanoutRatio: real,
    faninRatio: real)

  /** The feature bundle of a wallet; `None` (the empty dictionary) for an unknown wallet.
      The illicit flag is membership in the loaded illicit set. */
  function WalletFeatures(g: TxGraph, illicit: set<Wallet>, w: Wallet): (r: Option<Features>)
    ensures r.None? <==> w !in g.wallets
    ensures r.Some? ==>
      && r.value.inDegree == InDegree(g, w) && r.value.outDegree == OutDegree(g, w)
      && r.value.totalSent == g.wallets[w].totalSent && r.value.totalReceived == g.wallets[w].totalReceived
      && r.value.txCount == g.wallets[w].txCount
      && r.value.isIllicit == (w in illicit)
      && r.value.balance + r.value.totalSent == r.value.totalReceived
      && r.value.fanoutRatio * (MaxInt(r.value.inDegree, 1) as real) == r.value.outDegree as real
      && r.value.faninRatio * (MaxInt(r.value.outDegree, 1) as real) == r.value.inDegree as real
  {
    if w !in g.wallets then None
    else
      var rec := g.wallets[w];
      var ind, outd := InDegree(g, w), OutDegree(g, w);
      Some(Features(ind, outd, rec.totalReceived, rec.totalSent, rec.txCount, w in illicit,
                    rec.totalReceived - rec.totalSent,
                    outd as real / MaxInt(ind, 1) as real,
                    ind as real / MaxInt(outd, 1) as real))
  }

  /** The two ratios are non-negative, and reciprocal when the wallet both receives and sends. */
  lemma RatiosReciprocal(g: TxGraph, illicit: set<Wallet>, w: Wallet)
    requires w in g.wallets
    ensures var f := WalletFeatures(g, illicit, w).value;
      && f.fanoutRatio >= 0.0 && f.faninRatio >= 0.0
      && (f.inDegree >= 1 && f.outDegree >= 1 ==> f.fanoutRatio * f.faninRatio == 1.0)
      && (f.inDegree == 0 ==> f.fanoutRatio == f.outDegree as real)
  {
    var f := WalletFeatures(g, illicit, w).value;
    if f.inDegree >= 1 && f.outDegree >= 1 {
      var a, b := f.inDegree as real, f.outDegree as real;
      assert f.fanoutRatio == b / a && f.faninRatio == a / b;
      assert (b / a) * (a / b) == 1.0;
    }
  }

  /** On a graph built from a feed, the totals and the count in a wallet's features are the
      feed's sums for that wallet. */
  lemma FeaturesOfFeed(txs: seq<Tx>, illicit: set<Wallet>, w: Wallet)
    requires exists i :: 0 <= i < |txs| && Touches(txs[i], w)
    ensures WalletFeatures(Build(txs), illicit, w).Some?
    ensures var f := WalletFeatures(Build(txs), illicit, w).value;
      && f.totalSent == SentBy(txs, w) && f.totalReceived == ReceivedBy(txs, w)
      && f.txCount == Occurrences(txs, w)
      && f.balance == ReceivedBy(txs, w) - SentBy(txs, w)
  {
    BuildWallet(txs, w);
  }

  // ---------------------------------------------------------------------------
  // get_subgraph_around_wallet
  // ---------------------------------------------------------------------------

  /** `u` and `v` are joined by an edge in either direction. */
  predicate Adjacent(g: TxGraph, u: Wallet, v: Wallet)
  {
    (u, v) in g.edges || (v, u) in g.edges
  }

  /** The wallets adjacent to some member of `S`. */
  function Around(g: TxGraph, S: set<Wallet>): set<Wallet>
  {
    set v | v in g.wallets && exists u :: u in S && Adjacent(g, u, v)
  }

  /** The `k`-th breadth-first level around `w`, edges taken as undirected. */
  function Level(g: TxGraph, w: Wallet, k: nat): set<Wallet>
  {
    if k == 0 then {w} else Around(g, Level(g, w, k - 1))
  }

  /** All wallets in levels 0 to `k`. */
  function Ball(g: TxGraph, w: Wallet, k: nat): set<Wallet>
  {
    if k == 0 then {w} else Ball(g, w, k - 1) + Level(g, w, k)
  }

  /** The subgraph induced by `S`: its wallets in node order, with their records, and every
      edge of `g` between two of them. */
  function Induced(g: TxGraph, S: set<Wallet>): TxGraph
  {
    TxGraph(NodesIn(g, S),
            map v | v in g.wallets && v in S :: g.wallets[v],
            map e | e in g.edges && e.0 in S && e.1 in S :: g.edges[e])
  }

  lemma AroundAdd(g: TxGraph, D: set<Wallet>, u: Wallet)
    requires Valid(g)
    ensures Around(g, D + {u}) == Around(g, D) + Succ(g, u) + Pred(g, u)
  {
    forall v | v in Around(g, D + {u})
      ensures v in Around(g, D) + Succ(g, u) + Pred(g, u)
    {
      var x :| x in D + {u} && Adjacent(g, x, v);
      if x != u {
        assert v in Around(g, D);
      }
    }
  }

  /** `get_subgraph_around_wallet`: breadth-first expansion for `hops` rounds (none when
      `hops` is negative), then the induced subgraph; the empty graph for an unknown wallet. */
  method SubgraphAroundWallet(g: TxGraph, w: Wallet, hops: int) returns (sub: TxGraph)
    requires Valid(g)
    ensures w !in g.wallets ==> sub == EmptyGraph
    ensures w in g.wallets ==> sub == Induced(g, Ball(g, w, if hops < 0 then 0 else hops))
  {
    if w !in g.wallets {
      return EmptyGraph;
    }
    var nodes := {w};
    var current := {w};
    var n := if hops < 0 then 0 else hops;
    for i := 0 to n
      invariant nodes == Ball(g, w, i) && current == Level(g, w, i)
    {
      var next := NextLevel(g, current);
      assert Level(g, w, i + 1) == next;
      assert Ball(g, w, i + 1) == nodes + next;
      nodes := nodes + next;
      current := next;
    }
    sub := Induced(g, nodes);
  }

  /** One breadth-first round: the successors and predecessors of every wallet of `current`. */
  method NextLevel(g: TxGraph, current: set<Wallet>) returns (next: set<Wallet>)
    requires Valid(g)
    ensures next == Around(g, current)
  {
    next := {};
    var pending := current;
    while pending != {}
      invariant pending <= current
      invariant next == Around(g, current - pending)
      decreases pending
    {
      var u :| u in pending;
      AroundAdd(g, current - pending, u);
      assert current - pending + {u} == current - (pending - {u});
      next := next + Succ(g, u) + Pred(g, u);
      pending := pending - {u};
    }
    assert current - {} == current;
  }

  /** An undirected walk from `w` to `v` through the graph. */
  ghost predicate UWalk(g: TxGraph, p: seq<Wallet>, w: Wallet, v: Wallet)
  {
    |p| > 0 && p[0] == w && p[|p| - 1] == v &&
    forall j :: 0 <= j < |p| - 1 ==> Adjacent(g, p[j], p[j + 1])
  }

  /** The `k`-th level holds exactly the ends of the undirected walks of `k` steps from `w`. */
  lemma {:induction false} LevelIsWalks(g: TxGraph, w: Wallet, k: nat, v: Wallet)
    requires Valid(g) && w in g.wallets
    ensures v in Level(g, w, k) <==> exists p :: UWalk(g, p, w, v) && |p| == k + 1
  {
    if k == 0 {
      if v in Level(g, w, k) {
        assert UWalk(g, [w], w, v);
      }
    } else {
      if v in Level(g, w, k) {
        var u :| u in Level(g, w, k - 1) && Adjacent(g, u, v);
        LevelIsWalks(g, w, k - 1, u);
        var p :| UWalk(g, p, w, u) && |p| == k;
        assert UWalk(g, p + [v], w, v);
      }
      if exists p :: UWalk(g, p, w, v) && |p| == k + 1 {
        var p :| UWalk(g, p, w, v) && |p| == k + 1;
        var u := p[k - 1];
        assert UWalk(g, p[..k], w, u);
        LevelIsWalks(g, w, k - 1, u);
        assert Adjacent(g, u, v);
      }
    }
  }

  /** The subgraph's wallets are exactly those reachable from `w` by an undirected walk of
      at most `k` steps. */
  lemma {:induction false} BallIsShortWalks(g: TxGraph, w: Wallet, k: nat, v: Wallet)
    requires Valid(g) && w in g.wallets
    ensures v in Ball(g, w, k) <==> exists p :: UWalk(g, p, w, v) && |p| <= k + 1
  {
    LevelIsWalks(g, w, k, v);
    if k == 0 {
      if exists p :: UWalk(g, p, w, v) && |p| <= k + 1 {
        var p :| UWalk(g, p, w, v) && |p| <= k + 1;
        assert |p| == 1;
      }
    } else {
      BallIsShortWalks(g, w, k - 1, v);
      if exists p :: UWalk(g, p, w, v) && |p| <= k + 1 {
        var p :| UWalk(g, p, w, v) && |p| <= k + 1;
        if |p| <= k {
          assert v in Ball(g, w, k - 1);
        }
      }
    }
  }

  /** The induced subgraph is well formed and keeps exactly the edges of `g` between its
      wallets, with their attributes. */
  lemma InducedProperties(g: TxGraph, S: set<Wallet>)
    requires Valid(g)
    ensures Valid(Induced(g, S))
    ensures Induced(g, S).wallets.Keys == S * g.wallets.Keys
    ensures forall u, v :: (u, v) in Induced(g, S).edges <==> (u, v) in g.edges && u in S && v in S
    ensures forall e :: e in Induced(g, S).edges ==> Induced(g, S).edges[e] == g.edges[e]
  {
    NodesInEnumerates(g, S * g.wallets.Keys);
    assert NodesIn(g, S * g.wallets.Keys) == NodesIn(g, S) by {
      SelectSame(g.nodes, S, S * g.wallets.Keys, g);
    }
  }

  lemma {:induction false} SelectSame(xs: seq<Wallet>, S: set<Wallet>, T: set<Wallet>, g: TxGraph)
    requires forall x :: x in xs ==> x in g.wallets
    requires T == S * g.wallets.Keys
    ensures Select(xs, T) == Select(xs, S)
  {
    if xs != [] {
      SelectSame(xs[1..], S, T, g);
    }
  }
}
