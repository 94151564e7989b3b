/** Directed reachability and shortest paths: the breadth-first search behind
    `nx.shortest_path`, and `find_shortest_path_to_illicit` built on it. */
module Paths {
  import opened Common
  import opened Graph

  /** A directed walk from `w` to `t` along edges of `g`, listed node by node. */
  ghost predicate Walk(g: TxGraph, p: seq<Wallet>, w: Wallet, t: Wallet)
  {
    |p| > 0 && p[0] == w && p[|p| - 1] == t &&
    forall j :: 0 <= j < |p| - 1 ==> (p[j], p[j + 1]) in g.edges
  }

  /** The wallets one edge away from some member of `S`. */
  function Out(g: TxGraph, S: set<Wallet>): set<Wallet>
  {
    set v | v in g.wallets && exists u :: u in S && (u, v) in g.edges
  }

  /** The wallets reachable from `w` in at most `k` hops. */
  function Reach(g: TxGraph, w: Wallet, k: nat): set<Wallet>
  {
    if k == 0 then {w} else Reach(g, w, k - 1) + Out(g, Reach(g, w, k - 1))
  }

  lemma {:induction false} ReachInWallets(g: TxGraph, w: Wallet, k: nat)
    requires w in g.wallets
    ensures Reach(g, w, k) <= g.wallets.Keys
  {
    if k > 0 {
      ReachInWallets(g, w, k - 1);
    }
  }

  lemma {:induction false} ReachMonotone(g: TxGraph, w: Wallet, i: nat, j: nat)
    requires i <= j
    ensures Reach(g, w, i) <= Reach(g, w, j)
  {
    if i < j {
      ReachMonotone(g, w, i, j - 1);
    }
  }

  /** `t` is within `k` hops of `w` exactly when a walk of at most `k + 1` nodes joins them. */
  lemma ReachIsWalks(g: TxGraph, w: Wallet, k: nat, t: Wallet)
    requires Valid(g) && w in g.wallets
    ensures t in Reach(g, w, k) <==> exists p :: Walk(g, p, w, t) && |p| <= k + 1
  {
    if t in Reach(g, w, k) {
      var p := ReachedByWalk(g, w, k, t);
    }
    if exists p :: Walk(g, p, w, t) && |p| <= k + 1 {
      var p :| Walk(g, p, w, t) && |p| <= k + 1;
      WalkReaches(g, p, w, k, t);
    }
  }

  lemma {:induction false} ReachedByWalk(g: TxGraph, w: Wallet, k: nat, t: Wallet) returns (p: seq<Wallet>)
    requires t in Reach(g, w, k)
    ensures Walk(g, p, w, t) && |p| <= k + 1
  {
    if k == 0 {
      p := [w];
    } else if t in Reach(g, w, k - 1) {
      p := ReachedByWalk(g, w, k - 1, t);
    } else {
      var u :| u in Reach(g, w, k - 1) && (u, t) in g.edges;
      var q := ReachedByWalk(g, w, k - 1, u);
      WalkSnoc(g, q, w, u, t);
      p := q + [t];
    }
  }

  lemma {:induction false} WalkReaches(g: TxGraph, p: seq<Wallet>, w: Wallet, k: nat, t: Wallet)
    requires Valid(g)
    requires Walk(g, p, w, t) && |p| <= k + 1
    ensures t in Reach(g, w, k)
  {
    if |p| == 1 {
      ReachMonotone(g, w, 0, k);
    } else {
      var n := |p| - 1;
      var u := p[n - 1];
      assert Walk(g, p[..n], w, u);
      WalkReaches(g, p[..n], w, n - 1, u);
      assert (u, t) in g.edges;
      assert t in Reach(g, w, n);
      ReachMonotone(g, w, n, k);
    }
  }

  /** Once a round adds nothing, no later round does. */
  lemma {:induction false} ReachStable(g: TxGraph, w: Wallet, k: nat, j: nat)
    requires |Reach(g, w, k + 1)| == |Reach(g, w, k)|
    requires k <= j
    ensures Reach(g, w, j) == Reach(g, w, k)
  {
    ReachMonotone(g, w, k, k + 1);
    SameSize(Reach(g, w, k), Reach(g, w, k + 1));
    if j > k {
      ReachStable(g, w, k, j - 1);
    }
  }

  lemma SameSize(A: set<Wallet>, B: set<Wallet>)
    requires A <= B && |A| == |B|
    ensures A == B
  {
    if A != B {
      var v :| v in B && v !in A;
      SubsetCard(A, B - {v});
    }
  }

  /** No round reaches `t`. */
  ghost predicate Unreached(g: TxGraph, w: Wallet, t: Wallet)
  {
    forall j: nat :: t !in Reach(g, w, j)
  }

  /** A wallet outside a round that adds nothing is never reached. */
  lemma NeverReached(g: TxGraph, w: Wallet, t: Wallet, k: nat)
    requires |Reach(g, w, k + 1)| == |Reach(g, w, k)| && t !in Reach(g, w, k)
    ensures Unreached(g, w, t)
  {
    forall j: nat
      ensures t !in Reach(g, w, j)
    {
      if j >= k {
        ReachStable(g, w, k, j);
      } else {
        ReachMonotone(g, w, j, k);
      }
    }
  }

  /** The number of hops from `w` to `t`, searching from round `k` on; `None` when a round
      adds no wallet before `t` is met. */
  function DistFrom(g: TxGraph, w: Wallet, t: Wallet, k: nat): Option<nat>
    requires w in g.wallets
    decreases |g.wallets.Keys| - |Reach(g, w, k)|
  {
    if t in Reach(g, w, k) then Some(k)
    else if |Reach(g, w, k + 1)| == |Reach(g, w, k)| then None
    else
      RoundGrows(g, w, k);
      DistFrom(g, w, t, k + 1)
  }

  /** `r` names a round reaching `t`, or is `None` and no round does. */
  ghost predicate Located(g: TxGraph, w: Wallet, t: Wallet, r: Option<nat>)
  {
    (r.Some? ==> t in Reach(g, w, r.value)) && (r.None? ==> Unreached(g, w, t))
  }

  /** The search answers with a round that reaches `t`, and gives up only when no round
      does. */
  lemma {:induction false} DistFromReaches(g: TxGraph, w: Wallet, t: Wallet, k: nat)
    requires w in g.wallets
    ensures Located(g, w, t, DistFrom(g, w, t, k))
    decreases |g.wallets.Keys| - |Reach(g, w, k)|
  {
    if t in Reach(g, w, k) {
      assert DistFrom(g, w, t, k) == Some(k);
    } else if |Reach(g, w, k + 1)| == |Reach(g, w, k)| {
      NeverReached(g, w, t, k);
    } else {
      RoundGrows(g, w, k);
      DistFromReaches(g, w, t, k + 1);
      assert DistFrom(g, w, t, k) == DistFrom(g, w, t, k + 1);
    }
  }

  /** No round before the answer reaches `t`, provided the search started where `t` had
      not been met. */
  lemma {:induction false} DistFromNotBefore(g: TxGraph, w: Wallet, t: Wallet, k: nat, j: nat)
    requires w in g.wallets
    requires j < k ==> t !in Reach(g, w, j)
    requires DistFrom(g, w, t, k).Some? && j < DistFrom(g, w, t, k).value
    ensures t !in Reach(g, w, j)
    decreases |g.wallets.Keys| - |Reach(g, w, k)|
  {
    if t !in Reach(g, w, k) && k < j {
      RoundGrows(g, w, k);
      assert DistFrom(g, w, t, k) == DistFrom(g, w, t, k + 1);
      DistFromNotBefore(g, w, t, k + 1, j);
    }
  }


  /** A round that adds a wallet brings the search closer to covering all wallets. */
  lemma RoundGrows(g: TxGraph, w: Wallet, k: nat)
    requires w in g.wallets
    requires |Reach(g, w, k + 1)| != |Reach(g, w, k)|
    ensures |Reach(g, w, k)| < |Reach(g, w, k + 1)| <= |g.wallets.Keys|
  {
    ReachInWallets(g, w, k + 1);
    ReachMonotone(g, w, k, k + 1);
    SubsetCard(Reach(g, w, k), Reach(g, w, k + 1));
    SubsetCard(Reach(g, w, k + 1), g.wallets.Keys);
  }

  /** The least number of hops from `w` to `t`, if `t` is reachable. */
  function Dist(g: TxGraph, w: Wallet, t: Wallet): Option<nat>
    requires w in g.wallets
  {
    DistFrom(g, w, t, 0)
  }

  /** `Dist` is the least number of hops: `t` is reached in `Dist` rounds and not before,
      and `None` means no round ever reaches it. */
  lemma DistIsLeast(g: TxGraph, w: Wallet, t: Wallet)
    requires w in g.wallets
    ensures Dist(g, w, t).Some? ==>
      var d := Dist(g, w, t).value; t in Reach(g, w, d) && forall j: nat :: j < d ==> t !in Reach(g, w, j)
    ensures Dist(g, w, t).None? ==> forall j: nat :: t !in Reach(g, w, j)
  {
    DistFromReaches(g, w, t, 0);
    if Dist(g, w, t).Some? {
      var d := Dist(g, w, t).value;
      forall j: nat | j < d
        ensures t !in Reach(g, w, j)
      {
        DistFromNotBefore(g, w, t, 0, j);
      }
    }
  }


  lemma PredecessorInReach(g: TxGraph, w: Wallet, k: nat, t: Wallet)
    requires Valid(g) && w in g.wallets && k > 0
    requires t in Reach(g, w, k) && t !in Reach(g, w, k - 1)
    ensures PredecessorsIn(g, Reach(g, w, k - 1), t) != []
  {
    var u :| u in Reach(g, w, k - 1) && (u, t) in g.edges;
    assert u in g.nodes;
    assert u in NodesIn(g, Reach(g, w, k - 1) * Pred(g, t));
  }

  /** The wallets of `S`, in node order, with an edge into `t`. */
  function PredecessorsIn(g: TxGraph, S: set<Wallet>, t: Wallet): (r: seq<Wallet>)
    ensures forall u :: u in r ==> u in S && (u, t) in g.edges
  {
    NodesIn(g, S * Pred(g, t))
  }

  lemma WalkSnoc(g: TxGraph, p: seq<Wallet>, w: Wallet, u: Wallet, t: Wallet)
    requires Walk(g, p, w, u) && (u, t) in g.edges
    ensures Walk(g, p + [t], w, t)
  {
  }

  /** The breadth-first rounds `0..k`: round `i` holds the wallets within `i` hops. */
  function Rounds(g: TxGraph, w: Wallet, k: nat): (r: seq<set<Wallet>>)
    ensures |r| == k + 1
    ensures forall i :: 0 <= i <= k ==> r[i] == Reach(g, w, i)
  {
    if k == 0 then [{w}] else Rounds(g, w, k - 1) + [Reach(g, w, k)]
  }

  /** Rounds that start at `w` and where each newly met wallet has a predecessor in the
      round before. */
  ghost predicate Layered(g: TxGraph, w: Wallet, R: seq<set<Wallet>>)
  {
    && |R| > 0 && R[0] == {w}
    && forall i :: 0 < i < |R| ==> GrowsBy(g, R, i)
  }

  /** Every wallet new in round `i` has a predecessor in round `i - 1`. */
  ghost predicate GrowsBy(g: TxGraph, R: seq<set<Wallet>>, i: int)
    requires 0 < i < |R|
  {
    forall v :: v in R[i] && v !in R[i - 1] ==> PredecessorsIn(g, R[i - 1], v) != []
  }

  lemma RoundsLayered(g: TxGraph, w: Wallet, k: nat)
    requires Valid(g) && w in g.wallets
    ensures Layered(g, w, Rounds(g, w, k))
  {
    var R := Rounds(g, w, k);
    forall i | 0 < i < |R|
      ensures GrowsBy(g, R, i)
    {
      forall v | v in R[i] && v !in R[i - 1]
        ensures PredecessorsIn(g, R[i - 1], v) != []
      {
        PredecessorInReach(g, w, i, v);
      }
    }
  }

  /** The path from `w` to `t` rebuilt backwards through the rounds `R[0..k]`: a wallet
      first met in round `k` is preceded by the first wallet, in node order, of the
      previous round with an edge into it. */
  function PathBack(g: TxGraph, w: Wallet, R: seq<set<Wallet>>, t: Wallet, k: nat): seq<Wallet>
    requires k < |R|
    decreases k
  {
    if k == 0 then [w]
    else if t in R[k - 1] then PathBack(g, w, R, t, k - 1)
    else
      var us := PredecessorsIn(g, R[k - 1], t);
      if us == [] then [w] else PathBack(g, w, R, us[0], k - 1) + [t]
  }

  /** The rebuilt path is a walk from `w` to `t` of at most `k + 1` nodes. */
  lemma {:induction false} PathBackIsWalk(g: TxGraph, w: Wallet, R: seq<set<Wallet>>, t: Wallet, k: nat)
    requires Layered(g, w, R) && k < |R| && t in R[k]
    ensures Walk(g, PathBack(g, w, R, t, k), w, t) && |PathBack(g, w, R, t, k)| <= k + 1
    decreases k
  {
    if k > 0 {
      if t in R[k - 1] {
        PathBackIsWalk(g, w, R, t, k - 1);
      } else {
        var us := PredecessorsIn(g, R[k - 1], t);
        assert GrowsBy(g, R, k);
        var u := us[0];
        assert u in R[k - 1] && (u, t) in g.edges;
        PathBackIsWalk(g, w, R, u, k - 1);
        WalkSnoc(g, PathBack(g, w, R, u, k - 1), w, u, t);
      }
    }
  }

  /** The path `nx.shortest_path` returns from `w` to a reachable `t`. */
  function ShortestPath(g: TxGraph, w: Wallet, t: Wallet): seq<Wallet>
    requires Valid(g) && w in g.wallets && Dist(g, w, t).Some?
  {
    var d := Dist(g, w, t).value;
    PathBack(g, w, Rounds(g, w, d), t, d)
  }

  /** `t` is reachable from `w` exactly when a walk joins them; the shortest path is such a
      walk, and no walk has fewer nodes than it. */
  lemma ShortestPathIsShortest(g: TxGraph, w: Wallet, t: Wallet)
    requires Valid(g) && w in g.wallets
    ensures Dist(g, w, t).Some? <==> exists p :: Walk(g, p, w, t)
    ensures Dist(g, w, t).Some? ==>
      && Walk(g, ShortestPath(g, w, t), w, t)
      && |ShortestPath(g, w, t)| == Dist(g, w, t).value + 1
      && forall p :: Walk(g, p, w, t) ==> |ShortestPath(g, w, t)| <= |p|
  {
    DistIsLeast(g, w, t);
    if Dist(g, w, t).Some? {
      var d := Dist(g, w, t).value;
      var r := ShortestPath(g, w, t);
      RoundsLayered(g, w, d);
      PathBackIsWalk(g, w, Rounds(g, w, d), t, d);
      forall p | Walk(g, p, w, t)
        ensures d + 1 <= |p|
      {
        ReachIsWalks(g, w, |p| - 1, t);
      }
      assert d + 1 <= |r|;
    } else if exists p :: Walk(g, p, w, t) {
      var p :| Walk(g, p, w, t);
      ReachIsWalks(g, w, |p| - 1, t);
      assert false;
    }
  }

  // ---------------------------------------------------------------------------
  // find_shortest_path_to_illicit
  // ---------------------------------------------------------------------------

  /** A path length in nodes, or infinity. */
  datatype Distance = Finite(n: nat) | Infinite

  /** The nearest of `targets`, scanned in order: a target replaces the best so far only
      when its shortest path has strictly fewer nodes. */
  function Nearest(g: TxGraph, w: Wallet, targets: seq<Wallet>): (seq<Wallet>, Distance)
    requires Valid(g) && w in g.wallets
  {
    if targets == [] then ([], Infinite)
    else
      var best := Nearest(g, w, targets[..|targets| - 1]);
      var t := targets[|targets| - 1];
      if Dist(g, w, t).Some? && (best.1.Infinite? || Dist(g, w, t).value + 1 < best.1.n)
      then (ShortestPath(g, w, t), Finite(Dist(g, w, t).value + 1))
      else best
  }

  /** `find_shortest_path_to_illicit`: the illicit wallets of the graph are tried in node
      order. The source wallet must be a wallet of the graph (otherwise the path search
      raises). */
  method FindShortestPathToIllicit(g: TxGraph, illicit: set<Wallet>, w: Wallet)
    returns (path: seq<Wallet>, distance: Distance)
    requires Valid(g) && w in g.wallets
    ensures (path, distance) == Nearest(g, w, NodesIn(g, illicit))
  {
    var targets := NodesIn(g, illicit);
    path, distance := [], Infinite;
    for i := 0 to |targets|
      invariant (path, distance) == Nearest(g, w, targets[..i])
    {
      NearestStep(g, w, targets, i);
      var d := Dist(g, w, targets[i]);
      if d.Some? && (distance.Infinite? || d.value + 1 < distance.n) {
        path := ShortestPath(g, w, targets[i]);
        distance := Finite(d.value + 1);
      }
    }
    assert targets[..|targets|] == targets;
  }

  lemma NearestStep(g: TxGraph, w: Wallet, targets: seq<Wallet>, i: int)
    requires Valid(g) && w in g.wallets && 0 <= i < |targets|
    ensures var best, d := Nearest(g, w, targets[..i]), Dist(g, w, targets[i]);
      Nearest(g, w, targets[..i + 1])
      == if d.Some? && (best.1.Infinite? || d.value + 1 < best.1.n)
         then (ShortestPath(g, w, targets[i]), Finite(d.value + 1))
         else best
  {
    assert targets[..i + 1][..i] == targets[..i];
  }

  /** The scan's result: infinite exactly when no target is reachable (and then the path is
      empty); otherwise the path is a walk to one of the targets whose node count is the
      distance, and no target is reached by a shorter walk. */
  lemma {:induction false} NearestIsNearest(g: TxGraph, w: Wallet, targets: seq<Wallet>)
    requires Valid(g) && w in g.wallets
    ensures var (path, distance) := Nearest(g, w, targets);
      && (distance.Infinite? <==> forall t, p :: t in targets ==> !Walk(g, p, w, t))
      && (distance.Infinite? ==> path == [])
      && (distance.Finite? ==>
            && distance.n == |path| && path != [] && path[|path| - 1] in targets
            && Walk(g, path, w, path[|path| - 1])
            && forall t, p :: t in targets && Walk(g, p, w, t) ==> distance.n <= |p|)
  {
    if targets != [] {
      var pre := targets[..|targets| - 1];
      var t := targets[|targets| - 1];
      NearestIsNearest(g, w, pre);
      ShortestPathIsShortest(g, w, t);
      assert forall x :: x in targets <==> x in pre || x == t;
    }
  }

  /** Adding illicit wallets can only shorten the distance to the nearest one. */
  lemma NearestMonotone(g: TxGraph, w: Wallet, illicit: set<Wallet>, more: set<Wallet>)
    requires Valid(g) && w in g.wallets
    requires illicit <= more
    ensures var d1, d2 := Nearest(g, w, NodesIn(g, illicit)).1, Nearest(g, w, NodesIn(g, more)).1;
      d1.Finite? ==> d2.Finite? && d2.n <= d1.n
  {
    var r1 := Nearest(g, w, NodesIn(g, illicit));
    var r2 := Nearest(g, w, NodesIn(g, more));
    NearestIsNearest(g, w, NodesIn(g, illicit));
    NearestIsNearest(g, w, NodesIn(g, more));
    if r1.1.Finite? {
      var t := r1.0[|r1.0| - 1];
      assert t in NodesIn(g, more);
      assert Walk(g, r1.0, w, t);
    }
  }
}
