/** The fan-out/fan-in matcher, `detect_fanout_fanin_patterns`, of both detector versions:
    a source sends to several intermediaries, several of which forward to one destination. */
module FanOut {
  import opened Common
  import opened Graph
  import opened GraphQueries
  import opened Patterns

  /** The earliest timestamp of an edge (its single timestamp when the list is empty). */
  function Earliest(e: EdgeRec): int
  {
    if e.timestamps == [] then e.timestamp else MinOf(e.timestamps)
  }

  /** The latest timestamp of an edge (its single timestamp when the list is empty). */
  function Latest(e: EdgeRec): int
  {
    if e.timestamps == [] then e.timestamp else MaxOf(e.timestamps)
  }

  /** `m` relays from `s` to `d`: both edges exist and, in the current version, some
      transfer from `m` to `d` happens strictly after the first transfer from `s` to `m`. */
  predicate Relays(g: TxGraph, version: Version, s: Wallet, m: Wallet, d: Wallet)
  {
    && (s, m) in g.edges && (m, d) in g.edges
    && (version == Current ==> Latest(g.edges[(m, d)]) > Earliest(g.edges[(s, m)]))
  }

  /** The members of `D` that relay from `s` to `d`. */
  function RelaysIn(g: TxGraph, version: Version, s: Wallet, D: set<Wallet>, d: Wallet): set<Wallet>
  {
    set m | m in D && Relays(g, version, s, m, d)
  }

  /** The destination candidates gathered from the intermediaries in `D`: each destination
      reached through at least one of them, with the set of those that relay to it. */
  function CandidatesVia(g: TxGraph, version: Version, s: Wallet, D: set<Wallet>): map<Wallet, set<Wallet>>
  {
    map d | d in g.wallets && RelaysIn(g, version, s, D, d) != {} :: RelaysIn(g, version, s, D, d)
  }

  /** The intermediaries relaying from `s` to `d`. */
  function FanIn(g: TxGraph, version: Version, s: Wallet, d: Wallet): set<Wallet>
  {
    RelaysIn(g, version, s, Succ(g, s), d)
  }

  /** The amount sent to `d` by the wallets of `ms` that have an edge to it. */
  function Inflow(g: TxGraph, ms: seq<Wallet>, d: Wallet): real
  {
    if ms == [] then 0.0 else Inflow(g, ms[..|ms| - 1], d) + HopAmount(g, ms[|ms| - 1], d)
  }

  /** The pattern reported for source `s` and destination `d`. */
  function FanPattern(g: TxGraph, version: Version, illicit: set<Wallet>, median: real, s: Wallet, d: Wallet): SmurfingPattern
  {
    var ms := FanIn(g, version, s, d);
    Scored(version, SmurfingPattern({s}, ms, {d}, FanOutFanIn, 0.0, Inflow(g, NodesIn(g, ms), d)), illicit, median)
  }

  /** `s` fans out to at least `minFanout` wallets and at least `minFanin` (and at least
      one) of them relay to `d`. */
  predicate IsFanOutFanIn(g: TxGraph, version: Version, s: Wallet, d: Wallet, minFanout: int, minFanin: int)
  {
    && s in g.wallets && d in g.wallets
    && OutDegree(g, s) >= minFanout
    && FanIn(g, version, s, d) != {}
    && |FanIn(g, version, s, d)| >= minFanin
  }

  /** The patterns of source `s` for the destinations `ds`, in order. */
  function PatternsFor(g: TxGraph, version: Version, illicit: set<Wallet>, median: real, s: Wallet,
                       ds: seq<Wallet>, minFanin: int): seq<SmurfingPattern>
  {
    if ds == [] then []
    else
      var d := ds[|ds| - 1];
      PatternsFor(g, version, illicit, median, s, ds[..|ds| - 1], minFanin)
      + (if |FanIn(g, version, s, d)| >= minFanin then [FanPattern(g, version, illicit, median, s, d)] else [])
  }

  /** The patterns of the sources `ss`, in order; each source's destinations in node order. */
  function PatternsFrom(g: TxGraph, version: Version, illicit: set<Wallet>, median: real, ss: seq<Wallet>,
                        minFanout: int, minFanin: int): seq<SmurfingPattern>
  {
    if ss == [] then []
    else
      var s := ss[|ss| - 1];
      PatternsFrom(g, version, illicit, median, ss[..|ss| - 1], minFanout, minFanin)
      + (if OutDegree(g, s) >= minFanout
         then PatternsFor(g, version, illicit, median, s, NodesIn(g, CandidatesVia(g, version, s, Succ(g, s)).Keys), minFanin)
         else [])
  }

  function FanOutPatterns(g: TxGraph, version: Version, illicit: set<Wallet>, median: real,
                          minFanout: int, minFanin: int): seq<SmurfingPattern>
  {
    PatternsFrom(g, version, illicit, median, g.nodes, minFanout, minFanin)
  }

  // ---------------------------------------------------------------------------
  // The loops
  // ---------------------------------------------------------------------------

  /** Adds `m` to the candidate set of every destination in `T`. */
  function AddRelay(cands: map<Wallet, set<Wallet>>, m: Wallet, T: set<Wallet>): map<Wallet, set<Wallet>>
  {
    map d | d in cands.Keys + T :: (if d in cands then cands[d] else {}) + (if d in T then {m} else {})
  }

  lemma RelaysInAdd(g: TxGraph, version: Version, s: Wallet, D: set<Wallet>, m: Wallet, d: Wallet)
    ensures RelaysIn(g, version, s, D + {m}, d)
            == RelaysIn(g, version, s, D, d) + (if Relays(g, version, s, m, d) then {m} else {})
  {
  }

  lemma AddRelayNone(cands: map<Wallet, set<Wallet>>, m: Wallet)
    ensures AddRelay(cands, m, {}) == cands
  {
    var A := AddRelay(cands, m, {});
    assert A.Keys == cands.Keys;
    forall x | x in A.Keys
      ensures A[x] == cands[x]
    {
    }
  }

  lemma AddRelayInsert(cands: map<Wallet, set<Wallet>>, m: Wallet, T: set<Wallet>, d: Wallet)
    ensures var c := AddRelay(cands, m, T);
      c[d := (if d in c then c[d] else {}) + {m}] == AddRelay(cands, m, T + {d})
  {
    var c := AddRelay(cands, m, T);
    var A := c[d := (if d in c then c[d] else {}) + {m}];
    var B := AddRelay(cands, m, T + {d});
    assert A.Keys == B.Keys;
    forall x | x in A.Keys
      ensures A[x] == B[x]
    {
    }
  }

  lemma AddRelayStep(g: TxGraph, version: Version, s: Wallet, D: set<Wallet>, m: Wallet)
    requires Valid(g)
    ensures AddRelay(CandidatesVia(g, version, s, D), m, set d | d in g.wallets && Relays(g, version, s, m, d))
            == CandidatesVia(g, version, s, D + {m})
  {
    var T := set d | d in g.wallets && Relays(g, version, s, m, d);
    var C := CandidatesVia(g, version, s, D);
    var A := AddRelay(C, m, T);
    var B := CandidatesVia(g, version, s, D + {m});
    forall d | d in A.Keys
      ensures d in B.Keys && A[d] == B[d]
    {
      AddRelayAt(g, version, s, D, m, T, d);
    }
    forall d | d in B.Keys
      ensures d in A.Keys
    {
      AddRelayCovers(g, version, s, D, m, T, d);
    }
  }

  /** Every candidate through `D + {m}` is a key of the bumped candidates. */
  lemma AddRelayCovers(g: TxGraph, version: Version, s: Wallet, D: set<Wallet>, m: Wallet, T: set<Wallet>, d: Wallet)
    requires T == set d | d in g.wallets && Relays(g, version, s, m, d)
    requires d in CandidatesVia(g, version, s, D + {m})
    ensures d in AddRelay(CandidatesVia(g, version, s, D), m, T)
  {
    RelaysInAdd(g, version, s, D, m, d);
    if d !in T {
      assert RelaysIn(g, version, s, D, d) != {};
    }
  }

  lemma AddRelayAt(g: TxGraph, version: Version, s: Wallet, D: set<Wallet>, m: Wallet, T: set<Wallet>, d: Wallet)
    requires Valid(g)
    requires T == set d | d in g.wallets && Relays(g, version, s, m, d)
    requires d in AddRelay(CandidatesVia(g, version, s, D), m, T)
    ensures d in CandidatesVia(g, version, s, D + {m})
    ensures AddRelay(CandidatesVia(g, version, s, D), m, T)[d] == CandidatesVia(g, version, s, D + {m})[d]
  {
    var C := CandidatesVia(g, version, s, D);
    RelaysInAdd(g, version, s, D, m, d);
    if d in C {
      assert C[d] == RelaysIn(g, version, s, D, d);
      assert d in g.wallets;
    } else {
      assert d in T;
      assert m in RelaysIn(g, version, s, D + {m}, d);
      if d in g.wallets {
        assert RelaysIn(g, version, s, D, d) == {};
      }
    }
  }

  /** Adds intermediary `m` to the candidates of each successor of `m` it relays to from `s`,
      visiting the successors in node order. */
  method AddIntermediary(g: TxGraph, version: Version, s: Wallet, m: Wallet, cands: map<Wallet, set<Wallet>>)
    returns (r: map<Wallet, set<Wallet>>)
    requires Valid(g) && (s, m) in g.edges
    ensures r == AddRelay(cands, m, set d | d in g.wallets && Relays(g, version, s, m, d))
  {
    var timeIn := Earliest(g.edges[(s, m)]);
    var outs := SuccList(g, m);
    SuccListEnumerates(g, m);
    r := cands;
    ghost var T: set<Wallet> := {};
    AddRelayNone(cands, m);
    for j := 0 to |outs|
      invariant T == set x | x in outs[..j] && Relays(g, version, s, m, x)
      invariant r == AddRelay(cands, m, T)
    {
      var d := outs[j];
      assert d in Succ(g, m);
      RelayTargetsStep(g, version, s, m, outs, j);
      if version == Legacy || Latest(g.edges[(m, d)]) > timeIn {
        assert Relays(g, version, s, m, d);
        AddRelayInsert(cands, m, T, d);
        r := r[d := (if d in r then r[d] else {}) + {m}];
        T := T + {d};
      } else {
        assert !Relays(g, version, s, m, d);
      }
    }
    assert outs[..|outs|] == outs;
    RelayTargetsListed(g, version, s, m, T);
  }

  lemma RelayTargetsStep(g: TxGraph, version: Version, s: Wallet, m: Wallet, outs: seq<Wallet>, j: int)
    requires 0 <= j < |outs|
    ensures (set x | x in outs[..j + 1] && Relays(g, version, s, m, x))
            == (set x | x in outs[..j] && Relays(g, version, s, m, x))
               + (if Relays(g, version, s, m, outs[j]) then {outs[j]} else {})
  {
    assert forall x :: x in outs[..j + 1] <==> x in outs[..j] || x == outs[j];
  }

  lemma RelayTargetsListed(g: TxGraph, version: Version, s: Wallet, m: Wallet, T: set<Wallet>)
    requires Valid(g)
    requires T == set x | x in SuccList(g, m) && Relays(g, version, s, m, x)
    ensures T == set x | x in g.wallets && Relays(g, version, s, m, x)
  {
    SuccListEnumerates(g, m);
  }

  /** The destination candidates of source `s`: the intermediaries are visited in node
      order, and each intermediary's successors in node order. */
  method DestinationCandidates(g: TxGraph, version: Version, s: Wallet) returns (cands: map<Wallet, set<Wallet>>)
    requires Valid(g) && s in g.wallets
    ensures cands == CandidatesVia(g, version, s, Succ(g, s))
  {
    var intermediates := SuccList(g, s);
    SuccListEnumerates(g, s);
    cands := map[];
    assert CandidatesVia(g, version, s, {}) == map[];
    for k := 0 to |intermediates|
      invariant cands == CandidatesVia(g, version, s, Elems(intermediates[..k]))
    {
      var m := intermediates[k];
      assert m in Succ(g, s);
      cands := AddIntermediary(g, version, s, m, cands);
      AddRelayStep(g, version, s, Elems(intermediates[..k]), m);
      assert Elems(intermediates[..k + 1]) == Elems(intermediates[..k]) + {m};
    }
    assert intermediates[..|intermediates|] == intermediates;
    ghost var E := Elems(intermediates[..|intermediates|]);
    assert E == Succ(g, s);
    assert cands == CandidatesVia(g, version, s, E);
  }

  /** The amount flowing into `d` from the members of `sources`, visited in node order, and
      those members with an edge to `d`. */
  method InflowOf(g: TxGraph, sources: set<Wallet>, d: Wallet) returns (total: real, valid: set<Wallet>)
    ensures total == Inflow(g, NodesIn(g, sources), d)
    ensures valid == set m | m in sources && m in g.nodes && (m, d) in g.edges
  {
    var ms := NodesIn(g, sources);
    total, valid := 0.0, {};
    for k := 0 to |ms|
      invariant total == Inflow(g, ms[..k], d)
      invariant valid == set m | m in ms[..k] && (m, d) in g.edges
    {
      assert ms[..k + 1][..k] == ms[..k];
      if (ms[k], d) in g.edges {
        total := total + g.edges[(ms[k], d)].amount;
        valid := valid + {ms[k]};
      }
    }
    assert ms[..|ms|] == ms;
  }

  /** The patterns of one source that fans out: its destinations in node order. */
  method PatternsOfSource(g: TxGraph, version: Version, illicit: set<Wallet>, median: real,
                          s: Wallet, minFanin: int) returns (patterns: seq<SmurfingPattern>)
    requires Valid(g) && s in g.wallets
    ensures patterns == PatternsFor(g, version, illicit, median, s,
                                    NodesIn(g, CandidatesVia(g, version, s, Succ(g, s)).Keys), minFanin)
  {
    var cands := DestinationCandidates(g, version, s);
    var ds := NodesIn(g, cands.Keys);
    patterns := [];
    for j := 0 to |ds|
      invariant patterns == PatternsFor(g, version, illicit, median, s, ds[..j], minFanin)
    {
      var d := ds[j];
      PatternsForStep(g, version, illicit, median, s, ds, j, minFanin);
      assert d in cands;
      CandidateIsFanIn(g, version, s, d);
      var sources := cands[d];
      if |sources| >= minFanin {
        var total, valid := InflowOf(g, sources, d);
        assert valid == sources;
        if version == Legacy || |valid| >= minFanin {
          var p := ScorePattern(version, SmurfingPattern({s}, valid, {d}, FanOutFanIn, 0.0, total), illicit, median);
          patterns := patterns + [p];
        }
      }
    }
    assert ds[..|ds|] == ds;
  }

  lemma PatternsForStep(g: TxGraph, version: Version, illicit: set<Wallet>, median: real, s: Wallet,
                        ds: seq<Wallet>, j: int, minFanin: int)
    requires 0 <= j < |ds|
    ensures PatternsFor(g, version, illicit, median, s, ds[..j + 1], minFanin)
            == PatternsFor(g, version, illicit, median, s, ds[..j], minFanin)
               + (if |FanIn(g, version, s, ds[j])| >= minFanin then [FanPattern(g, version, illicit, median, s, ds[j])] else [])
  {
    assert ds[..j + 1][..j] == ds[..j];
  }

  /** A candidate's entry is its fan-in, whose members all have an edge to it. */
  lemma CandidateIsFanIn(g: TxGraph, version: Version, s: Wallet, d: Wallet)
    requires Valid(g)
    requires d in CandidatesVia(g, version, s, Succ(g, s))
    ensures CandidatesVia(g, version, s, Succ(g, s))[d] == FanIn(g, version, s, d)
    ensures (set m | m in FanIn(g, version, s, d) && m in g.nodes && (m, d) in g.edges) == FanIn(g, version, s, d)
  {
    forall m | m in FanIn(g, version, s, d)
      ensures m in g.nodes && (m, d) in g.edges
    {
      assert (m, d) in g.edges;
    }
  }

  /** `detect_fanout_fanin_patterns` without the update of the detector's list. */
  method FindFanOutFanIn(g: TxGraph, version: Version, illicit: set<Wallet>, median: real,
                         minFanout: int, minFanin: int) returns (patterns: seq<SmurfingPattern>)
    requires Valid(g)
    ensures patterns == FanOutPatterns(g, version, illicit, median, minFanout, minFanin)
  {
    patterns := [];
    for i := 0 to |g.nodes|
      invariant patterns == PatternsFrom(g, version, illicit, median, g.nodes[..i], minFanout, minFanin)
    {
      var s := g.nodes[i];
      assert g.nodes[..i + 1][..i] == g.nodes[..i];
      var successors := SuccList(g, s);
      SuccListEnumerates(g, s);
      if |successors| >= minFanout {
        var ps := PatternsOfSource(g, version, illicit, median, s, minFanin);
        patterns := patterns + ps;
      }
    }
    assert g.nodes[..|g.nodes|] == g.nodes;
  }

  // ---------------------------------------------------------------------------
  // What the patterns are
  // ---------------------------------------------------------------------------

  lemma {:induction false} PatternsForMembers(g: TxGraph, version: Version, illicit: set<Wallet>, median: real,
                                              s: Wallet, ds: seq<Wallet>, minFanin: int, p: SmurfingPattern)
    ensures p in PatternsFor(g, version, illicit, median, s, ds, minFanin) <==>
      exists d :: d in ds && |FanIn(g, version, s, d)| >= minFanin && p == FanPattern(g, version, illicit, median, s, d)
  {
    if ds != [] {
      var pre := ds[..|ds| - 1];
      PatternsForMembers(g, version, illicit, median, s, pre, minFanin, p);
      assert forall d :: d in ds <==> d in pre || d == ds[|ds| - 1];
    }
  }

  /** The destinations scanned for a source are the wallets some of its successors relay to. */
  lemma CandidatesListed(g: TxGraph, version: Version, s: Wallet, d: Wallet)
    requires Valid(g)
    ensures d in NodesIn(g, CandidatesVia(g, version, s, Succ(g, s)).Keys)
            <==> d in g.wallets && FanIn(g, version, s, d) != {}
  {
    var C := CandidatesVia(g, version, s, Succ(g, s));
    assert d in C.Keys <==> d in g.wallets && FanIn(g, version, s, d) != {};
  }

  /** Every reported pattern is that of a fan-out/fan-in shape. */
  lemma {:induction false} PatternsFromSound(g: TxGraph, version: Version, illicit: set<Wallet>, median: real,
                                             ss: seq<Wallet>, minFanout: int, minFanin: int, p: SmurfingPattern)
    requires Valid(g)
    requires forall s :: s in ss ==> s in g.wallets
    requires p in PatternsFrom(g, version, illicit, median, ss, minFanout, minFanin)
    ensures exists s, d :: s in ss && IsFanOutFanIn(g, version, s, d, minFanout, minFanin)
                           && p == FanPattern(g, version, illicit, median, s, d)
  {
    var pre := ss[..|ss| - 1];
    var s := ss[|ss| - 1];
    var ds := NodesIn(g, CandidatesVia(g, version, s, Succ(g, s)).Keys);
    var rest := PatternsFrom(g, version, illicit, median, pre, minFanout, minFanin);
    if p in rest {
      PatternsFromSound(g, version, illicit, median, pre, minFanout, minFanin, p);
      var s0, d0 :| s0 in pre && IsFanOutFanIn(g, version, s0, d0, minFanout, minFanin)
                    && p == FanPattern(g, version, illicit, median, s0, d0);
      assert s0 in ss;
    } else {
      assert OutDegree(g, s) >= minFanout && p in PatternsFor(g, version, illicit, median, s, ds, minFanin);
      PatternsForMembers(g, version, illicit, median, s, ds, minFanin, p);
      var d :| d in ds && |FanIn(g, version, s, d)| >= minFanin && p == FanPattern(g, version, illicit, median, s, d);
      CandidatesListed(g, version, s, d);
      assert IsFanOutFanIn(g, version, s, d, minFanout, minFanin);
    }
  }

  /** Every fan-out/fan-in shape with its source in `ss` is reported. */
  lemma {:induction false} PatternsFromComplete(g: TxGraph, version: Version, illicit: set<Wallet>, median: real,
                                                ss: seq<Wallet>, minFanout: int, minFanin: int, s0: Wallet, d0: Wallet)
    requires Valid(g)
    requires s0 in ss && IsFanOutFanIn(g, version, s0, d0, minFanout, minFanin)
    ensures FanPattern(g, version, illicit, median, s0, d0) in PatternsFrom(g, version, illicit, median, ss, minFanout, minFanin)
  {
    var pre := ss[..|ss| - 1];
    var s := ss[|ss| - 1];
    var p := FanPattern(g, version, illicit, median, s0, d0);
    if s0 != s {
      assert s0 in pre;
      PatternsFromComplete(g, version, illicit, median, pre, minFanout, minFanin, s0, d0);
    } else {
      var ds := NodesIn(g, CandidatesVia(g, version, s, Succ(g, s)).Keys);
      CandidatesListed(g, version, s, d0);
      PatternsForMembers(g, version, illicit, median, s, ds, minFanin, p);
      assert p in PatternsFor(g, version, illicit, median, s, ds, minFanin);
    }
  }

  /** Soundness and completeness: a pattern is reported exactly for every source and
      destination forming a fan-out/fan-in shape. */
  lemma FanOutPatternsExactly(g: TxGraph, version: Version, illicit: set<Wallet>, median: real,
                              minFanout: int, minFanin: int, p: SmurfingPattern)
    requires Valid(g)
    ensures p in FanOutPatterns(g, version, illicit, median, minFanout, minFanin) <==>
      exists s, d :: IsFanOutFanIn(g, version, s, d, minFanout, minFanin)
                     && p == FanPattern(g, version, illicit, median, s, d)
  {
    if p in FanOutPatterns(g, version, illicit, median, minFanout, minFanin) {
      PatternsFromSound(g, version, illicit, median, g.nodes, minFanout, minFanin, p);
    }
    if exists s, d :: IsFanOutFanIn(g, version, s, d, minFanout, minFanin)
                      && p == FanPattern(g, version, illicit, median, s, d) {
      var s, d :| IsFanOutFanIn(g, version, s, d, minFanout, minFanin)
                  && p == FanPattern(g, version, illicit, median, s, d);
      PatternsFromComplete(g, version, illicit, median, g.nodes, minFanout, minFanin, s, d);
    }
  }

  lemma {:induction false} InflowSums(g: TxGraph, ms: seq<Wallet>, d: Wallet)
    requires forall m :: m in ms ==> (m, d) in g.edges
    ensures Inflow(g, ms, d) == PathAmountsInto(g, ms, d)
  {
    if ms != [] {
      InflowSums(g, ms[..|ms| - 1], d);
    }
  }

  /** The sum of the edge amounts from each of `ms` into `d`. */
  function PathAmountsInto(g: TxGraph, ms: seq<Wallet>, d: Wallet): real
    requires forall m :: m in ms ==> (m, d) in g.edges
  {
    if ms == [] then 0.0 else PathAmountsInto(g, ms[..|ms| - 1], d) + g.edges[(ms[|ms| - 1], d)].amount
  }

  /** The shape of a reported pattern: one source, one destination, intermediaries that
      each relay between them (in the current version, leaving after they received), and
      the amount is the sum of the intermediary-to-destination amounts. */
  lemma FanPatternShape(g: TxGraph, version: Version, illicit: set<Wallet>, median: real, s: Wallet, d: Wallet)
    requires Valid(g)
    ensures var p := FanPattern(g, version, illicit, median, s, d);
      && p.sources == {s} && p.destinations == {d} && p.patternType == FanOutFanIn
      && (forall m :: m in p.intermediates <==>
            m in g.wallets && (s, m) in g.edges && (m, d) in g.edges
            && (version == Current ==> Latest(g.edges[(m, d)]) > Earliest(g.edges[(s, m)])))
      && p.totalAmount == PathAmountsInto(g, NodesIn(g, p.intermediates), d)
  {
    var ms := FanIn(g, version, s, d);
    InflowSums(g, NodesIn(g, ms), d);
  }

  /** The temporal filter only removes relays: every current-version fan-in is contained in
      the legacy one. */
  lemma TemporalFilterNarrows(g: TxGraph, s: Wallet, d: Wallet)
    ensures FanIn(g, Current, s, d) <= FanIn(g, Legacy, s, d)
  {
  }

  /** In the current version, the earliest and latest timestamps are attained by actual
      transfers, so a relay's outgoing edge really has a transfer after its first incoming one. */
  lemma RelayHasLaterTransfer(g: TxGraph, s: Wallet, m: Wallet, d: Wallet)
    requires Valid(g) && Relays(g, Current, s, m, d)
    ensures exists i, j ::
      && 0 <= i < |g.edges[(s, m)].timestamps| && 0 <= j < |g.edges[(m, d)].timestamps|
      && g.edges[(m, d)].timestamps[j] > g.edges[(s, m)].timestamps[i]
  {
    var tin, tout := g.edges[(s, m)].timestamps, g.edges[(m, d)].timestamps;
    var i :| 0 <= i < |tin| && tin[i] == MinOf(tin);
    var j :| 0 <= j < |tout| && tout[j] == MaxOf(tout);
  }
}
