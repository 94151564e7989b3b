/** The cyclic matcher, `detect_cyclic_patterns`, of both detector versions: money that
    leaves a wallet and comes back to it. The cycles are those `nx.simple_cycles` yields,
    taken here as an input sequence in the order the library produces them. */
module Cycles {
  import opened Common
  import opened Graph
  import opened GraphQueries
  import opened Patterns

  /** At most this many cycles are kept. */
  const MaxKept := 100
  /** At most this many cycles are examined. */
  const MaxExamined := 5000

  /** Hop `i` of cycle `c`: from its `i`-th wallet to the next one, the last wallet back to
      the first (the source's index `(i + 1) % len(cycle)`). */
  function HopOf(c: seq<Wallet>, i: int): (Wallet, Wallet)
    requires 0 <= i < |c|
  {
    (c[i], if i + 1 < |c| then c[i + 1] else c[0])
  }

  /** What `nx.simple_cycles` promises of each cycle it yields for `g`: no wallet listed
      twice, and every hop, the closing one included, an edge of the graph. */
  predicate SimpleCycle(g: TxGraph, c: seq<Wallet>)
  {
    c != [] && Distinct(c) && forall i :: 0 <= i < |c| ==> HopOf(c, i) in g.edges
  }

  /** Every cycle of `cands` is a simple cycle of `g`. */
  predicate LibraryCycles(g: TxGraph, cands: seq<seq<Wallet>>)
  {
    forall c :: c in cands ==> SimpleCycle(g, c)
  }

  // ---------------------------------------------------------------------------
  // Temporal validation (current version only)
  // ---------------------------------------------------------------------------

  /** The earliest of `ts` strictly after `floor`, if any: the first such entry of the
      sorted list. */
  function NextAfter(ts: seq<int>, floor: int): (r: Option<int>)
    ensures r.None? <==> forall x :: x in ts ==> x <= floor
    ensures r.Some? ==> r.value in ts && r.value > floor && forall x :: x in ts && x > floor ==> r.value <= x
  {
    if ts == [] then None
    else
      var rest := NextAfter(ts[1..], floor);
      assert ts[0] in ts && forall y :: y in ts <==> y == ts[0] || y in ts[1..];
      if ts[0] <= floor then rest
      else if rest.None? || ts[0] < rest.value then Some(ts[0])
      else rest
  }

  /** The greedy walk over the hops from `i` on, `floor` being the time reached so far
      (`None` before the first hop). The first hop starts at its earliest transfer; each
      later hop takes its earliest transfer strictly after the floor. A missing edge or a
      hop with no later transfer rejects the cycle. Every timestamp is a parsed date, which
      is always true in a truth test, so only the absence of a later transfer fails. */
  function Chrono(g: TxGraph, c: seq<Wallet>, i: nat, floor: Option<int>): bool
    requires Valid(g) && i <= |c|
    decreases |c| - i
  {
    if i == |c| then true
    else if HopOf(c, i) !in g.edges then false
    else
      var ts := g.edges[HopOf(c, i)].timestamps;
      if floor.None? then Chrono(g, c, i + 1, Some(MinOf(ts)))
      else
        var next := NextAfter(ts, floor.value);
        next.Some? && Chrono(g, c, i + 1, next)
  }

  predicate TemporallyValid(g: TxGraph, c: seq<Wallet>)
    requires Valid(g)
  {
    Chrono(g, c, 0, None)
  }

  /** Times, one per hop, each a transfer of that hop's edge, strictly increasing around
      the cycle: money that moves forward in time from the first wallet back to it. */
  ghost predicate Schedule(g: TxGraph, c: seq<Wallet>, times: seq<int>)
  {
    && |times| == |c|
    && (forall i :: 0 <= i < |c| ==> HopOf(c, i) in g.edges && times[i] in g.edges[HopOf(c, i)].timestamps)
    && (forall i :: 0 < i < |c| ==> times[i - 1] < times[i])
  }

  /** The earliest of `ts` strictly after `floor`: the scan of the sorted list for its
      first entry past the floor, computed as the least such entry. */
  method LeastLater(ts: seq<int>, floor: int) returns (r: Option<int>)
    ensures r == NextAfter(ts, floor)
  {
    r := None;
    for k := 0 to |ts|
      invariant r.None? <==> forall j :: 0 <= j < k ==> ts[j] <= floor
      invariant r.Some? ==> r.value in ts && r.value > floor && forall j :: 0 <= j < k && ts[j] > floor ==> r.value <= ts[j]
    {
      if ts[k] > floor && (r.None? || ts[k] < r.value) {
        r := Some(ts[k]);
      }
    }
  }

  /** The temporal check of one cycle: the hops are visited in order, the time reached so
      far moving forward at every hop. */
  method CheckTemporal(g: TxGraph, c: seq<Wallet>) returns (valid: bool)
    requires Valid(g)
    ensures valid == TemporallyValid(g, c)
  {
    var floor: Option<int> := None;
    var i := 0;
    while i < |c|
      invariant 0 <= i <= |c|
      invariant Chrono(g, c, i, floor) == TemporallyValid(g, c)
      invariant i > 0 ==> floor.Some?
      decreases |c| - i
    {
      var hop := HopOf(c, i);
      if hop !in g.edges {
        return false;
      }
      var ts := g.edges[hop].timestamps;
      if floor.None? {
        floor := Some(MinOf(ts));
      } else {
        var next := LeastLater(ts, floor.value);
        if next.None? {
          return false;
        }
        floor := next;
      }
      i := i + 1;
    }
    valid := true;
  }

  /** What the greedy walk accepts, a schedule exists: the times it picks. */
  lemma {:induction false} ChronoSound(g: TxGraph, c: seq<Wallet>, i: nat, floor: Option<int>) returns (times: seq<int>)
    requires Valid(g) && i <= |c| && Chrono(g, c, i, floor)
    requires i == 0 <==> floor.None?
    ensures |times| == |c| - i
    ensures forall j :: i <= j < |c| ==> HopOf(c, j) in g.edges && times[j - i] in g.edges[HopOf(c, j)].timestamps
    ensures forall j :: 0 < j < |times| ==> times[j - 1] < times[j]
    ensures floor.Some? && times != [] ==> floor.value < times[0]
    decreases |c| - i
  {
    if i == |c| {
      times := [];
    } else {
      var ts := g.edges[HopOf(c, i)].timestamps;
      var t := if floor.None? then MinOf(ts) else NextAfter(ts, floor.value).value;
      var rest := ChronoSound(g, c, i + 1, Some(t));
      times := [t] + rest;
      forall j | i <= j < |c|
        ensures HopOf(c, j) in g.edges && times[j - i] in g.edges[HopOf(c, j)].timestamps
      {
        if j > i {
          assert times[j - i] == rest[j - (i + 1)];
        }
      }
      assert forall j :: 0 < j < |times| ==> times[j] == rest[j - 1];
    }
  }

  lemma TemporallyValidHasSchedule(g: TxGraph, c: seq<Wallet>)
    requires Valid(g) && TemporallyValid(g, c)
    ensures exists times :: Schedule(g, c, times)
  {
    var times := ChronoSound(g, c, 0, None);
    assert Schedule(g, c, times);
  }

  /** When a schedule exists, the greedy walk never falls behind it. */
  lemma {:induction false} ChronoComplete(g: TxGraph, c: seq<Wallet>, times: seq<int>, i: nat, floor: Option<int>)
    requires Valid(g) && i <= |c| && Schedule(g, c, times)
    requires i == 0 <==> floor.None?
    requires i > 0 ==> floor.value <= times[i - 1]
    ensures Chrono(g, c, i, floor)
    decreases |c| - i
  {
    if i < |c| {
      var ts := g.edges[HopOf(c, i)].timestamps;
      if floor.None? {
        ChronoComplete(g, c, times, i + 1, Some(MinOf(ts)));
      } else {
        var next := NextAfter(ts, floor.value);
        assert times[i] in ts && times[i] > floor.value;
        assert next.value <= times[i];
        ChronoComplete(g, c, times, i + 1, next);
      }
    }
  }

  /** The check accepts a cycle exactly when a strictly increasing schedule of its
      transfers exists. */
  lemma TemporallyValidIffSchedule(g: TxGraph, c: seq<Wallet>)
    requires Valid(g)
    ensures TemporallyValid(g, c) <==> exists times :: Schedule(g, c, times)
  {
    if TemporallyValid(g, c) {
      TemporallyValidHasSchedule(g, c);
    }
    if exists times :: Schedule(g, c, times) {
      var times :| Schedule(g, c, times);
      ChronoComplete(g, c, times, 0, None);
    }
  }

  // ---------------------------------------------------------------------------
  // The scan over the library's cycles
  // ---------------------------------------------------------------------------

  /** A cycle is kept when its length is within bounds and, in the current version, it
      passes the temporal check. */
  predicate Kept(g: TxGraph, version: Version, c: seq<Wallet>, minLength: int, maxLength: int)
    requires Valid(g)
  {
    minLength <= |c| <= maxLength && (version == Legacy || TemporallyValid(g, c))
  }

  /** The kept cycles among `cs`, in order. */
  function KeptAmong(g: TxGraph, version: Version, cs: seq<seq<Wallet>>, minLength: int, maxLength: int): seq<seq<Wallet>>
    requires Valid(g)
  {
    if cs == [] then []
    else
      KeptAmong(g, version, cs[..|cs| - 1], minLength, maxLength)
      + (if Kept(g, version, cs[|cs| - 1], minLength, maxLength) then [cs[|cs| - 1]] else [])
  }

  /** How many of `cands` the scan examines, having examined `k` without stopping: it stops
      after a cycle once 100 are kept or 5000 examined, or when the cycles run out. */
  function Examined(g: TxGraph, version: Version, cands: seq<seq<Wallet>>, minLength: int, maxLength: int, k: nat): (n: nat)
    requires Valid(g) && k <= |cands|
    ensures k <= n <= |cands|
    decreases |cands| - k
  {
    if k == |cands| then k
    else if |KeptAmong(g, version, cands[..k + 1], minLength, maxLength)| >= MaxKept || k + 1 >= MaxExamined then k + 1
    else Examined(g, version, cands, minLength, maxLength, k + 1)
  }

  /** The cycles the matcher keeps. */
  function CyclesKept(g: TxGraph, version: Version, cands: seq<seq<Wallet>>, minLength: int, maxLength: int): seq<seq<Wallet>>
    requires Valid(g)
  {
    KeptAmong(g, version, cands[..Examined(g, version, cands, minLength, maxLength, 0)], minLength, maxLength)
  }

  /** The loop over the library's cycles, with its two budgets. */
  method ScanCycles(g: TxGraph, version: Version, cands: seq<seq<Wallet>>, minLength: int, maxLength: int)
    returns (cycles: seq<seq<Wallet>>)
    requires Valid(g)
    ensures cycles == CyclesKept(g, version, cands, minLength, maxLength)
  {
    cycles := [];
    var count := 0;
    while count < |cands|
      invariant 0 <= count <= |cands|
      invariant cycles == KeptAmong(g, version, cands[..count], minLength, maxLength)
      invariant Examined(g, version, cands, minLength, maxLength, count) == Examined(g, version, cands, minLength, maxLength, 0)
      decreases |cands| - count
    {
      var cycle := cands[count];
      assert cands[..count + 1][..count] == cands[..count];
      count := count + 1;
      if minLength <= |cycle| <= maxLength {
        var valid := true;
        if version == Current {
          valid := CheckTemporal(g, cycle);
        }
        if valid {
          cycles := cycles + [cycle];
        }
      }
      if |cycles| >= MaxKept || count >= MaxExamined {
        break;
      }
    }
    assert cands[..|cands|] == cands;
  }

  /** The kept cycles are kept cycles of `cands`, never more than 100; the scan examines at
      most 5000 of them and, when it stops early, 100 have been kept or 5000 examined. */
  lemma {:induction false} KeptAmongSound(g: TxGraph, version: Version, cs: seq<seq<Wallet>>, minLength: int, maxLength: int)
    requires Valid(g)
    ensures |KeptAmong(g, version, cs, minLength, maxLength)| <= |cs|
    ensures forall c :: c in KeptAmong(g, version, cs, minLength, maxLength) ==> c in cs && Kept(g, version, c, minLength, maxLength)
  {
    if cs != [] {
      KeptAmongSound(g, version, cs[..|cs| - 1], minLength, maxLength);
    }
  }

  lemma {:induction false} KeptAmongPrefix(g: TxGraph, version: Version, cs: seq<seq<Wallet>>, k: nat, minLength: int, maxLength: int)
    requires Valid(g) && k < |cs|
    ensures KeptAmong(g, version, cs[..k + 1], minLength, maxLength)
            == KeptAmong(g, version, cs[..k], minLength, maxLength)
               + (if Kept(g, version, cs[k], minLength, maxLength) then [cs[k]] else [])
  {
    assert cs[..k + 1][..k] == cs[..k];
  }

  lemma {:induction false} ExaminedBounds(g: TxGraph, version: Version, cands: seq<seq<Wallet>>, minLength: int, maxLength: int, k: nat)
    requires Valid(g) && k <= |cands|
    requires k < MaxExamined && |KeptAmong(g, version, cands[..k], minLength, maxLength)| < MaxKept
    ensures var n := Examined(g, version, cands, minLength, maxLength, k);
      && k <= n <= |cands| && n <= MaxExamined
      && |KeptAmong(g, version, cands[..n], minLength, maxLength)| <= MaxKept
      && (n < |cands| ==> n == MaxExamined || |KeptAmong(g, version, cands[..n], minLength, maxLength)| == MaxKept)
    decreases |cands| - k
  {
    if k < |cands| {
      KeptAmongPrefix(g, version, cands, k, minLength, maxLength);
      if !(|KeptAmong(g, version, cands[..k + 1], minLength, maxLength)| >= MaxKept || k + 1 >= MaxExamined) {
        ExaminedBounds(g, version, cands, minLength, maxLength, k + 1);
      }
    }
  }

  /** The budgets: at most 100 cycles are kept, from at most the first 5000 examined, each
      of them a kept cycle of the input; an early stop means one of the budgets ran out. */
  lemma CyclesKeptBudget(g: TxGraph, version: Version, cands: seq<seq<Wallet>>, minLength: int, maxLength: int)
    requires Valid(g)
    ensures var n := Examined(g, version, cands, minLength, maxLength, 0);
      && n <= MaxExamined && n <= |cands|
      && CyclesKept(g, version, cands, minLength, maxLength) == KeptAmong(g, version, cands[..n], minLength, maxLength)
      && |CyclesKept(g, version, cands, minLength, maxLength)| <= MaxKept
      && (n < |cands| ==> n == MaxExamined || |CyclesKept(g, version, cands, minLength, maxLength)| == MaxKept)
  {
    ExaminedBounds(g, version, cands, minLength, maxLength, 0);
  }

  lemma CyclesKeptSound(g: TxGraph, version: Version, cands: seq<seq<Wallet>>, minLength: int, maxLength: int, c: seq<Wallet>)
    requires Valid(g)
    requires c in CyclesKept(g, version, cands, minLength, maxLength)
    ensures c in cands && Kept(g, version, c, minLength, maxLength)
  {
    var n := Examined(g, version, cands, minLength, maxLength, 0);
    KeptAmongSound(g, version, cands[..n], minLength, maxLength);
  }

  /** Within the budgets nothing is lost: when at most 5000 cycles are offered and fewer
      than 100 of them are kept, every kept cycle is reported. */
  lemma {:induction false} ExaminedAll(g: TxGraph, version: Version, cands: seq<seq<Wallet>>, minLength: int, maxLength: int, k: nat)
    requires Valid(g) && k <= |cands| < MaxExamined
    requires |KeptAmong(g, version, cands, minLength, maxLength)| < MaxKept
    ensures Examined(g, version, cands, minLength, maxLength, k) == |cands|
    decreases |cands| - k
  {
    if k < |cands| {
      KeptAmongGrows(g, version, cands, k + 1, minLength, maxLength);
      ExaminedAll(g, version, cands, minLength, maxLength, k + 1);
    }
  }

  lemma {:induction false} KeptAmongGrows(g: TxGraph, version: Version, cs: seq<seq<Wallet>>, k: nat, minLength: int, maxLength: int)
    requires Valid(g) && k <= |cs|
    ensures |KeptAmong(g, version, cs[..k], minLength, maxLength)| <= |KeptAmong(g, version, cs, minLength, maxLength)|
    decreases |cs| - k
  {
    if k < |cs| {
      KeptAmongPrefix(g, version, cs, k, minLength, maxLength);
      KeptAmongGrows(g, version, cs, k + 1, minLength, maxLength);
    } else {
      assert cs[..k] == cs;
    }
  }

  lemma CyclesKeptWithinBudget(g: TxGraph, version: Version, cands: seq<seq<Wallet>>, minLength: int, maxLength: int)
    requires Valid(g) && |cands| < MaxExamined
    requires |KeptAmong(g, version, cands, minLength, maxLength)| < MaxKept
    ensures CyclesKept(g, version, cands, minLength, maxLength) == KeptAmong(g, version, cands, minLength, maxLength)
  {
    ExaminedAll(g, version, cands, minLength, maxLength, 0);
    assert cands[..|cands|] == cands;
  }

  // ---------------------------------------------------------------------------
  // Patterns
  // ---------------------------------------------------------------------------

  /** The amount moved around the cycle: every hop's edge amount, the closing hop included. */
  function CycleAmount(g: TxGraph, c: seq<Wallet>, k: nat): real
    requires k <= |c|
  {
    if k == 0 then 0.0 else CycleAmount(g, c, k - 1) + HopAmount(g, HopOf(c, k - 1).0, HopOf(c, k - 1).1)
  }

  /** The roles of a cycle: the first wallet sends, the last receives, the ones between
      are intermediaries (none for a cycle of at most two wallets). */
  function CyclePattern(g: TxGraph, version: Version, illicit: set<Wallet>, median: real, c: seq<Wallet>): SmurfingPattern
    requires c != []
  {
    var mids := if |c| > 2 then Elems(c[1..|c| - 1]) else {};
    Scored(version, SmurfingPattern({c[0]}, mids, {c[|c| - 1]}, Cyclic, 0.0, CycleAmount(g, c, |c|)), illicit, median)
  }

  function CyclicPatterns(g: TxGraph, version: Version, illicit: set<Wallet>, median: real,
                          cycles: seq<seq<Wallet>>): seq<SmurfingPattern>
    requires forall i :: 0 <= i < |cycles| ==> cycles[i] != []
  {
    if cycles == [] then []
    else
      CyclicPatterns(g, version, illicit, median, cycles[..|cycles| - 1])
      + [CyclePattern(g, version, illicit, median, cycles[|cycles| - 1])]
  }

  /** `sum(graph[c[i]][c[(i+1) % len(c)]]['amount'] for i in range(len(c)))`. */
  method CycleTotal(g: TxGraph, c: seq<Wallet>) returns (total: real)
    requires c != []
    ensures total == CycleAmount(g, c, |c|)
  {
    total := 0.0;
    for i := 0 to |c|
      invariant total == CycleAmount(g, c, i)
    {
      var hop := HopOf(c, i);
      total := total + HopAmount(g, hop.0, hop.1);
    }
  }

  /** The pattern built for one kept cycle. */
  method PatternOfCycle(g: TxGraph, version: Version, illicit: set<Wallet>, median: real, c: seq<Wallet>)
    returns (p: SmurfingPattern)
    requires c != []
    ensures p == CyclePattern(g, version, illicit, median, c)
  {
    var total := CycleTotal(g, c);
    var mids := if |c| > 2 then Elems(c[1..|c| - 1]) else {};
    p := ScorePattern(version, SmurfingPattern({c[0]}, mids, {c[|c| - 1]}, Cyclic, 0.0, total), illicit, median);
  }

  /** `detect_cyclic_patterns` without the update of the detector's list; `cands` are the
      cycles the library yields. */
  lemma CyclesKeptNonEmpty(g: TxGraph, version: Version, cands: seq<seq<Wallet>>, minLength: int, maxLength: int)
    requires Valid(g)
    requires forall c :: c in cands ==> c != []
    ensures var kept := CyclesKept(g, version, cands, minLength, maxLength);
      forall i :: 0 <= i < |kept| ==> kept[i] != []
  {
    var kept := CyclesKept(g, version, cands, minLength, maxLength);
    forall i | 0 <= i < |kept|
      ensures kept[i] != []
    {
      CyclesKeptSound(g, version, cands, minLength, maxLength, kept[i]);
    }
  }

  /** The patterns of the cycles the scan keeps. */
  function CyclicFound(g: TxGraph, version: Version, illicit: set<Wallet>, median: real,
                       cands: seq<seq<Wallet>>, minLength: int, maxLength: int): seq<SmurfingPattern>
    requires Valid(g)
    requires forall c :: c in cands ==> c != []
  {
    CyclesKeptNonEmpty(g, version, cands, minLength, maxLength);
    CyclicPatterns(g, version, illicit, median, CyclesKept(g, version, cands, minLength, maxLength))
  }

  lemma {:induction false} CyclicPatternsOf(g: TxGraph, version: Version, illicit: set<Wallet>, median: real,
                                            cycles: seq<seq<Wallet>>, p: SmurfingPattern) returns (i: nat)
    requires forall i :: 0 <= i < |cycles| ==> cycles[i] != []
    requires p in CyclicPatterns(g, version, illicit, median, cycles)
    ensures i < |cycles| && p == CyclePattern(g, version, illicit, median, cycles[i])
  {
    var n := |cycles| - 1;
    if p in CyclicPatterns(g, version, illicit, median, cycles[..n]) {
      i := CyclicPatternsOf(g, version, illicit, median, cycles[..n], p);
      assert cycles[..n][i] == cycles[i];
    } else {
      i := n;
    }
  }

  /** Every cyclic pattern comes from a cycle of the enumeration that the scan keeps. */
  lemma CyclicFoundSound(g: TxGraph, version: Version, illicit: set<Wallet>, median: real,
                         cands: seq<seq<Wallet>>, minLength: int, maxLength: int, p: SmurfingPattern)
    requires Valid(g)
    requires forall c :: c in cands ==> c != []
    requires p in CyclicFound(g, version, illicit, median, cands, minLength, maxLength)
    ensures p.patternType == Cyclic
    ensures exists c :: c in cands && Kept(g, version, c, minLength, maxLength)
                        && p == CyclePattern(g, version, illicit, median, c)
  {
    var kept := CyclesKept(g, version, cands, minLength, maxLength);
    CyclesKeptNonEmpty(g, version, cands, minLength, maxLength);
    var i := CyclicPatternsOf(g, version, illicit, median, kept, p);
    CyclesKeptSound(g, version, cands, minLength, maxLength, kept[i]);
  }

  /** `detect_cyclic_patterns` without the update of the detector's list. */
  method FindCyclic(g: TxGraph, version: Version, illicit: set<Wallet>, median: real,
                    cands: seq<seq<Wallet>>, minLength: int, maxLength: int)
    returns (patterns: seq<SmurfingPattern>)
    requires Valid(g)
    requires LibraryCycles(g, cands)
    ensures patterns == CyclicFound(g, version, illicit, median, cands, minLength, maxLength)
  {
    var cycles := ScanCycles(g, version, cands, minLength, maxLength);
    CyclesKeptNonEmpty(g, version, cands, minLength, maxLength);
    patterns := PatternsOfCycles(g, version, illicit, median, cycles);
  }

  /** The pattern of each kept cycle, in order. */
  method PatternsOfCycles(g: TxGraph, version: Version, illicit: set<Wallet>, median: real,
                          cycles: seq<seq<Wallet>>)
    returns (patterns: seq<SmurfingPattern>)
    requires forall i :: 0 <= i < |cycles| ==> cycles[i] != []
    ensures patterns == CyclicPatterns(g, version, illicit, median, cycles)
  {
    patterns := [];
    for j := 0 to |cycles|
      invariant patterns == CyclicPatterns(g, version, illicit, median, cycles[..j])
    {
      assert cycles[..j + 1][..j] == cycles[..j];
      var p := PatternOfCycle(g, version, illicit, median, cycles[j]);
      patterns := patterns + [p];
    }
    assert cycles[..|cycles|] == cycles;
  }

  /** The amount of a cycle is the flow along the closed path back to its first wallet. */
  lemma {:induction false} CycleAmountIsClosedPath(g: TxGraph, c: seq<Wallet>, k: nat)
    requires 0 < k <= |c|
    ensures CycleAmount(g, c, k) == PathAmount(g, c[..k] + [HopOf(c, k - 1).1])
  {
    var q := [c[k - 1], HopOf(c, k - 1).1];
    assert PathAmount(g, q) == HopAmount(g, c[k - 1], HopOf(c, k - 1).1);
    if k == 1 {
      assert c[..1] + [HopOf(c, 0).1] == q;
    } else {
      CycleAmountIsClosedPath(g, c, k - 1);
      var p := c[..k];
      assert c[..k - 1] + [HopOf(c, k - 2).1] == p;
      PathAmountJoin(g, p, q);
      assert p + q[1..] == c[..k] + [HopOf(c, k - 1).1];
    }
  }

  lemma CycleAmountIsFlow(g: TxGraph, c: seq<Wallet>)
    requires c != []
    ensures CycleAmount(g, c, |c|) == PathAmount(g, c + [c[0]])
  {
    CycleAmountIsClosedPath(g, c, |c|);
    assert c[..|c|] == c;
  }

  /** The roles of a cycle of three or more wallets: the first wallet sends, the last
      receives, all the others relay, every wallet of the cycle plays a role, and no
      intermediary is also the sender or the receiver. */
  lemma CycleRoles(g: TxGraph, version: Version, illicit: set<Wallet>, median: real, c: seq<Wallet>)
    requires |c| >= 3 && Distinct(c)
    ensures var p := CyclePattern(g, version, illicit, median, c);
      && Members(p) == Elems(c)
      && c[0] !in p.intermediates && c[|c| - 1] !in p.intermediates
      && |p.intermediates| == |c| - 2
      && p.patternType == Cyclic
  {
    var p := CyclePattern(g, version, illicit, median, c);
    assert p.sources == {c[0]} && p.intermediates == Elems(c[1..|c| - 1]) && p.destinations == {c[|c| - 1]};
    CycleSplit(c);
  }

  /** A cycle of distinct wallets splits into its first wallet, the |c| − 2 wallets
      between, and its last wallet. */
  lemma CycleSplit(c: seq<Wallet>)
    requires |c| >= 3 && Distinct(c)
    ensures {c[0]} + Elems(c[1..|c| - 1]) + {c[|c| - 1]} == Elems(c)
    ensures c[0] !in Elems(c[1..|c| - 1]) && c[|c| - 1] !in Elems(c[1..|c| - 1])
    ensures |Elems(c[1..|c| - 1])| == |c| - 2
  {
    var mids := c[1..|c| - 1];
    assert Distinct(mids);
    DistinctCard(mids);
    forall k | 0 <= k < |mids|
      ensures mids[k] != c[0] && mids[k] != c[|c| - 1]
    {
      assert mids[k] == c[k + 1];
    }
    forall x | x in Elems(c)
      ensures x in {c[0]} + Elems(mids) + {c[|c| - 1]}
    {
      var i :| 0 <= i < |c| && c[i] == x;
      if 0 < i < |c| - 1 {
        assert mids[i - 1] == x;
      }
    }
  }

  /** Over the library's cycles, with the default minimum length of three or more, every
      cyclic pattern covers exactly the wallets of one enumerated cycle, relays all of them
      but the first and the last, moves the flow of the closed path around it, and in the
      current version follows a strictly increasing schedule of that cycle's transfers. */
  lemma CyclicFoundShape(g: TxGraph, version: Version, illicit: set<Wallet>, median: real,
                         cands: seq<seq<Wallet>>, minLength: int, maxLength: int, p: SmurfingPattern)
    requires Valid(g) && 3 <= minLength
    requires LibraryCycles(g, cands)
    requires p in CyclicFound(g, version, illicit, median, cands, minLength, maxLength)
    ensures exists c :: c in cands && minLength <= |c| <= maxLength
                        && Members(p) == Elems(c) && |p.intermediates| == |c| - 2
                        && c[0] !in p.intermediates && c[|c| - 1] !in p.intermediates
                        && p.totalAmount == PathAmount(g, c + [c[0]])
                        && (version == Current ==> exists times :: Schedule(g, c, times))
  {
    CyclicFoundSound(g, version, illicit, median, cands, minLength, maxLength, p);
    var c :| c in cands && Kept(g, version, c, minLength, maxLength)
             && p == CyclePattern(g, version, illicit, median, c);
    CycleRoles(g, version, illicit, median, c);
    CycleAmountIsFlow(g, c);
    if version == Current {
      TemporallyValidHasSchedule(g, c);
    }
  }
}
