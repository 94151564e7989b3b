/** What the graph built by `_build_graph` says about the feed it was built from: per-wallet
    totals and counts, per-pair aggregation, and the first/last times a wallet is seen. */
module GraphBuild {
  import opened Common
  import opened Graph

  predicate Touches(tx: Tx, w: Wallet)
  {
    tx.source == w || tx.dest == w
  }

  predicate IsPair(tx: Tx, u: Wallet, v: Wallet)
  {
    tx.source == u && tx.dest == v
  }

  /** Sum of the amounts of the rows sent by `w`. */
  function SentBy(txs: seq<Tx>, w: Wallet): real
    decreases |txs|
  {
    if txs == [] then 0.0
    else SentBy(txs[..|txs| - 1], w) + (if txs[|txs| - 1].source == w then txs[|txs| - 1].amount else 0.0)
  }

  /** Sum of the amounts of the rows received by `w`. */
  function ReceivedBy(txs: seq<Tx>, w: Wallet): real
    decreases |txs|
  {
    if txs == [] then 0.0
    else ReceivedBy(txs[..|txs| - 1], w) + (if txs[|txs| - 1].dest == w then txs[|txs| - 1].amount else 0.0)
  }

  /** Number of endpoint occurrences of `w` in the feed (a self-transfer counts twice). */
  function Occurrences(txs: seq<Tx>, w: Wallet): nat
    decreases |txs|
  {
    if txs == [] then 0
    else
      var t := txs[|txs| - 1];
      Occurrences(txs[..|txs| - 1], w) + (if t.source == w then 1 else 0) + (if t.dest == w then 1 else 0)
  }

  /** Sum of the amounts of the rows from `u` to `v`. */
  function PairAmount(txs: seq<Tx>, u: Wallet, v: Wallet): real
    decreases |txs|
  {
    if txs == [] then 0.0
    else PairAmount(txs[..|txs| - 1], u, v) + (if IsPair(txs[|txs| - 1], u, v) then txs[|txs| - 1].amount else 0.0)
  }

  /** The timestamps of the rows from `u` to `v`, in feed order. */
  function PairTimes(txs: seq<Tx>, u: Wallet, v: Wallet): seq<int>
    decreases |txs|
  {
    if txs == [] then []
    else PairTimes(txs[..|txs| - 1], u, v) + (if IsPair(txs[|txs| - 1], u, v) then [txs[|txs| - 1].timestamp] else [])
  }

  /** The effect of one row on one wallet record. */
  lemma AddTxWallet(g: TxGraph, tx: Tx, w: Wallet)
    ensures w in AddTx(g, tx).wallets <==> w in g.wallets || Touches(tx, w)
    ensures w in AddTx(g, tx).wallets ==>
      var r := AddTx(g, tx).wallets[w];
      var b := if w in g.wallets then g.wallets[w] else NewWallet(tx.timestamp);
      && r.totalSent == b.totalSent + (if tx.source == w then tx.amount else 0.0)
      && r.totalReceived == b.totalReceived + (if tx.dest == w then tx.amount else 0.0)
      && r.txCount == b.txCount + (if tx.source == w then 1 else 0) + (if tx.dest == w then 1 else 0)
      && r.firstSeen == b.firstSeen
      && r.lastSeen == (if Touches(tx, w) then MaxInt(b.lastSeen, tx.timestamp) else b.lastSeen)
      && r.illicit == b.illicit
      && r.illicitReason == b.illicitReason
  {
  }

  /** The effect of one row on one edge record. */
  lemma AddTxEdge(g: TxGraph, tx: Tx, u: Wallet, v: Wallet)
    ensures (u, v) in AddTx(g, tx).edges <==> (u, v) in g.edges || IsPair(tx, u, v)
    ensures (u, v) in g.edges && !IsPair(tx, u, v) ==> AddTx(g, tx).edges[(u, v)] == g.edges[(u, v)]
    ensures (u, v) in g.edges && IsPair(tx, u, v) ==>
      var r := AddTx(g, tx).edges[(u, v)];
      var b := g.edges[(u, v)];
      r == b.(amount := b.amount + tx.amount, txCount := b.txCount + 1, timestamps := b.timestamps + [tx.timestamp])
    ensures (u, v) !in g.edges && IsPair(tx, u, v) ==>
      AddTx(g, tx).edges[(u, v)] == EdgeRec(tx.amount, tx.tokenType, tx.timestamp, [tx.timestamp], 1)
  {
  }

  /** A wallet exists exactly when some row touches it; its totals are the sums of the
      amounts it sent and received, and its count is its number of endpoint occurrences. */
  lemma {:induction false} BuildWallet(txs: seq<Tx>, w: Wallet)
    ensures w in Build(txs).wallets <==> exists i :: 0 <= i < |txs| && Touches(txs[i], w)
    ensures w in Build(txs).wallets ==>
      && Build(txs).wallets[w].totalSent == SentBy(txs, w)
      && Build(txs).wallets[w].totalReceived == ReceivedBy(txs, w)
      && Build(txs).wallets[w].txCount == Occurrences(txs, w)
      && !Build(txs).wallets[w].illicit
    ensures w !in Build(txs).wallets ==> SentBy(txs, w) == 0.0 && ReceivedBy(txs, w) == 0.0 && Occurrences(txs, w) == 0
    decreases |txs|
  {
    if txs != [] {
      var pre, t := txs[..|txs| - 1], txs[|txs| - 1];
      BuildWallet(pre, w);
      AddTxWallet(Build(pre), t, w);
      assert Build(txs) == AddTx(Build(pre), t);
      assert forall i :: 0 <= i < |pre| ==> pre[i] == txs[i];
      if exists i :: 0 <= i < |txs| && Touches(txs[i], w) {
        var i :| 0 <= i < |txs| && Touches(txs[i], w);
        if i < |pre| {
          assert Touches(pre[i], w);
        }
      }
      if Touches(t, w) {
        assert Touches(txs[|txs| - 1], w);
      }
    }
  }

  /** An edge exists exactly when some row goes from `u` to `v`; its amount is the sum of
      those rows' amounts, its timestamps are theirs in feed order, and its count is the
      length of that list. */
  lemma {:induction false} BuildEdge(txs: seq<Tx>, u: Wallet, v: Wallet)
    ensures (u, v) in Build(txs).edges <==> exists i :: 0 <= i < |txs| && IsPair(txs[i], u, v)
    ensures (u, v) in Build(txs).edges ==>
      && Build(txs).edges[(u, v)].amount == PairAmount(txs, u, v)
      && Build(txs).edges[(u, v)].timestamps == PairTimes(txs, u, v)
      && Build(txs).edges[(u, v)].txCount == |Build(txs).edges[(u, v)].timestamps|
    ensures (u, v) !in Build(txs).edges ==> PairAmount(txs, u, v) == 0.0 && PairTimes(txs, u, v) == []
    decreases |txs|
  {
    if txs != [] {
      var pre, t := txs[..|txs| - 1], txs[|txs| - 1];
      BuildEdge(pre, u, v);
      AddTxEdge(Build(pre), t, u, v);
      assert Build(txs) == AddTx(Build(pre), t);
      assert forall i :: 0 <= i < |pre| ==> pre[i] == txs[i];
      if exists i :: 0 <= i < |txs| && IsPair(txs[i], u, v) {
        var i :| 0 <= i < |txs| && IsPair(txs[i], u, v);
        if i < |pre| {
          assert IsPair(pre[i], u, v);
        }
      }
      if IsPair(t, u, v) {
        assert IsPair(txs[|txs| - 1], u, v);
      }
    }
  }

  /** An edge keeps the token type and the single timestamp of the first row for its pair;
      later rows for the pair do not change them. */
  lemma {:induction false} BuildEdgeFirstRow(txs: seq<Tx>, u: Wallet, v: Wallet, i: nat)
    requires i < |txs| && IsPair(txs[i], u, v)
    requires forall j :: 0 <= j < i ==> !IsPair(txs[j], u, v)
    ensures (u, v) in Build(txs).edges
    ensures Build(txs).edges[(u, v)].tokenType == txs[i].tokenType
    ensures Build(txs).edges[(u, v)].timestamp == txs[i].timestamp
    decreases |txs|
  {
    var pre, t := txs[..|txs| - 1], txs[|txs| - 1];
    assert Build(txs) == AddTx(Build(pre), t);
    AddTxEdge(Build(pre), t, u, v);
    if i == |txs| - 1 {
      assert forall j :: 0 <= j < |pre| ==> pre[j] == txs[j];
      BuildEdge(pre, u, v);
    } else {
      assert forall j :: 0 <= j <= i ==> pre[j] == txs[j];
      BuildEdgeFirstRow(pre, u, v, i);
    }
  }

  /** `first_seen` is the timestamp of the first row touching the wallet. */
  lemma {:induction false} BuildFirstSeen(txs: seq<Tx>, w: Wallet, i: nat)
    requires i < |txs| && Touches(txs[i], w)
    requires forall j :: 0 <= j < i ==> !Touches(txs[j], w)
    ensures w in Build(txs).wallets
    ensures Build(txs).wallets[w].firstSeen == txs[i].timestamp
    decreases |txs|
  {
    var pre, t := txs[..|txs| - 1], txs[|txs| - 1];
    assert Build(txs) == AddTx(Build(pre), t);
    AddTxWallet(Build(pre), t, w);
    if i == |txs| - 1 {
      assert forall j :: 0 <= j < |pre| ==> pre[j] == txs[j];
      BuildWallet(pre, w);
    } else {
      assert forall j :: 0 <= j <= i ==> pre[j] == txs[j];
      BuildFirstSeen(pre, w, i);
    }
  }

  /** `last_seen` is the latest timestamp among the rows touching the wallet. */
  lemma {:induction false} BuildLastSeen(txs: seq<Tx>, w: Wallet)
    requires w in Build(txs).wallets
    ensures forall i :: 0 <= i < |txs| && Touches(txs[i], w) ==> txs[i].timestamp <= Build(txs).wallets[w].lastSeen
    ensures exists i :: 0 <= i < |txs| && Touches(txs[i], w) && txs[i].timestamp == Build(txs).wallets[w].lastSeen
    decreases |txs|
  {
    var pre, t := txs[..|txs| - 1], txs[|txs| - 1];
    assert Build(txs) == AddTx(Build(pre), t);
    AddTxWallet(Build(pre), t, w);
    assert forall i :: 0 <= i < |pre| ==> pre[i] == txs[i];
    var last := Build(txs).wallets[w].lastSeen;
    if w in Build(pre).wallets {
      BuildLastSeen(pre, w);
      var k :| 0 <= k < |pre| && Touches(pre[k], w) && pre[k].timestamp == Build(pre).wallets[w].lastSeen;
      if Touches(t, w) && t.timestamp > Build(pre).wallets[w].lastSeen {
        assert Touches(txs[|txs| - 1], w) && txs[|txs| - 1].timestamp == last;
      } else {
        assert Touches(txs[k], w) && txs[k].timestamp == last;
      }
    } else {
      BuildWallet(pre, w);
      assert forall i :: 0 <= i < |pre| ==> !Touches(pre[i], w);
      assert Touches(txs[|txs| - 1], w) && txs[|txs| - 1].timestamp == last;
    }
  }
}
