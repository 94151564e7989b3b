/** The transaction graph of graph_builder.py as a value: wallet records, one aggregated
    edge per ordered wallet pair, and the fold that builds them from an ordered feed. */
module Graph {
  import opened Common

  type Wallet = string

  /** One row of the transaction feed. Timestamps are modelled as integers. */
  datatype Tx = Tx(source: Wallet, dest: Wallet, timestamp: int, amount: real, tokenType: string)

  /** The attributes a wallet node carries. `illicit` is absent (false) until the wallet is
      marked by the illicit-wallet loader. */
  datatype WalletRec = WalletRec(
    totalSent: real,
    totalReceived: real,
    firstSeen: int,
    lastSeen: int,
    txCount: nat,
    illicit: bool,
    illicitReason: Option<string>)

  /** The attributes of the aggregated edge for one ordered pair of wallets. */
  datatype EdgeRec = EdgeRec(amount: real, tokenType: string, timestamp: int, timestamps: seq<int>, txCount: nat)

  /** `nodes` lists the wallets in insertion order (the order in which the directed graph
      iterates them); `wallets` and `edges` hold the attributes. */
  datatype TxGraph = TxGraph(nodes: seq<Wallet>, wallets: map<Wallet, WalletRec>, edges: map<(Wallet, Wallet), EdgeRec>)

  const EmptyGraph: TxGraph := TxGraph([], map[], map[])

  /** Well-formedness of a graph: the node order lists each wallet once, every edge joins
      two wallets, and every edge has at least one timestamp. */
  ghost predicate Valid(g: TxGraph)
  {
    && Distinct(g.nodes)
    && (forall w :: w in g.nodes <==> w in g.wallets)
    && (forall e :: e in g.edges ==> e.0 in g.wallets && e.1 in g.wallets)
    && (forall e :: e in g.edges ==> g.edges[e].timestamps != [])
  }

  function Succ(g: TxGraph, w: Wallet): set<Wallet>
  {
    set v | v in g.wallets && (w, v) in g.edges
  }

  function Pred(g: TxGraph, w: Wallet): set<Wallet>
  {
    set u | u in g.wallets && (u, w) in g.edges
  }

  function OutDegree(g: TxGraph, w: Wallet): nat
  {
    |Succ(g, w)|
  }

  function InDegree(g: TxGraph, w: Wallet): nat
  {
    |Pred(g, w)|
  }

  /** The members of `S` that are wallets of `g`, in node order: how the model iterates a
      Python set of wallets. */
  function NodesIn(g: TxGraph, S: set<Wallet>): seq<Wallet>
  {
    Select(g.nodes, S)
  }

  /** The successors of `w`, in node order. */
  function SuccList(g: TxGraph, w: Wallet): seq<Wallet>
  {
    NodesIn(g, Succ(g, w))
  }

  lemma NodesInEnumerates(g: TxGraph, S: set<Wallet>)
    requires Valid(g)
    requires S <= g.wallets.Keys
    ensures Distinct(NodesIn(g, S))
    ensures Elems(NodesIn(g, S)) == S
    ensures |NodesIn(g, S)| == |S|
  {
    SelectDistinct(g.nodes, S);
    SelectCard(g.nodes, S);
  }

  /** Enumerating a set of wallets ignores its members outside the graph. */
  lemma NodesInWithin(g: TxGraph, S: set<Wallet>)
    requires Valid(g)
    ensures NodesIn(g, S) == NodesIn(g, S * g.wallets.Keys)
  {
    SelectWithin(g.nodes, S, g.wallets.Keys);
  }

  lemma {:induction false} SelectWithin(xs: seq<Wallet>, S: set<Wallet>, W: set<Wallet>)
    requires forall x :: x in xs ==> x in W
    ensures Select(xs, S) == Select(xs, S * W)
  {
    if xs != [] {
      SelectWithin(xs[1..], S, W);
    }
  }

  lemma SuccListEnumerates(g: TxGraph, w: Wallet)
    requires Valid(g)
    ensures Distinct(SuccList(g, w))
    ensures forall v :: v in SuccList(g, w) <==> v in Succ(g, w)
    ensures |SuccList(g, w)| == OutDegree(g, w)
  {
    NodesInEnumerates(g, Succ(g, w));
  }

  function EdgeAmount(g: TxGraph, u: Wallet, v: Wallet): real
    requires (u, v) in g.edges
  {
    g.edges[(u, v)].amount
  }

  // ---------------------------------------------------------------------------
  // Building the graph from the feed (BlockchainGraph._build_graph)
  // ---------------------------------------------------------------------------

  /** A wallet as created at its first appearance in the feed. */
  function NewWallet(t: int): WalletRec
  {
    WalletRec(0.0, 0.0, t, t, 0, false, None)
  }

  /** Adds a wallet node unless it already exists. */
  function AddWallet(g: TxGraph, w: Wallet, t: int): (r: TxGraph)
    ensures r.wallets.Keys == g.wallets.Keys + {w}
    ensures r.edges == g.edges
  {
    if w in g.wallets then g
    else g.(nodes := g.nodes + [w], wallets := g.wallets[w := NewWallet(t)])
  }

  /** The effect of one feed row: both endpoints are created if new, the sender's total
      sent and the receiver's total received grow by the amount, both last-seen times move
      forward, both counts grow by one, and the pair's edge is created or aggregated. */
  function AddTx(g: TxGraph, tx: Tx): TxGraph
  {
    var g1 := AddWallet(AddWallet(g, tx.source, tx.timestamp), tx.dest, tx.timestamp);
    var s := g1.wallets[tx.source];
    var ws1 := g1.wallets[tx.source := s.(totalSent := s.totalSent + tx.amount,
                                          lastSeen := MaxInt(s.lastSeen, tx.timestamp),
                                          txCount := s.txCount + 1)];
    var d := ws1[tx.dest];
    var ws2 := ws1[tx.dest := d.(totalReceived := d.totalReceived + tx.amount,
                                 lastSeen := MaxInt(d.lastSeen, tx.timestamp),
                                 txCount := d.txCount + 1)];
    var pair := (tx.source, tx.dest);
    var e := if pair in g1.edges then
               var cur := g1.edges[pair];
               cur.(amount := cur.amount + tx.amount,
                    txCount := cur.txCount + 1,
                    timestamps := cur.timestamps + [tx.timestamp])
             else EdgeRec(tx.amount, tx.tokenType, tx.timestamp, [tx.timestamp], 1);
    g1.(wallets := ws2, edges := g1.edges[pair := e])
  }

  /** The feed folded, row by row and in order, into an existing graph. */
  function Fold(g: TxGraph, txs: seq<Tx>): TxGraph
    decreases |txs|
  {
    if txs == [] then g else AddTx(Fold(g, txs[..|txs| - 1]), txs[|txs| - 1])
  }

  /** The graph built from a feed, starting from the empty graph. */
  function Build(txs: seq<Tx>): TxGraph
  {
    Fold(EmptyGraph, txs)
  }

  lemma AddWalletValid(g: TxGraph, w: Wallet, t: int)
    requires Valid(g)
    ensures Valid(AddWallet(g, w, t))
  {
    if w !in g.wallets {
      assert w !in g.nodes;
      var r := AddWallet(g, w, t);
      assert forall v :: v in r.nodes <==> v in g.nodes || v == w;
    }
  }

  /** Updating the records of existing wallets and one edge between existing wallets
      keeps a graph well formed. */
  lemma UpdateValid(g: TxGraph, ws: map<Wallet, WalletRec>, pair: (Wallet, Wallet), e: EdgeRec)
    requires Valid(g)
    requires ws.Keys == g.wallets.Keys
    requires pair.0 in g.wallets && pair.1 in g.wallets && e.timestamps != []
    ensures Valid(g.(wallets := ws, edges := g.edges[pair := e]))
  {
  }

  lemma AddTxValid(g: TxGraph, tx: Tx)
    requires Valid(g)
    ensures Valid(AddTx(g, tx))
  {
    AddWalletValid(g, tx.source, tx.timestamp);
    var g0 := AddWallet(g, tx.source, tx.timestamp);
    AddWalletValid(g0, tx.dest, tx.timestamp);
    var g1 := AddWallet(g0, tx.dest, tx.timestamp);
    var r := AddTx(g, tx);
    assert r.nodes == g1.nodes;
    assert r.wallets.Keys == g1.wallets.Keys;
    var pair := (tx.source, tx.dest);
    UpdateValid(g1, r.wallets, pair, r.edges[pair]);
    assert r == g1.(wallets := r.wallets, edges := g1.edges[pair := r.edges[pair]]);
  }

  lemma {:induction false} FoldValid(g: TxGraph, txs: seq<Tx>)
    requires Valid(g)
    ensures Valid(Fold(g, txs))
    decreases |txs|
  {
    if txs != [] {
      FoldValid(g, txs[..|txs| - 1]);
      AddTxValid(Fold(g, txs[..|txs| - 1]), txs[|txs| - 1]);
    }
  }

  lemma BuildValid(txs: seq<Tx>)
    ensures Valid(Build(txs))
  {
    FoldValid(EmptyGraph, txs);
  }
}
