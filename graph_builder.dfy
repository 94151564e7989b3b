/** BlockchainGraph of graph_builder.py: the object that loads the feed and the illicit
    list into the transaction graph, and the structural queries answered from it. The
    queries take the graph as a value (`TxGraph`): the detector and the scorer only read it. */
module GraphBuilder {
  import opened Common
  import opened Graph
  import opened GraphBuild

  /** The five columns the transaction feed must have. */
  const RequiredColumns: set<string> := {"Source_Wallet_ID", "Dest_Wallet_ID", "Timestamp", "Amount", "Token_Type"}

  /** One row of the illicit-wallet list. */
  datatype IllicitRow = IllicitRow(wallet: Wallet, reason: string)

  /** The reason given on the first row that names `w`, if any. */
  function FirstReason(rows: seq<IllicitRow>, w: Wallet): (r: Option<string>)
    ensures r.None? <==> forall i :: 0 <= i < |rows| ==> rows[i].wallet != w
    ensures r.Some? ==> exists i :: 0 <= i < |rows| && rows[i] == IllicitRow(w, r.value)
                           && forall j :: 0 <= j < i ==> rows[j].wallet != w
  {
    if rows == [] then None
    else if rows[0].wallet == w then Some(rows[0].reason)
    else
      var r := FirstReason(rows[1..], w);
      assert forall i :: 0 < i < |rows| ==> rows[i] == rows[1..][i - 1];
      if r.Some? then
        assert exists i :: 0 <= i < |rows| && rows[i] == IllicitRow(w, r.value) && forall j :: 0 <= j < i ==> rows[j].wallet != w by {
          var k :| 0 <= k < |rows[1..]| && rows[1..][k] == IllicitRow(w, r.value) && forall j :: 0 <= j < k ==> rows[1..][j].wallet != w;
          assert rows[k + 1] == IllicitRow(w, r.value);
          assert forall j :: 0 <= j < k + 1 ==> rows[j].wallet != w;
        }
        r
      else r
  }

  /** The wallet records after the illicit list is applied: every listed wallet present in
      the graph is flagged, and given the reason of its first row when the list has a
      reason column; wallets not in the graph are ignored. */
  function MarkIllicit(ws: map<Wallet, WalletRec>, ids: set<Wallet>, withReason: bool, rows: seq<IllicitRow>): map<Wallet, WalletRec>
  {
    map w | w in ws ::
      if w in ids then ws[w].(illicit := true, illicitReason := if withReason then FirstReason(rows, w) else ws[w].illicitReason)
      else ws[w]
  }

  lemma MarkIllicitNone(ws: map<Wallet, WalletRec>, withReason: bool, rows: seq<IllicitRow>)
    ensures MarkIllicit(ws, {}, withReason, rows) == ws
  {
    var m := MarkIllicit(ws, {}, withReason, rows);
    assert m.Keys == ws.Keys;
    forall w | w in m
      ensures m[w] == ws[w]
    {
    }
  }

  /** Flagging one more listed wallet: the records change at that wallet only, and only
      when it is in the graph. */
  lemma MarkIllicitStep(ws: map<Wallet, WalletRec>, done: set<Wallet>, w: Wallet, withReason: bool, rows: seq<IllicitRow>)
    ensures var cur := MarkIllicit(ws, done, withReason, rows);
      MarkIllicit(ws, done + {w}, withReason, rows)
      == if w in cur
         then cur[w := cur[w].(illicit := true, illicitReason := if withReason then FirstReason(rows, w) else cur[w].illicitReason)]
         else cur
    ensures MarkIllicit(ws, done, withReason, rows).Keys == ws.Keys
  {
    var cur := MarkIllicit(ws, done, withReason, rows);
    var next := MarkIllicit(ws, done + {w}, withReason, rows);
    var upd := if w in cur
               then cur[w := cur[w].(illicit := true, illicitReason := if withReason then FirstReason(rows, w) else cur[w].illicitReason)]
               else cur;
    assert next.Keys == upd.Keys;
    forall x | x in next
      ensures next[x] == upd[x]
    {
    }
  }

  class BlockchainGraph {
    var nodes: seq<Wallet>
    var wallets: map<Wallet, WalletRec>
    var edges: map<(Wallet, Wallet), EdgeRec>
    var transactions: seq<Tx>
    var illicitWallets: set<Wallet>

    /** The graph held by this object, as a value. */
    function Snapshot(): TxGraph
      reads this
    {
      TxGraph(nodes, wallets, edges)
    }

    ghost predicate Valid()
      reads this
    {
      Graph.Valid(Snapshot())
    }

    constructor ()
      ensures Valid()
      ensures Snapshot() == EmptyGraph && transactions == [] && illicitWallets == {}
    {
      nodes, wallets, edges := [], map[], map[];
      transactions, illicitWallets := [], {};
    }

    /** `load_transactions` once the CSV has been read into `columns` and `rows`: a feed
        missing any required column is refused and nothing changes; otherwise the rows
        become the transaction list and are folded into the graph. */
    method LoadTransactions(columns: set<string>, rows: seq<Tx>) returns (r: Outcome)
      requires Valid()
      modifies this
      ensures Valid()
      ensures r.Fail? <==> !(RequiredColumns <= columns)
      ensures r.Fail? ==> Snapshot() == old(Snapshot()) && transactions == old(transactions)
      ensures r.Pass? ==> transactions == rows && Snapshot() == Fold(old(Snapshot()), rows)
      ensures illicitWallets == old(illicitWallets)
    {
      if !(RequiredColumns <= columns) {
        return Fail("CSV must contain columns: Source_Wallet_ID, Dest_Wallet_ID, Timestamp, Amount, Token_Type");
      }
      transactions := rows;
      BuildGraph(rows);
      r := Pass;
    }

    /** `_build_graph`: the rows are applied one at a time, in feed order. */
    method BuildGraph(rows: seq<Tx>)
      requires Valid()
      modifies this`nodes, this`wallets, this`edges
      ensures Valid()
      ensures Snapshot() == Fold(old(Snapshot()), rows)
    {
      for i := 0 to |rows|
        invariant Snapshot() == Fold(old(Snapshot()), rows[..i])
        invariant Valid()
      {
        assert rows[..i + 1][..i] == rows[..i];
        AddTxValid(Snapshot(), rows[i]);
        AddRow(rows[i]);
      }
      assert rows[..|rows|] == rows;
    }

    /** The body of the `_build_graph` loop for one row: both endpoints are created if new,
        the sender's total sent and the receiver's total received grow by the amount, both
        last-seen times move forward, both counts grow by one, and the edge for the ordered
        pair is created or aggregated. */
    method AddRow(tx: Tx)
      modifies this`nodes, this`wallets, this`edges
      ensures Snapshot() == AddTx(old(Snapshot()), tx)
    {
      ghost var expected := AddTx(Snapshot(), tx);
      ghost var g1 := AddWallet(AddWallet(Snapshot(), tx.source, tx.timestamp), tx.dest, tx.timestamp);
      if tx.source !in wallets {
        nodes := nodes + [tx.source];
        wallets := wallets[tx.source := NewWallet(tx.timestamp)];
      }
      if tx.dest !in wallets {
        nodes := nodes + [tx.dest];
        wallets := wallets[tx.dest := NewWallet(tx.timestamp)];
      }
      assert Snapshot() == g1;
      var s := wallets[tx.source];
      wallets := wallets[tx.source := s.(totalSent := s.totalSent + tx.amount,
                                         lastSeen := MaxInt(s.lastSeen, tx.timestamp),
                                         txCount := s.txCount + 1)];
      var d := wallets[tx.dest];
      wallets := wallets[tx.dest := d.(totalReceived := d.totalReceived + tx.amount,
                                       lastSeen := MaxInt(d.lastSeen, tx.timestamp),
                                       txCount := d.txCount + 1)];
      assert wallets == expected.wallets;
      if (tx.source, tx.dest) in edges {
        var e := edges[(tx.source, tx.dest)];
        edges := edges[(tx.source, tx.dest) := e.(amount := e.amount + tx.amount,
                                                   txCount := e.txCount + 1,
                                                   timestamps := e.timestamps + [tx.timestamp])];
      } else {
        edges := edges[(tx.source, tx.dest) := EdgeRec(tx.amount, tx.tokenType, tx.timestamp, [tx.timestamp], 1)];
      }
    }

    /** `load_illicit_wallets` once the CSV has been read: a list without a `Wallet_ID`
        column is refused; otherwise the listed ids replace the illicit set and the listed
        wallets present in the graph are flagged. */
    method LoadIllicitWallets(columns: set<string>, rows: seq<IllicitRow>) returns (r: Outcome)
      requires Valid()
      modifies this
      ensures Valid()
      ensures r.Fail? <==> "Wallet_ID" !in columns
      ensures r.Fail? ==> wallets == old(wallets) && illicitWallets == old(illicitWallets)
      ensures r.Pass? ==> illicitWallets == (set i | 0 <= i < |rows| :: rows[i].wallet)
      ensures r.Pass? ==> wallets == MarkIllicit(old(wallets), illicitWallets, "Reason" in columns, rows)
      ensures nodes == old(nodes) && edges == old(edges) && transactions == old(transactions)
    {
      if "Wallet_ID" !in columns {
        return Fail("CSV must contain 'Wallet_ID' column");
      }
      illicitWallets := set i | 0 <= i < |rows| :: rows[i].wallet;
      var withReason := "Reason" in columns;
      var pending := illicitWallets;
      MarkIllicitNone(old(wallets), withReason, rows);
      assert illicitWallets - pending == {};
      while pending != {}
        invariant pending <= illicitWallets
        invariant wallets == MarkIllicit(old(wallets), illicitWallets - pending, withReason, rows)
        invariant illicitWallets == set i | 0 <= i < |rows| :: rows[i].wallet
        invariant nodes == old(nodes) && edges == old(edges) && transactions == old(transactions)
        decreases pending
      {
        var w :| w in pending;
        MarkIllicitStep(old(wallets), illicitWallets - pending, w, withReason, rows);
        assert illicitWallets - (pending - {w}) == (illicitWallets - pending) + {w};
        if w in wallets {
          var reason := if withReason then FirstReason(rows, w) else wallets[w].illicitReason;
          wallets := wallets[w := wallets[w].(illicit := true, illicitReason := reason)];
        }
        pending := pending - {w};
      }
      assert illicitWallets - {} == illicitWallets;
      r := Pass;
    }
  }
}
