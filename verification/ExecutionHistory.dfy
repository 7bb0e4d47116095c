/** Exactly what a poll appends to the history, and in which order. */
module ExecutionHistory {
  import opened Options
  import opened ExecutionLedger
  import opened ExecutionPoll
  import opened ExecutionFacts
  import opened ExecutionReordering
  import opened ExecutionRepresentatives
  import opened ExecutionRun
  import opened ExecutionOutcomes
  import opened ExecutionRefusals

  // ---- accepted rows in row order -------------------------------------------------------------------

  /** Row i is the first of its identity, and all rows of that identity report its fact. */
  ghost predicate LeadsAt(entries: seq<Entry>, i: int) {
    0 <= i < |entries| && FirstOfIdentity(entries, i, Identity(entries[i].observation)) && Leads(entries, entries[i])
  }

  /** The leading rows among the first n, in row order. */
  ghost function Leaders(entries: seq<Entry>, n: nat): seq<Entry>
    requires n <= |entries|
  {
    if n == 0 then []
    else Leaders(entries, n - 1) + (if LeadsAt(entries, n - 1) then [entries[n - 1]] else [])
  }

  lemma {:induction false} IdentitiesOfPrefix(entries: seq<Entry>, n: nat, x: string)
    requires n <= |entries|
    ensures x in Identities(entries[..n]) <==> exists i :: 0 <= i < n && Identity(entries[i].observation) == x
  {
    if n == 0 {
    } else {
      IdentitiesOfPrefix(entries, n - 1, x);
      assert entries[..n][..n - 1] == entries[..n - 1];
    }
  }

  lemma FirstHeadsGroup(entries: seq<Entry>, i: int)
    requires 0 <= i < |entries| && FirstOfIdentity(entries, i, Identity(entries[i].observation))
    ensures var group := Group(entries, Identity(entries[i].observation)); group != [] && group[0] == entries[i]
  {
    var x := Identity(entries[i].observation);
    GroupStarts(entries, x);
    assert entries[i] in entries;
    var j :| FirstOfIdentity(entries, j, x) && entries[j] == Group(entries, x)[0];
    OnlyOneFirst(entries, i, j, x);
  }

  lemma {:induction false} AcceptedInOrder(entries: seq<Entry>, n: nat)
    requires n <= |entries|
    ensures AcceptedAmong(entries, Identities(entries[..n])) == Leaders(entries, n)
  {
    if n == 0 {
      assert Identities(entries[..0]) == [];
    } else {
      var k := n - 1;
      AcceptedInOrder(entries, k);
      var x := Identity(entries[k].observation);
      assert entries[..n][..k] == entries[..k];
      IdentitiesOfPrefix(entries, k, x);
      var before := Identities(entries[..k]);
      if x !in before {
        assert FirstOfIdentity(entries, k, x);
        FirstHeadsGroup(entries, k);
        LeaderStarts(entries, entries[k]);
        assert Identities(entries[..n]) == before + [x];
        assert (before + [x])[..|before|] == before;
      }
      hide Leads, Group, Agrees;
    }
  }

  /** The accepted rows are the leading ones, in row order. */
  lemma AcceptedAreLeaders(entries: seq<Entry>)
    ensures Accepted(entries) == Leaders(entries, |entries|)
  {
    AcceptedInOrder(entries, |entries|);
    assert entries[..|entries|] == entries;
  }

  // ---- the two loops --------------------------------------------------------------------------------------

  ghost predicate OrderPublishes(l: Ledger, o: Observation) {
    o.content.Order? && o.factId !in l.facts && !Regresses(l.progress, o)
  }

  ghost predicate TradePublishes(l: Ledger, o: Observation) {
    o.content.Trade? && o.factId !in l.facts && OrderObserved(l.progress, o)
  }

  ghost function PublishedOrders(l: Ledger, acc: seq<Entry>): seq<Observation> {
    if acc == [] then []
    else
      var o := acc[|acc| - 1].observation;
      PublishedOrders(l, acc[..|acc| - 1]) + (if OrderPublishes(l, o) then [o] else [])
  }

  ghost function PublishedTrades(l: Ledger, acc: seq<Entry>): seq<Observation> {
    if acc == [] then []
    else
      var o := acc[|acc| - 1].observation;
      PublishedTrades(l, acc[..|acc| - 1]) + (if TradePublishes(l, o) then [o] else [])
  }

  lemma {:induction false} OrderLoopAppends(g: Generation, s: Staged, acc: seq<Entry>)
    requires AllOrders(acc) && s.ledger == g.ledger && IdsApart(acc)
    ensures StageOrders(g, s, acc).ledger.history == g.ledger.history + PublishedOrders(g.ledger, acc)
  {
    if acc == [] {
    } else {
      var n := |acc| - 1;
      OrderLoopAppends(g, s, acc[..n]);
      LoopFacts(g, s, acc[..n], acc[n].observation.factId);
      assert forall i :: 0 <= i < n ==> acc[..n][i].observation.factId != acc[n].observation.factId;
      hide Regresses;
    }
  }

  lemma {:induction false} TradeLoopAppends(g: Generation, s: Staged, acc: seq<Entry>)
    requires AllTrades(acc) && IdsApart(acc)
    ensures StageTrades(g, s, acc).ledger.history == s.ledger.history + PublishedTrades(s.ledger, acc)
  {
    if acc == [] {
    } else {
      var n := |acc| - 1;
      TradeLoopAppends(g, s, acc[..n]);
      TradeLoopFacts(g, s, acc[..n], acc[n].observation.factId);
      assert forall i :: 0 <= i < n ==> acc[..n][i].observation.factId != acc[n].observation.factId;
      hide OrderObserved;
    }
  }

  // ---- said of the rows and the history ------------------------------------------------------------------------

  /** The new orders among the first n rows, in row order. */
  ghost function NewOrders(h: seq<Observation>, orders: seq<Entry>, n: nat): seq<Observation>
    requires n <= |orders|
  {
    if n == 0 then []
    else
      NewOrders(h, orders, n - 1) +
      (if LeadsAt(orders, n - 1) && NewOrder(h, orders, orders[n - 1]) then [orders[n - 1].observation] else [])
  }

  /** The new trades among the first n rows, in row order. */
  ghost function NewTrades(h: seq<Observation>, orders: seq<Entry>, trades: seq<Entry>, n: nat): seq<Observation>
    requires n <= |trades|
  {
    if n == 0 then []
    else
      NewTrades(h, orders, trades, n - 1) +
      (if LeadsAt(trades, n - 1) && NewTrade(h, orders, trades, trades[n - 1]) then [trades[n - 1].observation] else [])
  }

  lemma {:induction false} PublishedAreNewOrders(l: Ledger, orders: seq<Entry>, n: nat)
    requires n <= |orders| && LedgerInv(l)
    ensures PublishedOrders(l, Leaders(orders, n)) == NewOrders(l.history, orders, n)
  {
    if n == 0 {
    } else {
      PublishedAreNewOrders(l, orders, n - 1);
      var e := orders[n - 1];
      hide LedgerInv, Leads, IsPublished, IsOvertaken, Regresses;
      if LeadsAt(orders, n - 1) {
        var acc := Leaders(orders, n);
        assert acc[..|acc| - 1] == Leaders(orders, n - 1) && acc[|acc| - 1] == e;
        PublishedIs(l, e.observation.factId);
        if e.observation.content.Order? {
          OvertakenIs(l, e.observation);
        }
      } else {
        assert Leaders(orders, n) == Leaders(orders, n - 1);
        assert NewOrders(l.history, orders, n) == NewOrders(l.history, orders, n - 1);
      }
    }
  }

  lemma {:induction false} PublishedAreNewTrades(g: Generation, o: seq<NativeRow>, t: seq<NativeRow>, n: nat)
    requires Wellformed(g, o, t) && n <= |Trades(g, t)|
    ensures PublishedTrades(OrderStage(g, o, t).ledger, Leaders(Trades(g, t), n)) ==
            NewTrades(g.ledger.history, Orders(g, o), Trades(g, t), n)
  {
    hide LedgerInv, RowsKept, RowsMatch, FactIdsIdentify, OrderStage, KindEntries, NewTrade, TradePublishes;
    if n == 0 {
    } else {
      PublishedAreNewTrades(g, o, t, n - 1);
      var e := Trades(g, t)[n - 1];
      if LeadsAt(Trades(g, t), n - 1) {
        var acc := Leaders(Trades(g, t), n);
        assert acc[..|acc| - 1] == Leaders(Trades(g, t), n - 1) && acc[|acc| - 1] == e;
        LeaderTradeIs(g, o, t, e);
      } else {
        var h, orders, trades := g.ledger.history, Orders(g, o), Trades(g, t);
        assert Leaders(trades, n) == Leaders(trades, n - 1);
        assert NewTrades(h, orders, trades, n) == NewTrades(h, orders, trades, n - 1);
      }
    }
  }

  lemma LeaderTradeIs(g: Generation, o: seq<NativeRow>, t: seq<NativeRow>, e: Entry)
    requires Wellformed(g, o, t) && Leads(Trades(g, t), e)
    ensures TradePublishes(OrderStage(g, o, t).ledger, e.observation) <==>
      NewTrade(g.ledger.history, Orders(g, o), Trades(g, t), e)
  {
    hide LedgerInv, RowsKept, RowsMatch, FactIdsIdentify, OrderStage, KindEntries, Accepted;
    hide Leads, IsPublished, Misses, OrderObserved, Clashes, TradeClashes;
    AcceptedIsTrade(g, t, e);
    TradeIs(g, o, t, e);
  }

  /** A poll appends exactly its new orders, in the order of their rows, and then its new trades in the order of
      theirs: of each identity whose rows agree the first row, if its fact is not published, the history has not
      overtaken it, and the order it names is known. */
  lemma PollAppends(g: Generation, o: seq<NativeRow>, t: seq<NativeRow>)
    requires Wellformed(g, o, t) && Poll(g, o, t).Committed?
    ensures var h, orders, trades := g.ledger.history, Orders(g, o), Trades(g, t);
      Poll(g, o, t).generation.ledger.history ==
      h + NewOrders(h, orders, |orders|) + NewTrades(h, orders, trades, |trades|)
  {
    hide LedgerInv, RowsKept, RowsMatch, FactIdsIdentify, Accepted, KindEntries, StageOrders, StageTrades;
    hide KeysApart, IdsApart, Unrefused, AllOrders, AllTrades, Bump, NewCauses, UnseenRows, NewOrders, NewTrades;
    PollApart(g, o, t);
    var s := Collected(g, o, t);
    OrderLoopAppends(g, s, AcceptedOrders(g, o));
    TradeLoopAppends(g, OrderStage(g, o, t), AcceptedTrades(g, t));
    AcceptedAreLeaders(Orders(g, o));
    AcceptedAreLeaders(Trades(g, t));
    PublishedAreNewOrders(g.ledger, Orders(g, o), |Orders(g, o)|);
    PublishedAreNewTrades(g, o, t, |Trades(g, t)|);
    hide Collected, PublishedOrders, PublishedTrades;
  }
}
