/** What one committed poll publishes.

    `StagedPollKeepsLedger`: staging keeps every ledger invariant although each
    order is compared only with the committed progress.
    `QueuedAreDescribed`: whatever a poll queues meets one set description of its rows.
    The converse, and what it says about the order of the rows, is in `ExecutionReordering`.
 */
module ExecutionFacts {
  import opened ExecutionLedger
  import opened ExecutionPoll

  // ---- staging only appends, and keeps the ledger -------------------------------

  ghost predicate Extends(l: Ledger, m: Ledger) {
    && l.history <= m.history
    && (forall f :: f in l.facts ==> f in m.facts && m.facts[f] == l.facts[f])
    && l.progress.Keys <= m.progress.Keys
  }

  ghost predicate SameAt(p: map<string, Progress>, q: map<string, Progress>, x: string) {
    && (x in p <==> x in q)
    && (x in p ==> p[x] == q[x])
  }

  /** Staging touches only the progress of the orders it accepts. */
  lemma {:induction false} StageOrdersFrame(g: Generation, s: Staged, acc: seq<Entry>, x: string)
    requires AllOrders(acc)
    requires forall i :: 0 <= i < |acc| ==> Identity(acc[i].observation) != x
    ensures SameAt(s.ledger.progress, StageOrders(g, s, acc).ledger.progress, x)
  {
    if acc == [] {
    } else {
      StageOrdersFrame(g, s, acc[..|acc| - 1], x);
    }
  }

  lemma StageOrderKeeps(g: Generation, s: Staged, e: Entry)
    requires e.observation.content.Order? && LedgerInv(s.ledger)
    requires SameAt(g.ledger.progress, s.ledger.progress, Identity(e.observation))
    ensures LedgerInv(StageOrder(g, s, e).ledger) && Extends(s.ledger, StageOrder(g, s, e).ledger)
  {
    if StageOrder(g, s, e).ledger != s.ledger {
      PublishKeeps(s.ledger, e.observation);
    }
  }

  lemma {:induction false} StageOrdersKeep(g: Generation, s: Staged, acc: seq<Entry>)
    requires AllOrders(acc) && DistinctIdentities(acc)
    requires LedgerInv(s.ledger) && s.ledger == g.ledger
    ensures LedgerInv(StageOrders(g, s, acc).ledger)
  {
    if acc == [] {
    } else {
      var n := |acc| - 1;
      StageOrdersKeep(g, s, acc[..n]);
      // No earlier row of this poll has the same identity: the committed
      // progress of this order is still its latest one.
      StageOrdersFrame(g, s, acc[..n], Identity(acc[n].observation));
      StageOrderKeeps(g, StageOrders(g, s, acc[..n]), acc[n]);
    }
  }

  lemma {:induction false} StageOrdersExtend(g: Generation, s: Staged, acc: seq<Entry>)
    requires AllOrders(acc)
    ensures Extends(s.ledger, StageOrders(g, s, acc).ledger)
  {
    if acc == [] {
    } else {
      StageOrdersExtend(g, s, acc[..|acc| - 1]);
    }
  }

  lemma {:induction false} StageTradesExtend(g: Generation, s: Staged, acc: seq<Entry>)
    requires AllTrades(acc)
    ensures Extends(s.ledger, StageTrades(g, s, acc).ledger)
  {
    if acc == [] {
    } else {
      StageTradesExtend(g, s, acc[..|acc| - 1]);
    }
  }

  lemma {:induction false} StageTradesKeep(g: Generation, s: Staged, acc: seq<Entry>)
    requires AllTrades(acc) && LedgerInv(s.ledger)
    ensures var r := StageTrades(g, s, acc).ledger;
      LedgerInv(r) && Extends(s.ledger, r) && r.progress == s.ledger.progress
  {
    if acc == [] {
    } else {
      var n := |acc| - 1;
      StageTradesKeep(g, s, acc[..n]);
      var before := StageTrades(g, s, acc[..n]);
      if StageTrades(g, s, acc).ledger != before.ledger {
        PublishKeeps(before.ledger, acc[n].observation);
      }
    }
  }

  ghost predicate PollInput(g: Generation, orderRows: seq<NativeRow>, tradeRows: seq<NativeRow>) {
    && RowsKept(g)
    && RowsMatch(OrderKind, orderRows) && RowsMatch(TradeKind, tradeRows)
    && Digested(orderRows) && Digested(tradeRows)
  }

  ghost function AcceptedOrders(g: Generation, rows: seq<NativeRow>): (acc: seq<Entry>)
    requires RowsKept(g) && RowsMatch(OrderKind, rows) && Digested(rows)
    ensures AllOrders(acc) && DistinctIdentities(acc)
  {
    KindEntriesMatch(g, OrderKind, rows);
    IdentitiesAre(KindEntries(g, OrderKind, rows));
    AcceptedAreCandidates(KindEntries(g, OrderKind, rows), Identities(KindEntries(g, OrderKind, rows)));
    Accepted(KindEntries(g, OrderKind, rows))
  }

  ghost function AcceptedTrades(g: Generation, rows: seq<NativeRow>): (acc: seq<Entry>)
    requires RowsKept(g) && RowsMatch(TradeKind, rows) && Digested(rows)
    ensures AllTrades(acc) && DistinctIdentities(acc)
  {
    KindEntriesMatch(g, TradeKind, rows);
    IdentitiesAre(KindEntries(g, TradeKind, rows));
    AcceptedAreCandidates(KindEntries(g, TradeKind, rows), Identities(KindEntries(g, TradeKind, rows)));
    Accepted(KindEntries(g, TradeKind, rows))
  }

  /** Everything published before is kept, and every ledger invariant holds again. */
  lemma StagedPollKeepsLedger(g: Generation, orderRows: seq<NativeRow>, tradeRows: seq<NativeRow>)
    requires PollInput(g, orderRows, tradeRows) && LedgerInv(g.ledger)
    ensures LedgerInv(StagedPoll(g, orderRows, tradeRows).ledger)
    ensures Extends(g.ledger, StagedPoll(g, orderRows, tradeRows).ledger)
  {
    var s := Collected(g, orderRows, tradeRows);
    var acc := AcceptedOrders(g, orderRows);
    StageOrdersKeep(g, s, acc);
    StageOrdersExtend(g, s, acc);
    StageTradesKeep(g, StageOrders(g, s, acc), AcceptedTrades(g, tradeRows));
  }

  // ---- the set description --------------------------------------------------------

  /** An order observation this poll should publish. */
  ghost predicate DescribedOrder(g: Generation, orders: seq<Entry>, o: Observation) {
    && o.content.Order?
    && Candidate(orders, o)
    && o.factId !in g.ledger.facts
    && !Regresses(g.ledger.progress, o)
  }

  /** The order is already observed, or this poll publishes an observation of it. */
  ghost predicate OrderComes(g: Generation, orders: seq<Entry>, orderId: string) {
    orderId in g.ledger.progress || exists p :: DescribedOrder(g, orders, p) && IsOrder(p, orderId)
  }

  ghost predicate DescribedTrade(g: Generation, orders: seq<Entry>, trades: seq<Entry>, o: Observation) {
    && o.content.Trade?
    && Candidate(trades, o)
    && o.factId !in g.ledger.facts
    && (o.content.tradeOrder.Some? ==> OrderComes(g, orders, o.content.tradeOrder.value))
  }

  ghost predicate Described(g: Generation, orders: seq<Entry>, trades: seq<Entry>, o: Observation) {
    DescribedOrder(g, orders, o) || DescribedTrade(g, orders, trades, o)
  }

  /** The observations appended to the delivery history. */
  function Queued(before: Ledger, after: Ledger): seq<Observation>
    requires |before.history| <= |after.history|
  {
    after.history[|before.history|..]
  }

  predicate Publishable(g: Generation, o: Observation)
    requires o.content.Order?
  {
    o.factId !in g.ledger.facts && !Regresses(g.ledger.progress, o)
  }

  ghost predicate Reported(acc: seq<Entry>, o: Observation) {
    exists e :: e in acc && e.observation == o
  }

  lemma {:induction false} OrderIsQueuedFrom(g: Generation, s: Staged, acc: seq<Entry>, q: Observation)
    requires AllOrders(acc) && s.ledger == g.ledger
    ensures Extends(g.ledger, StageOrders(g, s, acc).ledger)
    ensures q in Queued(g.ledger, StageOrders(g, s, acc).ledger) ==>
      q.content.Order? && Reported(acc, q) && Publishable(g, q)
  {
    if acc == [] {
    } else {
      var n := |acc| - 1;
      OrderIsQueuedFrom(g, s, acc[..n], q);
      var before := StageOrders(g, s, acc[..n]).ledger;
      var after := StageOrders(g, s, acc).ledger;
      assert acc[n] in acc;
      if after != before {
        assert Queued(g.ledger, after) == Queued(g.ledger, before) + [acc[n].observation];
      }
      if Reported(acc[..n], q) {
        var e :| e in acc[..n] && e.observation == q;
        assert e in acc;
      }
    }
  }

  lemma {:induction false} OrderIsPublished(g: Generation, s: Staged, acc: seq<Entry>, e: Entry)
    requires AllOrders(acc) && s.ledger == g.ledger
    requires e in acc && e.observation.content.Order? && Publishable(g, e.observation)
    ensures e.observation.factId in StageOrders(g, s, acc).ledger.facts
  {
    var n := |acc| - 1;
    if e != acc[n] {
      OrderIsPublished(g, s, acc[..n], e);
    }
  }

  lemma {:induction false} TradeIsQueuedFrom(g: Generation, s: Staged, acc: seq<Entry>, q: Observation)
    requires AllTrades(acc)
    ensures Extends(s.ledger, StageTrades(g, s, acc).ledger)
    ensures StageTrades(g, s, acc).ledger.progress == s.ledger.progress
    ensures q in Queued(s.ledger, StageTrades(g, s, acc).ledger) ==>
      q.content.Trade? && Reported(acc, q) && q.factId !in s.ledger.facts && OrderObserved(s.ledger.progress, q)
  {
    if acc == [] {
    } else {
      var n := |acc| - 1;
      TradeIsQueuedFrom(g, s, acc[..n], q);
      var before := StageTrades(g, s, acc[..n]).ledger;
      var after := StageTrades(g, s, acc).ledger;
      assert acc[n] in acc;
      if after != before {
        assert Queued(s.ledger, after) == Queued(s.ledger, before) + [acc[n].observation];
      }
      if Reported(acc[..n], q) {
        var e :| e in acc[..n] && e.observation == q;
        assert e in acc;
      }
    }
  }

  lemma {:induction false} TradeIsPublished(g: Generation, s: Staged, acc: seq<Entry>, e: Entry)
    requires AllTrades(acc)
    requires e in acc && e.observation.content.Trade? && OrderObserved(s.ledger.progress, e.observation)
    ensures e.observation.factId in StageTrades(g, s, acc).ledger.facts
  {
    var n := |acc| - 1;
    TradeIsQueuedFrom(g, s, acc[..n], e.observation);
    if e != acc[n] {
      TradeIsPublished(g, s, acc[..n], e);
    }
  }

  ghost function Orders(g: Generation, orderRows: seq<NativeRow>): seq<Entry>
    requires Digested(orderRows)
  {
    KindEntries(g, OrderKind, orderRows)
  }

  ghost function Trades(g: Generation, tradeRows: seq<NativeRow>): seq<Entry>
    requires Digested(tradeRows)
  {
    KindEntries(g, TradeKind, tradeRows)
  }

  /** The state between the two staging loops. */
  ghost function OrderStage(g: Generation, orderRows: seq<NativeRow>, tradeRows: seq<NativeRow>): Staged
    requires PollInput(g, orderRows, tradeRows)
  {
    StageOrders(g, Collected(g, orderRows, tradeRows), AcceptedOrders(g, orderRows))
  }

  lemma AcceptedIsCandidate(entries: seq<Entry>, o: Observation)
    requires Reported(Accepted(entries), o)
    ensures Candidate(entries, o)
  {
    IdentitiesAre(entries);
    AcceptedAreCandidates(entries, Identities(entries));
  }

  /** A newly tracked order is one this poll queued. */
  lemma NewProgressIsQueued(l: Ledger, m: Ledger, x: string) returns (q: Observation)
    requires LedgerInv(l) && LedgerInv(m) && Extends(l, m)
    requires x in m.progress && x !in l.progress
    ensures q in Queued(l, m) && IsOrder(q, x)
  {
    hide FactsOnce, OrdersAdvance, TradesFollowOrders;
    var i :| IsLatest(m.history, i, x) && m.progress[x] == ProgressOf(m.history[i]);
    q := m.history[i];
    assert forall k :: 0 <= k < |l.history| ==> l.history[k] == m.history[k];
    assert q == Queued(l, m)[i - |l.history|];
  }

  /** A newly published fact id is that of one queued observation. */
  lemma NewFactIsQueued(l: Ledger, m: Ledger, f: string) returns (q: Observation)
    requires LedgerInv(l) && LedgerInv(m) && Extends(l, m)
    requires f in m.facts && f !in l.facts
    ensures q in Queued(l, m) && q.factId == f && q.factDigest == m.facts[f]
  {
    hide ProgressIsLatest, OrdersAdvance, TradesFollowOrders;
    var i :| 0 <= i < |m.history| && m.history[i].factId == f;
    q := m.history[i];
    assert forall k :: 0 <= k < |l.history| ==> l.history[k] == m.history[k];
    assert q == Queued(l, m)[i - |l.history|];
  }

  lemma OrderStageKeeps(g: Generation, orderRows: seq<NativeRow>, tradeRows: seq<NativeRow>)
    requires PollInput(g, orderRows, tradeRows) && LedgerInv(g.ledger)
    ensures var m := OrderStage(g, orderRows, tradeRows).ledger;
      LedgerInv(m) && Extends(g.ledger, m) && Extends(m, StagedPoll(g, orderRows, tradeRows).ledger)
  {
    StageOrdersKeep(g, Collected(g, orderRows, tradeRows), AcceptedOrders(g, orderRows));
    StageOrdersExtend(g, Collected(g, orderRows, tradeRows), AcceptedOrders(g, orderRows));
    StageTradesKeep(g, OrderStage(g, orderRows, tradeRows), AcceptedTrades(g, tradeRows));
  }

  /** The orders queued by a poll are described, and so is every order a trade may rely on. */
  lemma OrderStageIsDescribed(g: Generation, orderRows: seq<NativeRow>, tradeRows: seq<NativeRow>)
    requires PollInput(g, orderRows, tradeRows) && LedgerInv(g.ledger)
    ensures var m := OrderStage(g, orderRows, tradeRows).ledger;
      && Extends(g.ledger, m)
      && (forall q :: q in Queued(g.ledger, m) ==> DescribedOrder(g, Orders(g, orderRows), q))
      && (forall x :: x in m.progress ==> OrderComes(g, Orders(g, orderRows), x))
  {
    OrderStageKeeps(g, orderRows, tradeRows);
    var s := Collected(g, orderRows, tradeRows);
    var acc := AcceptedOrders(g, orderRows);
    var m := OrderStage(g, orderRows, tradeRows).ledger;
    forall q | q in Queued(g.ledger, m) ensures DescribedOrder(g, Orders(g, orderRows), q) {
      OrderIsQueuedFrom(g, s, acc, q);
      AcceptedIsCandidate(Orders(g, orderRows), q);
    }
    forall x | x in m.progress ensures OrderComes(g, Orders(g, orderRows), x) {
      if x !in g.ledger.progress {
        var q := NewProgressIsQueued(g.ledger, m, x);
      }
    }
  }

  lemma QueuedInParts(l: Ledger, m: Ledger, n: Ledger)
    requires Extends(l, m) && Extends(m, n)
    ensures Extends(l, n)
    ensures forall q :: q in Queued(l, n) <==> q in Queued(l, m) || q in Queued(m, n)
  {
    assert Queued(l, n) == Queued(l, m) + Queued(m, n);
  }

  /** The trades queued by a poll are described. */
  lemma TradeStageIsDescribed(g: Generation, orderRows: seq<NativeRow>, tradeRows: seq<NativeRow>, q: Observation)
    requires PollInput(g, orderRows, tradeRows) && LedgerInv(g.ledger)
    requires Extends(OrderStage(g, orderRows, tradeRows).ledger, StagedPoll(g, orderRows, tradeRows).ledger)
    requires q in Queued(OrderStage(g, orderRows, tradeRows).ledger, StagedPoll(g, orderRows, tradeRows).ledger)
    ensures DescribedTrade(g, Orders(g, orderRows), Trades(g, tradeRows), q)
  {
    OrderStageIsDescribed(g, orderRows, tradeRows);
    TradeIsQueuedFrom(g, OrderStage(g, orderRows, tradeRows), AcceptedTrades(g, tradeRows), q);
    AcceptedIsCandidate(Trades(g, tradeRows), q);
  }

  /** Soundness, with no assumption on fact ids: every queued observation is described. */
  lemma QueuedAreDescribed(g: Generation, orderRows: seq<NativeRow>, tradeRows: seq<NativeRow>, q: Observation)
    requires PollInput(g, orderRows, tradeRows) && LedgerInv(g.ledger)
    ensures Extends(g.ledger, StagedPoll(g, orderRows, tradeRows).ledger)
    ensures q in Queued(g.ledger, StagedPoll(g, orderRows, tradeRows).ledger) ==>
      Described(g, Orders(g, orderRows), Trades(g, tradeRows), q)
  {
    hide LedgerInv, StagedPoll, OrderStage, Queued, DescribedOrder, DescribedTrade;
    OrderStageKeeps(g, orderRows, tradeRows);
    OrderStageIsDescribed(g, orderRows, tradeRows);
    var mid := OrderStage(g, orderRows, tradeRows).ledger;
    var after := StagedPoll(g, orderRows, tradeRows).ledger;
    QueuedInParts(g.ledger, mid, after);
    if q in Queued(mid, after) {
      TradeStageIsDescribed(g, orderRows, tradeRows, q);
    }
  }
}
