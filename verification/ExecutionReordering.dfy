/** Completeness of the set description, and what follows from it: in a settled poll,
    reordering or repeating the rows publishes the same facts. */
module ExecutionReordering {
  import opened Options
  import opened ExecutionLedger
  import opened ExecutionPoll
  import opened ExecutionFacts

  /** A fact id names one kind and one identity. */
  ghost predicate FactIdsIdentify(entries: seq<Entry>) {
    forall a, b :: a in entries && b in entries && a.observation.factId == b.observation.factId ==>
      && (a.observation.content.Order? <==> b.observation.content.Order?)
      && Identity(a.observation) == Identity(b.observation)
  }

  /** A fact digest covers the order state, and the order a trade names. */
  ghost predicate DigestsCover(entries: seq<Entry>) {
    forall a, b :: a in entries && b in entries && SameFact(a.observation, b.observation) ==>
      a.observation.content == b.observation.content
  }

  ghost predicate Wellformed(g: Generation, orderRows: seq<NativeRow>, tradeRows: seq<NativeRow>) {
    && PollInput(g, orderRows, tradeRows) && LedgerInv(g.ledger)
    && FactIdsIdentify(Orders(g, orderRows) + Trades(g, tradeRows))
  }

  ghost predicate Covered(g: Generation, orderRows: seq<NativeRow>, tradeRows: seq<NativeRow>)
    requires Digested(orderRows) && Digested(tradeRows)
  {
    DigestsCover(Orders(g, orderRows) + Trades(g, tradeRows))
  }

  // ---- when the choice of a representative does not matter --------------------------------------

  /** Two rows of one identity that is undisputed and reports an unpublished fact. */
  ghost predicate Interchangeable(g: Generation, entries: seq<Entry>, e: Entry, d: Entry) {
    && e in entries && d in entries && Identity(d.observation) == Identity(e.observation)
    && Candidate(entries, e.observation) && e.observation.factId !in g.ledger.facts
  }

  /** Interchangeable order rows regress together or not at all. */
  ghost predicate OrdersAgree(g: Generation, orders: seq<Entry>) {
    forall e, d :: Interchangeable(g, orders, e, d) && e.observation.content.Order? && d.observation.content.Order? ==>
      (Regresses(g.ledger.progress, e.observation) <==> Regresses(g.ledger.progress, d.observation))
  }

  /** The trade names an order that is not observed and is not published by this poll. */
  ghost predicate Waits(g: Generation, orders: seq<Entry>, o: Observation) {
    o.content.Trade? && o.content.tradeOrder.Some? && !OrderComes(g, orders, o.content.tradeOrder.value)
  }

  /** Interchangeable trade rows wait for an order together or not at all. */
  ghost predicate TradesAgree(g: Generation, orders: seq<Entry>, trades: seq<Entry>) {
    forall e, d :: Interchangeable(g, trades, e, d) ==>
      (Waits(g, orders, e.observation) <==> Waits(g, orders, d.observation))
  }

  ghost predicate Settled(g: Generation, orderRows: seq<NativeRow>, tradeRows: seq<NativeRow>)
    requires Digested(orderRows) && Digested(tradeRows)
  {
    OrdersAgree(g, Orders(g, orderRows)) && TradesAgree(g, Orders(g, orderRows), Trades(g, tradeRows))
  }

  /** Digests that cover the content settle every poll. */
  lemma CoveredIsSettled(g: Generation, orderRows: seq<NativeRow>, tradeRows: seq<NativeRow>)
    requires Wellformed(g, orderRows, tradeRows) && Covered(g, orderRows, tradeRows)
    ensures Settled(g, orderRows, tradeRows)
  {
    hide LedgerInv, RowsKept, RowsMatch, Regresses, Waits, FactIdsIdentify;
    var orders, trades := Orders(g, orderRows), Trades(g, tradeRows);
    forall e, d | Interchangeable(g, orders, e, d) ensures e.observation.content == d.observation.content {
      assert e in orders + trades && d in orders + trades;
    }
    forall e, d | Interchangeable(g, trades, e, d)
      ensures Waits(g, orders, e.observation) <==> Waits(g, orders, d.observation)
    {
      assert e in orders + trades && d in orders + trades;
      WaitsByContent(g, orders, e.observation, d.observation);
    }
    forall e, d | Interchangeable(g, orders, e, d) && e.observation.content.Order? && d.observation.content.Order?
      ensures Regresses(g.ledger.progress, e.observation) <==> Regresses(g.ledger.progress, d.observation)
    {
      RegressesByContent(g, e.observation, d.observation);
    }
  }

  lemma WaitsByContent(g: Generation, orders: seq<Entry>, o: Observation, q: Observation)
    requires o.content == q.content
    ensures Waits(g, orders, o) <==> Waits(g, orders, q)
  {
  }

  lemma RegressesByContent(g: Generation, o: Observation, q: Observation)
    requires o.content == q.content && o.content.Order?
    ensures Regresses(g.ledger.progress, o) <==> Regresses(g.ledger.progress, q)
  {
  }

  // ---- completeness --------------------------------------------------------------------------------

  /** Two described observations with one fact id, or of one identity, are the same fact; and the
      same content if digests cover it. */
  lemma DescribedAreIdentified(g: Generation, orderRows: seq<NativeRow>, tradeRows: seq<NativeRow>, o: Observation,
                               q: Observation)
    requires Wellformed(g, orderRows, tradeRows)
    requires Described(g, Orders(g, orderRows), Trades(g, tradeRows), o)
    requires Described(g, Orders(g, orderRows), Trades(g, tradeRows), q)
    requires o.factId == q.factId || (Identity(o) == Identity(q) && (o.content.Order? <==> q.content.Order?))
    ensures SameFact(o, q) && Identity(o) == Identity(q) && (o.content.Order? <==> q.content.Order?)
    ensures Covered(g, orderRows, tradeRows) ==> o.content == q.content
  {
    var all := Orders(g, orderRows) + Trades(g, tradeRows);
    var d := if o.content.Order? then Orders(g, orderRows) else Trades(g, tradeRows);
    var e :| e in d && e.observation == o;
    var c := if q.content.Order? then Orders(g, orderRows) else Trades(g, tradeRows);
    var f :| f in c && f.observation == q;
    assert e in all && f in all;
  }

  lemma EntryOf(entries: seq<Entry>, o: Observation) returns (d: Entry)
    requires Candidate(entries, o)
    ensures d in entries && d.observation == o
  {
    d :| d in entries && d.observation == o;
  }

  lemma OrderEntryIsOrder(g: Generation, rows: seq<NativeRow>, e: Entry)
    requires RowsKept(g) && RowsMatch(OrderKind, rows) && Digested(rows) && e in Orders(g, rows)
    ensures e.observation.content.Order?
  {
    KindEntriesMatch(g, OrderKind, rows);
  }

  lemma AcceptedIsEntry(entries: seq<Entry>, e: Entry)
    requires e in Accepted(entries)
    ensures e in entries
  {
    IdentitiesAre(entries);
    AcceptedAreCandidates(entries, Identities(entries));
  }

  /** A described order is queued, as the fact its rows agree on. */
  lemma DescribedOrderIsQueued(g: Generation, orderRows: seq<NativeRow>, tradeRows: seq<NativeRow>, o: Observation)
    returns (q: Observation)
    requires Wellformed(g, orderRows, tradeRows) && OrdersAgree(g, Orders(g, orderRows))
    requires DescribedOrder(g, Orders(g, orderRows), o)
    ensures Extends(g.ledger, OrderStage(g, orderRows, tradeRows).ledger)
    ensures q in Queued(g.ledger, OrderStage(g, orderRows, tradeRows).ledger)
    ensures SameFact(q, o) && Identity(q) == Identity(o) && q.content.Order?
    ensures Covered(g, orderRows, tradeRows) ==> q.content == o.content
  {
    hide LedgerInv, FactIdsIdentify, Candidate, Accepted, OrderStage, Queued, Extends, Covered;
    var e := RepresentativePublishes(g, orderRows, o);
    OrderStagePublishes(g, orderRows, tradeRows, e);
    OrderStageKeeps(g, orderRows, tradeRows);
    q := NewFactIsQueued(g.ledger, OrderStage(g, orderRows, tradeRows).ledger, o.factId);
    OrderStageIsDescribed(g, orderRows, tradeRows);
    DescribedAreIdentified(g, orderRows, tradeRows, o, q);
  }

  lemma RepresentativePublishes(g: Generation, orderRows: seq<NativeRow>, o: Observation) returns (e: Entry)
    requires RowsKept(g) && RowsMatch(OrderKind, orderRows) && Digested(orderRows)
    requires OrdersAgree(g, Orders(g, orderRows)) && DescribedOrder(g, Orders(g, orderRows), o)
    ensures e in AcceptedOrders(g, orderRows) && e.observation.content.Order? && SameFact(e.observation, o)
    ensures Publishable(g, e.observation)
  {
    hide RowsKept, RowsMatch, Regresses, Accepted;
    e := CandidateIsAccepted(Orders(g, orderRows), o);
    AcceptedIsEntry(Orders(g, orderRows), e);
    OrderEntryIsOrder(g, orderRows, e);
    var d := EntryOf(Orders(g, orderRows), o);
    assert Interchangeable(g, Orders(g, orderRows), d, e);
  }

  lemma OrderStagePublishes(g: Generation, orderRows: seq<NativeRow>, tradeRows: seq<NativeRow>, e: Entry)
    requires PollInput(g, orderRows, tradeRows)
    requires e in AcceptedOrders(g, orderRows) && e.observation.content.Order? && Publishable(g, e.observation)
    ensures e.observation.factId in OrderStage(g, orderRows, tradeRows).ledger.facts
  {
    OrderIsPublished(g, Collected(g, orderRows, tradeRows), AcceptedOrders(g, orderRows), e);
  }

  lemma QueuedIsTracked(l: Ledger, m: Ledger, q: Observation)
    requires LedgerInv(m) && Extends(l, m) && q in Queued(l, m) && q.content.Order?
    ensures q.content.orderId in m.progress
  {
    var i :| 0 <= i < |Queued(l, m)| && Queued(l, m)[i] == q;
    assert m.history[|l.history| + i] == q;
  }

  lemma QueuedIsPublished(l: Ledger, m: Ledger, q: Observation)
    requires LedgerInv(m) && Extends(l, m) && q in Queued(l, m)
    ensures q.factId in m.facts && m.facts[q.factId] == q.factDigest
  {
    var i :| 0 <= i < |Queued(l, m)| && Queued(l, m)[i] == q;
    assert m.history[|l.history| + i] == q;
  }

  lemma ExtendsTracks(l: Ledger, m: Ledger, x: string)
    requires Extends(l, m) && x in l.progress
    ensures x in m.progress
  {
    assert x in l.progress.Keys;
  }

  lemma WellformedKeeps(g: Generation, orderRows: seq<NativeRow>, tradeRows: seq<NativeRow>)
    requires Wellformed(g, orderRows, tradeRows)
    ensures LedgerInv(OrderStage(g, orderRows, tradeRows).ledger)
    ensures Extends(g.ledger, OrderStage(g, orderRows, tradeRows).ledger)
  {
    OrderStageKeeps(g, orderRows, tradeRows);
  }

  /** A trade whose order comes finds that order observed when it is staged. */
  lemma OrderIsObserved(g: Generation, orderRows: seq<NativeRow>, tradeRows: seq<NativeRow>, x: string)
    requires Wellformed(g, orderRows, tradeRows) && OrdersAgree(g, Orders(g, orderRows))
    requires OrderComes(g, Orders(g, orderRows), x)
    ensures x in OrderStage(g, orderRows, tradeRows).ledger.progress
  {
    hide LedgerInv, OrderStage, Queued, DescribedOrder, Extends, FactIdsIdentify, OrdersAgree;
    WellformedKeeps(g, orderRows, tradeRows);
    if x in g.ledger.progress {
      ExtendsTracks(g.ledger, OrderStage(g, orderRows, tradeRows).ledger, x);
    } else {
      var p :| DescribedOrder(g, Orders(g, orderRows), p) && IsOrder(p, x);
      var q := DescribedOrderIsQueued(g, orderRows, tradeRows, p);
      QueuedIsTracked(g.ledger, OrderStage(g, orderRows, tradeRows).ledger, q);
    }
  }

  lemma TradeIsStaged(g: Generation, orderRows: seq<NativeRow>, tradeRows: seq<NativeRow>, o: Observation)
    requires Wellformed(g, orderRows, tradeRows) && Settled(g, orderRows, tradeRows)
    requires DescribedTrade(g, Orders(g, orderRows), Trades(g, tradeRows), o)
    ensures o.factId in StagedPoll(g, orderRows, tradeRows).ledger.facts
  {
    hide LedgerInv, FactIdsIdentify, OrdersAgree, OrderStage, RowsKept, RowsMatch, Accepted, OrderComes;
    var e := CandidateIsAccepted(Trades(g, tradeRows), o);
    AcceptedIsEntry(Trades(g, tradeRows), e);
    var d := EntryOf(Trades(g, tradeRows), o);
    assert Interchangeable(g, Trades(g, tradeRows), d, e);
    assert !Waits(g, Orders(g, orderRows), o);
    TradeEntryIsTrade(g, tradeRows, e);
    if e.observation.content.tradeOrder.Some? {
      OrderIsObserved(g, orderRows, tradeRows, e.observation.content.tradeOrder.value);
    }
    TradeStagePublishes(g, orderRows, tradeRows, e);
  }

  lemma TradeEntryIsTrade(g: Generation, rows: seq<NativeRow>, e: Entry)
    requires RowsKept(g) && RowsMatch(TradeKind, rows) && Digested(rows) && e in Trades(g, rows)
    ensures e.observation.content.Trade?
  {
    KindEntriesMatch(g, TradeKind, rows);
  }

  lemma TradeStagePublishes(g: Generation, orderRows: seq<NativeRow>, tradeRows: seq<NativeRow>, e: Entry)
    requires PollInput(g, orderRows, tradeRows) && e in AcceptedTrades(g, tradeRows) && e.observation.content.Trade?
    requires OrderObserved(OrderStage(g, orderRows, tradeRows).ledger.progress, e.observation)
    ensures e.observation.factId in StagedPoll(g, orderRows, tradeRows).ledger.facts
  {
    TradeIsPublished(g, OrderStage(g, orderRows, tradeRows), AcceptedTrades(g, tradeRows), e);
  }

  lemma DescribedTradeIsQueued(g: Generation, orderRows: seq<NativeRow>, tradeRows: seq<NativeRow>, o: Observation)
    returns (q: Observation)
    requires Wellformed(g, orderRows, tradeRows) && Settled(g, orderRows, tradeRows)
    requires DescribedTrade(g, Orders(g, orderRows), Trades(g, tradeRows), o)
    ensures Extends(g.ledger, StagedPoll(g, orderRows, tradeRows).ledger)
    ensures q in Queued(g.ledger, StagedPoll(g, orderRows, tradeRows).ledger)
    ensures SameFact(q, o) && (Covered(g, orderRows, tradeRows) ==> q.content == o.content)
  {
    hide LedgerInv, StagedPoll, Queued, Extends, FactIdsIdentify, Settled, Covered;
    StagedPollKeepsLedger(g, orderRows, tradeRows);
    TradeIsStaged(g, orderRows, tradeRows, o);
    q := NewFactIsQueued(g.ledger, StagedPoll(g, orderRows, tradeRows).ledger, o.factId);
    QueuedAreDescribed(g, orderRows, tradeRows, q);
    DescribedAreIdentified(g, orderRows, tradeRows, o, q);
  }

  lemma QueuedStaysQueued(l: Ledger, m: Ledger, n: Ledger, q: Observation)
    requires Extends(l, m) && Extends(m, n) && q in Queued(l, m)
    ensures Extends(l, n) && q in Queued(l, n)
  {
    assert Queued(l, n) == Queued(l, m) + Queued(m, n);
  }

  /** Completeness: in a settled poll every described observation is queued, as a fact with its id
      and digest, and with its content if digests cover it. */
  lemma DescribedAreQueued(g: Generation, orderRows: seq<NativeRow>, tradeRows: seq<NativeRow>, o: Observation)
    returns (q: Observation)
    requires Wellformed(g, orderRows, tradeRows) && Settled(g, orderRows, tradeRows)
    requires Described(g, Orders(g, orderRows), Trades(g, tradeRows), o)
    ensures Extends(g.ledger, StagedPoll(g, orderRows, tradeRows).ledger)
    ensures q in Queued(g.ledger, StagedPoll(g, orderRows, tradeRows).ledger)
    ensures SameFact(q, o) && (Covered(g, orderRows, tradeRows) ==> q.content == o.content)
  {
    hide LedgerInv, StagedPoll, OrderStage, Queued, Extends, FactIdsIdentify, OrdersAgree, TradesAgree, Covered;
    if DescribedOrder(g, Orders(g, orderRows), o) {
      q := DescribedOrderIsQueued(g, orderRows, tradeRows, o);
      OrderStageKeeps(g, orderRows, tradeRows);
      var mid, after := OrderStage(g, orderRows, tradeRows).ledger, StagedPoll(g, orderRows, tradeRows).ledger;
      QueuedStaysQueued(g.ledger, mid, after, q);
    } else {
      q := DescribedTradeIsQueued(g, orderRows, tradeRows, o);
    }
  }

  // ---- the same rows in another order, or more often -----------------------------

  ghost predicate SameRows(a: seq<NativeRow>, b: seq<NativeRow>) {
    forall row :: row in a <==> row in b
  }

  /** Equal record digests come from equal records. */
  ghost predicate DigestsProject(rows: seq<NativeRow>) {
    forall r, s :: r in rows && s in rows && r.digest == s.digest ==> r.projection == s.projection
  }

  lemma SameNewRows(known: map<Key, Projection>, kind: Kind, a: seq<NativeRow>, b: seq<NativeRow>)
    requires Digested(a) && Digested(b) && SameRows(a, b) && DigestsProject(a)
    ensures NewRows(known, kind, a) == NewRows(known, kind, b)
  {
    var m, n := NewRows(known, kind, a), NewRows(known, kind, b);
    forall k ensures k in m <==> k in n
      ensures k in m && k in n ==> m[k] == n[k]
    {
      SamePolled(kind, a, b, k);
      NewRowsAre(known, kind, a, k);
      NewRowsAre(known, kind, b, k);
      if k in m && k in n {
        var i :| 0 <= i < |a| && KeyOf(kind, a[i]) == k && a[i].projection == m[k];
        var j :| 0 <= j < |b| && KeyOf(kind, b[j]) == k && b[j].projection == n[k];
        assert a[i] in a && b[j] in a;
      }
    }
    assert m.Keys == n.Keys;
  }

  lemma SamePolled(kind: Kind, a: seq<NativeRow>, b: seq<NativeRow>, key: Key)
    requires Digested(a) && Digested(b) && SameRows(a, b)
    ensures Polled(kind, a, key) <==> Polled(kind, b, key)
  {
    if i :| 0 <= i < |a| && KeyOf(kind, a[i]) == key {
      assert a[i] in b;
      var j :| 0 <= j < |b| && b[j] == a[i];
      assert KeyOf(kind, b[j]) == key;
    }
    if i :| 0 <= i < |b| && KeyOf(kind, b[i]) == key {
      assert b[i] in a;
      var j :| 0 <= j < |a| && a[j] == b[i];
      assert KeyOf(kind, a[j]) == key;
    }
  }

  lemma SameEntries(g: Generation, kind: Kind, a: seq<NativeRow>, b: seq<NativeRow>)
    requires Digested(a) && Digested(b) && SameRows(a, b) && DigestsProject(a)
    ensures forall e :: e in KindEntries(g, kind, a) <==> e in KindEntries(g, kind, b)
  {
    SameNewRows(g.rows, kind, a, b);
    forall e ensures e in KindEntries(g, kind, a) <==> e in KindEntries(g, kind, b) {
      EntriesAre(g.rows, g.conflicted.Keys, kind, a, e);
      EntriesAre(g.rows, g.conflicted.Keys, kind, b, e);
      SamePolled(kind, a, b, e.key);
    }
  }

  ghost predicate SamePoll(o1: seq<NativeRow>, t1: seq<NativeRow>, o2: seq<NativeRow>, t2: seq<NativeRow>) {
    && SameRows(o1, o2) && SameRows(t1, t2)
    && DigestsProject(o1) && DigestsProject(t1)
  }

  lemma SamePollBack(o1: seq<NativeRow>, t1: seq<NativeRow>, o2: seq<NativeRow>, t2: seq<NativeRow>)
    requires SamePoll(o1, t1, o2, t2)
    ensures SamePoll(o2, t2, o1, t1)
  {
  }

  lemma SameRowsMatch(kind: Kind, a: seq<NativeRow>, b: seq<NativeRow>)
    requires SameRows(a, b) && RowsMatch(kind, a) && Digested(a)
    ensures RowsMatch(kind, b) && Digested(b)
  {
    forall i | 0 <= i < |b| ensures IsKind(kind, b[i].projection) && b[i].digest.Some? {
      assert b[i] in a;
    }
  }

  /** The description depends on the set of entries only. */
  lemma SameEntriesDescribe(g: Generation, d1: seq<Entry>, e1: seq<Entry>, d2: seq<Entry>, e2: seq<Entry>,
                            o: Observation)
    requires forall e :: e in d1 <==> e in d2
    requires forall e :: e in e1 <==> e in e2
    ensures Described(g, d1, e1, o) ==> Described(g, d2, e2, o)
  {
    if DescribedTrade(g, d1, e1, o) && o.content.tradeOrder.Some? && o.content.tradeOrder.value !in g.ledger.progress {
      var p :| DescribedOrder(g, d1, p) && IsOrder(p, o.content.tradeOrder.value);
      assert DescribedOrder(g, d2, p);
    }
  }

  lemma SameEntriesCome(g: Generation, d1: seq<Entry>, d2: seq<Entry>, x: string)
    requires forall e :: e in d1 <==> e in d2
    ensures OrderComes(g, d1, x) <==> OrderComes(g, d2, x)
  {
    if p :| DescribedOrder(g, d1, p) && IsOrder(p, x) {
      assert DescribedOrder(g, d2, p);
    }
    if p :| DescribedOrder(g, d2, p) && IsOrder(p, x) {
      assert DescribedOrder(g, d1, p);
    }
  }

  lemma SameEntriesInterchange(g: Generation, a: seq<Entry>, b: seq<Entry>, e: Entry, d: Entry)
    requires forall x :: x in a <==> x in b
    ensures Interchangeable(g, a, e, d) <==> Interchangeable(g, b, e, d)
  {
  }

  lemma SameEntriesSettle(g: Generation, d1: seq<Entry>, e1: seq<Entry>, d2: seq<Entry>, e2: seq<Entry>)
    requires forall e :: e in d1 <==> e in d2
    requires forall e :: e in e1 <==> e in e2
    requires OrdersAgree(g, d1) && TradesAgree(g, d1, e1)
    ensures OrdersAgree(g, d2) && TradesAgree(g, d2, e2)
  {
    hide Interchangeable, Regresses, OrderComes;
    forall e, d | Interchangeable(g, d2, e, d) && e.observation.content.Order? && d.observation.content.Order?
      ensures Regresses(g.ledger.progress, e.observation) <==> Regresses(g.ledger.progress, d.observation)
    {
      SameEntriesInterchange(g, d1, d2, e, d);
    }
    forall e, d | Interchangeable(g, e2, e, d) ensures Waits(g, d2, e.observation) <==> Waits(g, d2, d.observation) {
      SameEntriesInterchange(g, e1, e2, e, d);
      SameEntriesWait(g, d1, d2, e.observation);
      SameEntriesWait(g, d1, d2, d.observation);
    }
  }

  lemma SameEntriesWait(g: Generation, d1: seq<Entry>, d2: seq<Entry>, o: Observation)
    requires forall e :: e in d1 <==> e in d2
    ensures Waits(g, d1, o) <==> Waits(g, d2, o)
  {
    if o.content.Trade? && o.content.tradeOrder.Some? {
      SameEntriesCome(g, d1, d2, o.content.tradeOrder.value);
    }
  }

  lemma SameEntriesIdentify(d1: seq<Entry>, e1: seq<Entry>, d2: seq<Entry>, e2: seq<Entry>)
    requires forall e :: e in d1 <==> e in d2
    requires forall e :: e in e1 <==> e in e2
    ensures FactIdsIdentify(d1 + e1) ==> FactIdsIdentify(d2 + e2)
    ensures DigestsCover(d1 + e1) ==> DigestsCover(d2 + e2)
  {
    assert forall e :: e in d1 + e1 <==> e in d2 + e2;
  }

  /** What the lemmas below assume of one poll holds of every poll with the same rows. */
  lemma SamePollIsWellformed(g: Generation, o1: seq<NativeRow>, t1: seq<NativeRow>, o2: seq<NativeRow>,
                             t2: seq<NativeRow>)
    requires Wellformed(g, o1, t1) && SamePoll(o1, t1, o2, t2)
    ensures Wellformed(g, o2, t2)
    ensures Settled(g, o1, t1) ==> Settled(g, o2, t2)
    ensures Covered(g, o1, t1) ==> Covered(g, o2, t2)
  {
    hide LedgerInv, RowsKept, FactIdsIdentify, DigestsCover, OrdersAgree, TradesAgree, DigestsProject;
    SameRowsMatch(OrderKind, o1, o2);
    SameRowsMatch(TradeKind, t1, t2);
    hide SameRows, RowsMatch, Digested;
    SameEntries(g, OrderKind, o1, o2);
    SameEntries(g, TradeKind, t1, t2);
    SameEntriesIdentify(Orders(g, o1), Trades(g, t1), Orders(g, o2), Trades(g, t2));
    if Settled(g, o1, t1) {
      SameEntriesSettle(g, Orders(g, o1), Trades(g, t1), Orders(g, o2), Trades(g, t2));
    }
  }

  lemma SameDescription(g: Generation, o1: seq<NativeRow>, t1: seq<NativeRow>, o2: seq<NativeRow>, t2: seq<NativeRow>,
                        o: Observation)
    requires Digested(o1) && Digested(t1) && Digested(o2) && Digested(t2) && SamePoll(o1, t1, o2, t2)
    ensures Described(g, Orders(g, o1), Trades(g, t1), o) ==> Described(g, Orders(g, o2), Trades(g, t2), o)
  {
    hide Described, SameRows, DigestsProject;
    SameEntries(g, OrderKind, o1, o2);
    SameEntries(g, TradeKind, t1, t2);
    SameEntriesDescribe(g, Orders(g, o1), Trades(g, t1), Orders(g, o2), Trades(g, t2), o);
  }

  /** Each fact of the one poll is a fact of the other. */
  lemma QueuedInBoth(g: Generation, o1: seq<NativeRow>, t1: seq<NativeRow>, o2: seq<NativeRow>, t2: seq<NativeRow>,
                     q: Observation) returns (r: Observation)
    requires Wellformed(g, o1, t1) && Wellformed(g, o2, t2) && Settled(g, o2, t2) && SamePoll(o1, t1, o2, t2)
    requires Extends(g.ledger, StagedPoll(g, o1, t1).ledger) && q in Queued(g.ledger, StagedPoll(g, o1, t1).ledger)
    ensures Extends(g.ledger, StagedPoll(g, o2, t2).ledger)
    ensures r in Queued(g.ledger, StagedPoll(g, o2, t2).ledger) && SameFact(q, r)
    ensures Covered(g, o2, t2) ==> q.content == r.content
  {
    hide LedgerInv, StagedPoll, Described, SamePoll, Settled, Covered, FactIdsIdentify;
    QueuedAreDescribed(g, o1, t1, q);
    SameDescription(g, o1, t1, o2, t2, q);
    r := DescribedAreQueued(g, o2, t2, q);
  }

  lemma FactsInBoth(g: Generation, o1: seq<NativeRow>, t1: seq<NativeRow>, o2: seq<NativeRow>, t2: seq<NativeRow>,
                    f: string)
    requires Wellformed(g, o1, t1) && Wellformed(g, o2, t2) && Settled(g, o2, t2) && SamePoll(o1, t1, o2, t2)
    requires f in StagedPoll(g, o1, t1).ledger.facts
    ensures f in StagedPoll(g, o2, t2).ledger.facts
    ensures StagedPoll(g, o1, t1).ledger.facts[f] == StagedPoll(g, o2, t2).ledger.facts[f]
  {
    hide LedgerInv, StagedPoll, Queued, SamePoll, Settled, FactIdsIdentify;
    StagedPollKeepsLedger(g, o1, t1);
    StagedPollKeepsLedger(g, o2, t2);
    if f !in g.ledger.facts {
      var q := NewFactIsQueued(g.ledger, StagedPoll(g, o1, t1).ledger, f);
      var r := QueuedInBoth(g, o1, t1, o2, t2, q);
      QueuedIsPublished(g.ledger, StagedPoll(g, o2, t2).ledger, r);
    }
  }

  /** The latest state of a tracked order is either untouched or the one this poll queued. */
  lemma LatestIsQueuedOrOld(l: Ledger, m: Ledger, x: string) returns (q: Option<Observation>)
    requires LedgerInv(l) && LedgerInv(m) && Extends(l, m) && x in m.progress
    ensures q.Some? ==> q.value in Queued(l, m) && IsOrder(q.value, x) && m.progress[x] == ProgressOf(q.value)
    ensures q.None? ==> x in l.progress && l.progress[x] == m.progress[x] && forall o :: o in Queued(l, m) ==>
      !IsOrder(o, x)
  {
    hide FactsOnce, OrdersAdvance, TradesFollowOrders;
    var i :| IsLatest(m.history, i, x) && m.progress[x] == ProgressOf(m.history[i]);
    assert forall k :: 0 <= k < |l.history| ==> l.history[k] == m.history[k];
    if i < |l.history| {
      assert IsLatest(l.history, i, x);
      var k :| IsLatest(l.history, k, x) && l.progress[x] == ProgressOf(l.history[k]);
      assert k == i;
      q := None;
    } else {
      assert m.history[i] == Queued(l, m)[i - |l.history|];
      q := Some(m.history[i]);
    }
  }

  /** Queued order observations of one poll with one order id carry one state. */
  lemma QueuedOrdersAgree(g: Generation, orderRows: seq<NativeRow>, tradeRows: seq<NativeRow>, q: Observation,
                          r: Observation)
    requires Wellformed(g, orderRows, tradeRows) && Covered(g, orderRows, tradeRows)
    requires Extends(g.ledger, StagedPoll(g, orderRows, tradeRows).ledger)
    requires q in Queued(g.ledger, StagedPoll(g, orderRows, tradeRows).ledger)
    requires r in Queued(g.ledger, StagedPoll(g, orderRows, tradeRows).ledger)
    requires q.content.Order? && IsOrder(r, q.content.orderId)
    ensures q.content == r.content
  {
    hide LedgerInv, StagedPoll, Described, Covered, FactIdsIdentify;
    QueuedAreDescribed(g, orderRows, tradeRows, q);
    QueuedAreDescribed(g, orderRows, tradeRows, r);
    DescribedAreIdentified(g, orderRows, tradeRows, q, r);
  }

  /** One poll and the same rows again, with digests that cover the content. */
  ghost predicate CoveredTwice(g: Generation, o1: seq<NativeRow>, t1: seq<NativeRow>, o2: seq<NativeRow>,
                               t2: seq<NativeRow>) {
    && Wellformed(g, o1, t1) && Covered(g, o1, t1) && Settled(g, o1, t1)
    && Wellformed(g, o2, t2) && Covered(g, o2, t2) && Settled(g, o2, t2)
    && SamePoll(o1, t1, o2, t2) && SamePoll(o2, t2, o1, t1)
  }

  lemma ProgressInBoth(g: Generation, o1: seq<NativeRow>, t1: seq<NativeRow>, o2: seq<NativeRow>, t2: seq<NativeRow>,
                       x: string)
    requires CoveredTwice(g, o1, t1, o2, t2)
    requires x in StagedPoll(g, o1, t1).ledger.progress
    ensures x in StagedPoll(g, o2, t2).ledger.progress
    ensures StagedPoll(g, o1, t1).ledger.progress[x] == StagedPoll(g, o2, t2).ledger.progress[x]
  {
    hide LedgerInv, StagedPoll, Extends, Queued, SamePoll, Settled, Covered, FactIdsIdentify;
    var m, n := StagedPoll(g, o1, t1).ledger, StagedPoll(g, o2, t2).ledger;
    StagedPollKeepsLedger(g, o1, t1);
    StagedPollKeepsLedger(g, o2, t2);
    var q := LatestIsQueuedOrOld(g.ledger, m, x);
    if q.Some? {
      var r := QueuedInBoth(g, o1, t1, o2, t2, q.value);
      QueuedIsTracked(g.ledger, n, r);
      var z := LatestIsQueuedOrOld(g.ledger, n, x);
      QueuedOrdersAgree(g, o2, t2, r, z.value);
    } else {
      ExtendsTracks(g.ledger, n, x);
      var z := LatestIsQueuedOrOld(g.ledger, n, x);
      if z.Some? {
        var back := QueuedInBoth(g, o2, t2, o1, t1, z.value);
      }
    }
  }

  lemma SameFacts(g: Generation, o1: seq<NativeRow>, t1: seq<NativeRow>, o2: seq<NativeRow>, t2: seq<NativeRow>)
    requires Wellformed(g, o1, t1) && Settled(g, o1, t1) && SamePoll(o1, t1, o2, t2)
    ensures Wellformed(g, o2, t2) && StagedPoll(g, o1, t1).ledger.facts == StagedPoll(g, o2, t2).ledger.facts
  {
    hide LedgerInv, StagedPoll, SamePoll, FactIdsIdentify, Settled, Covered;
    SamePollIsWellformed(g, o1, t1, o2, t2);
    SamePollBack(o1, t1, o2, t2);
    var a, b := StagedPoll(g, o1, t1).ledger.facts, StagedPoll(g, o2, t2).ledger.facts;
    forall f | f in a ensures f in b && a[f] == b[f] { FactsInBoth(g, o1, t1, o2, t2, f); }
    forall f | f in b ensures f in a { FactsInBoth(g, o2, t2, o1, t1, f); }
  }

  lemma SameProgress(g: Generation, o1: seq<NativeRow>, t1: seq<NativeRow>, o2: seq<NativeRow>, t2: seq<NativeRow>)
    requires CoveredTwice(g, o1, t1, o2, t2)
    ensures StagedPoll(g, o1, t1).ledger.progress == StagedPoll(g, o2, t2).ledger.progress
  {
    hide LedgerInv, StagedPoll, SamePoll, FactIdsIdentify, Covered, Settled;
    var a, b := StagedPoll(g, o1, t1).ledger.progress, StagedPoll(g, o2, t2).ledger.progress;
    forall x | x in a ensures x in b && a[x] == b[x] { ProgressInBoth(g, o1, t1, o2, t2, x); }
    forall x | x in b ensures x in a { ProgressInBoth(g, o2, t2, o1, t1, x); }
  }

  lemma SameProgressIfCovered(g: Generation, o1: seq<NativeRow>, t1: seq<NativeRow>, o2: seq<NativeRow>,
                              t2: seq<NativeRow>)
    requires Wellformed(g, o1, t1) && Settled(g, o1, t1) && Covered(g, o1, t1) && SamePoll(o1, t1, o2, t2)
    ensures Wellformed(g, o2, t2) && StagedPoll(g, o1, t1).ledger.progress == StagedPoll(g, o2, t2).ledger.progress
  {
    hide LedgerInv, StagedPoll, SamePoll, FactIdsIdentify, Settled, Covered;
    SamePollIsWellformed(g, o1, t1, o2, t2);
    SamePollBack(o1, t1, o2, t2);
    SameProgress(g, o1, t1, o2, t2);
  }

  /** The same rows in another order, or more often, commit together with the same rows and facts
      whenever the first poll is settled; and with the same order states if digests cover the content. */
  lemma ReorderedRowsPublishTheSameFacts(g: Generation, o1: seq<NativeRow>, t1: seq<NativeRow>, o2: seq<NativeRow>,
                                         t2: seq<NativeRow>)
    requires Wellformed(g, o1, t1) && (Settled(g, o1, t1) || Covered(g, o1, t1)) && SamePoll(o1, t1, o2, t2)
    requires |o1| <= MAX_QUERY_ROWS && |t1| <= MAX_QUERY_ROWS && |o2| <= MAX_QUERY_ROWS && |t2| <= MAX_QUERY_ROWS
    ensures Wellformed(g, o2, t2)
    ensures Poll(g, o1, t1).Committed? <==> Poll(g, o2, t2).Committed?
    ensures Poll(g, o1, t1).Committed? ==>
      var a, b := Poll(g, o1, t1).generation, Poll(g, o2, t2).generation;
      && a.rows == b.rows && a.ledger.facts == b.ledger.facts
      && (Covered(g, o1, t1) ==> a.ledger.progress == b.ledger.progress)
  {
    hide LedgerInv, StagedPoll, DigestsProject, FactIdsIdentify, Settled, Covered;
    hide RowsKept, RowsMatch, NewRows, Bump, NewCauses;
    if Covered(g, o1, t1) {
      CoveredIsSettled(g, o1, t1);
      SameProgressIfCovered(g, o1, t1, o2, t2);
    }
    SameFacts(g, o1, t1, o2, t2);
    SameNewRows(g.rows, OrderKind, o1, o2);
    SameNewRows(g.rows, TradeKind, t1, t2);
  }
}
