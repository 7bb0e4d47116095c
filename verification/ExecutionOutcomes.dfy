/** What a poll does with every row, said of the rows and the history alone.

    A poll commits iff its queries and the tracked sets stay within their bounds; a row is refused, or
    noted, iff one of a few conditions on the other rows and on the history holds.
 */
module ExecutionOutcomes {
  import opened Options
  import opened ExecutionLedger
  import opened ExecutionPoll
  import opened ExecutionFacts
  import opened ExecutionReordering
  import opened ExecutionRepresentatives
  import opened ExecutionRun

  // ---- said of the rows ---------------------------------------------------------------------------

  /** The first row of an identity whose rows all report one fact. */
  ghost predicate Leads(entries: seq<Entry>, e: Entry) {
    && (exists i :: FirstOfIdentity(entries, i, Identity(e.observation)) && entries[i] == e)
    && (forall d :: d in entries && Identity(d.observation) == Identity(e.observation) ==>
          SameFact(d.observation, e.observation))
  }

  ghost predicate FirstOfIdentity(entries: seq<Entry>, i: int, x: string) {
    && 0 <= i < |entries| && Identity(entries[i].observation) == x
    && forall j :: 0 <= j < i ==> Identity(entries[j].observation) != x
  }

  ghost predicate IsDisputed(entries: seq<Entry>, key: Key) {
    exists e, d :: e in entries && d in entries && e.key == key && Disagree(e, d)
  }

  /** A row that comes after another one of its undisputed identity. */
  ghost predicate IsMerged(entries: seq<Entry>, key: Key) {
    exists i, j :: 0 <= i < j < |entries| && entries[j].key == key &&
      Identity(entries[i].observation) == Identity(entries[j].observation) &&
      Candidate(entries, entries[j].observation)
  }

  // ---- said of the history ---------------------------------------------------------------------------

  ghost predicate IsPublished(h: seq<Observation>, f: string) {
    exists i :: 0 <= i < |h| && h[i].factId == f
  }

  /** The last observation of this order was final, or had filled more. */
  ghost predicate IsOvertaken(h: seq<Observation>, o: Observation)
    requires o.content.Order?
  {
    exists i :: Overtakes(h, i, o)
  }

  ghost predicate Overtakes(h: seq<Observation>, i: int, o: Observation)
    requires o.content.Order?
  {
    IsLatest(h, i, o.content.orderId) && (!h[i].content.status.Live? || o.content.filled < h[i].content.filled)
  }

  ghost predicate IsSeen(h: seq<Observation>, orderId: string) {
    exists i :: 0 <= i < |h| && IsOrder(h[i], orderId)
  }

  /** The row's fact id was published with another digest. */
  ghost predicate Clashes(h: seq<Observation>, o: Observation) {
    exists i :: 0 <= i < |h| && h[i].factId == o.factId && h[i].factDigest != o.factDigest
  }

  ghost predicate NewOrder(h: seq<Observation>, orders: seq<Entry>, e: Entry) {
    && Leads(orders, e) && !IsPublished(h, e.observation.factId)
    && e.observation.content.Order? && !IsOvertaken(h, e.observation)
  }

  /** The order is in the history, or comes with this poll. */
  ghost predicate IsKnown(h: seq<Observation>, orders: seq<Entry>, orderId: string) {
    IsSeen(h, orderId) || exists e :: NewOrder(h, orders, e) && Identity(e.observation) == orderId
  }

  ghost predicate Misses(h: seq<Observation>, orders: seq<Entry>, o: Observation) {
    o.content.Trade? && o.content.tradeOrder.Some? && !IsKnown(h, orders, o.content.tradeOrder.value)
  }

  ghost predicate NewTrade(h: seq<Observation>, orders: seq<Entry>, trades: seq<Entry>, e: Entry) {
    && Leads(trades, e) && !IsPublished(h, e.observation.factId)
    && e.observation.content.Trade? && !Misses(h, orders, e.observation)
  }

  // ---- leaders are the accepted rows --------------------------------------------------------------------

  lemma {:induction false} GroupStarts(entries: seq<Entry>, x: string)
    ensures Group(entries, x) != [] ==>
      exists i :: FirstOfIdentity(entries, i, x) && entries[i] == Group(entries, x)[0]
    ensures Group(entries, x) == [] ==> forall e :: e in entries ==> Identity(e.observation) != x
  {
    if entries == [] {
    } else {
      var n := |entries| - 1;
      GroupStarts(entries[..n], x);
      if Group(entries[..n], x) != [] {
        var i :| FirstOfIdentity(entries[..n], i, x) && entries[..n][i] == Group(entries[..n], x)[0];
        assert FirstOfIdentity(entries, i, x);
      } else if Identity(entries[n].observation) == x {
        forall j | 0 <= j < n ensures Identity(entries[j].observation) != x {
          assert entries[..n][j] in entries[..n];
        }
        assert FirstOfIdentity(entries, n, x);
      }
    }
  }

  lemma OnlyOneFirst(entries: seq<Entry>, i: int, j: int, x: string)
    requires FirstOfIdentity(entries, i, x) && FirstOfIdentity(entries, j, x)
    ensures i == j
  {
  }

  lemma LeaderStarts(entries: seq<Entry>, e: Entry)
    ensures Leads(entries, e) <==>
      var group := Group(entries, Identity(e.observation)); group != [] && group[0] == e && Agrees(group)
  {
    var x := Identity(e.observation);
    var group := Group(entries, x);
    GroupIs(entries, x);
    GroupStarts(entries, x);
    if Leads(entries, e) {
      var i :| FirstOfIdentity(entries, i, x) && entries[i] == e;
      assert e in entries;
      assert group != [];
      var j :| FirstOfIdentity(entries, j, x) && entries[j] == group[0];
      OnlyOneFirst(entries, i, j, x);
    }
    if group != [] && group[0] == e {
      assert e in group;
      AgreeingGroupIsCandidate(entries, x, e);
    }
  }

  lemma LeaderIsAccepted(entries: seq<Entry>, e: Entry)
    ensures e in Accepted(entries) <==> Leads(entries, e)
  {
    hide Leads;
    LeaderStarts(entries, e);
    IdentitiesAre(entries);
    AcceptedIsFirst(entries, Identities(entries), e);
    var x := Identity(e.observation);
    if Leads(entries, e) {
      GroupIs(entries, x);
      assert e in Group(entries, x);
      RepresentativeIsAccepted(entries, Identities(entries), x);
    }
  }

  lemma {:induction false} AcceptedIsFirst(entries: seq<Entry>, ids: seq<string>, e: Entry)
    ensures e in AcceptedAmong(entries, ids) ==>
      var group := Group(entries, Identity(e.observation)); group != [] && group[0] == e && Agrees(group)
  {
    if ids == [] {
    } else {
      var n := |ids| - 1;
      AcceptedIsFirst(entries, ids[..n], e);
      var group := Group(entries, ids[n]);
      GroupIs(entries, ids[n]);
      if group != [] {
        assert group[0] in group;
      }
    }
  }

  lemma LeaderStands(g: Generation, entries: seq<Entry>, e: Entry)
    ensures StandsFor(g, entries, e) <==> Leads(entries, e) && e.observation.factId !in g.ledger.facts
  {
    LeaderStarts(entries, e);
    hide Leads;
  }

  // ---- the dictionaries are the history -------------------------------------------------------------------

  lemma PublishedIs(l: Ledger, f: string)
    requires LedgerInv(l)
    ensures f in l.facts <==> IsPublished(l.history, f)
  {
    hide OrdersAdvance, TradesFollowOrders, ProgressIsLatest;
  }

  lemma ClashIs(l: Ledger, o: Observation)
    requires LedgerInv(l)
    ensures Clashes(l.history, o) <==> o.factId in l.facts && l.facts[o.factId] != o.factDigest
  {
    hide OrdersAdvance, TradesFollowOrders, ProgressIsLatest;
    if o.factId in l.facts {
      var i :| 0 <= i < |l.history| && l.history[i].factId == o.factId;
    }
  }

  lemma OneLatest(h: seq<Observation>, i: int, j: int, x: string)
    requires IsLatest(h, i, x) && IsLatest(h, j, x)
    ensures i == j
  {
  }

  lemma OvertakenIs(l: Ledger, o: Observation)
    requires LedgerInv(l) && o.content.Order?
    ensures Regresses(l.progress, o) <==> IsOvertaken(l.history, o)
  {
    hide OrdersAdvance, TradesFollowOrders, FactsOnce;
    var x := o.content.orderId;
    if x in l.progress {
      var i :| IsLatest(l.history, i, x) && l.progress[x] == ProgressOf(l.history[i]);
      if k :| Overtakes(l.history, k, o) {
        OneLatest(l.history, i, k, x);
      }
      assert Regresses(l.progress, o) ==> Overtakes(l.history, i, o);
    }
  }

  lemma SeenIs(l: Ledger, x: string)
    requires LedgerInv(l)
    ensures x in l.progress <==> IsSeen(l.history, x)
  {
    hide OrdersAdvance, TradesFollowOrders, FactsOnce;
    if x in l.progress {
      var i :| IsLatest(l.history, i, x) && l.progress[x] == ProgressOf(l.history[i]);
    }
  }

  // ---- which facts are new ------------------------------------------------------------------------------------

  lemma NewOrderIs(g: Generation, o: seq<NativeRow>, t: seq<NativeRow>, e: Entry)
    requires Wellformed(g, o, t) && NewOrder(g.ledger.history, Orders(g, o), e)
    ensures e.observation.factId in StagedPoll(g, o, t).ledger.facts
    ensures Identity(e.observation) in OrderStage(g, o, t).ledger.progress
  {
    hide LedgerInv, FactIdsIdentify, StagedPoll, OrderStage, RowsKept, RowsMatch;
    hide Leads, Regresses, IsOvertaken, IsPublished;
    PublishedIs(g.ledger, e.observation.factId);
    OvertakenIs(g.ledger, e.observation);
    LeaderStands(g, Orders(g, o), e);
    OrderFactIff(g, o, t, e);
    LeaderIsTracked(g, o, t, e);
  }

  lemma LeaderIsTracked(g: Generation, o: seq<NativeRow>, t: seq<NativeRow>, e: Entry)
    requires Wellformed(g, o, t) && StandsFor(g, Orders(g, o), e) && e.observation.content.Order?
    requires !Regresses(g.ledger.progress, e.observation)
    ensures Identity(e.observation) in OrderStage(g, o, t).ledger.progress
  {
    hide LedgerInv, FactIdsIdentify, OrderStage, RowsKept, RowsMatch, Regresses;
    hide StandsFor, Queued, Extends, Accepted, Described;
    StandInIsAccepted(g, Orders(g, o), e);
    StandInIsUnpublished(g, Orders(g, o), e);
    OrderStagePublishes(g, o, t, e);
    OrderStageKeeps(g, o, t);
    var q := NewFactIsQueued(g.ledger, OrderStage(g, o, t).ledger, e.observation.factId);
    OrderStageIsDescribed(g, o, t);
    DescribedOrderIs(g, o, t, q);
    QueuedHasIdentity(g, o, t, e, q);
    QueuedIsTracked(g.ledger, OrderStage(g, o, t).ledger, q);
  }

  lemma DescribedOrderIs(g: Generation, o: seq<NativeRow>, t: seq<NativeRow>, q: Observation)
    requires Digested(o) && Digested(t) && DescribedOrder(g, Orders(g, o), q)
    ensures Described(g, Orders(g, o), Trades(g, t), q) && q.content.Order?
  {
  }

  lemma AcceptedOrderIs(g: Generation, o: seq<NativeRow>, q: Observation)
    requires RowsKept(g) && RowsMatch(OrderKind, o) && Digested(o) && LedgerInv(g.ledger)
    requires q.content.Order? && Reported(AcceptedOrders(g, o), q) && Publishable(g, q)
    ensures exists e :: NewOrder(g.ledger.history, Orders(g, o), e) && e.observation == q
  {
    hide LedgerInv, RowsKept, RowsMatch, Leads, Accepted, Regresses, IsOvertaken, IsPublished;
    var e :| e in AcceptedOrders(g, o) && e.observation == q;
    LeaderIsAccepted(Orders(g, o), e);
    PublishedIs(g.ledger, q.factId);
    OvertakenIs(g.ledger, q);
    assert NewOrder(g.ledger.history, Orders(g, o), e);
  }

  /** An order is observed after the first loop iff it is known: seen before, or new with this poll. */
  lemma KnownIs(g: Generation, o: seq<NativeRow>, t: seq<NativeRow>, x: string)
    requires Wellformed(g, o, t)
    ensures x in OrderStage(g, o, t).ledger.progress <==> IsKnown(g.ledger.history, Orders(g, o), x)
  {
    hide LedgerInv, FactIdsIdentify, OrderStage, RowsKept, RowsMatch, NewOrder;
    hide Extends, Queued, IsSeen, Reported;
    OrderStageKeeps(g, o, t);
    SeenIs(g.ledger, x);
    if x in g.ledger.progress {
      ExtendsTracks(g.ledger, OrderStage(g, o, t).ledger, x);
    } else if x in OrderStage(g, o, t).ledger.progress {
      var q := NewProgressIsQueued(g.ledger, OrderStage(g, o, t).ledger, x);
      OrderLoopQueues(g, o, t, q);
      AcceptedOrderIs(g, o, q);
    }
    if e :| NewOrder(g.ledger.history, Orders(g, o), e) && Identity(e.observation) == x {
      NewOrderIs(g, o, t, e);
    }
  }

  lemma MissesIs(g: Generation, o: seq<NativeRow>, t: seq<NativeRow>, q: Observation)
    requires Wellformed(g, o, t) && q.content.Trade?
    ensures Misses(g.ledger.history, Orders(g, o), q) <==> !OrderObserved(OrderStage(g, o, t).ledger.progress, q)
  {
    hide LedgerInv, FactIdsIdentify, OrderStage, RowsKept, RowsMatch, IsKnown;
    if q.content.tradeOrder.Some? {
      KnownIs(g, o, t, q.content.tradeOrder.value);
    }
  }

  lemma NewTradeIs(g: Generation, o: seq<NativeRow>, t: seq<NativeRow>, e: Entry)
    requires Wellformed(g, o, t) && NewTrade(g.ledger.history, Orders(g, o), Trades(g, t), e)
    ensures e.observation.factId in StagedPoll(g, o, t).ledger.facts
  {
    hide LedgerInv, FactIdsIdentify, StagedPoll, OrderStage, RowsKept, RowsMatch;
    hide Leads, Misses, IsPublished, OrderObserved;
    PublishedIs(g.ledger, e.observation.factId);
    LeaderStands(g, Trades(g, t), e);
    MissesIs(g, o, t, e.observation);
    TradeFactIff(g, o, t, e);
  }

  /** The fact ids a poll adds. */
  ghost function NewFactIds(g: Generation, o: seq<NativeRow>, t: seq<NativeRow>): set<string>
    requires Digested(o) && Digested(t)
  {
    (set e | e in Orders(g, o) && NewOrder(g.ledger.history, Orders(g, o), e) :: e.observation.factId) +
    (set e | e in Trades(g, t) && NewTrade(g.ledger.history, Orders(g, o), Trades(g, t), e) :: e.observation.factId)
  }

  lemma LeaderIsEntry(entries: seq<Entry>, e: Entry)
    requires Leads(entries, e)
    ensures e in entries
  {
  }

  lemma QueuedFactIsNew(g: Generation, o: seq<NativeRow>, t: seq<NativeRow>, f: string)
    requires Wellformed(g, o, t) && f in StagedPoll(g, o, t).ledger.facts && f !in g.ledger.facts
    ensures f in NewFactIds(g, o, t)
  {
    hide LedgerInv, FactIdsIdentify, StagedPoll, OrderStage, RowsKept, RowsMatch;
    hide Leads, Misses, IsPublished, Accepted;
    hide Described, OrderObserved, Publishable;
    var q := QueuedByKind(g, o, t, f);
    if q.content.Order? {
      AcceptedOrderIs(g, o, q);
      var e :| NewOrder(g.ledger.history, Orders(g, o), e) && e.observation == q;
      LeaderIsEntry(Orders(g, o), e);
    } else {
      var e :| e in AcceptedTrades(g, t) && e.observation == q;
      LeaderIsAccepted(Trades(g, t), e);
      LeaderIsEntry(Trades(g, t), e);
      PublishedIs(g.ledger, f);
      MissesIs(g, o, t, q);
      assert NewTrade(g.ledger.history, Orders(g, o), Trades(g, t), e);
    }
  }

  /** The facts after a poll: those before, and those of its new orders and new trades. */
  lemma FactsAfter(g: Generation, o: seq<NativeRow>, t: seq<NativeRow>)
    requires Wellformed(g, o, t)
    ensures StagedPoll(g, o, t).ledger.facts.Keys == g.ledger.facts.Keys + NewFactIds(g, o, t)
  {
    hide LedgerInv, FactIdsIdentify, StagedPoll, RowsKept, RowsMatch, NewOrder, NewTrade;
    StagedPollKeepsLedger(g, o, t);
    var after := StagedPoll(g, o, t).ledger.facts;
    forall f | f in after && f !in g.ledger.facts ensures f in NewFactIds(g, o, t) {
      QueuedFactIsNew(g, o, t, f);
    }
    forall e | e in Orders(g, o) && NewOrder(g.ledger.history, Orders(g, o), e) ensures e.observation.factId in after {
      NewOrderIs(g, o, t, e);
    }
    forall e | e in Trades(g, t) && NewTrade(g.ledger.history, Orders(g, o), Trades(g, t), e)
      ensures e.observation.factId in after
    {
      NewTradeIs(g, o, t, e);
    }
  }

  // ---- when a poll commits ---------------------------------------------------------------------------------------

  ghost function PolledKeys(kind: Kind, rows: seq<NativeRow>): set<Key>
    requires Digested(rows)
  {
    set i | 0 <= i < |rows| :: KeyOf(kind, rows[i])
  }

  lemma PolledKeysAre(kind: Kind, rows: seq<NativeRow>, key: Key)
    requires Digested(rows)
    ensures key in PolledKeys(kind, rows) <==> Polled(kind, rows, key)
  {
  }

  lemma UnseenIs(g: Generation, o: seq<NativeRow>, t: seq<NativeRow>, key: Key)
    requires Digested(o) && Digested(t)
    ensures key in UnseenRows(g, o, t) <==>
      key !in g.rows && (key in PolledKeys(OrderKind, o) || key in PolledKeys(TradeKind, t))
  {
    NewRowsAre(g.rows, OrderKind, o, key);
    NewRowsAre(g.rows, TradeKind, t, key);
    PolledKeysAre(OrderKind, o, key);
    PolledKeysAre(TradeKind, t, key);
    hide NewRows, Polled, PolledKeys;
  }

  ghost predicate FirstPolled(kind: Kind, rows: seq<NativeRow>, i: int, key: Key)
    requires Digested(rows)
  {
    0 <= i < |rows| && KeyOf(kind, rows[i]) == key && forall j :: 0 <= j < i ==> KeyOf(kind, rows[j]) != key
  }

  /** A key seen for the first time is recorded with the projection of its first row. */
  lemma {:induction false} FirstRowIsRecorded(known: map<Key, Projection>, kind: Kind, rows: seq<NativeRow>, key: Key)
    requires Digested(rows)
    ensures var m := NewRows(known, kind, rows);
      && (key in m <==> key !in known && exists i :: FirstPolled(kind, rows, i, key))
      && (key in m ==> forall i :: FirstPolled(kind, rows, i, key) ==> rows[i].projection == m[key])
  {
    if rows == [] {
    } else {
      var n := |rows| - 1;
      FirstRowIsRecorded(known, kind, rows[..n], key);
      forall i | 0 <= i < n
        ensures FirstPolled(kind, rows, i, key) <==> FirstPolled(kind, rows[..n], i, key)
      {
        assert forall j :: 0 <= j <= i ==> rows[..n][j] == rows[j];
      }
      NewRowsAre(known, kind, rows[..n], key);
      if FirstPolled(kind, rows, n, key) {
        assert forall j :: 0 <= j < n ==> KeyOf(kind, rows[..n][j]) != key;
      } else if KeyOf(kind, rows[n]) == key {
        var j :| 0 <= j < n && KeyOf(kind, rows[j]) == key;
        assert KeyOf(kind, rows[..n][j]) == key;
      }
    }
  }

  lemma AddedKeys(a: set<Key>, b: set<Key>, more: set<Key>)
    requires forall key :: key in b <==> key !in a && key in more
    ensures |a| + |b| == |a + more| && a + b == a + more
  {
    assert a + b == a + more;
    assert |a + b| == |a| + |b|;
  }

  lemma RowsAfter(g: Generation, o: seq<NativeRow>, t: seq<NativeRow>)
    requires Digested(o) && Digested(t)
    ensures var unseen, polled := UnseenRows(g, o, t), PolledKeys(OrderKind, o) + PolledKeys(TradeKind, t);
      (g.rows + unseen).Keys == g.rows.Keys + polled && |g.rows| + |unseen| == |g.rows.Keys + polled|
  {
    hide UnseenRows, PolledKeys, Digested;
    var unseen := UnseenRows(g, o, t);
    var polled := PolledKeys(OrderKind, o) + PolledKeys(TradeKind, t);
    forall key ensures key in unseen <==> key !in g.rows && key in polled {
      UnseenIs(g, o, t, key);
    }
    AddedKeys(g.rows.Keys, unseen.Keys, polled);
    assert |g.rows| == |g.rows.Keys| && |unseen| == |unseen.Keys|;
  }

  /** A poll is too large iff a query has more than 8192 rows, and otherwise invalid iff a row of it
      cannot be digested. */
  lemma PollIsRefusedIff(g: Generation, o: seq<NativeRow>, t: seq<NativeRow>)
    requires RowsKept(g) && RowsMatch(OrderKind, o) && RowsMatch(TradeKind, t)
    ensures Poll(g, o, t) == Failed(QueryTooLarge) <==> |o| > 8192 || |t| > 8192
    ensures Poll(g, o, t) == Failed(QueryRowInvalid) <==>
      |o| <= 8192 && |t| <= 8192 && exists row :: (row in o || row in t) && row.digest.None?
  {
    hide StagedPoll, UnseenRows, RowsKept, RowsMatch, Bump, NewCauses;
    UndigestedRow(o);
    UndigestedRow(t);
  }

  lemma UndigestedRow(rows: seq<NativeRow>)
    ensures Digested(rows) <==> forall row :: row in rows ==> row.digest.Some?
  {
  }

  /** Each query has at most 8192 rows, and with the poll at most 32768 rows are tracked and at most 32768 facts
      published. */
  ghost predicate WithinBounds(g: Generation, o: seq<NativeRow>, t: seq<NativeRow>)
    requires Digested(o) && Digested(t)
  {
    && |o| <= 8192 && |t| <= 8192
    && |g.rows.Keys + (PolledKeys(OrderKind, o) + PolledKeys(TradeKind, t))| <= 32768
    && |g.ledger.facts.Keys + NewFactIds(g, o, t)| <= 32768
  }

  /** A poll of digested rows commits iff it stays within the bounds. */
  lemma PollCommitsIff(g: Generation, o: seq<NativeRow>, t: seq<NativeRow>)
    requires Wellformed(g, o, t)
    ensures Poll(g, o, t).Committed? <==> WithinBounds(g, o, t)
  {
    hide StagedPoll, UnseenRows, RowsKept, RowsMatch, Bump, NewCauses;
    hide LedgerInv, FactIdsIdentify, NewFactIds, PolledKeys;
    RowsAfter(g, o, t);
    FactsAfter(g, o, t);
    var after := StagedPoll(g, o, t).ledger.facts;
    assert |after| == |after.Keys|;
  }
}
