/** Exactly when the order of the rows matters.

    Of the rows of one identity the first one stands for the others. This file shows
    what that row decides, and that a poll is independent of the order of its rows iff it is settled.
 */
module ExecutionRepresentatives {
  import opened ExecutionLedger
  import opened ExecutionPoll
  import opened ExecutionFacts
  import opened ExecutionReordering

  // ---- what the representative decides --------------------------------------------------------

  /** Entry e stands for the rows of its identity: it comes first, they agree, their fact is unpublished. */
  ghost predicate StandsFor(g: Generation, entries: seq<Entry>, e: Entry) {
    var group := Group(entries, Identity(e.observation));
    && group != [] && group[0] == e && Agrees(group)
    && e.observation.factId !in g.ledger.facts
  }

  lemma StandInIsAccepted(g: Generation, entries: seq<Entry>, e: Entry)
    requires StandsFor(g, entries, e)
    ensures e in Accepted(entries) && e in entries
  {
    var x := Identity(e.observation);
    GroupIs(entries, x);
    assert e in Group(entries, x);
    IdentitiesAre(entries);
    RepresentativeIsAccepted(entries, Identities(entries), x);
  }

  lemma OneAcceptedPerIdentity(acc: seq<Entry>, e: Entry, d: Entry)
    requires DistinctIdentities(acc) && e in acc && d in acc && Identity(e.observation) == Identity(d.observation)
    ensures e == d
  {
    var i :| 0 <= i < |acc| && acc[i] == e;
    var j :| 0 <= j < |acc| && acc[j] == d;
  }

  /** The queued observation with the representative's fact id is of its kind and identity. */
  lemma QueuedHasIdentity(g: Generation, o: seq<NativeRow>, t: seq<NativeRow>, e: Entry, q: Observation)
    requires Wellformed(g, o, t) && (e in Orders(g, o) || e in Trades(g, t))
    requires Described(g, Orders(g, o), Trades(g, t), q) && q.factId == e.observation.factId
    ensures Identity(q) == Identity(e.observation) && (q.content.Order? <==> e.observation.content.Order?)
  {
    hide LedgerInv, RowsKept, RowsMatch;
    var entries := if q.content.Order? then Orders(g, o) else Trades(g, t);
    var d :| d in entries && d.observation == q;
    assert d in Orders(g, o) + Trades(g, t) && e in Orders(g, o) + Trades(g, t);
  }

  /** Where an observation was queued: orders by the first loop, trades by the second. */
  lemma QueuedByKind(g: Generation, o: seq<NativeRow>, t: seq<NativeRow>, f: string) returns (q: Observation)
    requires Wellformed(g, o, t) && f !in g.ledger.facts && f in StagedPoll(g, o, t).ledger.facts
    ensures q.factId == f && Described(g, Orders(g, o), Trades(g, t), q)
    ensures q.content.Order? ==> Reported(AcceptedOrders(g, o), q) && Publishable(g, q)
    ensures q.content.Trade? ==>
      Reported(AcceptedTrades(g, t), q) && OrderObserved(OrderStage(g, o, t).ledger.progress, q)
  {
    hide LedgerInv, FactIdsIdentify, StagedPoll, OrderStage, Queued, Extends, Described, Reported, RowsMatch, RowsKept;
    StagedPollKeepsLedger(g, o, t);
    OrderStageKeeps(g, o, t);
    var mid, after := OrderStage(g, o, t).ledger, StagedPoll(g, o, t).ledger;
    q := NewFactIsQueued(g.ledger, after, f);
    QueuedAreDescribed(g, o, t, q);
    QueuedInParts(g.ledger, mid, after);
    OrderLoopQueues(g, o, t, q);
    TradeLoopQueues(g, o, t, q);
  }

  lemma OrderLoopQueues(g: Generation, o: seq<NativeRow>, t: seq<NativeRow>, q: Observation)
    requires PollInput(g, o, t)
    ensures Extends(g.ledger, OrderStage(g, o, t).ledger)
    ensures q in Queued(g.ledger, OrderStage(g, o, t).ledger) ==>
      q.content.Order? && Reported(AcceptedOrders(g, o), q) && Publishable(g, q)
  {
    OrderIsQueuedFrom(g, Collected(g, o, t), AcceptedOrders(g, o), q);
  }

  lemma TradeLoopQueues(g: Generation, o: seq<NativeRow>, t: seq<NativeRow>, q: Observation)
    requires PollInput(g, o, t)
    ensures Extends(OrderStage(g, o, t).ledger, StagedPoll(g, o, t).ledger)
    ensures q in Queued(OrderStage(g, o, t).ledger, StagedPoll(g, o, t).ledger) ==>
      q.content.Trade? && Reported(AcceptedTrades(g, t), q) && OrderObserved(OrderStage(g, o, t).ledger.progress, q)
  {
    TradeIsQueuedFrom(g, OrderStage(g, o, t), AcceptedTrades(g, t), q);
  }

  /** The fact of an undisputed order is published iff its representative does not regress. */
  lemma OrderFactIff(g: Generation, o: seq<NativeRow>, t: seq<NativeRow>, e: Entry)
    requires Wellformed(g, o, t) && StandsFor(g, Orders(g, o), e)
    ensures e.observation.content.Order?
    ensures e.observation.factId in StagedPoll(g, o, t).ledger.facts <==> !Regresses(g.ledger.progress, e.observation)
  {
    hide LedgerInv, FactIdsIdentify, StagedPoll, OrderStage, Extends;
    hide Described, RowsMatch, RowsKept, Accepted, StandsFor;
    StandInIsAccepted(g, Orders(g, o), e);
    OrderEntryIsOrder(g, o, e);
    StandInIsUnpublished(g, Orders(g, o), e);
    if !Regresses(g.ledger.progress, e.observation) {
      OrderStagePublishes(g, o, t, e);
      OrderStageKeeps(g, o, t);
      FactStays(OrderStage(g, o, t).ledger, StagedPoll(g, o, t).ledger, e.observation.factId);
    }
    if e.observation.factId in StagedPoll(g, o, t).ledger.facts {
      var q := QueuedByKind(g, o, t, e.observation.factId);
      QueuedHasIdentity(g, o, t, e, q);
      var d :| d in AcceptedOrders(g, o) && d.observation == q;
      OneAcceptedPerIdentity(AcceptedOrders(g, o), e, d);
    }
  }

  lemma StandInIsUnpublished(g: Generation, entries: seq<Entry>, e: Entry)
    requires StandsFor(g, entries, e)
    ensures e.observation.factId !in g.ledger.facts
  {
  }

  lemma FactStays(l: Ledger, m: Ledger, f: string)
    requires Extends(l, m) && f in l.facts
    ensures f in m.facts
  {
  }

  /** The fact of an undisputed trade is published iff its representative's order is observed. */
  lemma TradeFactIff(g: Generation, o: seq<NativeRow>, t: seq<NativeRow>, e: Entry)
    requires Wellformed(g, o, t) && StandsFor(g, Trades(g, t), e)
    ensures e.observation.content.Trade?
    ensures e.observation.factId in StagedPoll(g, o, t).ledger.facts <==>
            OrderObserved(OrderStage(g, o, t).ledger.progress, e.observation)
  {
    hide LedgerInv, FactIdsIdentify, StagedPoll, OrderStage, Extends;
    hide Described, RowsMatch, RowsKept, Accepted, StandsFor;
    StandInIsAccepted(g, Trades(g, t), e);
    TradeEntryIsTrade(g, t, e);
    StandInIsUnpublished(g, Trades(g, t), e);
    if OrderObserved(OrderStage(g, o, t).ledger.progress, e.observation) {
      TradeStagePublishes(g, o, t, e);
    }
    if e.observation.factId in StagedPoll(g, o, t).ledger.facts {
      var q := QueuedByKind(g, o, t, e.observation.factId);
      QueuedHasIdentity(g, o, t, e, q);
      var d :| d in AcceptedTrades(g, t) && d.observation == q;
      OneAcceptedPerIdentity(AcceptedTrades(g, t), e, d);
    }
  }

  // ---- any row can be made the first -------------------------------------------------------------

  lemma {:induction false} EntriesPrefix(known: map<Key, Projection>, conflicted: set<Key>, kind: Kind,
                                         rows: seq<NativeRow>, k: nat)
    requires Digested(rows) && k <= |rows|
    ensures Entries(known, conflicted, kind, rows[..k]) <= Entries(known, conflicted, kind, rows)
    decreases |rows|
  {
    if k == |rows| {
      assert rows[..k] == rows;
    } else {
      var n := |rows| - 1;
      EntriesPrefix(known, conflicted, kind, rows[..n], k);
      assert rows[..n][..k] == rows[..k];
    }
  }

  lemma {:induction false} GroupPrefix(a: seq<Entry>, b: seq<Entry>, x: string)
    requires a <= b
    ensures Group(a, x) <= Group(b, x)
    decreases |b|
  {
    if a == b {
      assert Group(a, x) == Group(b, x);
    } else {
      var n := |b| - 1;
      assert a <= b[..n];
      GroupPrefix(a, b[..n], x);
    }
  }

  lemma OneRowEntry(g: Generation, kind: Kind, rows: seq<NativeRow>, e: Entry)
    requires rows != [] && Digested(rows) && DigestsProject(rows)
    requires e in KindEntries(g, kind, rows) && e.key == KeyOf(kind, rows[0])
    ensures KindEntries(g, kind, rows[..1]) == [e]
  {
    var r := rows[0];
    assert rows[..1] == [r] && [r][..0] == [];
    EntriesAre(g.rows, g.conflicted.Keys, kind, rows, e);
    EntriesAre(g.rows, g.conflicted.Keys, kind, [r], e);
    NewRowsAre(g.rows, kind, rows, e.key);
    NewRowsAre(g.rows, kind, [r], e.key);
    assert KeyOf(kind, [r][0]) == e.key;
    if e.key !in g.rows {
      var i :| 0 <= i < |rows| && KeyOf(kind, rows[i]) == e.key &&
        rows[i].projection == NewRows(g.rows, kind, rows)[e.key];
      assert rows[i] in rows && r in rows;
    }
    assert e in KindEntries(g, kind, [r]);
  }

  /** The first row polled stands for its identity, if its identity is undisputed. */
  lemma FirstRowStands(g: Generation, kind: Kind, rows: seq<NativeRow>, e: Entry)
    requires rows != [] && Digested(rows) && DigestsProject(rows)
    requires e in KindEntries(g, kind, rows) && e.key == KeyOf(kind, rows[0])
    requires Candidate(KindEntries(g, kind, rows), e.observation) && e.observation.factId !in g.ledger.facts
    ensures StandsFor(g, KindEntries(g, kind, rows), e)
  {
    var entries, x := KindEntries(g, kind, rows), Identity(e.observation);
    OneRowEntry(g, kind, rows, e);
    EntriesPrefix(g.rows, g.conflicted.Keys, kind, rows, 1);
    GroupPrefix([e], entries, x);
    assert [e][..0] == [];
    assert Group([e], x) == [e];
    assert e in Group(entries, x);
    AgreeingGroupIsCandidate(entries, x, e);
  }

  function Bring(rows: seq<NativeRow>, i: nat): seq<NativeRow>
    requires i < |rows|
  {
    [rows[i]] + (rows[..i] + rows[i + 1..])
  }

  ghost predicate Permuted(a: seq<NativeRow>, b: seq<NativeRow>) {
    multiset(a) == multiset(b)
  }

  lemma BringPermutes(rows: seq<NativeRow>, i: nat)
    requires i < |rows|
    ensures Permuted(rows, Bring(rows, i))
  {
    assert rows == rows[..i] + ([rows[i]] + rows[i + 1..]);
  }

  lemma PermutedIsSame(a: seq<NativeRow>, b: seq<NativeRow>)
    requires Permuted(a, b)
    ensures SameRows(a, b)
  {
    forall row ensures row in a <==> row in b {
      assert row in a <==> row in multiset(a);
      assert row in b <==> row in multiset(b);
    }
  }

  lemma RowOfEntry(g: Generation, kind: Kind, rows: seq<NativeRow>, e: Entry) returns (i: nat)
    requires Digested(rows) && e in KindEntries(g, kind, rows)
    ensures i < |rows| && KeyOf(kind, rows[i]) == e.key
  {
    EntriesAre(g.rows, g.conflicted.Keys, kind, rows, e);
    i :| 0 <= i < |rows| && KeyOf(kind, rows[i]) == e.key;
  }

  lemma SameCandidate(a: seq<Entry>, b: seq<Entry>, o: Observation)
    requires (forall e :: e in a <==> e in b) && Candidate(a, o)
    ensures Candidate(b, o)
  {
  }

  /** Some permutation of the rows makes this row stand for its identity. */
  lemma CanBeFirst(g: Generation, kind: Kind, rows: seq<NativeRow>, e: Entry, d: Entry) returns (other: seq<NativeRow>)
    requires Digested(rows) && DigestsProject(rows) && Interchangeable(g, KindEntries(g, kind, rows), e, d)
    ensures Permuted(rows, other) && Digested(other) && StandsFor(g, KindEntries(g, kind, other), e)
  {
    hide KindEntries, Candidate, Interchangeable;
    InterchangeableMeans(g, KindEntries(g, kind, rows), e, d);
    var i := RowOfEntry(g, kind, rows, e);
    other := Bring(rows, i);
    BringPermutes(rows, i);
    PermutedIsSame(rows, other);
    SameDigests(rows, other);
    SameEntries(g, kind, rows, other);
    SameCandidate(KindEntries(g, kind, rows), KindEntries(g, kind, other), e.observation);
    FirstRowStands(g, kind, other, e);
  }

  lemma SameDigests(a: seq<NativeRow>, b: seq<NativeRow>)
    requires SameRows(a, b) && Digested(a) && DigestsProject(a)
    ensures Digested(b) && DigestsProject(b)
  {
    forall i | 0 <= i < |b| ensures b[i].digest.Some? {
      assert b[i] in a;
    }
  }

  lemma InterchangeableMeans(g: Generation, entries: seq<Entry>, e: Entry, d: Entry)
    requires Interchangeable(g, entries, e, d)
    ensures e in entries && Candidate(entries, e.observation) && e.observation.factId !in g.ledger.facts
    ensures SameFact(e.observation, d.observation) && Interchangeable(g, entries, d, e)
  {
  }

  // ---- exactly when the order of the rows matters -------------------------------------------------------

  ghost function Facts(g: Generation, o: seq<NativeRow>, t: seq<NativeRow>): map<string, string>
    requires PollInput(g, o, t)
  {
    StagedPoll(g, o, t).ledger.facts
  }

  /** Every permutation of the rows publishes the same facts. */
  ghost predicate OrderIndependent(g: Generation, o: seq<NativeRow>, t: seq<NativeRow>)
    requires PollInput(g, o, t)
  {
    forall o2, t2 :: Permuted(o, o2) && Permuted(t, t2) && PollInput(g, o2, t2) ==> Facts(g, o2, t2) == Facts(g, o, t)
  }

  lemma PermutedPoll(g: Generation, o: seq<NativeRow>, t: seq<NativeRow>, o2: seq<NativeRow>, t2: seq<NativeRow>)
    requires Wellformed(g, o, t) && DigestsProject(o) && DigestsProject(t) && Permuted(o, o2) && Permuted(t, t2)
    ensures SamePoll(o, t, o2, t2) && Wellformed(g, o2, t2)
  {
    hide LedgerInv, RowsKept, RowsMatch, FactIdsIdentify, Settled, Covered, DigestsProject;
    PermutedIsSame(o, o2);
    PermutedIsSame(t, t2);
    SamePollIsWellformed(g, o, t, o2, t2);
  }

  lemma IndependentOrders(g: Generation, o: seq<NativeRow>, t: seq<NativeRow>, e: Entry, d: Entry)
    requires Wellformed(g, o, t) && DigestsProject(o) && DigestsProject(t) && OrderIndependent(g, o, t)
    requires Interchangeable(g, Orders(g, o), e, d) && e.observation.content.Order? && d.observation.content.Order?
    ensures Regresses(g.ledger.progress, e.observation) <==> Regresses(g.ledger.progress, d.observation)
  {
    hide LedgerInv, RowsKept, RowsMatch, FactIdsIdentify, DigestsProject;
    hide StagedPoll, Interchangeable, StandsFor, Regresses;
    InterchangeableMeans(g, Orders(g, o), e, d);
    var o2 := CanBeFirst(g, OrderKind, o, e, d);
    var o3 := CanBeFirst(g, OrderKind, o, d, e);
    assert Permuted(t, t);
    PermutedPoll(g, o, t, o2, t);
    PermutedPoll(g, o, t, o3, t);
    OrderFactIff(g, o2, t, e);
    OrderFactIff(g, o3, t, d);
    assert Facts(g, o2, t) == Facts(g, o, t) == Facts(g, o3, t);
  }

  /** With agreeing orders, a trade finds its order observed iff it does not wait. */
  lemma ObservedIff(g: Generation, o: seq<NativeRow>, t: seq<NativeRow>, q: Observation)
    requires Wellformed(g, o, t) && OrdersAgree(g, Orders(g, o)) && q.content.Trade?
    ensures OrderObserved(OrderStage(g, o, t).ledger.progress, q) <==> !Waits(g, Orders(g, o), q)
  {
    hide LedgerInv, RowsKept, RowsMatch, FactIdsIdentify, OrdersAgree, OrderStage, OrderComes, Extends;
    OrderStageIsDescribed(g, o, t);
    if q.content.tradeOrder.Some? && OrderComes(g, Orders(g, o), q.content.tradeOrder.value) {
      OrderIsObserved(g, o, t, q.content.tradeOrder.value);
    }
  }

  lemma IndependentTrades(g: Generation, o: seq<NativeRow>, t: seq<NativeRow>, e: Entry, d: Entry)
    requires Wellformed(g, o, t) && DigestsProject(o) && DigestsProject(t) && OrderIndependent(g, o, t)
    requires OrdersAgree(g, Orders(g, o)) && Interchangeable(g, Trades(g, t), e, d)
    ensures Waits(g, Orders(g, o), e.observation) <==> Waits(g, Orders(g, o), d.observation)
  {
    hide LedgerInv, RowsKept, RowsMatch, FactIdsIdentify, DigestsProject;
    hide StagedPoll, Interchangeable, StandsFor, OrdersAgree;
    hide OrderStage, Waits, OrderObserved;
    InterchangeableMeans(g, Trades(g, t), e, d);
    var t2 := CanBeFirst(g, TradeKind, t, e, d);
    var t3 := CanBeFirst(g, TradeKind, t, d, e);
    assert Permuted(o, o);
    PermutedPoll(g, o, t, o, t2);
    PermutedPoll(g, o, t, o, t3);
    TradeFactIff(g, o, t2, e);
    TradeFactIff(g, o, t3, d);
    ObservedIff(g, o, t2, e.observation);
    ObservedIff(g, o, t3, d.observation);
    assert Facts(g, o, t2) == Facts(g, o, t) == Facts(g, o, t3);
  }

  /** Where fact ids name one identity and row digests fix the projection, the facts of a poll are
      independent of the order of its rows iff the poll is settled. */
  lemma OrderIndependentIff(g: Generation, o: seq<NativeRow>, t: seq<NativeRow>)
    requires Wellformed(g, o, t) && DigestsProject(o) && DigestsProject(t)
    ensures OrderIndependent(g, o, t) <==> Settled(g, o, t)
  {
    hide LedgerInv, RowsKept, RowsMatch, FactIdsIdentify, DigestsProject;
    hide Interchangeable, Regresses, Waits, Facts, Permuted;
    if OrderIndependent(g, o, t) {
      forall e, d | Interchangeable(g, Orders(g, o), e, d) && e.observation.content.Order? &&
          d.observation.content.Order?
        ensures Regresses(g.ledger.progress, e.observation) <==> Regresses(g.ledger.progress, d.observation)
      {
        IndependentOrders(g, o, t, e, d);
      }
      forall e, d | Interchangeable(g, Trades(g, t), e, d)
        ensures Waits(g, Orders(g, o), e.observation) <==> Waits(g, Orders(g, o), d.observation)
      {
        IndependentTrades(g, o, t, e, d);
      }
    }
    if Settled(g, o, t) {
      hide Settled;
      forall o2, t2 | Permuted(o, o2) && Permuted(t, t2) && PollInput(g, o2, t2)
        ensures Facts(g, o2, t2) == Facts(g, o, t)
      {
        SettledFacts(g, o, t, o2, t2);
      }
    }
  }

  lemma SettledFacts(g: Generation, o: seq<NativeRow>, t: seq<NativeRow>, o2: seq<NativeRow>, t2: seq<NativeRow>)
    requires Wellformed(g, o, t) && DigestsProject(o) && DigestsProject(t) && Settled(g, o, t)
    requires Permuted(o, o2) && Permuted(t, t2) && PollInput(g, o2, t2)
    ensures Facts(g, o2, t2) == Facts(g, o, t)
  {
    hide LedgerInv, RowsKept, RowsMatch, FactIdsIdentify, DigestsProject, Settled, StagedPoll;
    PermutedPoll(g, o, t, o2, t2);
    SameFacts(g, o, t, o2, t2);
  }
}
