/** Which rows a poll refuses and notes, and why: each code iff its own condition. */
module ExecutionRefusals {
  import opened Options
  import opened ExecutionLedger
  import opened ExecutionPoll
  import opened ExecutionFacts
  import opened ExecutionReordering
  import opened ExecutionRepresentatives
  import opened ExecutionRun
  import opened ExecutionOutcomes

  // ---- the two loops, one accepted row at a time --------------------------------------------------

  ghost predicate KeysApart(acc: seq<Entry>) {
    forall i, j :: 0 <= i < j < |acc| ==> acc[i].key != acc[j].key
  }

  ghost predicate IdsApart(acc: seq<Entry>) {
    forall i, j :: 0 <= i < j < |acc| ==> acc[i].observation.factId != acc[j].observation.factId
  }

  ghost predicate Unrefused(g: Generation, acc: seq<Entry>) {
    forall i :: 0 <= i < |acc| ==> acc[i].key !in g.conflicted
  }

  /** Why an accepted order is refused, given what was published before. */
  ghost function OrderRefusal(l: Ledger, o: Observation): Option<ConflictCode>
    requires o.content.Order?
  {
    if o.factId in l.facts then (if l.facts[o.factId] != o.factDigest then Some(FactConflict) else None)
    else if Regresses(l.progress, o) then Some(OrderStateRegressed) else None
  }

  ghost predicate OrderRefused(l: Ledger, acc: seq<Entry>, key: Key, code: ConflictCode)
    requires AllOrders(acc)
  {
    exists i :: 0 <= i < |acc| && acc[i].key == key && OrderRefusal(l, acc[i].observation) == Some(code)
  }

  lemma {:induction false} LoopFacts(g: Generation, s: Staged, acc: seq<Entry>, f: string)
    requires AllOrders(acc) && s.ledger == g.ledger
    ensures Extends(g.ledger, StageOrders(g, s, acc).ledger)
    ensures f in StageOrders(g, s, acc).ledger.facts && f !in g.ledger.facts ==>
      exists i :: 0 <= i < |acc| && acc[i].observation.factId == f
  {
    if acc == [] {
    } else {
      var n := |acc| - 1;
      LoopFacts(g, s, acc[..n], f);
      if f in StageOrders(g, s, acc[..n]).ledger.facts && f !in g.ledger.facts {
        var i :| 0 <= i < n && acc[..n][i].observation.factId == f;
        assert acc[i].observation.factId == f;
      }
    }
  }

  function Marked(conflicts: map<Key, ConflictCode>, key: Key, code: Option<ConflictCode>): map<Key, ConflictCode> {
    if code.Some? && key !in conflicts then conflicts[key := code.value] else conflicts
  }

  lemma LastOrder(g: Generation, s: Staged, acc: seq<Entry>, n: nat)
    requires AllOrders(acc) && |acc| == n + 1 && s.ledger == g.ledger && IdsApart(acc) && Unrefused(g, acc)
    ensures AllOrders(acc[..n]) && StageOrders(g, s, acc).notes == StageOrders(g, s, acc[..n]).notes
    ensures StageOrders(g, s, acc).conflicts ==
            Marked(StageOrders(g, s, acc[..n]).conflicts, acc[n].key, OrderRefusal(g.ledger, acc[n].observation))
  {
    LoopFacts(g, s, acc[..n], acc[n].observation.factId);
    assert forall i :: 0 <= i < n ==> acc[..n][i].observation.factId != acc[n].observation.factId;
  }

  lemma OrderRefusedMore(l: Ledger, acc: seq<Entry>, key: Key, code: ConflictCode)
    requires AllOrders(acc) && acc != []
    ensures OrderRefused(l, acc, key, code) <==>
      || OrderRefused(l, acc[..|acc| - 1], key, code)
      || (acc[|acc| - 1].key == key && OrderRefusal(l, acc[|acc| - 1].observation) == Some(code))
  {
    var n := |acc| - 1;
    if i :| 0 <= i < n && acc[..n][i].key == key && OrderRefusal(l, acc[..n][i].observation) == Some(code) {
      assert acc[i].key == key;
    }
    if i :| 0 <= i < n && acc[i].key == key && OrderRefusal(l, acc[i].observation) == Some(code) {
      assert acc[..n][i].key == key;
    }
  }

  /** A key refused by the order loop is refused with its own code, and only one code applies. */
  lemma {:induction false} OrderLoopRefuses(g: Generation, s: Staged, acc: seq<Entry>, key: Key)
    requires AllOrders(acc) && s.ledger == g.ledger && IdsApart(acc) && KeysApart(acc) && Unrefused(g, acc)
    ensures StageOrders(g, s, acc).notes == s.notes
    ensures var c := StageOrders(g, s, acc).conflicts;
      && (key in s.conflicts ==> key in c && c[key] == s.conflicts[key])
      && (key !in s.conflicts ==> forall code ::
            (key in c && c[key] == code) <==> OrderRefused(g.ledger, acc, key, code))
  {
    if acc == [] {
    } else {
      var n := |acc| - 1;
      OrderLoopRefuses(g, s, acc[..n], key);
      var before := StageOrders(g, s, acc[..n]).conflicts;
      assert key !in s.conflicts && key in before ==> OrderRefused(g.ledger, acc[..n], key, before[key]);
      LastOrder(g, s, acc, n);
      hide StageOrders, OrderRefusal;
      forall code ensures OrderRefused(g.ledger, acc, key, code) <==>
          || OrderRefused(g.ledger, acc[..n], key, code)
          || (acc[n].key == key && OrderRefusal(g.ledger, acc[n].observation) == Some(code))
      {
        OrderRefusedMore(g.ledger, acc, key, code);
      }
      if acc[n].key == key {
        forall code ensures !OrderRefused(g.ledger, acc[..n], key, code) {
          NotRefusedTwice(g.ledger, acc, code);
        }
      }
    }
  }

  lemma NotRefusedTwice(l: Ledger, acc: seq<Entry>, code: ConflictCode)
    requires AllOrders(acc) && acc != [] && KeysApart(acc)
    ensures !OrderRefused(l, acc[..|acc| - 1], acc[|acc| - 1].key, code)
  {
    hide OrderRefusal;
    var n := |acc| - 1;
    assert forall i :: 0 <= i < n ==> acc[..n][i].key != acc[n].key;
  }

  /** The trade's fact id was published with another digest. */
  ghost predicate TradeClashes(l: Ledger, o: Observation) {
    o.factId in l.facts && l.facts[o.factId] != o.factDigest
  }

  ghost predicate TradeRefused(l: Ledger, acc: seq<Entry>, key: Key) {
    exists i :: 0 <= i < |acc| && acc[i].key == key && TradeClashes(l, acc[i].observation)
  }

  ghost predicate TradeWaits(l: Ledger, acc: seq<Entry>, key: Key)
    requires AllTrades(acc)
  {
    exists i :: 0 <= i < |acc| && acc[i].key == key && acc[i].observation.factId !in l.facts &&
      !OrderObserved(l.progress, acc[i].observation)
  }

  lemma {:induction false} TradeLoopFacts(g: Generation, s: Staged, acc: seq<Entry>, f: string)
    requires AllTrades(acc)
    ensures Extends(s.ledger, StageTrades(g, s, acc).ledger)
    ensures StageTrades(g, s, acc).ledger.progress == s.ledger.progress
    ensures f in StageTrades(g, s, acc).ledger.facts && f !in s.ledger.facts ==>
      exists i :: 0 <= i < |acc| && acc[i].observation.factId == f
  {
    if acc == [] {
    } else {
      var n := |acc| - 1;
      TradeLoopFacts(g, s, acc[..n], f);
      if f in StageTrades(g, s, acc[..n]).ledger.facts && f !in s.ledger.facts {
        var i :| 0 <= i < n && acc[..n][i].observation.factId == f;
        assert acc[i].observation.factId == f;
      }
    }
  }

  lemma LastTrade(g: Generation, s: Staged, acc: seq<Entry>)
    requires AllTrades(acc) && acc != [] && IdsApart(acc) && Unrefused(g, acc)
    ensures var before, e := StageTrades(g, s, acc[..|acc| - 1]), acc[|acc| - 1];
      var after := StageTrades(g, s, acc);
      && after.conflicts == (if TradeClashes(s.ledger, e.observation) && e.key !in before.conflicts
                             then before.conflicts[e.key := FactConflict] else before.conflicts)
      && after.notes == (
           if e.observation.factId !in s.ledger.facts && !OrderObserved(s.ledger.progress, e.observation)
           then AddNote(g, before.notes, TradeOrderUnobserved, e.key) else before.notes)
  {
    var n := |acc| - 1;
    TradeLoopFacts(g, s, acc[..n], acc[n].observation.factId);
    assert forall i :: 0 <= i < n ==> acc[..n][i] == acc[i];
  }

  lemma TradeMore(l: Ledger, acc: seq<Entry>, key: Key)
    requires AllTrades(acc) && acc != []
    ensures var n := |acc| - 1;
      && (TradeRefused(l, acc, key) <==>
            TradeRefused(l, acc[..n], key) || (acc[n].key == key && TradeClashes(l, acc[n].observation)))
      && (TradeWaits(l, acc, key) <==>
            || TradeWaits(l, acc[..n], key)
            || (acc[n].key == key && acc[n].observation.factId !in l.facts &&
                !OrderObserved(l.progress, acc[n].observation)))
  {
    hide OrderObserved, TradeClashes;
    var n := |acc| - 1;
    assert forall i :: 0 <= i < n ==> acc[..n][i] == acc[i];
    if i :| 0 <= i < n && acc[i].key == key && TradeClashes(l, acc[i].observation) {
      assert acc[..n][i].key == key;
    }
    if TradeWaits(l, acc, key) {
      var i :| 0 <= i <= n && acc[i].key == key && acc[i].observation.factId !in l.facts &&
          !OrderObserved(l.progress, acc[i].observation);
      assert i < n ==> acc[..n][i].key == key;
    }
  }

  /** What the trade loop refuses and notes of a key. */
  lemma {:induction false} TradeLoopRefuses(g: Generation, s: Staged, acc: seq<Entry>, key: Key)
    requires AllTrades(acc) && IdsApart(acc) && Unrefused(g, acc)
    ensures var r := StageTrades(g, s, acc);
      && (key in r.conflicts <==> key in s.conflicts || TradeRefused(s.ledger, acc, key))
      && (key in s.conflicts ==> r.conflicts[key] == s.conflicts[key])
      && (key in r.conflicts && key !in s.conflicts ==> r.conflicts[key] == FactConflict)
      && s.notes <= r.notes
      && (forall c :: c in r.notes && c !in s.notes ==> c.code == Note(TradeOrderUnobserved))
      && (Cause(Note(TradeOrderUnobserved), key) in r.notes <==>
            || Cause(Note(TradeOrderUnobserved), key) in s.notes
            || (Cause(Note(TradeOrderUnobserved), key) !in g.noted && TradeWaits(s.ledger, acc, key)))
  {
    if acc == [] {
    } else {
      var n := |acc| - 1;
      TradeLoopRefuses(g, s, acc[..n], key);
      LastTrade(g, s, acc);
      TradeMore(s.ledger, acc, key);
      hide StageTrades, TradeRefused, TradeWaits, TradeClashes, OrderObserved;
    }
  }

  // ---- the accepted rows -------------------------------------------------------------------------------

  lemma OneObservationPerKey(g: Generation, kind: Kind, rows: seq<NativeRow>, e: Entry, d: Entry)
    requires Digested(rows) && e in KindEntries(g, kind, rows) && d in KindEntries(g, kind, rows) && e.key == d.key
    ensures e == d
  {
    EntriesAre(g.rows, g.conflicted.Keys, kind, rows, e);
    EntriesAre(g.rows, g.conflicted.Keys, kind, rows, d);
  }

  lemma AcceptedApart(g: Generation, kind: Kind, rows: seq<NativeRow>)
    requires RowsKept(g) && RowsMatch(kind, rows) && Digested(rows)
    ensures DistinctIdentities(Accepted(KindEntries(g, kind, rows)))
    ensures KeysApart(Accepted(KindEntries(g, kind, rows))) && Unrefused(g, Accepted(KindEntries(g, kind, rows)))
    ensures forall e :: e in Accepted(KindEntries(g, kind, rows)) ==>
      e in KindEntries(g, kind, rows) && e.key.kind == kind
  {
    var entries := KindEntries(g, kind, rows);
    var acc := Accepted(entries);
    KindEntriesMatch(g, kind, rows);
    IdentitiesAre(entries);
    AcceptedAreCandidates(entries, Identities(entries));
    hide KindEntries, Accepted, RowsKept, RowsMatch, Candidate;
    forall i, j | 0 <= i < j < |acc| ensures acc[i].key != acc[j].key {
      assert acc[i] in acc && acc[j] in acc;
      if acc[i].key == acc[j].key {
        OneObservationPerKey(g, kind, rows, acc[i], acc[j]);
      }
    }
    forall i | 0 <= i < |acc| ensures acc[i].key !in g.conflicted {
      assert acc[i] in acc;
    }
  }

  lemma AcceptedIdsApart(entries: seq<Entry>, acc: seq<Entry>)
    requires FactIdsIdentify(entries) && DistinctIdentities(acc) && forall e :: e in acc ==> e in entries
    ensures IdsApart(acc)
  {
    forall i, j | 0 <= i < j < |acc| ensures acc[i].observation.factId != acc[j].observation.factId {
      assert acc[i] in acc && acc[j] in acc;
    }
  }

  lemma PollApart(g: Generation, o: seq<NativeRow>, t: seq<NativeRow>)
    requires Wellformed(g, o, t)
    ensures AllOrders(AcceptedOrders(g, o)) && KeysApart(AcceptedOrders(g, o))
    ensures IdsApart(AcceptedOrders(g, o)) && Unrefused(g, AcceptedOrders(g, o))
    ensures AllTrades(AcceptedTrades(g, t)) && KeysApart(AcceptedTrades(g, t))
    ensures IdsApart(AcceptedTrades(g, t)) && Unrefused(g, AcceptedTrades(g, t))
  {
    hide LedgerInv, RowsKept, RowsMatch, FactIdsIdentify, KeysApart, IdsApart;
    hide Unrefused, Accepted, KindEntries, DistinctIdentities;
    AcceptedApart(g, OrderKind, o);
    AcceptedApart(g, TradeKind, t);
    var all := Orders(g, o) + Trades(g, t);
    AcceptedIdsApart(all, AcceptedOrders(g, o));
    AcceptedIdsApart(all, AcceptedTrades(g, t));
  }

  // ---- disputed rows --------------------------------------------------------------------------------------

  lemma CollectedConflictsAre(g: Generation, o: seq<NativeRow>, t: seq<NativeRow>, key: Key)
    requires Digested(o) && Digested(t)
    ensures var c := Collected(g, o, t).conflicts;
      && (key in c <==> IsDisputed(Orders(g, o), key) || IsDisputed(Trades(g, t), key))
      && (key in c ==> c[key] == ConflictingDuplicateRow)
  {
    hide KindEntries, DisagreeingKeys, Identities, Disagree;
    DisputedRowsAre(Orders(g, o), key);
    DisputedRowsAre(Trades(g, t), key);
  }

  lemma LeaderIsUndisputed(g: Generation, o: seq<NativeRow>, t: seq<NativeRow>, e: Entry)
    requires PollInput(g, o, t) && (Leads(Orders(g, o), e) || Leads(Trades(g, t), e))
    ensures !IsDisputed(Orders(g, o), e.key) && !IsDisputed(Trades(g, t), e.key)
  {
    KindEntriesMatch(g, OrderKind, o);
    KindEntriesMatch(g, TradeKind, t);
    hide KindEntries, RowsKept, RowsMatch;
    forall d, x | d in Orders(g, o) && x in Orders(g, o) && d.key == e.key ensures !Disagree(d, x) {
      if Leads(Orders(g, o), e) {
        OneObservationPerKey(g, OrderKind, o, d, e);
      }
    }
    forall d, x | d in Trades(g, t) && x in Trades(g, t) && d.key == e.key ensures !Disagree(d, x) {
      if Leads(Trades(g, t), e) {
        OneObservationPerKey(g, TradeKind, t, d, e);
      }
    }
  }

  // ---- each code, iff its condition -------------------------------------------------------------------------

  /** The leading row of an identity has a fact id published with another digest. */
  ghost predicate LeaderClashes(h: seq<Observation>, entries: seq<Entry>, key: Key) {
    exists e :: Leads(entries, e) && e.key == key && Clashes(h, e.observation)
  }

  /** The leading row of an order reports an unpublished fact that the history has overtaken. */
  ghost predicate LeaderGoesBack(h: seq<Observation>, orders: seq<Entry>, key: Key) {
    exists e :: Leads(orders, e) && e.key == key && e.observation.content.Order? &&
      !IsPublished(h, e.observation.factId) && IsOvertaken(h, e.observation)
  }

  /** The leading row of a trade reports an unpublished fact and names an order that is not known. */
  ghost predicate LeaderMisses(h: seq<Observation>, orders: seq<Entry>, trades: seq<Entry>, key: Key) {
    exists e :: Leads(trades, e) && e.key == key &&
      !IsPublished(h, e.observation.factId) && Misses(h, orders, e.observation)
  }

  lemma OrderRefusalIs(l: Ledger, o: Observation)
    requires LedgerInv(l) && o.content.Order?
    ensures OrderRefusal(l, o) == Some(FactConflict) <==> Clashes(l.history, o)
    ensures OrderRefusal(l, o) == Some(OrderStateRegressed) <==>
      !IsPublished(l.history, o.factId) && IsOvertaken(l.history, o)
    ensures OrderRefusal(l, o) != Some(ConflictingDuplicateRow)
  {
    hide LedgerInv, Regresses, Clashes, IsPublished, IsOvertaken;
    ClashIs(l, o);
    PublishedIs(l, o.factId);
    OvertakenIs(l, o);
  }

  lemma AcceptedIsOrder(g: Generation, o: seq<NativeRow>, e: Entry)
    requires RowsKept(g) && RowsMatch(OrderKind, o) && Digested(o)
    ensures e in AcceptedOrders(g, o) <==> Leads(Orders(g, o), e)
    ensures Leads(Orders(g, o), e) ==> e.observation.content.Order?
  {
    hide RowsKept, RowsMatch, Accepted, Leads;
    LeaderIsAccepted(Orders(g, o), e);
    if Leads(Orders(g, o), e) {
      LeaderIsEntry(Orders(g, o), e);
      OrderEntryIsOrder(g, o, e);
    }
  }

  lemma OrderRefusedIs(g: Generation, o: seq<NativeRow>, key: Key)
    requires RowsKept(g) && RowsMatch(OrderKind, o) && Digested(o) && LedgerInv(g.ledger)
    ensures var l, acc, orders := g.ledger, AcceptedOrders(g, o), Orders(g, o);
      && (OrderRefused(l, acc, key, FactConflict) <==> LeaderClashes(l.history, orders, key))
      && (OrderRefused(l, acc, key, OrderStateRegressed) <==> LeaderGoesBack(l.history, orders, key))
      && !OrderRefused(l, acc, key, ConflictingDuplicateRow)
  {
    hide RowsKept, RowsMatch, LedgerInv, Leads, OrderRefusal, Clashes;
    hide IsPublished, IsOvertaken, Accepted, KindEntries;
    var l, acc, orders := g.ledger, AcceptedOrders(g, o), Orders(g, o);
    forall e ensures e in acc <==> Leads(orders, e)
      ensures Leads(orders, e) ==> e.observation.content.Order?
    {
      AcceptedIsOrder(g, o, e);
    }
    forall e: Entry | e.observation.content.Order?
      ensures OrderRefusal(l, e.observation) == Some(FactConflict) <==> Clashes(l.history, e.observation)
      ensures OrderRefusal(l, e.observation) == Some(OrderStateRegressed) <==>
              !IsPublished(l.history, e.observation.factId) && IsOvertaken(l.history, e.observation)
      ensures OrderRefusal(l, e.observation) != Some(ConflictingDuplicateRow)
    {
      OrderRefusalIs(l, e.observation);
    }
    assert forall i :: 0 <= i < |acc| ==> acc[i] in acc;
    forall e | Leads(orders, e) ensures exists i :: 0 <= i < |acc| && acc[i] == e {
      assert e in acc;
    }
  }

  // ---- trades -------------------------------------------------------------------------------------------------

  /** No accepted trade carries the fact id of an accepted order. */
  lemma TradeIdIsNotAnOrders(g: Generation, o: seq<NativeRow>, t: seq<NativeRow>, e: Entry)
    requires Wellformed(g, o, t) && e in AcceptedTrades(g, t)
    ensures forall d :: d in AcceptedOrders(g, o) ==> d.observation.factId != e.observation.factId
  {
    AcceptedApart(g, OrderKind, o);
    AcceptedApart(g, TradeKind, t);
    KindEntriesMatch(g, OrderKind, o);
    KindEntriesMatch(g, TradeKind, t);
    hide LedgerInv, RowsKept, RowsMatch, KeysApart, IdsApart;
    hide Unrefused, Accepted, KindEntries, DistinctIdentities;
    forall d | d in AcceptedOrders(g, o) ensures d.observation.factId != e.observation.factId {
      assert d in Orders(g, o) + Trades(g, t) && e in Orders(g, o) + Trades(g, t);
    }
  }

  lemma TradeFactIsUntouched(g: Generation, o: seq<NativeRow>, t: seq<NativeRow>, e: Entry)
    requires Wellformed(g, o, t) && e in AcceptedTrades(g, t)
    ensures var f, after := e.observation.factId, OrderStage(g, o, t).ledger.facts;
      && (f in after <==> f in g.ledger.facts)
      && (f in after ==> after[f] == g.ledger.facts[f])
  {
    hide LedgerInv, RowsKept, RowsMatch, FactIdsIdentify, StageOrders, Accepted, KindEntries;
    var f := e.observation.factId;
    TradeIdIsNotAnOrders(g, o, t, e);
    KindEntriesMatch(g, OrderKind, o);
    LoopFacts(g, Collected(g, o, t), AcceptedOrders(g, o), f);
  }

  lemma AcceptedIsTrade(g: Generation, t: seq<NativeRow>, e: Entry)
    requires RowsKept(g) && RowsMatch(TradeKind, t) && Digested(t)
    ensures e in AcceptedTrades(g, t) <==> Leads(Trades(g, t), e)
    ensures Leads(Trades(g, t), e) ==> e.observation.content.Trade?
  {
    LeaderIsAccepted(Trades(g, t), e);
    KindEntriesMatch(g, TradeKind, t);
    hide RowsKept, RowsMatch, Accepted, Leads, KindEntries;
    if Leads(Trades(g, t), e) {
      LeaderIsEntry(Trades(g, t), e);
    }
  }

  /** What the trade loop asks of one accepted trade, said of the history. */
  lemma TradeIs(g: Generation, o: seq<NativeRow>, t: seq<NativeRow>, e: Entry)
    requires Wellformed(g, o, t) && e in AcceptedTrades(g, t) && e.observation.content.Trade?
    ensures var l, h, q := OrderStage(g, o, t).ledger, g.ledger.history, e.observation;
      && (TradeClashes(l, q) <==> Clashes(h, q))
      && (q.factId in l.facts <==> IsPublished(h, q.factId))
      && (OrderObserved(l.progress, q) <==> !Misses(h, Orders(g, o), q))
  {
    hide LedgerInv, RowsKept, RowsMatch, FactIdsIdentify, OrderStage, Accepted, KindEntries, OrderObserved;
    hide Clashes, Misses, IsPublished;
    TradeFactIsUntouched(g, o, t, e);
    ClashIs(g.ledger, e.observation);
    PublishedIs(g.ledger, e.observation.factId);
    MissesIs(g, o, t, e.observation);
  }

  lemma TradesAre(g: Generation, o: seq<NativeRow>, t: seq<NativeRow>, key: Key)
    requires Wellformed(g, o, t)
    ensures var l, h, acc := OrderStage(g, o, t).ledger, g.ledger.history, AcceptedTrades(g, t);
      && (TradeRefused(l, acc, key) <==> LeaderClashes(h, Trades(g, t), key))
      && (TradeWaits(l, acc, key) <==> LeaderMisses(h, Orders(g, o), Trades(g, t), key))
  {
    hide LedgerInv, RowsKept, RowsMatch, FactIdsIdentify, OrderStage, Accepted, KindEntries, OrderObserved;
    hide Clashes, Misses, IsPublished, Leads, TradeClashes;
    var l, h, acc := OrderStage(g, o, t).ledger, g.ledger.history, AcceptedTrades(g, t);
    forall e ensures e in acc <==> Leads(Trades(g, t), e) {
      AcceptedIsTrade(g, t, e);
    }
    forall e | e in acc
      ensures e.observation.content.Trade?
      ensures TradeClashes(l, e.observation) <==> Clashes(h, e.observation)
      ensures e.observation.factId in l.facts <==> IsPublished(h, e.observation.factId)
      ensures OrderObserved(l.progress, e.observation) <==> !Misses(h, Orders(g, o), e.observation)
    {
      AcceptedIsTrade(g, t, e);
      TradeIs(g, o, t, e);
    }
    assert forall i :: 0 <= i < |acc| ==> acc[i] in acc;
    forall e | Leads(Trades(g, t), e) ensures exists i :: 0 <= i < |acc| && acc[i] == e {
      assert e in acc;
    }
  }

  // ---- what a poll refuses ----------------------------------------------------------------------------------------

  lemma LeaderKindIs(g: Generation, o: seq<NativeRow>, t: seq<NativeRow>, e: Entry)
    requires PollInput(g, o, t)
    ensures Leads(Orders(g, o), e) ==> e.key.kind == OrderKind
    ensures Leads(Trades(g, t), e) ==> e.key.kind == TradeKind
  {
    KindEntriesMatch(g, OrderKind, o);
    KindEntriesMatch(g, TradeKind, t);
    hide KindEntries, RowsKept, RowsMatch, Leads;
    if Leads(Orders(g, o), e) {
      LeaderIsEntry(Orders(g, o), e);
    }
    if Leads(Trades(g, t), e) {
      LeaderIsEntry(Trades(g, t), e);
    }
  }

  /** The conditions under which a key is refused exclude each other. */
  lemma OneReason(g: Generation, o: seq<NativeRow>, t: seq<NativeRow>, key: Key)
    requires PollInput(g, o, t)
    ensures var h := g.ledger.history;
      var byOrder := LeaderClashes(h, Orders(g, o), key) || LeaderGoesBack(h, Orders(g, o), key);
      var byTrade := LeaderClashes(h, Trades(g, t), key);
      && (byOrder ==> key.kind == OrderKind) && (byTrade ==> key.kind == TradeKind)
      && (byOrder || byTrade ==> !IsDisputed(Orders(g, o), key) && !IsDisputed(Trades(g, t), key))
  {
    hide RowsKept, RowsMatch, Leads, Clashes, IsPublished, IsOvertaken, IsDisputed, KindEntries;
    forall e | Leads(Orders(g, o), e) || Leads(Trades(g, t), e)
      ensures !IsDisputed(Orders(g, o), e.key) && !IsDisputed(Trades(g, t), e.key)
      ensures Leads(Orders(g, o), e) ==> e.key.kind == OrderKind
      ensures Leads(Trades(g, t), e) ==> e.key.kind == TradeKind
    {
      LeaderIsUndisputed(g, o, t, e);
      LeaderKindIs(g, o, t, e);
    }
  }

  lemma StagedConflictsAre(g: Generation, o: seq<NativeRow>, t: seq<NativeRow>, key: Key)
    requires Wellformed(g, o, t)
    ensures var h, c, orders, trades := g.ledger.history, StagedPoll(g, o, t).conflicts, Orders(g, o), Trades(g, t);
      && (key in c && c[key] == ConflictingDuplicateRow <==> IsDisputed(orders, key) || IsDisputed(trades, key))
      && (key in c && c[key] == FactConflict <==> LeaderClashes(h, orders, key) || LeaderClashes(h, trades, key))
      && (key in c && c[key] == OrderStateRegressed <==> LeaderGoesBack(h, orders, key))
  {
    hide LedgerInv, RowsKept, RowsMatch, FactIdsIdentify, Accepted;
    hide KindEntries, LeaderClashes, LeaderGoesBack, IsDisputed;
    hide StageOrders, StageTrades, TradeRefused, OrderRefused, KeysApart;
    hide IdsApart, Unrefused, AllOrders, AllTrades;
    PollApart(g, o, t);
    CollectedConflictsAre(g, o, t, key);
    OrderLoopRefuses(g, Collected(g, o, t), AcceptedOrders(g, o), key);
    OrderRefusedIs(g, o, key);
    TradeLoopRefuses(g, OrderStage(g, o, t), AcceptedTrades(g, t), key);
    TradesAre(g, o, t, key);
    OneReason(g, o, t, key);
    hide Collected;
  }

  /** A key is refused by a poll iff it was refused before, or another row of its identity reports a different
      fact, or its row leads its identity and either its fact id was published with another digest, or it is
      an unpublished order that the history has overtaken; each with its own code, and the first code stays. */
  lemma ConflictsAre(g: Generation, o: seq<NativeRow>, t: seq<NativeRow>, key: Key)
    requires Wellformed(g, o, t) && Poll(g, o, t).Committed?
    ensures var h, orders, trades := g.ledger.history, Orders(g, o), Trades(g, t);
      var before, after := g.conflicted, Poll(g, o, t).generation.conflicted;
      && (key in before ==> key in after && after[key] == before[key])
      && (key in after && key !in before && after[key] == ConflictingDuplicateRow <==>
            IsDisputed(orders, key) || IsDisputed(trades, key))
      && (key in after && key !in before && after[key] == FactConflict <==>
            LeaderClashes(h, orders, key) || LeaderClashes(h, trades, key))
      && (key in after && key !in before && after[key] == OrderStateRegressed <==> LeaderGoesBack(h, orders, key))
  {
    hide LedgerInv, RowsKept, RowsMatch, FactIdsIdentify, LeaderClashes;
    hide LeaderGoesBack, IsDisputed, StagedPoll;
    hide Bump, NewCauses, UnseenRows, KindEntries;
    StagedConflictsAre(g, o, t, key);
    StagedPollRecords(g, o, t);
  }

  // ---- what a poll notes --------------------------------------------------------------------------------------------

  ghost predicate Follows(entries: seq<Entry>, i: int, j: int, x: string) {
    0 <= i < j < |entries| && Identity(entries[i].observation) == x && Identity(entries[j].observation) == x
  }

  ghost predicate IsLater(entries: seq<Entry>, x: string, e: Entry) {
    exists i, j :: Follows(entries, i, j, x) && entries[j] == e
  }

  lemma LaterStays(entries: seq<Entry>, x: string, e: Entry, n: nat)
    requires n < |entries| && IsLater(entries[..n], x, e)
    ensures IsLater(entries, x, e)
  {
    var i, j :| Follows(entries[..n], i, j, x) && entries[..n][j] == e;
    assert Follows(entries, i, j, x) && entries[j] == e;
  }

  lemma LastIsLater(entries: seq<Entry>, x: string, n: nat)
    requires |entries| == n + 1 && Group(entries[..n], x) != [] && Identity(entries[n].observation) == x
    ensures IsLater(entries, x, entries[n])
  {
    GroupStarts(entries[..n], x);
    hide Group;
    var i :| FirstOfIdentity(entries[..n], i, x);
    assert Follows(entries, i, n, x);
  }

  lemma LaterWas(entries: seq<Entry>, x: string, e: Entry, n: nat)
    requires |entries| == n + 1 && IsLater(entries, x, e)
    ensures IsLater(entries[..n], x, e) ||
      (Group(entries[..n], x) != [] && Identity(entries[n].observation) == x && entries[n] == e)
  {
    hide Group;
    GroupStarts(entries[..n], x);
    var i, j :| Follows(entries, i, j, x) && entries[j] == e;
    assert entries[..n][i] in entries[..n];
    assert j < n ==> Follows(entries[..n], i, j, x) && entries[..n][j] == e;
  }

  lemma LaterMore(entries: seq<Entry>, x: string, e: Entry)
    requires entries != []
    ensures var n := |entries| - 1;
      IsLater(entries, x, e) <==>
        || IsLater(entries[..n], x, e)
        || (Group(entries[..n], x) != [] && Identity(entries[n].observation) == x && entries[n] == e)
  {
    hide Group, IsLater;
    var n := |entries| - 1;
    if IsLater(entries[..n], x, e) {
      LaterStays(entries, x, e, n);
    }
    if Group(entries[..n], x) != [] && Identity(entries[n].observation) == x && entries[n] == e {
      LastIsLater(entries, x, n);
    }
    if IsLater(entries, x, e) {
      LaterWas(entries, x, e, n);
    }
  }

  lemma {:induction false} GroupGoesOn(entries: seq<Entry>, x: string, e: Entry)
    ensures (Group(entries, x) != [] && e in Group(entries, x)[1..]) <==> IsLater(entries, x, e)
  {
    if entries == [] {
    } else {
      var n := |entries| - 1;
      var before := Group(entries[..n], x);
      GroupGoesOn(entries[..n], x, e);
      LaterMore(entries, x, e);
      hide IsLater;
      if Identity(entries[n].observation) == x && before != [] {
        assert Group(entries, x)[1..] == before[1..] + [entries[n]];
      }
    }
  }

  lemma MergedRowsAre(entries: seq<Entry>, key: Key)
    ensures key in MergedKeys(entries, Identities(entries)) <==> IsMerged(entries, key)
  {
    hide Group, Agrees, Candidate;
    IdentitiesAre(entries);
    if key in MergedKeys(entries, Identities(entries)) {
      var x, e :| x in Identities(entries) && Agrees(Group(entries, x)) && Group(entries, x) != [] &&
          e in Group(entries, x)[1..] && e.key == key;
      GroupGoesOn(entries, x, e);
      var i, j :| Follows(entries, i, j, x) && entries[j] == e;
      GroupIs(entries, x);
      AgreeingGroupIsCandidate(entries, x, e);
    }
    if IsMerged(entries, key) {
      var i, j :| 0 <= i < j < |entries| && entries[j].key == key &&
          Identity(entries[i].observation) == Identity(entries[j].observation) &&
          Candidate(entries, entries[j].observation);
      var x := Identity(entries[j].observation);
      assert Follows(entries, i, j, x);
      GroupGoesOn(entries, x, entries[j]);
      GroupIs(entries, x);
      AgreeingGroupIsCandidate(entries, x, entries[j]);
      assert entries[j] in Group(entries, x)[1..];
    }
  }

  /** A key seen for the first time, whose first row could not be attributed in full. */
  ghost predicate IsUnattributed(g: Generation, kind: Kind, rows: seq<NativeRow>, key: Key)
    requires Digested(rows)
  {
    key !in g.rows && exists i :: FirstPolled(kind, rows, i, key) && Unattributed(rows[i].projection)
  }

  predicate Unattributed(p: Projection) {
    p.Projected? && p.attributionRefused
  }

  lemma AttributionNotesAre(g: Generation, kind: Kind, rows: seq<NativeRow>, key: Key)
    requires Digested(rows)
    ensures Cause(Note(OrderAttributionRefused), key) in AttributionNotes(g, NewRows(g.rows, kind, rows)) <==>
      Cause(Note(OrderAttributionRefused), key) !in g.noted && IsUnattributed(g, kind, rows, key)
  {
    FirstRowIsRecorded(g.rows, kind, rows, key);
    hide NewRows;
  }

  lemma CollectedNotesAre(g: Generation, o: seq<NativeRow>, t: seq<NativeRow>, key: Key)
    requires Digested(o) && Digested(t)
    ensures var notes := Collected(g, o, t).notes;
      && (Cause(Note(OrderAttributionRefused), key) in notes <==>
            && Cause(Note(OrderAttributionRefused), key) !in g.noted
            && (IsUnattributed(g, OrderKind, o, key) || IsUnattributed(g, TradeKind, t, key)))
      && (Cause(Note(DuplicateRowMerged), key) in notes <==>
            && Cause(Note(DuplicateRowMerged), key) !in g.noted
            && (IsMerged(Orders(g, o), key) || IsMerged(Trades(g, t), key)))
      && Cause(Note(TradeOrderUnobserved), key) !in notes
  {
    AttributionNotesAre(g, OrderKind, o, key);
    AttributionNotesAre(g, TradeKind, t, key);
    MergedRowsAre(Orders(g, o), key);
    MergedRowsAre(Trades(g, t), key);
    hide NewRows, MergedKeys, IsMerged, IsUnattributed, KindEntries, Identities;
  }

  lemma StagedNotesAre(g: Generation, o: seq<NativeRow>, t: seq<NativeRow>, key: Key)
    requires Wellformed(g, o, t)
    ensures var notes := StagedPoll(g, o, t).notes;
      && (forall code :: code != TradeOrderUnobserved ==>
            (Cause(Note(code), key) in notes <==> Cause(Note(code), key) in Collected(g, o, t).notes))
      && (Cause(Note(TradeOrderUnobserved), key) in notes <==>
            && Cause(Note(TradeOrderUnobserved), key) !in g.noted
            && LeaderMisses(g.ledger.history, Orders(g, o), Trades(g, t), key))
  {
    hide LedgerInv, RowsKept, RowsMatch, FactIdsIdentify, Accepted, KindEntries, LeaderMisses, CollectNotes;
    hide StageOrders, StageTrades, TradeWaits, TradeRefused, KeysApart;
    hide IdsApart, Unrefused, AllOrders, AllTrades;
    PollApart(g, o, t);
    CollectedNotesAre(g, o, t, key);
    OrderLoopRefuses(g, Collected(g, o, t), AcceptedOrders(g, o), key);
    TradeLoopRefuses(g, OrderStage(g, o, t), AcceptedTrades(g, t), key);
    TradesAre(g, o, t, key);
    hide Collected;
  }

  /** A key is noted by a poll iff it was noted before, or: as merged, when its row comes after another of its
      undisputed identity; as unattributed, when it is new and its first row could not be attributed; as a trade
      without its order, when it leads its identity, is not published and names an order that is not known. */
  lemma NotesAre(g: Generation, o: seq<NativeRow>, t: seq<NativeRow>, key: Key)
    requires Wellformed(g, o, t) && Poll(g, o, t).Committed?
    ensures var before, after := g.noted, Poll(g, o, t).generation.noted;
      && (Cause(Note(DuplicateRowMerged), key) in after <==>
            || Cause(Note(DuplicateRowMerged), key) in before
            || IsMerged(Orders(g, o), key) || IsMerged(Trades(g, t), key))
      && (Cause(Note(OrderAttributionRefused), key) in after <==>
            || Cause(Note(OrderAttributionRefused), key) in before
            || IsUnattributed(g, OrderKind, o, key) || IsUnattributed(g, TradeKind, t, key))
      && (Cause(Note(TradeOrderUnobserved), key) in after <==>
            || Cause(Note(TradeOrderUnobserved), key) in before
            || LeaderMisses(g.ledger.history, Orders(g, o), Trades(g, t), key))
  {
    hide LedgerInv, RowsKept, RowsMatch, FactIdsIdentify, LeaderMisses, StagedPoll;
    hide Collected, Bump, NewCauses, UnseenRows;
    hide KindEntries, IsMerged, IsUnattributed;
    CollectedNotesAre(g, o, t, key);
    StagedNotesAre(g, o, t, key);
  }

  /** After a poll exactly the polled keys are tracked besides the old ones; an old key keeps its record, and a
      new one has the projection of its first row. */
  lemma RecordsAre(g: Generation, o: seq<NativeRow>, t: seq<NativeRow>, key: Key)
    requires Wellformed(g, o, t) && Poll(g, o, t).Committed?
    ensures var rows := Poll(g, o, t).generation.rows;
      && (key in rows <==> key in g.rows || key in PolledKeys(OrderKind, o) || key in PolledKeys(TradeKind, t))
      && (key in g.rows ==> rows[key] == g.rows[key])
      && (key !in g.rows ==> forall i :: FirstPolled(OrderKind, o, i, key) ==> rows[key] == o[i].projection)
      && (key !in g.rows ==> forall i :: FirstPolled(TradeKind, t, i, key) ==> rows[key] == t[i].projection)
  {
    hide LedgerInv, RowsKept, RowsMatch, FactIdsIdentify, StagedPoll, Bump, NewCauses, PolledKeys;
    UnseenIs(g, o, t, key);
    FirstRowIsRecorded(g.rows, OrderKind, o, key);
    FirstRowIsRecorded(g.rows, TradeKind, t, key);
    NewRowsAre(g.rows, OrderKind, o, key);
    NewRowsAre(g.rows, TradeKind, t, key);
    hide NewRows;
  }
}
