/** The published execution facts of one provider generation.

    A ledger is everything a generation has ever queued: the delivery history
    (confirmed observations followed by pending ones), the published fact ids
    with their digests, and the latest state of every observed order.
    `LedgerInv` is what the Gateway may rely on; `PublishKeeps` is the one
    step through which every observation enters the history.
 */
module ExecutionLedger {
  import opened Options

  /** Order statuses; every constructor but `Live` is terminal. */
  datatype OrderStatus =
    | Filled
    | Canceled
    | Rejected
    | PartiallyFilledTerminal
    | PartiallyFilledCanceled
    | TerminalUnfilled
    | Live(name: string)

  datatype Content =
    | Order(orderId: string, status: OrderStatus, filled: real)
    | Trade(tradeId: string, tradeOrder: Option<string>)

  /** One account execution observation. The fact id and fact digest are
      functions of the observation in the base protocol; here they are carried
      by it. `observedAt` is the part the digest does not cover. */
  datatype Observation =
    Observation(factId: string, factDigest: string, content: Content, observedAt: string)

  datatype Progress = Progress(terminal: bool, filled: real)

  datatype Ledger = Ledger(
    history: seq<Observation>,
    facts: map<string, string>,
    progress: map<string, Progress>)

  const EMPTY_LEDGER := Ledger([], map[], map[])

  predicate IsOrder(o: Observation, orderId: string) {
    o.content.Order? && o.content.orderId == orderId
  }

  function ProgressOf(o: Observation): Progress
    requires o.content.Order?
  {
    Progress(!o.content.status.Live?, o.content.filled)
  }

  /** The order was already over, or had filled more. */
  predicate Regresses(progress: map<string, Progress>, o: Observation)
    requires o.content.Order?
  {
    var id := o.content.orderId;
    id in progress && (progress[id].terminal || o.content.filled < progress[id].filled)
  }

  /** A trade that names an order may be queued only once that order was. */
  predicate OrderObserved(progress: map<string, Progress>, o: Observation)
    requires o.content.Trade?
  {
    o.content.tradeOrder.Some? ==> o.content.tradeOrder.value in progress
  }

  predicate Admissible(l: Ledger, o: Observation) {
    && o.factId !in l.facts
    && (o.content.Order? ==> !Regresses(l.progress, o))
    && (o.content.Trade? ==> OrderObserved(l.progress, o))
  }

  function Publish(l: Ledger, o: Observation): Ledger {
    Ledger(
      l.history + [o],
      l.facts[o.factId := o.factDigest],
      if o.content.Order? then l.progress[o.content.orderId := ProgressOf(o)] else l.progress)
  }

  // ---- what holds of the whole history -------------------------------------

  ghost predicate FactsOnce(l: Ledger) {
    && (forall i, j :: 0 <= i < j < |l.history| ==> l.history[i].factId != l.history[j].factId)
    && (forall i :: 0 <= i < |l.history| ==>
          l.history[i].factId in l.facts && l.facts[l.history[i].factId] == l.history[i].factDigest)
    && (forall f :: f in l.facts ==> exists i :: 0 <= i < |l.history| && l.history[i].factId == f)
  }

  ghost predicate OrdersAdvance(h: seq<Observation>) {
    forall i, j :: 0 <= i < j < |h| && h[j].content.Order? && IsOrder(h[i], h[j].content.orderId) ==>
      !ProgressOf(h[i]).terminal && h[i].content.filled <= h[j].content.filled
  }

  ghost predicate TradesFollowOrders(h: seq<Observation>) {
    forall j :: 0 <= j < |h| && h[j].content.Trade? && h[j].content.tradeOrder.Some? ==>
      exists i :: 0 <= i < j && IsOrder(h[i], h[j].content.tradeOrder.value)
  }

  ghost predicate IsLatest(h: seq<Observation>, i: int, orderId: string) {
    && 0 <= i < |h| && IsOrder(h[i], orderId)
    && forall j :: i < j < |h| ==> !IsOrder(h[j], orderId)
  }

  /** `progress` holds exactly the orders ever queued, each with its latest state. */
  ghost predicate ProgressIsLatest(l: Ledger) {
    && (forall i :: 0 <= i < |l.history| && l.history[i].content.Order? ==>
          l.history[i].content.orderId in l.progress)
    && (forall x :: x in l.progress ==>
          exists i :: IsLatest(l.history, i, x) && l.progress[x] == ProgressOf(l.history[i]))
  }

  ghost predicate LedgerInv(l: Ledger) {
    && FactsOnce(l)
    && OrdersAdvance(l.history)
    && TradesFollowOrders(l.history)
    && ProgressIsLatest(l)
  }

  // ---- publishing keeps it ---------------------------------------------------

  lemma PublishKeepsFacts(l: Ledger, o: Observation)
    requires FactsOnce(l) && o.factId !in l.facts
    ensures FactsOnce(Publish(l, o))
  {
    var m := Publish(l, o);
    forall f | f in m.facts
      ensures exists i :: 0 <= i < |m.history| && m.history[i].factId == f
    {
      if f in l.facts {
        var i :| 0 <= i < |l.history| && l.history[i].factId == f;
        assert m.history[i].factId == f;
      } else {
        assert m.history[|l.history|].factId == f;
      }
    }
  }

  lemma PublishKeepsProgress(l: Ledger, o: Observation)
    requires ProgressIsLatest(l)
    ensures ProgressIsLatest(Publish(l, o))
  {
    var m := Publish(l, o);
    forall x | x in m.progress
      ensures exists i :: IsLatest(m.history, i, x) && m.progress[x] == ProgressOf(m.history[i])
    {
      if IsOrder(o, x) {
        assert IsLatest(m.history, |l.history|, x);
      } else {
        var i :| IsLatest(l.history, i, x) && l.progress[x] == ProgressOf(l.history[i]);
        assert IsLatest(m.history, i, x);
      }
    }
  }

  lemma PublishKeepsOrders(l: Ledger, o: Observation)
    requires OrdersAdvance(l.history) && ProgressIsLatest(l)
    requires o.content.Order? ==> !Regresses(l.progress, o)
    ensures OrdersAdvance(Publish(l, o).history)
  {
    if o.content.Order? {
      var x := o.content.orderId;
      forall i | 0 <= i < |l.history| && IsOrder(l.history[i], x)
        ensures !ProgressOf(l.history[i]).terminal && l.history[i].content.filled <= o.content.filled
      {
        assert x in l.progress;
        var k :| IsLatest(l.history, k, x) && l.progress[x] == ProgressOf(l.history[k]);
        assert i <= k;
      }
    }
  }

  lemma PublishKeepsTrades(l: Ledger, o: Observation)
    requires TradesFollowOrders(l.history) && ProgressIsLatest(l)
    requires o.content.Trade? ==> OrderObserved(l.progress, o)
    ensures TradesFollowOrders(Publish(l, o).history)
  {
    var h := Publish(l, o).history;
    forall j | 0 <= j < |h| && h[j].content.Trade? && h[j].content.tradeOrder.Some?
      ensures exists i :: 0 <= i < j && IsOrder(h[i], h[j].content.tradeOrder.value)
    {
      var x := h[j].content.tradeOrder.value;
      if j < |l.history| {
        var i :| 0 <= i < j && IsOrder(l.history[i], x);
        assert IsOrder(h[i], x);
      } else {
        var i :| IsLatest(l.history, i, x) && l.progress[x] == ProgressOf(l.history[i]);
        assert IsOrder(h[i], x);
      }
    }
  }

  lemma PublishKeeps(l: Ledger, o: Observation)
    requires LedgerInv(l) && Admissible(l, o)
    ensures LedgerInv(Publish(l, o))
  {
    PublishKeepsFacts(l, o);
    PublishKeepsProgress(l, o);
    PublishKeepsOrders(l, o);
    PublishKeepsTrades(l, o);
  }

  // ---- sizes -------------------------------------------------------------------

  ghost function FactIds(h: seq<Observation>): set<string> {
    set i | 0 <= i < |h| :: h[i].factId
  }

  lemma {:induction false} DistinctFactIds(h: seq<Observation>)
    requires forall i, j :: 0 <= i < j < |h| ==> h[i].factId != h[j].factId
    ensures |FactIds(h)| == |h|
  {
    if h == [] {
    } else {
      var n := |h| - 1;
      DistinctFactIds(h[..n]);
      assert FactIds(h) == FactIds(h[..n]) + {h[n].factId};
    }
  }

  /** The history holds each published fact id exactly once. */
  lemma HistoryCountsFacts(l: Ledger)
    requires FactsOnce(l)
    ensures |l.history| == |l.facts|
  {
    DistinctFactIds(l.history);
    assert FactIds(l.history) == l.facts.Keys;
  }

  ghost function OrderIds(h: seq<Observation>): set<string> {
    set i | 0 <= i < |h| && h[i].content.Order? :: h[i].content.orderId
  }

  lemma {:induction false} FewerOrdersThanObservations(h: seq<Observation>)
    ensures |OrderIds(h)| <= |h|
  {
    if h == [] {
    } else {
      var n := |h| - 1;
      FewerOrdersThanObservations(h[..n]);
      assert OrderIds(h) ==
        OrderIds(h[..n]) + (if h[n].content.Order? then {h[n].content.orderId} else {});
    }
  }

  /** Tracked orders never outnumber published facts. */
  lemma ProgressIsBounded(l: Ledger)
    requires LedgerInv(l)
    ensures |l.progress| <= |l.facts|
  {
    HistoryCountsFacts(l);
    FewerOrdersThanObservations(l.history);
    forall x | x in l.progress ensures x in OrderIds(l.history) {
      var i :| IsLatest(l.history, i, x) && l.progress[x] == ProgressOf(l.history[i]);
    }
    assert l.progress.Keys == OrderIds(l.history);
  }
}
