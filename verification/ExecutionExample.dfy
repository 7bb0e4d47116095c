/** A run after which the order of two rows decides what is published. */
module ExecutionExample {
  import opened Options
  import opened ExecutionLedger
  import opened ExecutionPoll
  import opened ExecutionFacts
  import opened ExecutionReordering
  import opened ExecutionRepresentatives
  import opened ExecutionRun

  /** One order seen with some fill, then reported under one fact with less and with no less. */
  ghost predicate Sightings(seen: NativeRow, low: NativeRow, high: NativeRow) {
    && seen.digest.Some? && low.digest.Some? && high.digest.Some?
    && seen.digest != low.digest && seen.digest != high.digest && low.digest != high.digest
    && seen.projection.Projected? && low.projection.Projected? && high.projection.Projected?
    && var s, l, h := seen.projection.observation, low.projection.observation, high.projection.observation;
    && s.content.Order? && s.content.status.Live? && l.content.Order? && h.content.Order?
    && Identity(s) == Identity(l) == Identity(h)
    && l.content.filled < s.content.filled <= h.content.filled
    && SameFact(l, h) && l.factId != s.factId
  }

  lemma SightingsExist() returns (seen: NativeRow, low: NativeRow, high: NativeRow)
    ensures Sightings(seen, low, high)
  {
    seen := NativeRow(Some(['s']), Projected(Observation(['s'], "", Order("", Live(""), 5.0), ""), false));
    low := NativeRow(Some(['l']), Projected(Observation(['f'], "", Order("", Live(""), 3.0), ""), false));
    high := NativeRow(Some(['h']), Projected(Observation(['f'], "", Order("", Live(""), 7.0), ""), false));
    assert ['s'][0] != ['l'][0] && ['s'][0] != ['h'][0] && ['l'][0] != ['h'][0] && ['s'][0] != ['f'][0];
  }

  lemma OnlyRow(row: NativeRow, kind: Kind, key: Key)
    requires row.digest.Some?
    ensures Polled(kind, [row], key) <==> key == KeyOf(kind, row)
  {
    if Polled(kind, [row], key) {
      var i :| 0 <= i < |[row]| && KeyOf(kind, [row][i]) == key;
    }
    assert KeyOf(kind, [row][0]) == KeyOf(kind, row);
  }

  lemma LoneEntry(g: Generation, row: NativeRow)
    requires g.rows == map[] && g.conflicted == map[] && row.digest.Some? && row.projection.Projected?
    ensures Digested([row]) && NewRows(g.rows, OrderKind, [row]) == map[KeyOf(OrderKind, row) := row.projection]
    ensures KindEntries(g, OrderKind, [row]) == [Entry(KeyOf(OrderKind, row), row.projection.observation)]
  {
    var rows := [row];
    assert rows[..0] == [];
    assert NewRows(g.rows, OrderKind, []) == map[];
    assert Entries(g.rows, g.conflicted.Keys, OrderKind, []) == [];
  }

  /** Polling one new order row publishes its observation. */
  lemma OneRowPoll(g: Generation, row: NativeRow)
    requires g.rows == map[] && g.conflicted == map[] && g.noted == {}
    requires row.digest.Some? && row.projection.Projected? && row.projection.observation.content.Order?
    requires row.projection.observation.factId !in g.ledger.facts
    requires !Regresses(g.ledger.progress, row.projection.observation)
    ensures RowsKept(g) && RowsMatch(OrderKind, [row]) && Digested([row])
    ensures StagedPoll(g, [row], []).ledger == Publish(g.ledger, row.projection.observation)
    ensures UnseenRows(g, [row], []) == map[KeyOf(OrderKind, row) := row.projection]
  {
    hide NewRows, KindEntries, Accepted, Regresses, Publish, StagedPoll;
    LoneEntry(g, row);
    AloneIsAccepted(Entry(KeyOf(OrderKind, row), row.projection.observation));
    NoTrades(g);
    LoneOrderStages(g, [row], Entry(KeyOf(OrderKind, row), row.projection.observation));
  }

  lemma NoTrades(g: Generation)
    ensures NewRows(g.rows, TradeKind, []) == map[] && Accepted(KindEntries(g, TradeKind, [])) == []
  {
  }

  lemma LoneOrderStages(g: Generation, rows: seq<NativeRow>, e: Entry)
    requires RowsKept(g) && RowsMatch(OrderKind, rows) && Digested(rows)
    requires Accepted(KindEntries(g, OrderKind, rows)) == [e] && Accepted(KindEntries(g, TradeKind, [])) == []
    requires e.observation.content.Order? && Publishable(g, e.observation)
    ensures StagedPoll(g, rows, []).ledger == Publish(g.ledger, e.observation)
  {
    hide Accepted, KindEntries, Regresses, Publish, CollectConflicts, CollectNotes, RowsKept, RowsMatch;
    var s := Collected(g, rows, []);
    assert [e][..0] == [];
    assert StageOrders(g, s, [e]) == StageOrder(g, s, e);
  }

  lemma AloneIsAccepted(e: Entry)
    ensures Accepted([e]) == [e]
  {
    var x := Identity(e.observation);
    assert [e][..0] == [] && [x][..0] == [];
    assert Group([e], x) == [e] && Identities([e]) == [x];
    assert AcceptedAmong([e], [x]) == [] + [e];
  }

  ghost function FirstRead(row: NativeRow): Step {
    Read(0.0, 1, QueryRows([row], []))
  }

  lemma PollCommits(g: Generation, rows: seq<NativeRow>)
    requires RowsKept(g) && RowsMatch(OrderKind, rows) && Digested(rows) && |rows| <= MAX_QUERY_ROWS
    requires |g.rows| + |UnseenRows(g, rows, [])| <= MAX_TRACKED
    requires |StagedPoll(g, rows, []).ledger.facts| <= MAX_TRACKED
    ensures var p := Poll(g, rows, []);
      && p.Committed? && p.generation.ledger == StagedPoll(g, rows, []).ledger
      && p.generation.rows == g.rows + UnseenRows(g, rows, []) && p.generation.confirmed == g.confirmed
  {
    hide StagedPoll, UnseenRows, Bump, NewCauses, RowsKept, RowsMatch;
  }

  lemma FirstPublication(l: Ledger, o: Observation)
    requires l.facts == map[] && l.progress == map[]
    ensures o.factId !in l.facts && |Publish(l, o).facts| == 1
    ensures o.content.Order? ==> !Regresses(l.progress, o)
  {
    assert Publish(l, o).facts == map[o.factId := o.factDigest];
  }

  lemma FirstPoll(g: Generation, row: NativeRow)
    requires g.rows == map[] && g.conflicted == map[] && g.noted == {} && g.ledger.facts == map[]
    requires g.ledger.progress == map[]
    requires row.digest.Some? && row.projection.Projected? && row.projection.observation.content.Order?
    ensures RowsKept(g) && RowsMatch(OrderKind, [row])
    ensures var p := Poll(g, [row], []);
      && p.Committed? && p.generation.ledger == Publish(g.ledger, row.projection.observation)
      && p.generation.rows == map[KeyOf(OrderKind, row) := row.projection]
      && p.generation.confirmed == g.confirmed
  {
    hide StagedPoll, UnseenRows, Poll, RowsKept, RowsMatch, Publish, Regresses;
    FirstPublication(g.ledger, row.projection.observation);
    OneRowPoll(g, row);
    PollCommits(g, [row]);
  }

  lemma FirstReadPolls(g: Generation, row: NativeRow)
    requires g.rows == map[] && g.conflicted == map[] && g.noted == {} && g.nextQuery == None && g.confirmed == 0
    requires g.ledger.history == [] && g.ledger.facts == map[] && g.ledger.progress == map[]
    requires row.digest.Some? && row.projection.Projected? && row.projection.observation.content.Order?
    ensures RowsKept(g) && ValidStep(FirstRead(row))
    ensures var (h, reply) := TakeStep(0.0, g, FirstRead(row));
      && reply.Page? && h.ledger == Publish(g.ledger, row.projection.observation)
      && h.rows == map[KeyOf(OrderKind, row) := row.projection]
  {
    hide Poll;
    FirstPoll(g.(nextQuery := Some(0.0 + 0.0)), row);
    hide RowsKept;
  }

  /** A first read that finds one order leaves its row tracked and its state published. */
  lemma AfterFirstRead(row: NativeRow)
    requires row.digest.Some? && row.projection.Projected? && row.projection.observation.content.Order?
    ensures ValidRun([FirstRead(row)])
    ensures var g := Run(map[], 0.0, [FirstRead(row)]).generation;
      && g.ledger == Publish(EMPTY_LEDGER, row.projection.observation)
      && g.rows == map[KeyOf(OrderKind, row) := row.projection]
      && RowsKept(g) && LedgerInv(g.ledger)
  {
    hide TakeStep, LedgerInv, Counted, RowsKept, Publish;
    var start, step := Fresh(map[]), FirstRead(row);
    FirstReadPolls(start.generation, row);
    assert [step][..0] == [];
    assert Run(map[], 0.0, [step]) == SessionStep(0.0, start, step);
  }

  /** The two later rows are the whole poll, each with its own projection. */
  lemma LaterEntries(g: Generation, seen: NativeRow, low: NativeRow, high: NativeRow, e: Entry)
    requires Sightings(seen, low, high)
    requires g.rows == map[KeyOf(OrderKind, seen) := seen.projection] && RowsKept(g)
    ensures e in Orders(g, [low, high]) <==>
      e == Entry(KeyOf(OrderKind, low), low.projection.observation) ||
          e == Entry(KeyOf(OrderKind, high), high.projection.observation)
  {
    var rows := [low, high];
    assert rows[..1] == [low] && [low][..0] == [];
    var kl, kh := KeyOf(OrderKind, low), KeyOf(OrderKind, high);
    assert NewRows(g.rows, OrderKind, [low]) == map[kl := low.projection];
    assert NewRows(g.rows, OrderKind, rows) == map[kl := low.projection, kh := high.projection];
    PolledLast(OrderKind, rows, e.key);
    OnlyRow(low, OrderKind, e.key);
    EntriesAre(g.rows, g.conflicted.Keys, OrderKind, rows, e);
    assert kl !in g.conflicted.Keys && kh !in g.conflicted.Keys;
    hide NewRows, Entries, Polled;
  }

  lemma LaterPoll(g: Generation, seen: NativeRow, low: NativeRow, high: NativeRow)
    requires Sightings(seen, low, high)
    requires g.rows == map[KeyOf(OrderKind, seen) := seen.projection] && RowsKept(g) && LedgerInv(g.ledger)
    requires g.ledger == Publish(EMPTY_LEDGER, seen.projection.observation)
    ensures Wellformed(g, [low, high], []) && DigestsProject([low, high]) && !Settled(g, [low, high], [])
  {
    var orders := Orders(g, [low, high]);
    var a := Entry(KeyOf(OrderKind, low), low.projection.observation);
    var b := Entry(KeyOf(OrderKind, high), high.projection.observation);
    forall e ensures e in orders <==> e == a || e == b {
      LaterEntries(g, seen, low, high, e);
    }
    assert Trades(g, []) == [];
    hide KindEntries, LedgerInv, RowsKept;
    assert Interchangeable(g, orders, a, b);
    assert orders + Trades(g, []) == orders;
  }

  /** Fact ids that name the identity are not enough: after a run that saw one order, two rows of
      it whose fact digest does not cover the fill make the published facts depend on their order. */
  lemma FactIdsAloneDoNotSuffice() returns (steps: seq<Step>, orderRows: seq<NativeRow>)
    ensures ValidRun(steps)
    ensures var g := Run(map[], 0.0, steps).generation;
      && Wellformed(g, orderRows, []) && DigestsProject(orderRows)
      && !OrderIndependent(g, orderRows, [])
  {
    var seen, low, high := SightingsExist();
    steps, orderRows := [FirstRead(seen)], [low, high];
    AfterFirstRead(seen);
    hide Run, Publish, LedgerInv, RowsKept, Sightings, DigestsProject, Settled, OrderIndependent;
    var g := Run(map[], 0.0, steps).generation;
    LaterPoll(g, seen, low, high);
    assert DigestsProject([]) by { NoDigests(); }
    OrderIndependentIff(g, orderRows, []);
  }

  lemma NoDigests()
    ensures DigestsProject([])
  {
  }
}
