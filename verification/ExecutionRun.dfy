/** Every run of reads and confirms of one generation.

    `Step` is one call of the Gateway: a read, which may poll, or a confirm.
    `Run` carries the invariant of every reachable generation; `HistoryOnlyGrows`
    and `ClientReceivesHistory` say what the Gateway has received after any run.
 */
module ExecutionRun {
  import opened Options
  import opened ExecutionLedger
  import opened ExecutionPoll
  import opened ExecutionFacts

  const MAX_PAGE := 10_000

  // ---- bookkeeping of refused, conflicted and noted rows -------------------------

  /** Refusals and notes of a poll are new and name tracked rows. */
  ghost predicate NewlyRecorded(g: Generation, tracked: set<Key>, s: Staged) {
    && s.conflicts.Keys !! g.conflicted.Keys
    && s.conflicts.Keys <= tracked
    && s.notes !! g.noted
    && (forall c :: c in s.notes ==> c.code.Note? && c.key in tracked)
  }

  lemma {:induction false} StageOrdersRecord(g: Generation, tracked: set<Key>, s: Staged, acc: seq<Entry>)
    requires AllOrders(acc) && NewlyRecorded(g, tracked, s)
    requires forall i :: 0 <= i < |acc| ==> acc[i].key in tracked
    ensures NewlyRecorded(g, tracked, StageOrders(g, s, acc))
  {
    if acc == [] {
    } else {
      StageOrdersRecord(g, tracked, s, acc[..|acc| - 1]);
    }
  }

  lemma {:induction false} StageTradesRecord(g: Generation, tracked: set<Key>, s: Staged, acc: seq<Entry>)
    requires AllTrades(acc) && NewlyRecorded(g, tracked, s)
    requires forall i :: 0 <= i < |acc| ==> acc[i].key in tracked
    ensures NewlyRecorded(g, tracked, StageTrades(g, s, acc))
  {
    if acc == [] {
    } else {
      StageTradesRecord(g, tracked, s, acc[..|acc| - 1]);
    }
  }

  ghost function TrackedKeys(g: Generation, orderRows: seq<NativeRow>, tradeRows: seq<NativeRow>): set<Key>
    requires Digested(orderRows) && Digested(tradeRows)
  {
    (g.rows + UnseenRows(g, orderRows, tradeRows)).Keys
  }

  lemma CollectRecords(g: Generation, kind: Kind, rows: seq<NativeRow>, tracked: set<Key>)
    requires RowsKept(g) && RowsMatch(kind, rows) && Digested(rows)
    requires Table(g.rows, kind, rows).Keys <= tracked
    ensures NewlyRecorded(g, tracked, Staged(g.ledger, CollectConflicts(g, kind, rows), CollectNotes(g, kind, rows)))
    ensures forall i :: 0 <= i < |Accepted(KindEntries(g, kind, rows))| ==>
      Accepted(KindEntries(g, kind, rows))[i].key in tracked
  {
    var entries := KindEntries(g, kind, rows);
    var ids := Identities(entries);
    KindEntriesMatch(g, kind, rows);
    forall x, e | e in Group(entries, x) ensures e in entries { GroupIs(entries, x); }
    IdentitiesAre(entries);
    AcceptedAreCandidates(entries, ids);
    var acc := Accepted(entries);
    assert forall i :: 0 <= i < |acc| ==> acc[i] in acc;
    forall k | k in MergedKeys(entries, ids) ensures k in tracked {
      var x, e :| x in ids && Group(entries, x) != [] && e in Group(entries, x)[1..] && e.key == k;
      assert e in Group(entries, x);
    }
  }

  lemma StagedPollRecords(g: Generation, orderRows: seq<NativeRow>, tradeRows: seq<NativeRow>)
    requires PollInput(g, orderRows, tradeRows)
    ensures NewlyRecorded(g, TrackedKeys(g, orderRows, tradeRows), StagedPoll(g, orderRows, tradeRows))
  {
    var tracked := TrackedKeys(g, orderRows, tradeRows);
    var s := Collected(g, orderRows, tradeRows);
    CollectRecords(g, OrderKind, orderRows, tracked);
    CollectRecords(g, TradeKind, tradeRows, tracked);
    StageOrdersRecord(g, tracked, s, AcceptedOrders(g, orderRows));
    StageTradesRecord(g, tracked, StageOrders(g, s, AcceptedOrders(g, orderRows)), AcceptedTrades(g, tradeRows));
  }

  // ---- counters --------------------------------------------------------------------

  /** Everything this generation has counted: one cause per code and distinct row. */
  ghost function Causes(g: Generation): set<Cause> {
    RefusedCauses(g.rows) + ConflictCauses(g.conflicted) + g.noted
  }

  /** Under every code, the counter gained exactly the causes with that code. */
  ghost predicate Counted(base: map<Code, nat>, g: Generation) {
    forall code :: (if code in g.counters then g.counters[code] else 0) ==
      (if code in base then base[code] else 0) + |WithCode(Causes(g), code)|
  }

  lemma BumpCounts(counters: map<Code, nat>, causes: set<Cause>, code: Code)
    ensures Count(Bump(counters, causes), code) == Count(counters, code) + |WithCode(causes, code)|
  {
    if code !in counters.Keys + Codes(causes) {
      assert WithCode(causes, code) == {};
    }
  }

  lemma DisjointCausesAdd(a: set<Cause>, b: set<Cause>, code: Code)
    requires a !! b
    ensures |WithCode(a + b, code)| == |WithCode(a, code)| + |WithCode(b, code)|
  {
    assert WithCode(a + b, code) == WithCode(a, code) + WithCode(b, code);
    assert WithCode(a, code) !! WithCode(b, code);
  }

  ghost function RefusedKeys(rows: map<Key, Projection>): set<Key> {
    set k | k in rows && rows[k].Refused?
  }

  ghost predicate Matched(keys: set<Key>, causes: set<Cause>) {
    && (forall c :: c in causes ==> c.key in keys)
    && (forall c, d :: c in causes && d in causes && c.key == d.key ==> c == d)
  }

  /** Causes with distinct keys are no more than their keys, and as many if every key has one. */
  lemma CausesOfKeys(keys: set<Key>, causes: set<Cause>)
    requires Matched(keys, causes)
    ensures |causes| <= |keys|
    ensures (forall k :: k in keys ==> exists c :: c in causes && c.key == k) ==> |causes| == |keys|
    decreases causes
  {
    if causes == {} {
      if keys != {} {
        var k :| k in keys;
      }
    } else {
      var x :| x in causes;
      var rest, others := causes - {x}, keys - {x.key};
      CausesOfKeys(others, rest);
      if forall k :: k in keys ==> exists c :: c in causes && c.key == k {
        forall k | k in others ensures exists c :: c in rest && c.key == k {
          var c :| c in causes && c.key == k;
          assert c in rest;
        }
      }
    }
  }

  lemma RefusedCausesAre(rows: map<Key, Projection>)
    ensures |RefusedCauses(rows)| == |RefusedKeys(rows)|
  {
    forall k | k in RefusedKeys(rows) ensures exists c :: c in RefusedCauses(rows) && c.key == k {
      assert Cause(Refusal(rows[k].code), k) in RefusedCauses(rows);
    }
    CausesOfKeys(RefusedKeys(rows), RefusedCauses(rows));
  }

  lemma ConflictCausesAre(conflicts: map<Key, ConflictCode>)
    ensures |ConflictCauses(conflicts)| == |conflicts|
  {
    forall k | k in conflicts.Keys ensures exists c :: c in ConflictCauses(conflicts) && c.key == k {
      assert Cause(Conflict(conflicts[k]), k) in ConflictCauses(conflicts);
    }
    CausesOfKeys(conflicts.Keys, ConflictCauses(conflicts));
  }

  /** The total gained: refused rows plus conflicted keys plus notes. */
  lemma CauseTotal(g: Generation)
    requires RowsKept(g)
    ensures |Causes(g)| == |RefusedKeys(g.rows)| + |g.conflicted| + |g.noted|
  {
    RefusedCausesAre(g.rows);
    ConflictCausesAre(g.conflicted);
    assert RefusedCauses(g.rows) !! ConflictCauses(g.conflicted);
    assert RefusedCauses(g.rows) + ConflictCauses(g.conflicted) !! g.noted;
  }

  /** At most three notes per tracked row. */
  lemma NotesAreBounded(g: Generation)
    requires RowsKept(g)
    ensures |g.noted| <= 3 * |g.rows|
  {
    var a := WithCode(g.noted, Note(DuplicateRowMerged));
    var b := WithCode(g.noted, Note(OrderAttributionRefused));
    var c := WithCode(g.noted, Note(TradeOrderUnobserved));
    CausesOfKeys(g.rows.Keys, a);
    CausesOfKeys(g.rows.Keys, b);
    CausesOfKeys(g.rows.Keys, c);
    forall n | n in g.noted ensures n in a + b + c {
      assert n.code.note.DuplicateRowMerged? || n.code.note.OrderAttributionRefused? ||
          n.code.note.TradeOrderUnobserved?;
    }
    assert |a + b| <= |a| + |b|;
    SubsetIsSmaller(g.noted, a + b + c);
  }

  lemma SubsetIsSmaller<T>(a: set<T>, b: set<T>)
    requires a <= b
    ensures |a| <= |b|
  {
    assert b == a + (b - a);
  }

  // ---- the invariant of a generation --------------------------------------------------

  ghost predicate GenerationInv(base: map<Code, nat>, g: Generation) {
    && LedgerInv(g.ledger)
    && RowsKept(g)
    && g.confirmed + g.offered <= |g.ledger.history|
    && |g.rows| <= MAX_TRACKED && |g.ledger.facts| <= MAX_TRACKED
    && Counted(base, g)
  }

  lemma UnseenRowsAre(g: Generation, orderRows: seq<NativeRow>, tradeRows: seq<NativeRow>)
    requires PollInput(g, orderRows, tradeRows)
    ensures UnseenRows(g, orderRows, tradeRows).Keys !! g.rows.Keys
    ensures forall k :: k in UnseenRows(g, orderRows, tradeRows) ==>
      IsKind(k.kind, UnseenRows(g, orderRows, tradeRows)[k])
  {
    forall k | k in UnseenRows(g, orderRows, tradeRows)
      ensures k !in g.rows && IsKind(k.kind, UnseenRows(g, orderRows, tradeRows)[k])
    {
      NewRowsAre(g.rows, OrderKind, orderRows, k);
      NewRowsAre(g.rows, TradeKind, tradeRows, k);
    }
  }

  lemma RefusedCausesMerge(a: map<Key, Projection>, b: map<Key, Projection>)
    requires a.Keys !! b.Keys
    ensures RefusedCauses(a + b) == RefusedCauses(a) + RefusedCauses(b)
  {
  }

  lemma ConflictCausesMerge(a: map<Key, ConflictCode>, b: map<Key, ConflictCode>)
    requires a.Keys !! b.Keys
    ensures ConflictCauses(a + b) == ConflictCauses(a) + ConflictCauses(b)
  {
  }

  lemma CausesGrow(g: Generation, unseen: map<Key, Projection>, s: Staged)
    requires RowsKept(g) && unseen.Keys !! g.rows.Keys
    requires NewlyRecorded(g, (g.rows + unseen).Keys, s)
    ensures RefusedCauses(g.rows + unseen) + ConflictCauses(g.conflicted + s.conflicts) + (g.noted + s.notes)
      == Causes(g) + NewCauses(unseen, s)
    ensures Causes(g) !! NewCauses(unseen, s)
  {
    RefusedCausesMerge(g.rows, unseen);
    ConflictCausesMerge(g.conflicted, s.conflicts);
  }

  lemma BumpKeepsCounted(base: map<Code, nat>, g: Generation, h: Generation, added: set<Cause>)
    requires Counted(base, g)
    requires Causes(h) == Causes(g) + added && Causes(g) !! added
    requires h.counters == Bump(g.counters, added)
    ensures Counted(base, h)
  {
    forall code ensures Count(h.counters, code) == Count(base, code) + |WithCode(Causes(h), code)| {
      BumpCounts(g.counters, added, code);
      DisjointCausesAdd(Causes(g), added, code);
    }
  }

  /** Committing staged results keeps counters, rows, conflicts and notes consistent. */
  lemma CommitRecords(base: map<Code, nat>, g: Generation, unseen: map<Key, Projection>, s: Staged, h: Generation)
    requires RowsKept(g) && Counted(base, g)
    requires unseen.Keys !! g.rows.Keys && forall k :: k in unseen ==> IsKind(k.kind, unseen[k])
    requires NewlyRecorded(g, (g.rows + unseen).Keys, s)
    requires h.rows == g.rows + unseen && h.conflicted == g.conflicted + s.conflicts && h.noted == g.noted + s.notes
    requires h.counters == Bump(g.counters, NewCauses(unseen, s))
    ensures RowsKept(h) && Counted(base, h) && |h.rows| == |g.rows| + |unseen|
  {
    CausesGrow(g, unseen, s);
    BumpKeepsCounted(base, g, h, NewCauses(unseen, s));
    assert h.rows.Keys == g.rows.Keys + unseen.Keys;
  }

  /** A committed poll keeps the invariant and appends to the history. */
  lemma PollKeeps(base: map<Code, nat>, g: Generation, orderRows: seq<NativeRow>, tradeRows: seq<NativeRow>)
    requires GenerationInv(base, g)
    requires RowsMatch(OrderKind, orderRows) && RowsMatch(TradeKind, tradeRows)
    requires Poll(g, orderRows, tradeRows).Committed?
    ensures GenerationInv(base, Poll(g, orderRows, tradeRows).generation)
    ensures Extends(g.ledger, Poll(g, orderRows, tradeRows).generation.ledger)
    ensures Poll(g, orderRows, tradeRows).generation.confirmed == g.confirmed
    ensures Poll(g, orderRows, tradeRows).generation.offered == g.offered
  {
    hide LedgerInv, StagedPoll, UnseenRows, NewlyRecorded, Counted, RowsKept, Bump, NewCauses;
    var h := Poll(g, orderRows, tradeRows).generation;
    StagedPollKeepsLedger(g, orderRows, tradeRows);
    StagedPollRecords(g, orderRows, tradeRows);
    UnseenRowsAre(g, orderRows, tradeRows);
    CommitRecords(base, g, UnseenRows(g, orderRows, tradeRows), StagedPoll(g, orderRows, tradeRows), h);
  }

  // ---- reads and confirms ----------------------------------------------------------------

  datatype Query = QueryFailed | QueryRows(orderRows: seq<NativeRow>, tradeRows: seq<NativeRow>)

  datatype Step =
    | Read(now: real, limit: int, query: Query)
    | Confirm(count: int)

  datatype Reply =
    | Page(page: seq<Observation>)
    | Confirmed
    | LimitInvalid
    | ConfirmInvalid
    | PollFailed

  predicate ValidStep(step: Step) {
    step.Read? && step.query.QueryRows? ==>
      RowsMatch(OrderKind, step.query.orderRows) && RowsMatch(TradeKind, step.query.tradeRows)
  }

  /** The first `limit` observations not yet confirmed. */
  function Offer(g: Generation, limit: nat): (Generation, Reply)
    requires g.confirmed <= |g.ledger.history|
  {
    var pending := Pending(g);
    var page := if |pending| <= limit then pending else pending[..limit];
    (g.(offered := |page|), Page(page))
  }

  lemma PollExtends(g: Generation, orderRows: seq<NativeRow>, tradeRows: seq<NativeRow>)
    requires RowsKept(g) && RowsMatch(OrderKind, orderRows) && RowsMatch(TradeKind, tradeRows)
    requires Poll(g, orderRows, tradeRows).Committed?
    ensures Extends(g.ledger, Poll(g, orderRows, tradeRows).generation.ledger)
  {
    var s := Collected(g, orderRows, tradeRows);
    StageOrdersExtend(g, s, AcceptedOrders(g, orderRows));
    StageTradesExtend(g, StageOrders(g, s, AcceptedOrders(g, orderRows)), AcceptedTrades(g, tradeRows));
  }

  ghost function ReadStep(interval: real, g: Generation, now: real, limit: int, query: Query): (Generation, Reply)
    requires RowsKept(g) && g.confirmed <= |g.ledger.history|
    requires ValidStep(Read(now, limit, query))
  {
    if !(1 <= limit <= MAX_PAGE) then (g, LimitInvalid)
    else if Pending(g) != [] || (g.nextQuery.Some? && now < g.nextQuery.value) then Offer(g, limit)
    else
      var g1 := g.(nextQuery := Some(now + interval));
      match query
      case QueryFailed => (g1, PollFailed)
      case QueryRows(orderRows, tradeRows) =>
        var polled := Poll(g1, orderRows, tradeRows);
        if polled.Failed? then (g1, PollFailed)
        else
          PollExtends(g1, orderRows, tradeRows);
          Offer(polled.generation, limit)
  }

  function ConfirmStep(g: Generation, count: int): (Generation, Reply) {
    if 0 <= count <= g.offered
    then (g.(confirmed := g.confirmed + count, offered := g.offered - count), Confirmed)
    else (g, ConfirmInvalid)
  }

  ghost function TakeStep(interval: real, g: Generation, step: Step): (Generation, Reply)
    requires RowsKept(g) && g.confirmed <= |g.ledger.history| && ValidStep(step)
  {
    match step
    case Read(now, limit, query) => ReadStep(interval, g, now, limit, query)
    case Confirm(count) => ConfirmStep(g, count)
  }

  lemma SameRecords(base: map<Code, nat>, g: Generation, h: Generation)
    requires GenerationInv(base, g)
    requires h.ledger == g.ledger && h.rows == g.rows && h.conflicted == g.conflicted && h.noted == g.noted
    requires h.counters == g.counters && h.confirmed + h.offered <= |h.ledger.history|
    ensures GenerationInv(base, h)
  {
    assert Causes(h) == Causes(g);
  }

  lemma ReadKeeps(base: map<Code, nat>, interval: real, g: Generation, now: real, limit: int, query: Query)
    requires GenerationInv(base, g) && ValidStep(Read(now, limit, query))
    ensures GenerationInv(base, ReadStep(interval, g, now, limit, query).0)
    ensures Extends(g.ledger, ReadStep(interval, g, now, limit, query).0.ledger)
    ensures g.confirmed == ReadStep(interval, g, now, limit, query).0.confirmed
  {
    hide LedgerInv, Counted, RowsKept, Poll, RowsMatch;
    var h := ReadStep(interval, g, now, limit, query).0;
    var g1 := g.(nextQuery := Some(now + interval));
    SameRecords(base, g, g1);
    if query.QueryRows? && Poll(g1, query.orderRows, query.tradeRows).Committed? {
      PollKeeps(base, g1, query.orderRows, query.tradeRows);
      var polled := Poll(g1, query.orderRows, query.tradeRows).generation;
      if h.nextQuery == g.nextQuery && h.ledger == g.ledger && h.rows == g.rows && h.noted == g.noted
         && h.conflicted == g.conflicted && h.counters == g.counters {
        SameRecords(base, g, h);
      } else {
        SameRecords(base, polled, h);
      }
    } else {
      SameRecords(base, g, h);
    }
  }

  lemma StepKeeps(base: map<Code, nat>, interval: real, g: Generation, step: Step)
    requires GenerationInv(base, g) && ValidStep(step)
    ensures GenerationInv(base, TakeStep(interval, g, step).0)
    ensures Extends(g.ledger, TakeStep(interval, g, step).0.ledger)
    ensures g.confirmed <= TakeStep(interval, g, step).0.confirmed
  {
    hide LedgerInv, Counted, RowsKept, ReadStep;
    match step
    case Read(now, limit, query) => ReadKeeps(base, interval, g, now, limit, query);
    case Confirm(count) => SameRecords(base, g, ConfirmStep(g, count).0);
  }

  // ---- whole runs ---------------------------------------------------------------------------

  /** The generation, and what the Gateway holds: the unconfirmed rest of its last
      page, and everything it has confirmed. */
  datatype Session = Session(generation: Generation, page: seq<Observation>, delivered: seq<Observation>)

  function Fresh(counters: map<Code, nat>): Session {
    Session(Generation(EMPTY_LEDGER, 0, 0, None, map[], map[], {}, counters), [], [])
  }

  ghost predicate SessionInv(base: map<Code, nat>, s: Session) {
    var g := s.generation;
    && GenerationInv(base, g)
    && s.page == g.ledger.history[g.confirmed..g.confirmed + g.offered]
    && s.delivered == g.ledger.history[..g.confirmed]
  }

  ghost function SessionStep(interval: real, s: Session, step: Step): Session
    requires RowsKept(s.generation) && s.generation.confirmed <= |s.generation.ledger.history| && ValidStep(step)
  {
    var (g, reply) := TakeStep(interval, s.generation, step);
    match reply
    case Page(page) => Session(g, page, s.delivered)
    case Confirmed =>
      if step.Confirm? && 0 <= step.count <= |s.page|
      then Session(g, s.page[step.count..], s.delivered + s.page[..step.count])
      else s.(generation := g)
    case _ => s.(generation := g)
  }

  lemma OfferedIsHistory(g: Generation, limit: nat)
    requires g.confirmed <= |g.ledger.history|
    ensures var (h, reply) := Offer(g, limit);
      && reply.Page? && g.confirmed + h.offered <= |g.ledger.history|
      && reply.page == g.ledger.history[g.confirmed..g.confirmed + h.offered]
      && h == g.(offered := h.offered)
  {
  }

  lemma PollFrame(g: Generation, orderRows: seq<NativeRow>, tradeRows: seq<NativeRow>)
    requires RowsKept(g) && RowsMatch(OrderKind, orderRows) && RowsMatch(TradeKind, tradeRows)
    requires Poll(g, orderRows, tradeRows).Committed?
    ensures Poll(g, orderRows, tradeRows).generation.confirmed == g.confirmed
  {
  }

  lemma ReadIsNext(interval: real, g: Generation, now: real, limit: int, query: Query)
    requires RowsKept(g) && g.confirmed <= |g.ledger.history| && ValidStep(Read(now, limit, query))
    ensures var (h, reply) := ReadStep(interval, g, now, limit, query);
      && !reply.Confirmed? && h.confirmed == g.confirmed
      && (reply.Page? ==>
            && g.confirmed + h.offered <= |h.ledger.history| && |reply.page| <= limit
            && reply.page == h.ledger.history[g.confirmed..g.confirmed + h.offered])
      && (!reply.Page? ==> h == g.(nextQuery := h.nextQuery))
  {
    hide Poll, RowsMatch;
    if 1 <= limit <= MAX_PAGE {
      OfferedIsHistory(g, limit);
      var g1 := g.(nextQuery := Some(now + interval));
      if query.QueryRows? && Poll(g1, query.orderRows, query.tradeRows).Committed? {
        PollExtends(g1, query.orderRows, query.tradeRows);
        PollFrame(g1, query.orderRows, query.tradeRows);
        OfferedIsHistory(Poll(g1, query.orderRows, query.tradeRows).generation, limit);
      }
    }
  }

  /** A read asks the venue iff its limit is valid, nothing is pending and the last query is at least the interval
      old; it is refused iff the limit is not between 1 and 10000, and fails iff it asked and the query failed or
      its poll was refused. Otherwise it returns as much as is pending and fits the limit. */
  lemma ReadReplies(interval: real, g: Generation, now: real, limit: int, query: Query)
    requires RowsKept(g) && g.confirmed <= |g.ledger.history| && ValidStep(Read(now, limit, query))
    ensures var (h, reply) := ReadStep(interval, g, now, limit, query);
      var asks := 1 <= limit <= 10000 && g.confirmed == |g.ledger.history| &&
        (g.nextQuery.None? || g.nextQuery.value <= now);
      var g1 := g.(nextQuery := Some(now + interval));
      && (reply == LimitInvalid <==> limit < 1 || limit > 10000)
      && (reply == PollFailed <==>
            asks && (query.QueryFailed? || Poll(g1, query.orderRows, query.tradeRows).Failed?))
      && (reply.Page? <==> reply != LimitInvalid && reply != PollFailed)
      && (reply.Page? && asks ==> h == Poll(g1, query.orderRows, query.tradeRows).generation.(offered := h.offered))
      && (reply.Page? && !asks ==> h == g.(offered := h.offered))
      && (reply == PollFailed ==> h == g1) && (reply == LimitInvalid ==> h == g)
      && (reply.Page? ==> h.confirmed <= |h.ledger.history| && reply.page == First(Pending(h), limit))
  {
    hide Poll, RowsMatch;
    assert Pending(g) == [] <==> g.confirmed == |g.ledger.history|;
    var g1 := g.(nextQuery := Some(now + interval));
    if query.QueryRows? && Poll(g1, query.orderRows, query.tradeRows).Committed? {
      PollExtends(g1, query.orderRows, query.tradeRows);
      PollFrame(g1, query.orderRows, query.tradeRows);
    }
  }

  /** A confirm is accepted iff it counts observations of the last page; it then removes exactly
      those from what is pending, and otherwise changes nothing. */
  lemma ConfirmRemovesPrefix(g: Generation, count: int)
    requires g.confirmed + g.offered <= |g.ledger.history|
    ensures var (h, reply) := ConfirmStep(g, count);
      && (reply.Confirmed? <==> 0 <= count <= g.offered) && (!reply.Confirmed? ==> reply == ConfirmInvalid && h == g)
      && h.ledger == g.ledger && h.confirmed <= |h.ledger.history|
      && (reply.Confirmed? ==> count <= |Pending(g)| && Pending(g) == Pending(g)[..count] + Pending(h))
      && (reply.Confirmed? ==> h.confirmed == g.confirmed + count && h.offered == g.offered - count)
  {
  }

  /** A page is always the next unconfirmed stretch of the history, and no longer than asked; an
      accepted confirm removes exactly the confirmed observations and nothing else. */
  lemma PageIsNext(base: map<Code, nat>, interval: real, g: Generation, step: Step)
    requires GenerationInv(base, g) && ValidStep(step)
    ensures var (h, reply) := TakeStep(interval, g, step);
      && (reply.Page? ==> step.Read? && h.confirmed == g.confirmed && g.confirmed + h.offered <= |h.ledger.history|)
      && (reply.Page? ==> reply.page == h.ledger.history[g.confirmed..g.confirmed + h.offered])
      && (reply.Page? ==> |reply.page| <= step.limit)
      && (reply.Confirmed? ==> step.Confirm? && 0 <= step.count <= g.offered)
      && (reply.Confirmed? ==> h == g.(confirmed := g.confirmed + step.count, offered := g.offered - step.count))
      && (reply.Confirmed? ==> step.count <= |Pending(g)| && Pending(h) == Pending(g)[step.count..])
      && (!reply.Page? && !reply.Confirmed? ==> h == g.(nextQuery := h.nextQuery))
  {
    hide GenerationInv, ReadStep, RowsKept, RowsMatch;
    InvBounds(base, g);
    match step
    case Read(now, limit, query) => ReadIsNext(interval, g, now, limit, query);
    case Confirm(count) => ConfirmRemovesPrefix(g, count);
  }

  lemma SessionStepKeeps(base: map<Code, nat>, interval: real, s: Session, step: Step)
    requires SessionInv(base, s) && ValidStep(step)
    ensures SessionInv(base, SessionStep(interval, s, step))
    ensures Extends(s.generation.ledger, SessionStep(interval, s, step).generation.ledger)
    ensures s.delivered <= SessionStep(interval, s, step).delivered
  {
    hide GenerationInv, ReadStep, RowsKept, LedgerInv, RowsMatch;
    assert GenerationInv(base, s.generation);
    assert s.generation.confirmed + s.generation.offered <= |s.generation.ledger.history| && RowsKept(s.generation) by {
      InvBounds(base, s.generation);
    }
    StepKeeps(base, interval, s.generation, step);
    PageIsNext(base, interval, s.generation, step);
    hide TakeStep, Extends;
    var (g, reply) := TakeStep(interval, s.generation, step);
    assert reply.Confirmed? ==> 0 <= step.count <= |s.page| && g.ledger == s.generation.ledger;
  }

  lemma InvBounds(base: map<Code, nat>, g: Generation)
    requires GenerationInv(base, g)
    ensures RowsKept(g) && g.confirmed + g.offered <= |g.ledger.history|
  {
  }

  ghost predicate ValidRun(steps: seq<Step>) {
    forall i :: 0 <= i < |steps| ==> ValidStep(steps[i])
  }

  /** The session after a run; every run of a fresh generation is total. */
  ghost function Run(base: map<Code, nat>, interval: real, steps: seq<Step>): (s: Session)
    requires ValidRun(steps)
    ensures SessionInv(base, s)
  {
    if steps == [] then
      FreshSession(base);
      Fresh(base)
    else
      var n := |steps| - 1;
      var before := Run(base, interval, steps[..n]);
      SessionStepKeeps(base, interval, before, steps[n]);
      SessionStep(interval, before, steps[n])
  }

  lemma FreshSession(base: map<Code, nat>)
    ensures SessionInv(base, Fresh(base))
  {
    var g := Fresh(base).generation;
    assert Causes(g) == {};
    forall code ensures WithCode(Causes(g), code) == {} {}
  }

  /** What was queued or delivered is never withdrawn, reordered or changed by a later step. */
  lemma {:induction false} HistoryOnlyGrows(base: map<Code, nat>, interval: real, steps: seq<Step>, k: nat)
    requires ValidRun(steps) && k <= |steps|
    ensures var early, late := Run(base, interval, steps[..k]), Run(base, interval, steps);
      Extends(early.generation.ledger, late.generation.ledger) && early.delivered <= late.delivered
    decreases |steps|
  {
    hide SessionInv, SessionStep;
    if k == |steps| {
      assert steps[..k] == steps;
    } else {
      var n := |steps| - 1;
      HistoryOnlyGrows(base, interval, steps[..n], k);
      assert steps[..n][..k] == steps[..k];
      var before := Run(base, interval, steps[..n]);
      SessionStepKeeps(base, interval, before, steps[n]);
    }
  }

  // ---- what the Gateway receives ----------------------------------------------------------------

  ghost predicate DistinctFacts(h: seq<Observation>) {
    forall i, j :: 0 <= i < j < |h| ==> h[i].factId != h[j].factId
  }

  lemma SafeHistoryPrefix(h: seq<Observation>, n: nat)
    requires n <= |h| && DistinctFacts(h) && OrdersAdvance(h) && TradesFollowOrders(h)
    ensures DistinctFacts(h[..n]) && OrdersAdvance(h[..n]) && TradesFollowOrders(h[..n])
  {
    var p := h[..n];
    forall j | 0 <= j < |p| && p[j].content.Trade? && p[j].content.tradeOrder.Some?
      ensures exists i :: 0 <= i < j && IsOrder(p[i], p[j].content.tradeOrder.value)
    {
      assert p[j] == h[j];
      var i :| 0 <= i < j && IsOrder(h[i], h[j].content.tradeOrder.value);
      assert IsOrder(p[i], p[j].content.tradeOrder.value);
    }
  }

  lemma LedgerPrefixIsSafe(l: Ledger, n: nat)
    requires LedgerInv(l) && n <= |l.history|
    ensures DistinctFacts(l.history[..n]) && OrdersAdvance(l.history[..n]) && TradesFollowOrders(l.history[..n])
  {
    hide OrdersAdvance, TradesFollowOrders, ProgressIsLatest;
    assert DistinctFacts(l.history);
    SafeHistoryPrefix(l.history, n);
  }

  /** In every run the confirmed pages, laid end to end, and then the page on offer are a prefix
      of the history: no fact twice, no order state regressing or following a terminal one, and
      every trade after an observation of the order it names. */
  lemma ClientReceivesHistory(base: map<Code, nat>, interval: real, steps: seq<Step>)
    requires ValidRun(steps)
    ensures var s := Run(base, interval, steps);
      var received := s.delivered + s.page;
      && received <= s.generation.ledger.history
      && DistinctFacts(received) && OrdersAdvance(received) && TradesFollowOrders(received)
  {
    hide Run, LedgerInv, Counted, RowsKept, OrdersAdvance, TradesFollowOrders, DistinctFacts;
    var s := Run(base, interval, steps);
    var g := s.generation;
    assert s.delivered + s.page == g.ledger.history[..g.confirmed + g.offered];
    LedgerPrefixIsSafe(g.ledger, g.confirmed + g.offered);
  }

  /** Bounds that hold after every run. */
  lemma RunIsBounded(base: map<Code, nat>, interval: real, steps: seq<Step>)
    requires ValidRun(steps)
    ensures var g := Run(base, interval, steps).generation;
      && g.offered <= |Pending(g)|
      && |g.ledger.history| == |g.ledger.facts| <= MAX_TRACKED
      && |g.ledger.progress| <= |g.ledger.facts|
      && |g.rows| <= MAX_TRACKED
      && g.conflicted.Keys <= g.rows.Keys
      && |g.noted| <= 3 * |g.rows|
      && Counted(base, g)
      && |Causes(g)| == |RefusedKeys(g.rows)| + |g.conflicted| + |g.noted|
  {
    hide LedgerInv, Counted;
    var g := Run(base, interval, steps).generation;
    LedgerIsBounded(g.ledger);
    NotesAreBounded(g);
    CauseTotal(g);
  }

  lemma LedgerIsBounded(l: Ledger)
    requires LedgerInv(l)
    ensures |l.history| == |l.facts| && |l.progress| <= |l.facts|
  {
    HistoryCountsFacts(l);
    ProgressIsBounded(l);
  }

  // ---- reading again ---------------------------------------------------------------------------

  function First(s: seq<Observation>, limit: nat): seq<Observation> {
    if |s| <= limit then s else s[..limit]
  }

  /** While something is pending, a step queries nothing: the ledger stays, and only a confirm moves on. */
  lemma PendingStays(base: map<Code, nat>, interval: real, s: Session, step: Step)
    requires SessionInv(base, s) && ValidStep(step) && s.generation.confirmed < |s.generation.ledger.history|
    ensures var n := SessionStep(interval, s, step).generation;
      n.ledger == s.generation.ledger && s.generation.confirmed <= n.confirmed
  {
    hide LedgerInv, Counted, RowsKept, Poll, RowsMatch;
    assert Pending(s.generation) != [];
  }

  lemma ReadOffersPending(interval: real, g: Generation, read: Step)
    requires RowsKept(g) && g.confirmed < |g.ledger.history|
    requires ValidStep(read) && read.Read? && 1 <= read.limit <= MAX_PAGE
    ensures TakeStep(interval, g, read).1 == Page(First(Pending(g), read.limit))
  {
    hide RowsKept, Poll, RowsMatch;
    assert Pending(g) != [];
  }

  /** From any point of any run until everything then pending is confirmed: nothing is added or
      lost, what is pending is what was pending less what was confirmed since, and every valid read
      returns the first of it. With nothing confirmed, every read returns the same observations. */
  lemma {:induction false} RereadReturnsTheSame(base: map<Code, nat>, interval: real, steps: seq<Step>, k: nat,
                                                read: Step)
    requires ValidRun(steps) && k <= |steps|
    requires var early, late := Run(base, interval, steps[..k]).generation, Run(base, interval, steps).generation;
      late.confirmed < |early.ledger.history|
    requires ValidStep(read) && read.Read? && 1 <= read.limit <= MAX_PAGE
    ensures var early, late := Run(base, interval, steps[..k]).generation, Run(base, interval, steps).generation;
      && late.ledger == early.ledger && early.confirmed <= late.confirmed
      && Pending(late) == Pending(early)[late.confirmed - early.confirmed..]
      && TakeStep(interval, late, read).1 == Page(First(Pending(late), read.limit))
    decreases |steps|
  {
    hide GenerationInv, SessionStep, TakeStep, RowsKept;
    var late := Run(base, interval, steps).generation;
    assert RowsKept(late) by { InvBounds(base, late); }
    if k == |steps| {
      assert steps[..k] == steps;
    } else {
      var n := |steps| - 1;
      var before := Run(base, interval, steps[..n]);
      SessionStepKeeps(base, interval, before, steps[n]);
      ConfirmedGrows(base, interval, before, steps[n]);
      assert steps[..n][..k] == steps[..k];
      RereadReturnsTheSame(base, interval, steps[..n], k, read);
      PendingStays(base, interval, before, steps[n]);
    }
    ReadOffersPending(interval, late, read);
  }

  lemma ConfirmedGrows(base: map<Code, nat>, interval: real, s: Session, step: Step)
    requires SessionInv(base, s) && ValidStep(step)
    ensures s.generation.confirmed <= SessionStep(interval, s, step).generation.confirmed
  {
    hide GenerationInv, ReadStep, RowsKept, LedgerInv, RowsMatch;
    InvBounds(base, s.generation);
    StepKeeps(base, interval, s.generation, step);
  }
}
