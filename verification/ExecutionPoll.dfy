/** One execution poll as a function of the generation state and the queried rows.

    Rows are grouped by identity; an identity whose rows disagree is refused,
    one representative of every other identity is staged against the ledger,
    and the whole poll commits or nothing does.

    A native row carries the digest of its record and the outcome of its
    projection, so both are arbitrary functions of the row here.
 */
module ExecutionPoll {
  import opened Options
  import opened ExecutionLedger

  const MAX_QUERY_ROWS := 8192
  const MAX_TRACKED := 32768

  datatype Kind = OrderKind | TradeKind
  datatype Key = Key(kind: Kind, digest: string)

  datatype RefusalCode =
    | ForeignAccountRow
    | ForeignInstrumentRow
    | TradingDayMismatch
    | RowUnprojectable
    | OrderStateUnconfirmed

  datatype ConflictCode = ConflictingDuplicateRow | FactConflict | OrderStateRegressed
  datatype NoteCode = DuplicateRowMerged | OrderAttributionRefused | TradeOrderUnobserved

  datatype Code =
    | Refusal(refusal: RefusalCode)
    | Conflict(conflict: ConflictCode)
    | Note(note: NoteCode)

  /** Why one row was counted: the code and the distinct row. */
  datatype Cause = Cause(code: Code, key: Key)

  datatype Projection =
    | Projected(observation: Observation, attributionRefused: bool)
    | Refused(code: RefusalCode)

  datatype NativeRow = NativeRow(digest: Option<string>, projection: Projection)

  datatype Entry = Entry(key: Key, observation: Observation)

  datatype Generation = Generation(
    ledger: Ledger,
    confirmed: nat,
    offered: nat,
    nextQuery: Option<real>,
    rows: map<Key, Projection>,
    conflicted: map<Key, ConflictCode>,
    noted: set<Cause>,
    counters: map<Code, nat>)

  function Pending(g: Generation): seq<Observation>
    requires g.confirmed <= |g.ledger.history|
  {
    g.ledger.history[g.confirmed..]
  }

  function Identity(o: Observation): string {
    match o.content
    case Order(orderId, _, _) => orderId
    case Trade(tradeId, _) => tradeId
  }

  predicate IsKind(kind: Kind, p: Projection) {
    p.Projected? ==> (p.observation.content.Order? <==> kind.OrderKind?)
  }

  /** Order rows project to order observations and trade rows to trades. */
  predicate RowsMatch(kind: Kind, rows: seq<NativeRow>) {
    forall i :: 0 <= i < |rows| ==> IsKind(kind, rows[i].projection)
  }

  predicate Digested(rows: seq<NativeRow>) {
    forall i :: 0 <= i < |rows| ==> rows[i].digest.Some?
  }

  function KeyOf(kind: Kind, row: NativeRow): Key
    requires row.digest.Some?
  {
    Key(kind, row.digest.value)
  }

  // ---- rows and their entries ------------------------------------------------

  /** The rows projected by this poll: the first row of every unseen key. */
  function NewRows(known: map<Key, Projection>, kind: Kind, rows: seq<NativeRow>): map<Key, Projection>
    requires Digested(rows)
  {
    if rows == [] then map[]
    else
      var n := |rows| - 1;
      var m := NewRows(known, kind, rows[..n]);
      var key := KeyOf(kind, rows[n]);
      if key in known || key in m then m else m[key := rows[n].projection]
  }

  function Table(known: map<Key, Projection>, kind: Kind, rows: seq<NativeRow>): map<Key, Projection>
    requires Digested(rows)
  {
    known + NewRows(known, kind, rows)
  }

  ghost predicate Polled(kind: Kind, rows: seq<NativeRow>, key: Key)
    requires Digested(rows)
  {
    exists i :: 0 <= i < |rows| && KeyOf(kind, rows[i]) == key
  }

  lemma PolledLast(kind: Kind, rows: seq<NativeRow>, key: Key)
    requires Digested(rows) && rows != []
    ensures Polled(kind, rows, key) <==>
      Polled(kind, rows[..|rows| - 1], key) || key == KeyOf(kind, rows[|rows| - 1])
  {
    var n := |rows| - 1;
    if i :| 0 <= i < n && KeyOf(kind, rows[..n][i]) == key {
      assert KeyOf(kind, rows[i]) == key;
    }
    if i :| 0 <= i < n && KeyOf(kind, rows[i]) == key {
      assert KeyOf(kind, rows[..n][i]) == key;
    }
  }

  /** `p` is the projection of some polled row with this key. */
  ghost predicate ProjectedFrom(kind: Kind, rows: seq<NativeRow>, key: Key, p: Projection)
    requires Digested(rows)
  {
    exists i :: 0 <= i < |rows| && KeyOf(kind, rows[i]) == key && rows[i].projection == p
  }

  lemma {:induction false} NewRowsAre(known: map<Key, Projection>, kind: Kind, rows: seq<NativeRow>, key: Key)
    requires Digested(rows)
    ensures var m := NewRows(known, kind, rows);
      && (key in m <==> key !in known && Polled(kind, rows, key))
      && (key in m ==> key.kind == kind && ProjectedFrom(kind, rows, key, m[key]))
  {
    if rows == [] {
    } else {
      var n := |rows| - 1;
      var before := NewRows(known, kind, rows[..n]);
      NewRowsAre(known, kind, rows[..n], key);
      PolledLast(kind, rows, key);
      if key in before {
        var i :| 0 <= i < n && KeyOf(kind, rows[..n][i]) == key && rows[..n][i].projection == before[key];
        assert KeyOf(kind, rows[i]) == key && rows[i].projection == before[key];
      }
    }
  }

  /** The projected, not conflicted rows in row order. */
  function Entries(known: map<Key, Projection>, conflicted: set<Key>, kind: Kind, rows: seq<NativeRow>): seq<Entry>
    requires Digested(rows)
  {
    if rows == [] then []
    else
      var n := |rows| - 1;
      var key := KeyOf(kind, rows[n]);
      var before := Entries(known, conflicted, kind, rows[..n]);
      var t := Table(known, kind, rows);
      if key in t && t[key].Projected? && key !in conflicted
      then before + [Entry(key, t[key].observation)]
      else before
  }

  /** An entry is exactly a polled key whose recorded projection is usable. */
  ghost predicate IsEntry(known: map<Key, Projection>, conflicted: set<Key>, kind: Kind, rows: seq<NativeRow>, e: Entry)
    requires Digested(rows)
  {
    var t := Table(known, kind, rows);
    && Polled(kind, rows, e.key)
    && e.key !in conflicted
    && e.key in t && t[e.key].Projected? && t[e.key].observation == e.observation
  }

  lemma {:induction false} EntriesAre(known: map<Key, Projection>, conflicted: set<Key>, kind: Kind,
                                      rows: seq<NativeRow>, e: Entry)
    requires Digested(rows)
    ensures e in Entries(known, conflicted, kind, rows) <==> IsEntry(known, conflicted, kind, rows, e)
  {
    if rows == [] {
    } else {
      var n := |rows| - 1;
      EntriesAre(known, conflicted, kind, rows[..n], e);
      PolledLast(kind, rows, e.key);
      NewRowsAre(known, kind, rows[..n], e.key);
      NewRowsAre(known, kind, rows, e.key);
    }
  }

  // ---- groups and their representatives ----------------------------------------

  predicate SameFact(a: Observation, b: Observation) {
    a.factId == b.factId && a.factDigest == b.factDigest
  }

  function Group(entries: seq<Entry>, identity: string): seq<Entry> {
    if entries == [] then []
    else
      var n := |entries| - 1;
      Group(entries[..n], identity) +
      (if Identity(entries[n].observation) == identity then [entries[n]] else [])
  }

  /** Identities in the order of their first entry. */
  function Identities(entries: seq<Entry>): seq<string> {
    if entries == [] then []
    else
      var n := |entries| - 1;
      var before := Identities(entries[..n]);
      var x := Identity(entries[n].observation);
      if x in before then before else before + [x]
  }

  predicate Agrees(group: seq<Entry>) {
    forall i :: 0 <= i < |group| ==> SameFact(group[i].observation, group[0].observation)
  }

  function AcceptedAmong(entries: seq<Entry>, ids: seq<string>): seq<Entry> {
    if ids == [] then []
    else
      var n := |ids| - 1;
      var group := Group(entries, ids[n]);
      AcceptedAmong(entries, ids[..n]) + (if group != [] && Agrees(group) then [group[0]] else [])
  }

  function Accepted(entries: seq<Entry>): seq<Entry> {
    AcceptedAmong(entries, Identities(entries))
  }

  /** Every row of an identity whose rows disagree. */
  function DisagreeingKeys(entries: seq<Entry>, ids: seq<string>): set<Key> {
    set x, e | x in ids && !Agrees(Group(entries, x)) && e in Group(entries, x) :: e.key
  }

  /** Every row merged into the representative of its identity. */
  function MergedKeys(entries: seq<Entry>, ids: seq<string>): set<Key> {
    set x, e | x in ids && Agrees(Group(entries, x)) && Group(entries, x) != [] && e in Group(entries, x)[1..] :: e.key
  }

  lemma {:induction false} GroupIs(entries: seq<Entry>, identity: string)
    ensures forall e :: e in Group(entries, identity) <==> e in entries && Identity(e.observation) == identity
  {
    if entries == [] {
    } else {
      var n := |entries| - 1;
      GroupIs(entries[..n], identity);
      assert entries == entries[..n] + [entries[n]];
    }
  }

  lemma {:induction false} IdentitiesAre(entries: seq<Entry>)
    ensures forall i, j :: 0 <= i < j < |Identities(entries)| ==> Identities(entries)[i] != Identities(entries)[j]
    ensures forall e :: e in entries ==> Identity(e.observation) in Identities(entries)
    ensures forall x :: x in Identities(entries) ==> Group(entries, x) != []
  {
    if entries == [] {
    } else {
      var n := |entries| - 1;
      IdentitiesAre(entries[..n]);
      assert entries == entries[..n] + [entries[n]];
    }
  }

  /** All rows of `o`'s identity report the same fact as `o`. */
  ghost predicate Candidate(entries: seq<Entry>, o: Observation) {
    && (exists e :: e in entries && e.observation == o)
    && (forall e :: e in entries && Identity(e.observation) == Identity(o) ==> SameFact(e.observation, o))
  }

  ghost predicate DistinctIdentities(acc: seq<Entry>) {
    forall i, j :: 0 <= i < j < |acc| ==> Identity(acc[i].observation) != Identity(acc[j].observation)
  }

  lemma AgreeingGroupIsCandidate(entries: seq<Entry>, identity: string, e: Entry)
    requires e in Group(entries, identity)
    ensures Candidate(entries, e.observation) <==> Agrees(Group(entries, identity))
  {
    var group := Group(entries, identity);
    GroupIs(entries, identity);
    if Candidate(entries, e.observation) {
      forall i | 0 <= i < |group| ensures SameFact(group[i].observation, group[0].observation) {
        assert group[i] in group && group[0] in group;
      }
    }
    if Agrees(group) {
      forall d | d in entries && Identity(d.observation) == identity ensures SameFact(d.observation, e.observation) {
        assert d in group;
      }
    }
  }

  predicate Disagree(e: Entry, d: Entry) {
    Identity(d.observation) == Identity(e.observation) && !SameFact(d.observation, e.observation)
  }

  /** A row is disputed iff another row of its identity reports a different fact. */
  lemma DisputedRowsAre(entries: seq<Entry>, key: Key)
    ensures key in DisagreeingKeys(entries, Identities(entries)) <==>
      exists e, d :: e in entries && d in entries && e.key == key && Disagree(e, d)
  {
    IdentitiesAre(entries);
    if x, e :| x in Identities(entries) && !Agrees(Group(entries, x)) && e in Group(entries, x) && e.key == key {
      GroupIs(entries, x);
      AgreeingGroupIsCandidate(entries, x, e);
      assert !Candidate(entries, e.observation);
      var d :| d in entries && Identity(d.observation) == Identity(e.observation) &&
          !SameFact(d.observation, e.observation);
      assert Disagree(e, d);
    }
    if e, d :| e in entries && d in entries && e.key == key && Disagree(e, d) {
      GroupIs(entries, Identity(e.observation));
      AgreeingGroupIsCandidate(entries, Identity(e.observation), e);
      assert !Agrees(Group(entries, Identity(e.observation)));
    }
  }

  /** At most one row per identity is accepted, and only of undisputed identities. */
  lemma {:induction false} AcceptedAreCandidates(entries: seq<Entry>, ids: seq<string>)
    requires forall i, j :: 0 <= i < j < |ids| ==> ids[i] != ids[j]
    ensures DistinctIdentities(AcceptedAmong(entries, ids))
    ensures forall e :: e in AcceptedAmong(entries, ids) ==>
      e in entries && Identity(e.observation) in ids && Candidate(entries, e.observation)
  {
    hide Group, Agrees, Candidate;
    if ids == [] {
    } else {
      var n := |ids| - 1;
      AcceptedAreCandidates(entries, ids[..n]);
      var before := AcceptedAmong(entries, ids[..n]);
      var group := Group(entries, ids[n]);
      GroupIs(entries, ids[n]);
      if group != [] && Agrees(group) {
        assert group[0] in group;
        AgreeingGroupIsCandidate(entries, ids[n], group[0]);
        forall i | 0 <= i < |before| ensures Identity(before[i].observation) != ids[n] {
          assert before[i] in before;
        }
      }
    }
  }

  lemma {:induction false} RepresentativeIsAccepted(entries: seq<Entry>, ids: seq<string>, x: string)
    requires x in ids && Group(entries, x) != [] && Agrees(Group(entries, x))
    ensures Group(entries, x)[0] in AcceptedAmong(entries, ids)
  {
    var n := |ids| - 1;
    if x != ids[n] {
      RepresentativeIsAccepted(entries, ids[..n], x);
    }
  }

  /** Every undisputed identity is accepted, with the fact its rows agree on. */
  lemma CandidateIsAccepted(entries: seq<Entry>, o: Observation) returns (e: Entry)
    requires Candidate(entries, o)
    ensures e in Accepted(entries) && Identity(e.observation) == Identity(o) && SameFact(e.observation, o)
  {
    var e0 :| e0 in entries && e0.observation == o;
    var group := Group(entries, Identity(o));
    GroupIs(entries, Identity(o));
    IdentitiesAre(entries);
    AgreeingGroupIsCandidate(entries, Identity(o), e0);
    RepresentativeIsAccepted(entries, Identities(entries), Identity(o));
    e := group[0];
    assert e in group;
  }

  // ---- staging ---------------------------------------------------------------------

  datatype Staged = Staged(ledger: Ledger, conflicts: map<Key, ConflictCode>, notes: set<Cause>)

  /** The first refusal of a key in a generation is the one recorded. */
  function Refuse(g: Generation, conflicts: map<Key, ConflictCode>, key: Key,
      code: ConflictCode): map<Key, ConflictCode> {
    if key in g.conflicted || key in conflicts then conflicts else conflicts[key := code]
  }

  function AddNote(g: Generation, notes: set<Cause>, code: NoteCode, key: Key): set<Cause> {
    if Cause(Note(code), key) in g.noted then notes else notes + {Cause(Note(code), key)}
  }

  function StageOrder(g: Generation, s: Staged, e: Entry): Staged
    requires e.observation.content.Order?
  {
    var o := e.observation;
    if o.factId in s.ledger.facts then
      if s.ledger.facts[o.factId] != o.factDigest
      then s.(conflicts := Refuse(g, s.conflicts, e.key, FactConflict))
      else s
    else if Regresses(g.ledger.progress, o) then
      s.(conflicts := Refuse(g, s.conflicts, e.key, OrderStateRegressed))
    else
      s.(ledger := Publish(s.ledger, o))
  }

  function StageTrade(g: Generation, s: Staged, e: Entry): Staged
    requires e.observation.content.Trade?
  {
    var o := e.observation;
    if o.factId in s.ledger.facts then
      if s.ledger.facts[o.factId] != o.factDigest
      then s.(conflicts := Refuse(g, s.conflicts, e.key, FactConflict))
      else s
    else if !OrderObserved(s.ledger.progress, o) then
      s.(notes := AddNote(g, s.notes, TradeOrderUnobserved, e.key))
    else
      s.(ledger := Publish(s.ledger, o))
  }

  predicate AllOrders(acc: seq<Entry>) {
    forall i :: 0 <= i < |acc| ==> acc[i].observation.content.Order?
  }

  predicate AllTrades(acc: seq<Entry>) {
    forall i :: 0 <= i < |acc| ==> acc[i].observation.content.Trade?
  }

  function StageOrders(g: Generation, s: Staged, acc: seq<Entry>): Staged
    requires AllOrders(acc)
  {
    if acc == [] then s
    else StageOrder(g, StageOrders(g, s, acc[..|acc| - 1]), acc[|acc| - 1])
  }

  function StageTrades(g: Generation, s: Staged, acc: seq<Entry>): Staged
    requires AllTrades(acc)
  {
    if acc == [] then s
    else StageTrade(g, StageTrades(g, s, acc[..|acc| - 1]), acc[|acc| - 1])
  }

  // ---- the poll ----------------------------------------------------------------------

  datatype PollError = QueryTooLarge | QueryRowInvalid | CapacityExceeded
  datatype PollResult = Committed(generation: Generation) | Failed(error: PollError)

  function KindEntries(g: Generation, kind: Kind, rows: seq<NativeRow>): seq<Entry>
    requires Digested(rows)
  {
    Entries(g.rows, g.conflicted.Keys, kind, rows)
  }

  function AttributionNotes(g: Generation, unseen: map<Key, Projection>): set<Cause> {
    (set k | k in unseen && unseen[k].Projected? && unseen[k].attributionRefused
      :: Cause(Note(OrderAttributionRefused), k)) - g.noted
  }

  function CollectNotes(g: Generation, kind: Kind, rows: seq<NativeRow>): set<Cause>
    requires Digested(rows)
  {
    var entries := KindEntries(g, kind, rows);
    AttributionNotes(g, NewRows(g.rows, kind, rows)) +
    ((set k | k in MergedKeys(entries, Identities(entries)) :: Cause(Note(DuplicateRowMerged), k)) - g.noted)
  }

  function CollectConflicts(g: Generation, kind: Kind, rows: seq<NativeRow>): map<Key, ConflictCode>
    requires Digested(rows)
  {
    var entries := KindEntries(g, kind, rows);
    map k | k in DisagreeingKeys(entries, Identities(entries)) :: ConflictingDuplicateRow
  }

  /** Staging before any observation is published: what collecting the rows refused and noted. */
  function Collected(g: Generation, orderRows: seq<NativeRow>, tradeRows: seq<NativeRow>): Staged
    requires Digested(orderRows) && Digested(tradeRows)
  {
    Staged(
      g.ledger,
      CollectConflicts(g, OrderKind, orderRows) + CollectConflicts(g, TradeKind, tradeRows),
      CollectNotes(g, OrderKind, orderRows) + CollectNotes(g, TradeKind, tradeRows))
  }

  ghost predicate RowsKept(g: Generation) {
    && (forall k :: k in g.rows ==> IsKind(k.kind, g.rows[k]))
    && g.conflicted.Keys <= g.rows.Keys
    && (forall c :: c in g.noted ==> c.code.Note? && c.key in g.rows)
  }

  lemma KindEntriesMatch(g: Generation, kind: Kind, rows: seq<NativeRow>)
    requires RowsKept(g) && RowsMatch(kind, rows) && Digested(rows)
    ensures forall e :: e in KindEntries(g, kind, rows) ==>
      (e.observation.content.Order? <==> kind.OrderKind?) && e.key.kind == kind
      && e.key !in g.conflicted && e.key in Table(g.rows, kind, rows)
    ensures kind.OrderKind? ==> AllOrders(Accepted(KindEntries(g, kind, rows)))
    ensures kind.TradeKind? ==> AllTrades(Accepted(KindEntries(g, kind, rows)))
  {
    var entries := KindEntries(g, kind, rows);
    forall e | e in entries
      ensures (e.observation.content.Order? <==> kind.OrderKind?) && e.key.kind == kind
      ensures e.key !in g.conflicted && e.key in Table(g.rows, kind, rows)
    {
      EntriesAre(g.rows, g.conflicted.Keys, kind, rows, e);
      NewRowsAre(g.rows, kind, rows, e.key);
    }
    IdentitiesAre(entries);
    AcceptedAreCandidates(entries, Identities(entries));
    var acc := Accepted(entries);
    assert forall i :: 0 <= i < |acc| ==> acc[i] in acc;
  }

  ghost function StagedPoll(g: Generation, orderRows: seq<NativeRow>, tradeRows: seq<NativeRow>): Staged
    requires RowsKept(g)
    requires RowsMatch(OrderKind, orderRows) && RowsMatch(TradeKind, tradeRows)
    requires Digested(orderRows) && Digested(tradeRows)
  {
    KindEntriesMatch(g, OrderKind, orderRows);
    KindEntriesMatch(g, TradeKind, tradeRows);
    StageTrades(g,
      StageOrders(g, Collected(g, orderRows, tradeRows), Accepted(KindEntries(g, OrderKind, orderRows))),
      Accepted(KindEntries(g, TradeKind, tradeRows)))
  }

  function UnseenRows(g: Generation, orderRows: seq<NativeRow>, tradeRows: seq<NativeRow>): map<Key, Projection>
    requires Digested(orderRows) && Digested(tradeRows)
  {
    NewRows(g.rows, OrderKind, orderRows) + NewRows(g.rows, TradeKind, tradeRows)
  }

  // ---- counters --------------------------------------------------------------------------

  function RefusedCauses(rows: map<Key, Projection>): set<Cause> {
    set k | k in rows && rows[k].Refused? :: Cause(Refusal(rows[k].code), k)
  }

  function ConflictCauses(conflicts: map<Key, ConflictCode>): set<Cause> {
    set k | k in conflicts :: Cause(Conflict(conflicts[k]), k)
  }

  function WithCode(causes: set<Cause>, code: Code): set<Cause> {
    set c | c in causes && c.code == code
  }

  function Count(counters: map<Code, nat>, code: Code): nat {
    if code in counters then counters[code] else 0
  }

  function Codes(causes: set<Cause>): set<Code> {
    set c | c in causes :: c.code
  }

  /** Every cause is counted once under its code. */
  function Bump(counters: map<Code, nat>, causes: set<Cause>): map<Code, nat> {
    map code | code in counters.Keys + Codes(causes) :: Count(counters, code) + |WithCode(causes, code)|
  }

  function NewCauses(unseen: map<Key, Projection>, s: Staged): set<Cause> {
    RefusedCauses(unseen) + ConflictCauses(s.conflicts) + s.notes
  }

  ghost function Poll(g: Generation, orderRows: seq<NativeRow>, tradeRows: seq<NativeRow>): PollResult
    requires RowsKept(g)
    requires RowsMatch(OrderKind, orderRows) && RowsMatch(TradeKind, tradeRows)
  {
    if |tradeRows| > MAX_QUERY_ROWS || |orderRows| > MAX_QUERY_ROWS then Failed(QueryTooLarge)
    else if !Digested(orderRows) || !Digested(tradeRows) then Failed(QueryRowInvalid)
    else
      var unseen := UnseenRows(g, orderRows, tradeRows);
      var s := StagedPoll(g, orderRows, tradeRows);
      if |g.rows| + |unseen| > MAX_TRACKED || |s.ledger.facts| > MAX_TRACKED then Failed(CapacityExceeded)
      else
        Committed(g.(
          ledger := s.ledger,
          rows := g.rows + unseen,
          conflicted := g.conflicted + s.conflicts,
          noted := g.noted + s.notes,
          counters := Bump(g.counters, NewCauses(unseen, s))))
  }
}
