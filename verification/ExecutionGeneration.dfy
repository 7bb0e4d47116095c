/** The generation as the provider keeps it: dictionaries, sets and a queue that
    are updated in place. Every method is proved against the functions of
    `ExecutionPoll` and `ExecutionRun` through `View`. */
module ExecutionGeneration {
  import opened Options
  import opened ExecutionLedger
  import opened ExecutionPoll
  import opened ExecutionRun
  import Outcomes = ExecutionOutcomes
  import Reordering = ExecutionReordering

  // ---- counting -------------------------------------------------------------------

  lemma BumpOneAt(counters: map<Code, nat>, done: set<Cause>, c: Cause, code: Code)
    requires c !in done
    ensures Count(Bump(counters, done + {c}), code) ==
            Count(Bump(counters, done), code) + (if code == c.code then 1 else 0)
  {
    hide Bump;
    BumpCounts(counters, done, code);
    BumpCounts(counters, done + {c}, code);
    assert WithCode(done + {c}, code) == WithCode(done, code) + (if code == c.code then {c} else {});
  }

  lemma BumpOne(counters: map<Code, nat>, done: set<Cause>, c: Cause)
    requires c !in done
    ensures Bump(counters, done + {c}) ==
      Bump(counters, done)[c.code := Count(Bump(counters, done), c.code) + 1]
  {
    var l, r := Bump(counters, done + {c}), Bump(counters, done)[c.code := Count(Bump(counters, done), c.code) + 1];
    assert l.Keys == r.Keys by {
      assert Codes(done + {c}) == Codes(done) + {c.code};
    }
    hide Bump;
    forall code | code in l ensures l[code] == r[code] {
      BumpOneAt(counters, done, c, code);
    }
  }

  lemma BumpTwice(counters: map<Code, nat>, a: set<Cause>, b: set<Cause>)
    requires a !! b
    ensures Bump(Bump(counters, a), b) == Bump(counters, a + b)
  {
    var l, r := Bump(Bump(counters, a), b), Bump(counters, a + b);
    assert Codes(a + b) == Codes(a) + Codes(b);
    assert l.Keys == r.Keys;
    forall code | code in l ensures l[code] == r[code] {
      BumpCounts(counters, a, code);
      DisjointCausesAdd(a, b, code);
    }
  }

  method CountEach(start: map<Code, nat>, causes: set<Cause>) returns (counters: map<Code, nat>)
    ensures counters == Bump(start, causes)
  {
    counters := start;
    var todo := causes;
    assert Bump(start, {}) == start by {
      assert Codes({}) == {};
      forall code ensures WithCode({}, code) == {} {}
    }
    while todo != {}
      invariant todo <= causes
      invariant counters == Bump(start, causes - todo)
      decreases todo
    {
      var c :| c in todo;
      BumpOne(start, causes - todo, c);
      assert causes - (todo - {c}) == (causes - todo) + {c};
      counters := counters[c.code := Count(counters, c.code) + 1];
      todo := todo - {c};
    }
    assert causes - todo == causes;
  }

  method CountCommitted(start: map<Code, nat>, newRows: map<Key, Projection>, conflicts: map<Key, ConflictCode>,
                        notes: set<Cause>)
    returns (counters: map<Code, nat>)
    requires forall c :: c in notes ==> c.code.Note?
    ensures counters == Bump(start, RefusedCauses(newRows) + ConflictCauses(conflicts) + notes)
  {
    hide Bump, RefusedCauses, ConflictCauses;
    counters := CountEach(start, RefusedCauses(newRows));
    counters := CountEach(counters, ConflictCauses(conflicts));
    counters := CountEach(counters, notes);
    BumpAll(start, newRows, conflicts, notes);
  }

  // ---- the generation ------------------------------------------------------------------

  class ExecutionGeneration {
    // What a client has still to confirm; a read offers its front.
    var pending: seq<Observation>
    var offered: nat
    var nextQuery: Option<real>
    // Digest of every fact ever queued, and the last state queued of every order.
    var facts: map<string, string>
    var orderProgress: map<string, Progress>
    // What each distinct native row became.
    var rows: map<Key, Projection>
    var conflicted: set<Key>
    var noted: set<Cause>
    // The provider's counters.
    var counters: map<Code, nat>

    ghost var confirmed: seq<Observation>
    ghost var conflictCodes: map<Key, ConflictCode>
    // The counters when the generation began.
    ghost var base: map<Code, nat>

    ghost function View(): Generation
      reads this
    {
      Generation(
        Ledger(confirmed + pending, facts, orderProgress),
        |confirmed|, offered, nextQuery, rows, conflictCodes, noted, counters)
    }

    /** The sets agree with the tracked rows; all that staging relies on. */
    ghost predicate Tracked()
      reads this
    {
      conflicted == conflictCodes.Keys && RowsKept(View())
    }

    /** The invariant of every reachable generation: facts once, orders that advance, trades after their
        orders, the bounds, and counters that gained exactly the recorded causes. */
    ghost predicate Valid()
      reads this
    {
      Tracked() && GenerationInv(base, View())
    }

    constructor (counters: map<Code, nat>)
      ensures Valid() && View() == Fresh(counters).generation && base == counters
    {
      pending, offered, nextQuery := [], 0, None;
      facts, orderProgress := map[], map[];
      rows, conflicted, noted := map[], {}, {};
      this.counters := counters;
      confirmed, conflictCodes, base := [], map[], counters;
      new;
      FreshSession(counters);
    }

    /** First half of collecting: project unseen rows and group the usable ones by
        identity, in the order the identities first appear. */
    method GroupRows(kind: Kind, nativeRows: seq<NativeRow>, staged: map<Key, Projection>,
                     stagedConflicts: map<Key, ConflictCode>)
      returns (ok: bool, newRows: map<Key, Projection>, attribution: set<Cause>, order: seq<string>,
          groups: map<string, seq<Entry>>)
      requires Tracked()
      requires forall k :: k in staged || k in stagedConflicts ==> k.kind != kind
      ensures ok <==> Digested(nativeRows)
      ensures ok ==>
        && newRows == staged + NewRows(rows, kind, nativeRows)
        && attribution == AttributionNotes(View(), NewRows(rows, kind, nativeRows))
        && Grouped(KindEntries(View(), kind, nativeRows), order, groups)
    {
      hide NewRows, Entries, Identities, Group, AttributionNotes, KindEntries, Table, RowsKept, Grouped;
      newRows, attribution, order, groups := staged, {}, [], map[];
      ok := true;
      var i := 0;
      NothingGathered(View(), kind);
      assert nativeRows[..0] == [];
      while i < |nativeRows|
        invariant 0 <= i <= |nativeRows| && Digested(nativeRows[..i])
        invariant newRows == staged + NewRows(rows, kind, nativeRows[..i])
        invariant attribution == AttributionNotes(View(), NewRows(rows, kind, nativeRows[..i]))
        invariant Grouped(KindEntries(View(), kind, nativeRows[..i]), order, groups)
      {
        var row := nativeRows[i];
        if row.digest.None? {
          return false, newRows, attribution, order, groups;
        }
        var key := KeyOf(kind, row);
        ghost var prefix := nativeRows[..i + 1];
        assert prefix[..i] == nativeRows[..i] && prefix[i] == row;
        NewRowsGrow(View(), kind, prefix);
        EntriesGrow(View(), kind, prefix);
        var projected: Projection;
        if key in rows {
          projected := rows[key];
        } else if key in newRows {
          projected := newRows[key];
        } else {
          projected := row.projection;
          newRows := newRows[key := projected];
          if projected.Projected? && projected.attributionRefused &&
              Cause(Note(OrderAttributionRefused), key) !in noted {
            attribution := attribution + {Cause(Note(OrderAttributionRefused), key)};
          }
        }
        ghost var after := NewRows(rows, kind, prefix);
        assert key !in staged && newRows == staged + after;
        assert projected == if key in rows then rows[key] else after[key];
        ghost var entries := KindEntries(View(), kind, nativeRows[..i]);
        assert entries + [] == entries;
        if projected.Projected? && key !in conflicted && key !in stagedConflicts {
          var e := Entry(key, projected.observation);
          var x := Identity(projected.observation);
          GroupedGrows(entries, order, groups, e);
          if x in groups {
            groups := groups[x := groups[x] + [e]];
          } else {
            order := order + [x];
            groups := groups[x := [e]];
          }
        }
        i := i + 1;
      }
      assert nativeRows[..i] == nativeRows;
    }

    /** Second half of collecting: refuse every row of a disputed identity, merge the
        duplicates of an undisputed one, and accept its first row. */
    method SelectGroups(order: seq<string>, groups: map<string, seq<Entry>>, ghost entries: seq<Entry>,
                        conflicts0: map<Key, ConflictCode>, notes0: set<Cause>)
      returns (conflicts: map<Key, ConflictCode>, notes: set<Cause>, accepted: seq<Entry>)
      requires Grouped(entries, order, groups)
      requires forall e :: e in entries ==> e.key !in conflicted && e.key !in conflicts0
      ensures accepted == Accepted(entries)
      ensures conflicts == conflicts0 + Disputed(DisagreeingKeys(entries, order))
      ensures notes == notes0 + (Merged(MergedKeys(entries, order)) - noted)
    {
      hide Identities, Group, DisagreeingKeys, MergedKeys, AcceptedAmong, Disputed, Merged, EntryKeys, Agrees;
      conflicts, notes, accepted := conflicts0, notes0, [];
      NoneSelected(entries, conflicts0, notes0);
      IdentitiesAre(entries);
      var j := 0;
      assert order[..0] == [];
      while j < |order|
        invariant 0 <= j <= |order|
        invariant accepted == AcceptedAmong(entries, order[..j])
        invariant conflicts == conflicts0 + Disputed(DisagreeingKeys(entries, order[..j]))
        invariant notes == notes0 + (Merged(MergedKeys(entries, order[..j])) - noted)
      {
        var members := groups[order[j]];
        GroupIs(entries, order[j]);
        assert order[..j + 1][..j] == order[..j];
        SelectionGrows(entries, order[..j + 1]);
        assert order[j] in order;
        ghost var disputed, merged := DisagreeingKeys(entries, order[..j]), MergedKeys(entries, order[..j]);
        if !Agrees(members) {
          DisputedGrows(conflicts0, disputed, EntryKeys(members));
          conflicts := RefuseEach(members, conflicts);
        } else {
          MergedGrows(notes0, noted, merged, EntryKeys(members[1..]));
          notes := NoteMerged(members[1..], notes);
          accepted := accepted + [members[0]];
        }
        j := j + 1;
      }
      assert order[..j] == order;
    }

    method RefuseEach(members: seq<Entry>, conflicts0: map<Key, ConflictCode>)
      returns (conflicts: map<Key, ConflictCode>)
      requires forall e :: e in members ==> e.key !in conflicted
      requires forall e :: e in members && e.key in conflicts0 ==> conflicts0[e.key] == ConflictingDuplicateRow
      ensures conflicts == conflicts0 + Disputed(EntryKeys(members))
    {
      hide Disputed, EntryKeys;
      conflicts := conflicts0;
      NoKeys(conflicts0);
      assert members[..0] == [];
      var i := 0;
      while i < |members|
        invariant 0 <= i <= |members|
        invariant conflicts == conflicts0 + Disputed(EntryKeys(members[..i]))
      {
        var key := members[i].key;
        assert members[i] in members;
        EntryKeysGrow(members, i);
        RefuseOne(conflicts0, EntryKeys(members[..i]), key);
        if key !in conflicted && key !in conflicts {
          conflicts := conflicts[key := ConflictingDuplicateRow];
        }
        i := i + 1;
      }
      assert members[..i] == members;
    }

    method NoteMerged(members: seq<Entry>, notes0: set<Cause>) returns (notes: set<Cause>)
      ensures notes == notes0 + (Merged(EntryKeys(members)) - noted)
    {
      notes := notes0;
      var i := 0;
      while i < |members|
        invariant 0 <= i <= |members|
        invariant notes == notes0 + (Merged(EntryKeys(members[..i])) - noted)
      {
        var c := Cause(Note(DuplicateRowMerged), members[i].key);
        EntryKeysGrow(members, i);
        assert Merged(EntryKeys(members[..i + 1])) == Merged(EntryKeys(members[..i])) + {c};
        if c !in noted {
          notes := notes + {c};
        }
        i := i + 1;
      }
      assert members[..i] == members;
    }

    /** Collect the rows of one kind: what they add, refuse and note, and one
        representative of every undisputed identity. */
    method Collect(kind: Kind, nativeRows: seq<NativeRow>,
                   rows0: map<Key, Projection>, conflicts0: map<Key, ConflictCode>, notes0: set<Cause>)
      returns (ok: bool, newRows: map<Key, Projection>, conflicts: map<Key, ConflictCode>, notes: set<Cause>,
          accepted: seq<Entry>)
      requires Tracked() && RowsMatch(kind, nativeRows)
      requires forall k :: k in rows0 || k in conflicts0 ==> k.kind != kind
      ensures ok <==> Digested(nativeRows)
      ensures ok ==>
        && newRows == rows0 + NewRows(rows, kind, nativeRows)
        && conflicts == conflicts0 + CollectConflicts(View(), kind, nativeRows)
        && notes == notes0 + CollectNotes(View(), kind, nativeRows)
        && accepted == Accepted(KindEntries(View(), kind, nativeRows))
    {
      hide Grouped, AttributionNotes, NewRows, Accepted, DisagreeingKeys, MergedKeys, Identities, RowsKept;
      conflicts, notes, accepted := conflicts0, notes0, [];
      var attribution: set<Cause>;
      var order: seq<string>;
      var groups: map<string, seq<Entry>>;
      ok, newRows, attribution, order, groups := GroupRows(kind, nativeRows, rows0, conflicts0);
      if ok {
        ghost var entries := KindEntries(View(), kind, nativeRows);
        KindEntriesMatch(View(), kind, nativeRows);
        conflicts, notes, accepted := SelectGroups(order, groups, entries, conflicts0, notes0 + attribution);
        GroupedOrder(entries, order, groups);
        assert CollectConflicts(View(), kind, nativeRows) == Disputed(DisagreeingKeys(entries, order));
        assert CollectNotes(View(), kind, nativeRows) == attribution + (Merged(MergedKeys(entries, order)) - noted);
      }
    }

    /** What staging has reached, as `ExecutionPoll` describes it. */
    ghost function Reached(stagedFacts: map<string, string>, stagedProgress: map<string, Progress>,
                           queued: seq<Observation>,
                           conflicts: map<Key, ConflictCode>, notes: set<Cause>): Staged
      reads this
    {
      Staged(Ledger(confirmed + pending + queued, facts + stagedFacts, orderProgress + stagedProgress), conflicts,
          notes)
    }

    /** The first refusal of a row in a generation is the one recorded. */
    method RefuseRow(code: ConflictCode, key: Key, conflicts0: map<Key, ConflictCode>)
      returns (conflicts: map<Key, ConflictCode>)
      requires Tracked()
      ensures conflicts == Refuse(View(), conflicts0, key, code)
      ensures conflicts.Keys == conflicts0.Keys + ({key} - conflicted)
      ensures forall k :: k in conflicts0 ==> conflicts[k] == conflicts0[k]
    {
      conflicts := if key in conflicted || key in conflicts0 then conflicts0 else conflicts0[key := code];
    }

    method NoteRow(code: NoteCode, key: Key, notes0: set<Cause>) returns (notes: set<Cause>)
      ensures notes == AddNote(View(), notes0, code, key)
    {
      notes := if Cause(Note(code), key) in noted then notes0 else notes0 + {Cause(Note(code), key)};
    }

    method StageOrderEntries(orders: seq<Entry>, conflicts0: map<Key, ConflictCode>, ghost notes: set<Cause>)
      returns (stagedFacts: map<string, string>, stagedProgress: map<string, Progress>, queued: seq<Observation>,
          conflicts: map<Key, ConflictCode>)
      requires Tracked() && AllOrders(orders)
      ensures Reached(stagedFacts, stagedProgress, queued, conflicts, notes) ==
        StageOrders(View(), Staged(View().ledger, conflicts0, notes), orders)
      ensures stagedFacts.Keys !! facts.Keys
    {
      hide RowsKept, Publish, Refuse, AddNote;
      stagedFacts, stagedProgress, queued, conflicts := map[], map[], [], conflicts0;
      ghost var start := Staged(View().ledger, conflicts0, notes);
      assert Reached(stagedFacts, stagedProgress, queued, conflicts, notes) == start;
      var i := 0;
      while i < |orders|
        invariant 0 <= i <= |orders|
        invariant Reached(stagedFacts, stagedProgress, queued, conflicts, notes) ==
          StageOrders(View(), start, orders[..i])
        invariant stagedFacts.Keys !! facts.Keys
      {
        var e := orders[i];
        var o := e.observation;
        ghost var before := Reached(stagedFacts, stagedProgress, queued, conflicts, notes);
        assert orders[..i + 1][..i] == orders[..i];
        if o.factId in facts || o.factId in stagedFacts {
          var known := if o.factId in facts then facts[o.factId] else stagedFacts[o.factId];
          if known != o.factDigest {
            conflicts := RefuseRow(FactConflict, e.key, conflicts);
          }
        } else if Regresses(orderProgress, o) {
          conflicts := RefuseRow(OrderStateRegressed, e.key, conflicts);
        } else {
          PublishStaged(confirmed + pending, queued, facts, stagedFacts, orderProgress, stagedProgress, o);
          stagedFacts := stagedFacts[o.factId := o.factDigest];
          stagedProgress := stagedProgress[o.content.orderId := ProgressOf(o)];
          queued := queued + [o];
        }
        assert Reached(stagedFacts, stagedProgress, queued, conflicts, notes) == StageOrder(View(), before, e);
        i := i + 1;
      }
      assert orders[..i] == orders;
    }

    method StageTradeEntries(trades: seq<Entry>, facts0: map<string, string>, stagedProgress: map<string, Progress>,
                             queued0: seq<Observation>, conflicts0: map<Key, ConflictCode>, notes0: set<Cause>)
      returns (stagedFacts: map<string, string>, queued: seq<Observation>, conflicts: map<Key, ConflictCode>,
          notes: set<Cause>)
      requires Tracked() && AllTrades(trades) && facts0.Keys !! facts.Keys
      ensures Reached(stagedFacts, stagedProgress, queued, conflicts, notes) ==
        StageTrades(View(), Reached(facts0, stagedProgress, queued0, conflicts0, notes0), trades)
      ensures stagedFacts.Keys !! facts.Keys
    {
      hide RowsKept, Publish, Refuse, AddNote;
      stagedFacts, queued, conflicts, notes := facts0, queued0, conflicts0, notes0;
      ghost var start := Reached(facts0, stagedProgress, queued0, conflicts0, notes0);
      var i := 0;
      while i < |trades|
        invariant 0 <= i <= |trades|
        invariant Reached(stagedFacts, stagedProgress, queued, conflicts, notes) ==
          StageTrades(View(), start, trades[..i])
        invariant stagedFacts.Keys !! facts.Keys
      {
        var e := trades[i];
        var o := e.observation;
        ghost var before := Reached(stagedFacts, stagedProgress, queued, conflicts, notes);
        assert trades[..i + 1][..i] == trades[..i];
        if o.factId in facts || o.factId in stagedFacts {
          var known := if o.factId in facts then facts[o.factId] else stagedFacts[o.factId];
          if known != o.factDigest {
            conflicts := RefuseRow(FactConflict, e.key, conflicts);
          }
        } else if o.content.tradeOrder.Some? && o.content.tradeOrder.value !in orderProgress
                  && o.content.tradeOrder.value !in stagedProgress {
          notes := NoteRow(TradeOrderUnobserved, e.key, notes);
        } else {
          PublishStaged(confirmed + pending, queued, facts, stagedFacts, orderProgress, stagedProgress, o);
          stagedFacts := stagedFacts[o.factId := o.factDigest];
          queued := queued + [o];
        }
        assert Reached(stagedFacts, stagedProgress, queued, conflicts, notes) == StageTrade(View(), before, e);
        i := i + 1;
      }
      assert trades[..i] == trades;
    }

    method Commit(newRows: map<Key, Projection>, conflicts: map<Key, ConflictCode>, notes: set<Cause>,
                  stagedFacts: map<string, string>, stagedProgress: map<string, Progress>, queued: seq<Observation>)
      requires forall c :: c in notes ==> c.code.Note?
      modifies this
      ensures confirmed == old(confirmed) && pending == old(pending) + queued
      ensures facts == old(facts) + stagedFacts && orderProgress == old(orderProgress) + stagedProgress
      ensures rows == old(rows) + newRows && noted == old(noted) + notes
      ensures conflictCodes == old(conflictCodes) + conflicts
      ensures counters == Bump(old(counters), RefusedCauses(newRows) + ConflictCauses(conflicts) + notes)
      ensures offered == old(offered) && nextQuery == old(nextQuery) && base == old(base)
      ensures conflicted == old(conflicted) + conflicts.Keys
    {
      hide Bump, RefusedCauses, ConflictCauses, RowsKept;
      var counted := CountCommitted(counters, newRows, conflicts, notes);
      counters := counted;
      rows := rows + newRows;
      conflicted, conflictCodes := conflicted + conflicts.Keys, conflictCodes + conflicts;
      noted := noted + notes;
      facts := facts + stagedFacts;
      orderProgress := orderProgress + stagedProgress;
      pending := pending + queued;
    }

    /** Collect both kinds, then stage orders before trades; changes nothing. */
    method Stage(orderRows: seq<NativeRow>, tradeRows: seq<NativeRow>)
      returns (ok: bool, newRows: map<Key, Projection>, conflicts: map<Key, ConflictCode>, notes: set<Cause>,
               stagedFacts: map<string, string>, stagedProgress: map<string, Progress>, queued: seq<Observation>)
      requires Tracked() && RowsMatch(OrderKind, orderRows) && RowsMatch(TradeKind, tradeRows)
      ensures ok <==> Digested(orderRows) && Digested(tradeRows)
      ensures ok ==>
        && newRows == UnseenRows(View(), orderRows, tradeRows)
        && Reached(stagedFacts, stagedProgress, queued, conflicts, notes) == StagedPoll(View(), orderRows, tradeRows)
        && stagedFacts.Keys !! facts.Keys
    {
      hide NewRows, CollectConflicts, CollectNotes, KindEntries, Accepted, StageOrders, StageTrades, RowsKept;
      stagedFacts, stagedProgress, queued := map[], map[], [];
      var orders, trades: seq<Entry>;
      ok, newRows, conflicts, notes, orders := Collect(OrderKind, orderRows, map[], map[], {});
      if ok {
        KindEntriesMatch(View(), OrderKind, orderRows);
        CollectedKinds(View(), OrderKind, orderRows);
        assert newRows == NewRows(rows, OrderKind, orderRows);
        assert conflicts == CollectConflicts(View(), OrderKind, orderRows);
        assert notes == CollectNotes(View(), OrderKind, orderRows);
        ok, newRows, conflicts, notes, trades := Collect(TradeKind, tradeRows, newRows, conflicts, notes);
      }
      if ok {
        KindEntriesMatch(View(), TradeKind, tradeRows);
        stagedFacts, stagedProgress, queued, conflicts := StageOrderEntries(orders, conflicts, notes);
        stagedFacts, queued, conflicts, notes := StageTradeEntries(trades, stagedFacts, stagedProgress, queued,
            conflicts, notes);
      }
    }

    /** Stage both queries, then commit all of it or nothing. */
    method CommitPoll(orderRows: seq<NativeRow>, tradeRows: seq<NativeRow>) returns (error: Option<PollError>)
      requires Tracked() && RowsMatch(OrderKind, orderRows) && RowsMatch(TradeKind, tradeRows)
      modifies this
      ensures Tracked() && base == old(base) && confirmed == old(confirmed) && old(pending) <= pending
      ensures error.Some? ==> unchanged(this) && Poll(old(View()), orderRows, tradeRows) == Failed(error.value)
      ensures error.None? ==> Poll(old(View()), orderRows, tradeRows) == Committed(View())
    {
      hide StagedPoll, UnseenRows, RowsKept, Bump, RefusedCauses, ConflictCauses;
      if |tradeRows| > MAX_QUERY_ROWS || |orderRows| > MAX_QUERY_ROWS {
        return Some(QueryTooLarge);
      }
      var ok, newRows, conflicts, notes, stagedFacts, stagedProgress, queued := Stage(orderRows, tradeRows);
      if !ok {
        return Some(QueryRowInvalid);
      }
      assert (facts + stagedFacts).Keys == facts.Keys + stagedFacts.Keys;
      if |rows| + |newRows| > MAX_TRACKED || |facts| + |stagedFacts| > MAX_TRACKED {
        return Some(CapacityExceeded);
      }
      CommitIsValid(View(), orderRows, tradeRows);
      assert confirmed + pending + queued == confirmed + (pending + queued);
      assert (conflictCodes + conflicts).Keys == conflictCodes.Keys + conflicts.Keys;
      Commit(newRows, conflicts, notes, stagedFacts, stagedProgress, queued);
      error := None;
    }

    /** One poll of both queries. Either every field is left alone, or the object becomes the polled
        generation, which keeps the invariant and only adds to what is pending. */
    method StagePoll(orderRows: seq<NativeRow>, tradeRows: seq<NativeRow>) returns (error: Option<PollError>)
      requires Valid() && RowsMatch(OrderKind, orderRows) && RowsMatch(TradeKind, tradeRows)
      modifies this
      ensures Valid() && base == old(base) && confirmed == old(confirmed) && old(pending) <= pending
      ensures error.Some? ==> unchanged(this) && Poll(old(View()), orderRows, tradeRows) == Failed(error.value)
      ensures error.None? ==> Poll(old(View()), orderRows, tradeRows) == Committed(View())
      ensures error == Some(QueryTooLarge) <==> |orderRows| > 8192 || |tradeRows| > 8192
      ensures error == Some(QueryRowInvalid) <==>
        && |orderRows| <= 8192 && |tradeRows| <= 8192
        && exists row :: (row in orderRows || row in tradeRows) && row.digest.None?
      ensures old(Reordering.Wellformed(View(), orderRows, tradeRows)) ==>
        (error.None? <==> old(Outcomes.WithinBounds(View(), orderRows, tradeRows)))
    {
      hide Poll, RowsKept, RowsMatch, GenerationInv;
      CommitKeepsInv(base, View(), orderRows, tradeRows);
      Outcomes.PollIsRefusedIff(View(), orderRows, tradeRows);
      if Reordering.Wellformed(View(), orderRows, tradeRows) {
        Outcomes.PollCommitsIff(View(), orderRows, tradeRows);
      }
      hide Reordering.Wellformed, Outcomes.WithinBounds;
      error := CommitPoll(orderRows, tradeRows);
    }

    /** Poll iff nothing is pending and the interval elapsed; a failed poll only moves the next time. */
    method PollIfDue(interval: real, now: real, query: Query) returns (failed: bool)
      requires Valid()
      requires (query.QueryRows? ==> RowsMatch(OrderKind, query.orderRows) && RowsMatch(TradeKind, query.tradeRows))
      modifies this
      ensures Valid() && base == old(base) && confirmed == old(confirmed) && old(pending) <= pending
      ensures old(pending) != [] || old(nextQuery.Some? && now < nextQuery.value) ==> !failed && unchanged(this)
      ensures old(pending) == [] && !old(nextQuery.Some? && now < nextQuery.value) ==>
        var g1 := old(View()).(nextQuery := Some(now + interval));
        && RowsKept(g1)
        && (failed ==> View() == g1)
        && (!failed <==> query.QueryRows? && Poll(g1, query.orderRows, query.tradeRows).Committed?)
        && (!failed ==> Poll(g1, query.orderRows, query.tradeRows) == Committed(View()))
    {
      hide Poll, RowsKept, GenerationInv, RowsMatch;
      failed := false;
      if pending == [] && (nextQuery.None? || now >= nextQuery.value) {
        ghost var g := View();
        nextQuery := Some(now + interval);
        SameRowsKept(g, View());
        QueryTimeKeeps(base, g, View());
        match query {
          case QueryFailed => failed := true;
          case QueryRows(orderRows, tradeRows) =>
            var error := StagePoll(orderRows, tradeRows);
            failed := error.Some?;
        }
      }
    }

    /** Offer the oldest pending observations. A query is made only once nothing is pending and the
        interval elapsed; nothing pending is ever dropped or reordered by a read. */
    method Read(interval: real, now: real, limit: int, query: Query) returns (reply: Reply)
      requires Valid() && ValidStep(ExecutionRun.Read(now, limit, query))
      modifies this
      ensures Valid() && base == old(base)
      ensures (View(), reply) == ReadStep(interval, old(View()), now, limit, query)
      ensures confirmed == old(confirmed) && old(pending) <= pending
      ensures old(pending) != [] ==> pending == old(pending)
      ensures reply.Page? ==> reply.page == First(pending, limit) && offered == |reply.page|
    {
      hide Poll, RowsKept, GenerationInv, RowsMatch;
      ReadIsValid(base, interval, View(), now, limit, query);
      if !(1 <= limit <= MAX_PAGE) {
        return LimitInvalid;
      }
      assert Pending(View()) == pending;
      var failed := PollIfDue(interval, now, query);
      if failed {
        return PollFailed;
      }
      ghost var h := View();
      assert Pending(h) == pending;
      var page := if |pending| <= limit then pending else pending[..limit];
      offered := |page|;
      SameRowsKept(h, View());
      reply := Page(page);
    }

    /** Accept a confirm of the first observations of the last page, and drop exactly those. */
    method Confirm(count: int) returns (reply: Reply)
      requires Valid()
      modifies this
      ensures Valid() && base == old(base)
      ensures (View(), reply) == ConfirmStep(old(View()), count)
      ensures reply.Confirmed? <==> 0 <= count <= old(offered) <= |old(pending)|
      ensures reply.Confirmed? ==> pending == old(pending)[count..]
      ensures reply.Confirmed? ==> confirmed == old(confirmed) + old(pending)[..count]
      ensures !reply.Confirmed? ==> unchanged(this)
    {
      hide RowsKept, GenerationInv;
      InvBounds(base, View());
      ConfirmIsValid(base, View(), count);
      if !(0 <= count <= offered) {
        return ConfirmInvalid;
      }
      assert confirmed + pending[..count] + pending[count..] == confirmed + pending;
      confirmed := confirmed + pending[..count];
      pending := pending[count..];
      offered := offered - count;
      reply := Confirmed;
    }
  }

  // ---- the invariant of the object ---------------------------------------------------------

  lemma CommitKeepsInv(base: map<Code, nat>, g: Generation, orderRows: seq<NativeRow>, tradeRows: seq<NativeRow>)
    requires GenerationInv(base, g) && RowsMatch(OrderKind, orderRows) && RowsMatch(TradeKind, tradeRows)
    ensures RowsKept(g)
    ensures Poll(g, orderRows, tradeRows).Committed? ==> GenerationInv(base, Poll(g, orderRows, tradeRows).generation)
  {
    if Poll(g, orderRows, tradeRows).Committed? {
      PollKeeps(base, g, orderRows, tradeRows);
    }
  }

  lemma QueryTimeKeeps(base: map<Code, nat>, g: Generation, h: Generation)
    requires GenerationInv(base, g) && h == g.(nextQuery := h.nextQuery)
    ensures GenerationInv(base, h)
  {
    SameRecords(base, g, h);
  }

  lemma ReadIsValid(base: map<Code, nat>, interval: real, g: Generation, now: real, limit: int, query: Query)
    requires GenerationInv(base, g) && ValidStep(Read(now, limit, query))
    ensures RowsKept(g) && g.confirmed <= |g.ledger.history|
    ensures GenerationInv(base, ReadStep(interval, g, now, limit, query).0)
  {
    ReadKeeps(base, interval, g, now, limit, query);
  }

  lemma ConfirmIsValid(base: map<Code, nat>, g: Generation, count: int)
    requires GenerationInv(base, g)
    ensures GenerationInv(base, ConfirmStep(g, count).0) && RowsKept(ConfirmStep(g, count).0)
  {
    SameRecords(base, g, ConfirmStep(g, count).0);
  }

  // ---- how one more row changes what was gathered ---------------------------------------

  /** Insertion-ordered groups of the entries, by identity. */
  ghost predicate Grouped(entries: seq<Entry>, order: seq<string>, groups: map<string, seq<Entry>>) {
    && order == Identities(entries)
    && (forall x :: x in groups <==> x in order)
    && (forall x :: x in groups ==> groups[x] == Group(entries, x))
  }

  lemma NothingGathered(g: Generation, kind: Kind)
    ensures NewRows(g.rows, kind, []) == map[]
    ensures AttributionNotes(g, NewRows(g.rows, kind, [])) == {}
    ensures Grouped(KindEntries(g, kind, []), [], map[])
  {
  }

  lemma NewRowsGrow(g: Generation, kind: Kind, rows: seq<NativeRow>)
    requires Digested(rows) && rows != []
    ensures var n := |rows| - 1;
      var before, after := NewRows(g.rows, kind, rows[..n]), NewRows(g.rows, kind, rows);
      var key, p := KeyOf(kind, rows[n]), rows[n].projection;
      && after == (if key in g.rows || key in before then before else before[key := p])
      && (key in before ==> key !in g.rows)
      && AttributionNotes(g, after) == AttributionNotes(g, before) +
           (if key !in g.rows && key !in before && p.Projected? && p.attributionRefused
               && Cause(Note(OrderAttributionRefused), key) !in g.noted
            then {Cause(Note(OrderAttributionRefused), key)} else {})
  {
    var n := |rows| - 1;
    NewRowsAre(g.rows, kind, rows[..n], KeyOf(kind, rows[n]));
  }

  lemma EntriesGrow(g: Generation, kind: Kind, rows: seq<NativeRow>)
    requires Digested(rows) && rows != []
    ensures var n := |rows| - 1;
      var after := NewRows(g.rows, kind, rows);
      var key := KeyOf(kind, rows[n]);
      && (key in g.rows || key in after)
      && var p := if key in g.rows then g.rows[key] else after[key];
      KindEntries(g, kind, rows) == KindEntries(g, kind, rows[..n]) +
        (if p.Projected? && key !in g.conflicted then [Entry(key, p.observation)] else [])
  {
    NewRowsAre(g.rows, kind, rows, KeyOf(kind, rows[|rows| - 1]));
  }

  /** One more entry extends exactly the group of its identity. */
  lemma GroupedGrows(entries: seq<Entry>, order: seq<string>, groups: map<string, seq<Entry>>, e: Entry)
    requires Grouped(entries, order, groups)
    ensures var x := Identity(e.observation);
      if x in groups then Grouped(entries + [e], order, groups[x := groups[x] + [e]])
      else Grouped(entries + [e], order + [x], groups[x := [e]])
  {
    var more := entries + [e];
    assert more[..|more| - 1] == entries && more[|more| - 1] == e;
    var x := Identity(e.observation);
    EmptyGroup(entries, x);
    forall y ensures Group(more, y) == Group(entries, y) + (if y == x then [e] else []) {}
  }

  lemma {:induction false} EmptyGroup(entries: seq<Entry>, x: string)
    ensures x !in Identities(entries) ==> Group(entries, x) == []
  {
    if entries == [] {
    } else {
      EmptyGroup(entries[..|entries| - 1], x);
    }
  }

  // ---- selecting -----------------------------------------------------------------------------

  ghost function EntryKeys(entries: seq<Entry>): set<Key> {
    set e | e in entries :: e.key
  }

  ghost function Disputed(keys: set<Key>): map<Key, ConflictCode> {
    map k | k in keys :: ConflictingDuplicateRow
  }

  ghost function Merged(keys: set<Key>): set<Cause> {
    set k | k in keys :: Cause(Note(DuplicateRowMerged), k)
  }

  lemma NoKeys(conflicts: map<Key, ConflictCode>)
    ensures conflicts + Disputed(EntryKeys([])) == conflicts
  {
    assert EntryKeys([]) == {};
  }

  lemma EntryKeysGrow(entries: seq<Entry>, i: nat)
    requires i < |entries|
    ensures EntryKeys(entries[..i + 1]) == EntryKeys(entries[..i]) + {entries[i].key}
  {
    assert entries[..i + 1] == entries[..i] + [entries[i]];
  }

  lemma RefuseOne(conflicts: map<Key, ConflictCode>, keys: set<Key>, key: Key)
    requires key in conflicts ==> conflicts[key] == ConflictingDuplicateRow
    ensures var before := conflicts + Disputed(keys);
      conflicts + Disputed(keys + {key}) == if key in before then before else before[key := ConflictingDuplicateRow]
  {
  }

  lemma NoneSelected(entries: seq<Entry>, conflicts: map<Key, ConflictCode>, notes: set<Cause>)
    ensures AcceptedAmong(entries, []) == []
    ensures conflicts + Disputed(DisagreeingKeys(entries, [])) == conflicts
    ensures forall noted :: notes + (Merged(MergedKeys(entries, [])) - noted) == notes
  {
    assert DisagreeingKeys(entries, []) == {} && MergedKeys(entries, []) == {};
    assert Merged({}) == {};
  }

  lemma SelectionGrows(entries: seq<Entry>, ids: seq<string>)
    requires ids != []
    ensures var group, before := Group(entries, ids[|ids| - 1]), ids[..|ids| - 1];
      && DisagreeingKeys(entries, ids) == (
           if Agrees(group) then DisagreeingKeys(entries, before)
           else DisagreeingKeys(entries, before) + EntryKeys(group))
      && MergedKeys(entries, ids) == (
           if Agrees(group) && group != [] then MergedKeys(entries, before) + EntryKeys(group[1..])
           else MergedKeys(entries, before))
      && AcceptedAmong(entries, ids) == (
           if Agrees(group) && group != [] then AcceptedAmong(entries, before) + [group[0]]
           else AcceptedAmong(entries, before))
  {
    hide Group, Agrees;
    assert ids == ids[..|ids| - 1] + [ids[|ids| - 1]];
  }

  lemma DisputedGrows(conflicts: map<Key, ConflictCode>, a: set<Key>, b: set<Key>)
    ensures conflicts + Disputed(a) + Disputed(b) == conflicts + Disputed(a + b)
    ensures forall k :: k in conflicts + Disputed(a) && k !in conflicts ==>
      (conflicts + Disputed(a))[k] == ConflictingDuplicateRow
  {
  }

  lemma MergedGrows(notes: set<Cause>, noted: set<Cause>, a: set<Key>, b: set<Key>)
    ensures notes + (Merged(a) - noted) + (Merged(b) - noted) == notes + (Merged(a + b) - noted)
  {
    assert Merged(a + b) == Merged(a) + Merged(b);
  }

  // ---- staging and committing ---------------------------------------------------------------------------------

  /** Publishing over committed and staged dictionaries stages the same update. */
  lemma PublishStaged(history: seq<Observation>, queued: seq<Observation>,
                      facts: map<string, string>, stagedFacts: map<string, string>,
                      progress: map<string, Progress>, stagedProgress: map<string, Progress>, o: Observation)
    requires o.factId !in facts
    ensures Publish(Ledger(history + queued, facts + stagedFacts, progress + stagedProgress), o) ==
      Ledger(history + (queued + [o]), facts + stagedFacts[o.factId := o.factDigest],
             progress + (if o.content.Order? then stagedProgress[o.content.orderId := ProgressOf(o)]
                 else stagedProgress))
  {
    assert history + queued + [o] == history + (queued + [o]);
  }

  lemma GroupedOrder(entries: seq<Entry>, order: seq<string>, groups: map<string, seq<Entry>>)
    requires Grouped(entries, order, groups)
    ensures order == Identities(entries)
  {
  }

  /** Collecting one kind only speaks of rows of that kind. */
  lemma CollectedKinds(g: Generation, kind: Kind, rows: seq<NativeRow>)
    requires RowsKept(g) && RowsMatch(kind, rows) && Digested(rows)
    ensures forall k :: k in NewRows(g.rows, kind, rows) || k in CollectConflicts(g, kind, rows) ==> k.kind == kind
  {
    KindEntriesMatch(g, kind, rows);
    var entries := KindEntries(g, kind, rows);
    forall k | k in NewRows(g.rows, kind, rows) ensures k.kind == kind {
      NewRowsAre(g.rows, kind, rows, k);
    }
    forall k | k in CollectConflicts(g, kind, rows) ensures k.kind == kind {
      var x, e :| x in Identities(entries) && e in Group(entries, x) && e.key == k;
      GroupIs(entries, x);
    }
  }

  lemma BumpAll(counters: map<Code, nat>, rows: map<Key, Projection>, conflicts: map<Key, ConflictCode>,
                notes: set<Cause>)
    requires forall c :: c in notes ==> c.code.Note?
    ensures Bump(Bump(Bump(counters, RefusedCauses(rows)), ConflictCauses(conflicts)), notes) ==
      Bump(counters, RefusedCauses(rows) + ConflictCauses(conflicts) + notes)
  {
    hide Bump;
    BumpTwice(counters, RefusedCauses(rows), ConflictCauses(conflicts));
    BumpTwice(counters, RefusedCauses(rows) + ConflictCauses(conflicts), notes);
  }

  lemma CommitIsValid(g: Generation, orderRows: seq<NativeRow>, tradeRows: seq<NativeRow>)
    requires RowsKept(g) && RowsMatch(OrderKind, orderRows) && RowsMatch(TradeKind, tradeRows)
    requires Digested(orderRows) && Digested(tradeRows)
    ensures Poll(g, orderRows, tradeRows).Committed? ==> RowsKept(Poll(g, orderRows, tradeRows).generation)
    ensures forall c :: c in StagedPoll(g, orderRows, tradeRows).notes ==> c.code.Note?
  {
    hide StagedPoll, UnseenRows, NewRows, RowsMatch, Digested, Bump, NewCauses;
    StagedPollRecords(g, orderRows, tradeRows);
    UnseenRowsAre(g, orderRows, tradeRows);
  }

  lemma SameRowsKept(g: Generation, h: Generation)
    requires RowsKept(g) && h.rows == g.rows && h.conflicted == g.conflicted && h.noted == g.noted
    ensures RowsKept(h)
  {
  }
}
