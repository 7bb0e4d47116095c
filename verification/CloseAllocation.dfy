/** Allocating the lots of one close leg to the position rows of a query.

    A split policy keeps today's and history's lots in two rows and chooses how
    many of each to close; a generic policy has one combined row and must say
    which allocations the venue may choose.
 */
module CloseAllocation {
  datatype Result<+T> = Ok(value: T) | Err(error: PlanError)

  datatype PlanError =
    | RequestEmpty
    | TooManyLegs
    | QuantityInvalid
    | LegDuplicate
    | RowDuplicate
    | ExchangeOutsidePolicy
    | CloseExceedsPosition
    | TargetNotInSource
    | RowInvalid
    | FrozenAllocationUnproven
    | SpecialPositionUnsupported
    | GenericAgeNotGuaranteed
    | SplitUnsatisfied
    | ActionLimitExceeded

  datatype Side = Long | Short
  datatype Date = Today | History
  datatype Offset = CloseToday | CloseYesterday | Close

  datatype Identity = Identity(instrument: string, exchange: string, side: Side, hedge: string, date: Date,
      tradingDay: string)

  /** A parsed position row: today's lots never exceed the row's lots. */
  datatype RawRow = Row(identity: Identity, position: nat, today: nat, ordinaryFrozen: nat, specialFrozen: nat)
  type Row = r: RawRow | r.today <= r.position
    witness Row(Identity("", "", Long, "", Today, ""), 0, 0, 0, 0)

  datatype LegKey = LegKey(instrument: string, exchange: string, hedge: string, side: Side)
  datatype Leg = Leg(id: string, key: LegKey, quantity: int)

  datatype Priority = TodayFirst | YesterdayFirst

  /** How the closed lots divide by age: fixed, or a range of today lots. */
  datatype AgeAllocation = Fixed(today: nat, history: nat) | Range(todayMin: int, todayMax: int)

  datatype Action = Action(leg: Leg, row: Identity, offset: Offset, quantity: nat, age: AgeAllocation)

  predicate MatchesLeg(leg: Leg, id: Identity) {
    id.instrument == leg.key.instrument && id.exchange == leg.key.exchange && id.side == leg.key.side &&
        id.hedge == leg.key.hedge
  }

  /** No two rows share a native identity, and all are of the scope's trading day. */
  ghost predicate UniqueRows(rows: seq<Row>) {
    && (forall i, j :: 0 <= i < j < |rows| ==> rows[i].identity != rows[j].identity)
    && (forall i, j :: 0 <= i < j < |rows| ==> rows[i].identity.tradingDay == rows[j].identity.tradingDay)
  }

  function Matches(leg: Leg, rows: seq<Row>): seq<Row> {
    if rows == [] then []
    else
      var n := |rows| - 1;
      Matches(leg, rows[..n]) + (if MatchesLeg(leg, rows[n].identity) then [rows[n]] else [])
  }

  function Total(rows: seq<Row>): nat {
    if rows == [] then 0 else Total(rows[..|rows| - 1]) + rows[|rows| - 1].position
  }

  lemma {:induction false} MatchesAre(leg: Leg, rows: seq<Row>)
    ensures forall r :: r in Matches(leg, rows) <==> r in rows && MatchesLeg(leg, r.identity)
  {
    if rows == [] {
    } else {
      var n := |rows| - 1;
      MatchesAre(leg, rows[..n]);
      assert rows == rows[..n] + [rows[n]];
    }
  }

  ghost predicate DistinctDates(m: seq<Row>) {
    forall i, j :: 0 <= i < j < |m| ==> m[i].identity.date != m[j].identity.date
  }

  lemma OtherDate(leg: Leg, rows: seq<Row>, r: Row)
    requires UniqueRows(rows) && rows != [] && r in rows[..|rows| - 1]
    requires MatchesLeg(leg, r.identity) && MatchesLeg(leg, rows[|rows| - 1].identity)
    ensures r.identity.date != rows[|rows| - 1].identity.date
  {
    var k :| 0 <= k < |rows| - 1 && rows[k] == r;
    assert rows[k].identity != rows[|rows| - 1].identity;
  }

  /** The rows of one leg differ in their date. */
  lemma {:induction false} MatchesHaveDistinctDates(leg: Leg, rows: seq<Row>)
    requires UniqueRows(rows)
    ensures DistinctDates(Matches(leg, rows))
  {
    if rows == [] {
    } else {
      var n := |rows| - 1;
      var before := Matches(leg, rows[..n]);
      MatchesHaveDistinctDates(leg, rows[..n]);
      MatchesAre(leg, rows[..n]);
      if MatchesLeg(leg, rows[n].identity) {
        forall i | 0 <= i < |before| ensures before[i].identity.date != rows[n].identity.date {
          assert before[i] in before;
          OtherDate(leg, rows, before[i]);
        }
        assert Matches(leg, rows) == before + [rows[n]];
      }
    }
  }

  ghost function Dates(m: seq<Row>): set<Date> {
    set r | r in m :: r.identity.date
  }

  lemma {:induction false} DistinctDatesCount(m: seq<Row>)
    requires DistinctDates(m)
    ensures |Dates(m)| == |m|
  {
    if m == [] {
    } else {
      var n := |m| - 1;
      DistinctDatesCount(m[..n]);
      assert m == m[..n] + [m[n]];
      assert Dates(m) == Dates(m[..n]) + {m[n].identity.date};
    }
  }

  lemma AtMostTwoMatches(leg: Leg, rows: seq<Row>)
    requires UniqueRows(rows)
    ensures |Matches(leg, rows)| <= 2
  {
    hide Matches;
    MatchesHaveDistinctDates(leg, rows);
    DistinctDatesCount(Matches(leg, rows));
    var both := {Today, History};
    assert Dates(Matches(leg, rows)) <= both;
    assert both == Dates(Matches(leg, rows)) + (both - Dates(Matches(leg, rows)));
  }

  // ---- the split policy -----------------------------------------------------------------

  predicate SplitConsistent(r: Row) {
    if r.identity.date.Today? then r.today == r.position else r.today == 0
  }

  function FreezeError(rows: seq<Row>): Result<()> {
    if rows == [] then Ok(())
    else if rows[0].ordinaryFrozen != 0 then Err(FrozenAllocationUnproven)
    else if rows[0].specialFrozen != 0 then Err(SpecialPositionUnsupported)
    else FreezeError(rows[1..])
  }

  predicate Unfrozen(r: Row) {
    r.ordinaryFrozen == 0 && r.specialFrozen == 0
  }

  lemma {:induction false} FreezeErrors(rows: seq<Row>)
    ensures FreezeError(rows).Ok? || FreezeError(rows).error in {FrozenAllocationUnproven, SpecialPositionUnsupported}
    ensures FreezeError(rows).Ok? <==> forall i :: 0 <= i < |rows| ==> Unfrozen(rows[i])
  {
    if rows == [] {
    } else {
      FreezeErrors(rows[1..]);
      assert rows == [rows[0]] + rows[1..];
    }
  }

  /** Which error refuses a split leg, in the order the checks are made. */
  function SplitCheck(leg: Leg, rows: seq<Row>): Result<()> {
    var m := Matches(leg, rows);
    if m == [] then (if rows == [] then Err(CloseExceedsPosition) else Err(TargetNotInSource))
    else if exists i :: 0 <= i < |m| && !SplitConsistent(m[i]) then Err(RowInvalid)
    else if FreezeError(m).Err? then FreezeError(m)
    else if leg.quantity > Total(m) then Err(CloseExceedsPosition)
    else Ok(())
  }

  /** The first row of these with frozen lots. */
  ghost predicate FirstFrozen(rows: seq<Row>, i: int) {
    0 <= i < |rows| && !Unfrozen(rows[i]) && forall j :: 0 <= j < i ==> Unfrozen(rows[j])
  }

  /** The first row with frozen lots decides the error: ordinary freezes before special ones. */
  lemma {:induction false} FreezeErrorIs(rows: seq<Row>, i: int)
    requires FirstFrozen(rows, i)
    ensures FreezeError(rows) ==
            Err(if rows[i].ordinaryFrozen != 0 then FrozenAllocationUnproven else SpecialPositionUnsupported)
  {
    if i == 0 {
    } else {
      assert Unfrozen(rows[0]);
      assert forall j :: 0 <= j < i - 1 ==> rows[1..][j] == rows[j + 1];
      FreezeErrorIs(rows[1..], i - 1);
    }
  }

  ghost predicate Matched(leg: Leg, rows: seq<Row>) {
    exists r :: r in rows && MatchesLeg(leg, r.identity)
  }

  /** Each row of the leg has lots of its own date only. */
  ghost predicate Dated(leg: Leg, rows: seq<Row>) {
    forall r :: r in rows && MatchesLeg(leg, r.identity) ==>
      && (r.identity.date == Today ==> r.today == r.position)
      && (r.identity.date == History ==> r.today == 0)
  }

  lemma MatchedIff(leg: Leg, rows: seq<Row>)
    ensures Matches(leg, rows) != [] <==> Matched(leg, rows)
    ensures Dated(leg, rows) <==> forall i :: 0 <= i < |Matches(leg, rows)| ==> SplitConsistent(Matches(leg, rows)[i])
  {
    MatchesAre(leg, rows);
    hide Matches;
    var m := Matches(leg, rows);
    assert forall i :: 0 <= i < |m| ==> m[i] in m;
    if m != [] {
      assert m[0] in rows && MatchesLeg(leg, m[0].identity);
    }
  }

  /** Which error refuses a split leg: each iff its own condition, and the freeze of the first frozen row. */
  lemma SplitErrorIs(leg: Leg, rows: seq<Row>)
    ensures var m, check := Matches(leg, rows), SplitCheck(leg, rows);
      && (check == Err(TargetNotInSource) <==> rows != [] && !Matched(leg, rows))
      && (check == Err(RowInvalid) <==> !Dated(leg, rows))
      && (check == Err(CloseExceedsPosition) <==>
            || rows == []
            || (Matched(leg, rows) && Dated(leg, rows) && leg.quantity > Total(m) &&
                forall i :: 0 <= i < |m| ==> Unfrozen(m[i])))
      && (forall i :: FirstFrozen(m, i) && Dated(leg, rows) ==>
            check == Err(if m[i].ordinaryFrozen != 0 then FrozenAllocationUnproven else SpecialPositionUnsupported))
  {
    MatchedIff(leg, rows);
    var m := Matches(leg, rows);
    FreezeErrors(m);
    assert rows == [] ==> m == [];
    forall i | FirstFrozen(m, i)
      ensures FreezeError(m) ==
              Err(if m[i].ordinaryFrozen != 0 then FrozenAllocationUnproven else SpecialPositionUnsupported)
    {
      FreezeErrorIs(m, i);
    }
    hide Matches, FreezeError, Total, SplitConsistent;
  }

  /** A split leg passes iff it has rows, each of one age and unfrozen, that hold enough. */
  lemma SplitOkIff(leg: Leg, rows: seq<Row>)
    ensures SplitCheck(leg, rows).Ok? <==>
      && (exists r :: r in rows && MatchesLeg(leg, r.identity))
      && (forall r :: r in rows && MatchesLeg(leg, r.identity) ==> SplitConsistent(r) && Unfrozen(r))
      && leg.quantity <= Total(Matches(leg, rows))
  {
    MatchesAre(leg, rows);
    var m := Matches(leg, rows);
    FreezeErrors(m);
    hide Matches, FreezeError, Total;
    assert forall i :: 0 <= i < |m| ==> m[i] in m;
    if m != [] {
      assert m[0] in rows && MatchesLeg(leg, m[0].identity);
    }
  }

  function Preferred(priority: Priority): Date {
    if priority.YesterdayFirst? then History else Today
  }

  function OffsetOf(d: Date): Offset {
    if d.History? then CloseYesterday else CloseToday
  }

  function SplitAction(leg: Leg, r: Row, take: nat): Action {
    Action(leg, r.identity, OffsetOf(r.identity.date), take,
           if r.identity.date.Today? then Fixed(take, 0) else Fixed(0, take))
  }

  function Sum(actions: seq<Action>): nat {
    if actions == [] then 0 else Sum(actions[..|actions| - 1]) + actions[|actions| - 1].quantity
  }

  /** Lots of one row that the actions close. */
  function Allocated(actions: seq<Action>, id: Identity): nat {
    if actions == [] then 0
    else
      var a := actions[|actions| - 1];
      Allocated(actions[..|actions| - 1], id) + (if a.row == id then a.quantity else 0)
  }

  ghost predicate TakesFrom(leg: Leg, rows: seq<Row>, a: Action) {
    exists r :: r in rows && MatchesLeg(leg, r.identity) && 0 < a.quantity <= r.position &&
        a == SplitAction(leg, r, a.quantity)
  }

  /** The second age bucket is used only when the preferred one is exhausted. */
  ghost predicate PreferredFirst(rows: seq<Row>, leg: Leg, priority: Priority, actions: seq<Action>) {
    (exists i :: 0 <= i < |actions| && actions[i].row.date != Preferred(priority)) ==>
      forall r :: r in rows && MatchesLeg(leg, r.identity) && r.identity.date == Preferred(priority) ==>
        Allocated(actions, r.identity) == r.position
  }

  ghost predicate IsSplit(leg: Leg, rows: seq<Row>, priority: Priority, actions: seq<Action>) {
    && 1 <= |actions| <= 2
    && Sum(actions) == leg.quantity
    && (forall i :: 0 <= i < |actions| ==> TakesFrom(leg, rows, actions[i]))
    && (forall i, j :: 0 <= i < j < |actions| ==>
          actions[i].row.date == Preferred(priority) && actions[j].row.date != Preferred(priority))
    && PreferredFirst(rows, leg, priority, actions)
  }

  /** The row of each date, as a dictionary keyed by date keeps it: the last one. */
  function ByDate(rows: seq<Row>): map<Date, Row> {
    if rows == [] then map[] else ByDate(rows[..|rows| - 1])[rows[|rows| - 1].identity.date := rows[|rows| - 1]]
  }

  function PositionAt(byDate: map<Date, Row>, d: Date): nat {
    if d in byDate then byDate[d].position else 0
  }

  /** With one row per date the dictionary loses nothing. */
  lemma ByDateIsComplete(leg: Leg, rows: seq<Row>)
    requires UniqueRows(rows)
    ensures var m := Matches(leg, rows);
      && (forall r :: r in m ==> r.identity.date in ByDate(m) && ByDate(m)[r.identity.date] == r)
      && (forall d :: d in ByDate(m) ==> ByDate(m)[d] in m && ByDate(m)[d].identity.date == d)
      && Total(m) == PositionAt(ByDate(m), Today) + PositionAt(ByDate(m), History)
  {
    var m := Matches(leg, rows);
    MatchesHaveDistinctDates(leg, rows);
    AtMostTwoMatches(leg, rows);
    if |m| == 1 {
      assert m == [m[0]];
      assert m[..0] == [];
    } else if |m| == 2 {
      assert m[..1] == [m[0]] && m[..1][..0] == [];
      assert Total(m) == Total(m[..1]) + m[1].position;
      assert ByDate(m) == ByDate(m[..1])[m[1].identity.date := m[1]];
      assert ByDate(m[..1]) == map[m[0].identity.date := m[0]];
    }
  }

  function Least(a: nat, b: nat): nat {
    if a < b then a else b
  }

  /** Lots still wanted after visiting the ages in order. */
  function Remaining(byDate: map<Date, Row>, order: seq<Date>, want: nat): nat {
    if order == [] then want
    else
      var before := Remaining(byDate, order[..|order| - 1], want);
      before - Least(before, PositionAt(byDate, order[|order| - 1]))
  }

  function TakeOne(leg: Leg, byDate: map<Date, Row>, d: Date, want: nat): seq<Action> {
    if d in byDate && Least(want, byDate[d].position) != 0
    then [SplitAction(leg, byDate[d], Least(want, byDate[d].position))] else []
  }

  function TakeInOrder(leg: Leg, byDate: map<Date, Row>, order: seq<Date>, want: nat): seq<Action> {
    if order == [] then []
    else
      var before := order[..|order| - 1];
      TakeInOrder(leg, byDate, before, want) + TakeOne(leg, byDate, order[|order| - 1], Remaining(byDate, before, want))
  }

  function Order(priority: Priority): seq<Date> {
    if priority.YesterdayFirst? then [History, Today] else [Today, History]
  }

  lemma TwoSteps(leg: Leg, byDate: map<Date, Row>, a: Date, b: Date, want: nat)
    ensures var left := want - Least(want, PositionAt(byDate, a));
      && Remaining(byDate, [a, b], want) == left - Least(left, PositionAt(byDate, b))
      && TakeInOrder(leg, byDate, [a, b], want) == TakeOne(leg, byDate, a, want) + TakeOne(leg, byDate, b, left)
  {
    assert [a, b][..1] == [a] && [a][..0] == [];
    assert Remaining(byDate, [a], want) == want - Least(want, PositionAt(byDate, a));
    assert TakeInOrder(leg, byDate, [a], want) == TakeOne(leg, byDate, a, want);
  }

  function LotsOf(a: Action, id: Identity): nat {
    if a.row == id then a.quantity else 0
  }

  lemma ShortSums(a: Action, b: Action, id: Identity)
    ensures Sum([a]) == a.quantity && Sum([a, b]) == a.quantity + b.quantity
    ensures Allocated([a], id) == LotsOf(a, id)
    ensures Allocated([a, b], id) == LotsOf(a, id) + LotsOf(b, id)
  {
    var one, two := [a], [a, b];
    assert one[..|one| - 1] == [] && two[..|two| - 1] == one;
    assert Allocated(one, id) == Allocated([], id) + LotsOf(a, id);
    assert Allocated(two, id) == Allocated(one, id) + LotsOf(b, id);
  }

  /** The dictionary holds exactly the rows of the leg. */
  ghost predicate IsIndex(leg: Leg, rows: seq<Row>, byDate: map<Date, Row>) {
    && (forall d :: d in byDate ==>
          byDate[d] in rows && MatchesLeg(leg, byDate[d].identity) && byDate[d].identity.date == d)
    && (forall r :: r in rows && MatchesLeg(leg, r.identity) ==>
          r.identity.date in byDate && byDate[r.identity.date] == r)
  }

  lemma TakenFromRow(leg: Leg, rows: seq<Row>, byDate: map<Date, Row>, d: Date, want: nat)
    requires IsIndex(leg, rows, byDate)
    ensures var t := TakeOne(leg, byDate, d, want);
      && |t| <= 1 && (t == [] <==> Least(want, PositionAt(byDate, d)) == 0)
      && (t != [] ==> TakesFrom(leg, rows, t[0]) && t[0].quantity == Least(want, PositionAt(byDate, d)))
      && (t != [] ==> d in byDate && t[0].row == byDate[d].identity && t[0].row.date == d)
  {
  }

  lemma IndexOfMatches(leg: Leg, rows: seq<Row>)
    requires UniqueRows(rows)
    ensures IsIndex(leg, rows, ByDate(Matches(leg, rows)))
    ensures var byDate := ByDate(Matches(leg, rows));
      Total(Matches(leg, rows)) == PositionAt(byDate, Today) + PositionAt(byDate, History)
  {
    ByDateIsComplete(leg, rows);
    MatchesAre(leg, rows);
    hide UniqueRows, Matches, ByDate, Total;
  }

  lemma OneTakeSplits(leg: Leg, rows: seq<Row>, priority: Priority, a: Action)
    requires TakesFrom(leg, rows, a) && a.quantity == leg.quantity
    requires a.row.date != Preferred(priority) ==>
      forall r :: r in rows && MatchesLeg(leg, r.identity) && r.identity.date == Preferred(priority) ==> r.position == 0
    ensures IsSplit(leg, rows, priority, [a])
  {
    hide TakesFrom, Sum, Allocated;
    ShortSums(a, a, a.row);
    forall r | r in rows && r.identity.date == Preferred(priority) && a.row.date != Preferred(priority) &&
        MatchesLeg(leg, r.identity)
      ensures Allocated([a], r.identity) == r.position
    {
      ShortSums(a, a, r.identity);
    }
  }

  lemma TwoTakesSplit(leg: Leg, rows: seq<Row>, priority: Priority, a: Action, b: Action)
    requires TakesFrom(leg, rows, a) && TakesFrom(leg, rows, b) && a.quantity + b.quantity == leg.quantity
    requires a.row.date == Preferred(priority) && b.row.date != Preferred(priority)
    requires forall r :: r in rows && MatchesLeg(leg, r.identity) && r.identity.date == Preferred(priority) ==>
      a.row == r.identity && a.quantity == r.position
    ensures IsSplit(leg, rows, priority, [a, b])
  {
    hide TakesFrom, Sum, Allocated;
    ShortSums(a, b, a.row);
    forall r | r in rows && MatchesLeg(leg, r.identity) && r.identity.date == Preferred(priority)
      ensures Allocated([a, b], r.identity) == r.position
    {
      ShortSums(a, b, r.identity);
    }
  }

  lemma RowAtDate(leg: Leg, rows: seq<Row>, byDate: map<Date, Row>, d: Date)
    requires IsIndex(leg, rows, byDate)
    ensures forall r :: r in rows && MatchesLeg(leg, r.identity) && r.identity.date == d ==>
      d in byDate && byDate[d].identity == r.identity && PositionAt(byDate, d) == r.position
  {
  }

  /** Taking from two ages that hold enough gives a split. */
  lemma TakesSplit(leg: Leg, rows: seq<Row>, priority: Priority, byDate: map<Date, Row>, first: Date, second: Date)
    requires IsIndex(leg, rows, byDate)
    requires first == Preferred(priority) && second != first
    requires 0 < leg.quantity <= PositionAt(byDate, first) + PositionAt(byDate, second)
    ensures var left := leg.quantity - Least(leg.quantity, PositionAt(byDate, first));
      && left <= PositionAt(byDate, second)
      && IsSplit(leg, rows, priority, TakeOne(leg, byDate, first, leg.quantity) + TakeOne(leg, byDate, second, left))
  {
    hide TakeOne, TakesFrom, IsSplit, IsIndex, MatchesLeg, PositionAt;
    var left := leg.quantity - Least(leg.quantity, PositionAt(byDate, first));
    TakenFromRow(leg, rows, byDate, first, leg.quantity);
    TakenFromRow(leg, rows, byDate, second, left);
    var t1, t2 := TakeOne(leg, byDate, first, leg.quantity), TakeOne(leg, byDate, second, left);
    RowAtDate(leg, rows, byDate, first);
    if t2 == [] {
      OneTakeSplits(leg, rows, priority, t1[0]);
      assert t1 + t2 == [t1[0]];
    } else if t1 == [] {
      OneTakeSplits(leg, rows, priority, t2[0]);
      assert t1 + t2 == [t2[0]];
    } else {
      TwoTakesSplit(leg, rows, priority, t1[0], t2[0]);
      assert t1 + t2 == [t1[0], t2[0]];
    }
  }

  lemma CheckedEnough(leg: Leg, rows: seq<Row>)
    requires SplitCheck(leg, rows).Ok?
    ensures leg.quantity <= Total(Matches(leg, rows))
  {
  }

  /** When every check passes, visiting the two ages closes exactly the requested lots. */
  lemma TakesExactly(leg: Leg, rows: seq<Row>, priority: Priority)
    requires UniqueRows(rows) && leg.quantity > 0 && SplitCheck(leg, rows).Ok?
    ensures var byDate := ByDate(Matches(leg, rows));
      && Remaining(byDate, Order(priority), leg.quantity) == 0
      && IsSplit(leg, rows, priority, TakeInOrder(leg, byDate, Order(priority), leg.quantity))
  {
    hide SplitCheck, UniqueRows, Matches, ByDate, Total, Remaining, TakeInOrder, IsIndex, IsSplit, TakeOne;
    IndexOfMatches(leg, rows);
    CheckedEnough(leg, rows);
    var byDate := ByDate(Matches(leg, rows));
    var first, second := Order(priority)[0], Order(priority)[1];
    TwoSteps(leg, byDate, first, second, leg.quantity);
    TakesSplit(leg, rows, priority, byDate, first, second);
  }

  /** A today row is closed with the today offset and all its lots are today's; a history row with the
      yesterday offset, and none is. */
  predicate IsAged(a: Action) {
    && (a.row.date == Today ==> a.offset == CloseToday && a.age == Fixed(a.quantity, 0))
    && (a.row.date == History ==> a.offset == CloseYesterday && a.age == Fixed(0, a.quantity))
  }

  ghost predicate Uses(actions: seq<Action>, d: Date) {
    exists i :: 0 <= i < |actions| && actions[i].row.date == d
  }

  /** Every lot of this date that the leg could close is closed. */
  ghost predicate Exhausts(leg: Leg, rows: seq<Row>, actions: seq<Action>, d: Date) {
    forall r :: r in rows && MatchesLeg(leg, r.identity) && r.identity.date == d ==>
      Allocated(actions, r.identity) == r.position
  }

  lemma SplitMeans(leg: Leg, rows: seq<Row>, priority: Priority, actions: seq<Action>)
    requires IsSplit(leg, rows, priority, actions)
    ensures forall i :: 0 <= i < |actions| ==> IsAged(actions[i])
    ensures priority == TodayFirst && Uses(actions, History) ==> Exhausts(leg, rows, actions, Today)
    ensures priority == YesterdayFirst && Uses(actions, Today) ==> Exhausts(leg, rows, actions, History)
  {
    hide Sum, Allocated;
    forall i | 0 <= i < |actions| ensures IsAged(actions[i]) {
      assert TakesFrom(leg, rows, actions[i]);
    }
    assert PreferredFirst(rows, leg, priority, actions);
    hide IsSplit, TakesFrom;
    if priority == TodayFirst && Uses(actions, History) {
      assert Exhausts(leg, rows, actions, Today);
    }
    if priority == YesterdayFirst && Uses(actions, Today) {
      assert Exhausts(leg, rows, actions, History);
    }
  }

  /** Split one leg. Ok exactly when every check passes; then the actions close exactly the requested
      lots, the second age only once the preferred one is exhausted, each row with the offset and the
      allocation of its date. The final shortage error never occurs. */
  method SplitActions(leg: Leg, rows: seq<Row>, priority: Priority) returns (r: Result<seq<Action>>)
    requires UniqueRows(rows) && leg.quantity > 0
    ensures r.Ok? <==> SplitCheck(leg, rows).Ok?
    ensures r.Err? ==> r.error == SplitCheck(leg, rows).error
    ensures r.Ok? ==> IsSplit(leg, rows, priority, r.value)
    ensures r.Ok? ==> forall i :: 0 <= i < |r.value| ==> IsAged(r.value[i])
    ensures r.Ok? && priority == TodayFirst && Uses(r.value, History) ==> Exhausts(leg, rows, r.value, Today)
    ensures r.Ok? && priority == YesterdayFirst && Uses(r.value, Today) ==> Exhausts(leg, rows, r.value, History)
  {
    hide UniqueRows, IsSplit, Matches, SplitCheck, ByDate, IsAged, Uses, Exhausts;
    var checked := SplitCheck(leg, rows);
    if checked.Err? {
      return Err(checked.error);
    }
    TakesExactly(leg, rows, priority);
    var byDate := ByDate(Matches(leg, rows));
    var order := Order(priority);
    var actions: seq<Action> := [];
    var remaining: nat := leg.quantity;
    var i := 0;
    while i < |order|
      invariant 0 <= i <= |order|
      invariant remaining == Remaining(byDate, order[..i], leg.quantity)
      invariant actions == TakeInOrder(leg, byDate, order[..i], leg.quantity)
    {
      var d := order[i];
      assert order[..i + 1][..i] == order[..i];
      if d in byDate {
        var take := Least(remaining, byDate[d].position);
        if take != 0 {
          actions := actions + [SplitAction(leg, byDate[d], take)];
          remaining := remaining - take;
        }
      }
      i := i + 1;
    }
    assert order[..i] == order;
    if remaining != 0 {
      return Err(SplitUnsatisfied);
    }
    SplitMeans(leg, rows, priority, actions);
    r := Ok(actions);
  }

  // ---- the generic policy ------------------------------------------------------------------

  datatype AgeRequest = AnyAge | OnlyToday | OnlyYesterday

  /** The venue may close `today` of today's lots and the rest from history. */
  predicate Feasible(r: Row, quantity: int, today: int) {
    0 <= today <= r.today && 0 <= quantity - today <= r.position - r.today
  }

  function TodayMin(r: Row, quantity: int): int {
    if quantity - (r.position - r.today) > 0 then quantity - (r.position - r.today) else 0
  }

  function TodayMax(r: Row, quantity: int): int {
    if quantity < r.today then quantity else r.today
  }

  predicate AgeGuaranteed(r: Row, quantity: int, age: AgeRequest) {
    match age
    case AnyAge => true
    case OnlyToday => TodayMin(r, quantity) == TodayMax(r, quantity) == quantity
    case OnlyYesterday => TodayMin(r, quantity) == TodayMax(r, quantity) == 0
  }

  function GenericActions(leg: Leg, rows: seq<Row>, age: AgeRequest): Result<seq<Action>>
    requires leg.quantity > 0
  {
    var m := Matches(leg, rows);
    if m == [] then (if rows == [] then Err(CloseExceedsPosition) else Err(TargetNotInSource))
    else if |m| != 1 || !m[0].identity.date.Today? then Err(RowInvalid)
    else if FreezeError([m[0]]).Err? then Err(FreezeError([m[0]]).error)
    else if leg.quantity > m[0].position then Err(CloseExceedsPosition)
    else if !AgeGuaranteed(m[0], leg.quantity, age) then Err(GenericAgeNotGuaranteed)
    else
      var range := Range(TodayMin(m[0], leg.quantity), TodayMax(m[0], leg.quantity));
      Ok([Action(leg, m[0].identity, Close, leg.quantity, range)])
  }

  /** The range is nonempty and is exactly the set of feasible today allocations. */
  lemma RangeIsFeasible(r: Row, quantity: int)
    requires 0 < quantity <= r.position
    ensures TodayMin(r, quantity) <= TodayMax(r, quantity)
    ensures forall t :: Feasible(r, quantity, t) <==> TodayMin(r, quantity) <= t <= TodayMax(r, quantity)
  {
  }

  /** An age request is granted iff every allocation the venue may choose satisfies it. */
  lemma AgeGrantedIff(r: Row, quantity: int)
    requires 0 < quantity <= r.position
    ensures AgeGuaranteed(r, quantity, OnlyToday) <==> forall t :: Feasible(r, quantity, t) ==> t == quantity
    ensures AgeGuaranteed(r, quantity, OnlyYesterday) <==> forall t :: Feasible(r, quantity, t) ==> t == 0
  {
    RangeIsFeasible(r, quantity);
    assert Feasible(r, quantity, TodayMin(r, quantity)) && Feasible(r, quantity, TodayMax(r, quantity));
  }

  /** The action closes a combined row: its range is exactly the today lots the venue may choose. */
  ghost predicate IsRanged(rows: seq<Row>, a: Action) {
    a.offset == Close && a.age.Range? && exists r :: r in rows && IsRangeOf(r, a)
  }

  ghost predicate IsRangeOf(r: Row, a: Action)
    requires a.age.Range?
  {
    && r.identity == a.row && a.quantity <= r.position
    && forall t :: Feasible(r, a.quantity, t) <==> a.age.todayMin <= t <= a.age.todayMax
  }

  lemma GenericIsRanged(leg: Leg, rows: seq<Row>, age: AgeRequest)
    requires leg.quantity > 0 && GenericActions(leg, rows, age).Ok?
    ensures var actions := GenericActions(leg, rows, age).value;
      |actions| == 1 && actions[0].leg == leg && actions[0].quantity == leg.quantity && IsRanged(rows, actions[0])
  {
    MatchesAre(leg, rows);
    hide Matches, FreezeError, AgeGuaranteed, TodayMin, TodayMax, Feasible;
    var r := Matches(leg, rows)[0];
    assert r in Matches(leg, rows);
    RangeIsFeasible(r, leg.quantity);
    assert IsRangeOf(r, GenericActions(leg, rows, age).value[0]);
  }

  predicate AgeHolds(age: AgeRequest, quantity: int, today: int) {
    (age.OnlyToday? ==> today == quantity) && (age.OnlyYesterday? ==> today == 0)
  }

  /** A generic leg passes iff it has one combined, unfrozen row that holds enough and every
      allocation the venue may choose has the age asked for. */
  lemma GenericOkIff(leg: Leg, rows: seq<Row>, age: AgeRequest)
    requires leg.quantity > 0
    ensures var m := Matches(leg, rows);
      GenericActions(leg, rows, age).Ok? <==>
      && |m| == 1 && m[0].identity.date.Today? && Unfrozen(m[0]) && leg.quantity <= m[0].position
      && forall t :: Feasible(m[0], leg.quantity, t) ==> AgeHolds(age, leg.quantity, t)
  {
    var m := Matches(leg, rows);
    if |m| == 1 {
      FreezeErrors([m[0]]);
      if leg.quantity <= m[0].position {
        AgeGrantedIff(m[0], leg.quantity);
      }
    }
    hide Matches, FreezeError, TodayMin, TodayMax, Feasible;
  }

  lemma OneFreeze(r: Row)
    ensures FreezeError([r]) == Err(FrozenAllocationUnproven) <==> r.ordinaryFrozen != 0
    ensures FreezeError([r]) == Err(SpecialPositionUnsupported) <==> r.ordinaryFrozen == 0 && r.specialFrozen != 0
    ensures FreezeError([r]) == Ok(()) <==> Unfrozen(r)
  {
    assert [r][1..] == [];
  }

  /** Which error refuses a generic leg: each iff its own condition. */
  lemma GenericErrorIs(leg: Leg, rows: seq<Row>, age: AgeRequest)
    requires leg.quantity > 0
    ensures var m, g := Matches(leg, rows), GenericActions(leg, rows, age);
      && (g == Err(TargetNotInSource) <==> rows != [] && !Matched(leg, rows))
      && (g == Err(RowInvalid) <==> Matched(leg, rows) && !(|m| == 1 && m[0].identity.date == Today))
      && (|m| == 1 && m[0].identity.date == Today ==>
            && (g == Err(FrozenAllocationUnproven) <==> m[0].ordinaryFrozen != 0)
            && (g == Err(SpecialPositionUnsupported) <==> m[0].ordinaryFrozen == 0 && m[0].specialFrozen != 0)
            && (g == Err(CloseExceedsPosition) <==> Unfrozen(m[0]) && leg.quantity > m[0].position)
            && (g == Err(GenericAgeNotGuaranteed) <==>
                  Unfrozen(m[0]) && leg.quantity <= m[0].position &&
                  exists t :: Feasible(m[0], leg.quantity, t) && !AgeHolds(age, leg.quantity, t)))
      && (rows == [] ==> g == Err(CloseExceedsPosition))
  {
    MatchedIff(leg, rows);
    GenericOkIff(leg, rows, age);
    var m := Matches(leg, rows);
    assert rows == [] ==> m == [];
    if |m| == 1 {
      OneFreeze(m[0]);
    }
    hide Matches, TodayMin, TodayMax, Feasible, AgeHolds, FreezeError;
  }

  /** Some feasible allocation closes a today lot iff the range reaches beyond zero. */
  lemma TodayFeasibleIff(r: Row, quantity: int)
    requires 0 < quantity <= r.position
    ensures TodayMax(r, quantity) != 0 <==> exists t :: t > 0 && Feasible(r, quantity, t)
  {
    RangeIsFeasible(r, quantity);
    assert Feasible(r, quantity, TodayMax(r, quantity));
  }

  // ---- what a closed leg is, for either policy -------------------------------------------------

  ghost predicate InRows(rows: seq<Row>, leg: Leg, id: Identity) {
    MatchesLeg(leg, id) && exists r :: r in rows && r.identity == id
  }

  /** The leg's lots are closed exactly, from its own rows, none over-allocated. */
  ghost predicate LegClosed(leg: Leg, rows: seq<Row>, actions: seq<Action>) {
    && 1 <= |actions| <= 2
    && Sum(actions) == leg.quantity
    && (forall i :: 0 <= i < |actions| ==> actions[i].leg == leg && InRows(rows, leg, actions[i].row))
    && (forall r :: r in rows ==> Allocated(actions, r.identity) <= r.position)
  }

  lemma SamePosition(rows: seq<Row>, r: Row, s: Row)
    requires UniqueRows(rows) && r in rows && s in rows && r.identity == s.identity
    ensures r == s
  {
    var i :| 0 <= i < |rows| && rows[i] == r;
    var j :| 0 <= j < |rows| && rows[j] == s;
  }

  lemma TakesWithin(leg: Leg, rows: seq<Row>, a: Action, r: Row)
    requires UniqueRows(rows) && TakesFrom(leg, rows, a) && r in rows
    ensures LotsOf(a, r.identity) <= r.position && a.leg == leg && InRows(rows, leg, a.row)
  {
    var s :| s in rows && MatchesLeg(leg, s.identity) && 0 < a.quantity <= s.position &&
        a == SplitAction(leg, s, a.quantity);
    if a.row == r.identity {
      SamePosition(rows, r, s);
    }
  }

  lemma SplitClosesLeg(leg: Leg, rows: seq<Row>, priority: Priority, actions: seq<Action>)
    requires UniqueRows(rows) && IsSplit(leg, rows, priority, actions)
    ensures LegClosed(leg, rows, actions)
  {
    hide UniqueRows, TakesFrom, Allocated, Sum, PreferredFirst, InRows;
    assert TakesFrom(leg, rows, actions[0]) && TakesFrom(leg, rows, actions[|actions| - 1]);
    assert actions == if |actions| == 1 then [actions[0]] else [actions[0], actions[1]];
    assert |actions| == 2 ==> actions[0].row != actions[1].row;
    forall r | r in rows ensures Allocated(actions, r.identity) <= r.position {
      TakesWithin(leg, rows, actions[0], r);
      TakesWithin(leg, rows, actions[|actions| - 1], r);
      ShortSums(actions[0], actions[|actions| - 1], r.identity);
    }
    forall i | 0 <= i < |actions| ensures actions[i].leg == leg && InRows(rows, leg, actions[i].row) {
      SplitActionIn(leg, rows, actions[i]);
    }
  }

  lemma SplitActionIn(leg: Leg, rows: seq<Row>, a: Action)
    requires TakesFrom(leg, rows, a)
    ensures a.leg == leg && InRows(rows, leg, a.row)
  {
  }

  lemma GenericClosesLeg(leg: Leg, rows: seq<Row>, age: AgeRequest)
    requires UniqueRows(rows) && leg.quantity > 0 && GenericActions(leg, rows, age).Ok?
    ensures LegClosed(leg, rows, GenericActions(leg, rows, age).value)
  {
    MatchesAre(leg, rows);
    hide UniqueRows, Matches, FreezeError, AgeGuaranteed, Sum, Allocated;
    var row := Matches(leg, rows)[0];
    assert row in Matches(leg, rows);
    var a := GenericActions(leg, rows, age).value[0];
    ShortSums(a, a, a.row);
    forall r | r in rows ensures Allocated([a], r.identity) <= r.position {
      ShortSums(a, a, r.identity);
      if r.identity == row.identity {
        SamePosition(rows, r, row);
      }
    }
    assert GenericActions(leg, rows, age).value == [a];
  }
}
