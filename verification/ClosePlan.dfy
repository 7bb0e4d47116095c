/** Building a close plan: at most three legs, at most six actions, no row closed
    beyond its position, and every fee role the actions may need.
 */
module ClosePlan {
  import opened Options
  import opened CloseAllocation
  import CloseDeadlines

  const MAX_LEGS := 3
  const MAX_ACTIONS := 6

  datatype RowModel = SplitByDate(priority: Priority) | Combined(age: AgeRequest)

  // ---- the rows of the query ------------------------------------------------------------

  ghost predicate OfDay(rows: seq<Row>, tradingDay: string) {
    forall i :: 0 <= i < |rows| ==> rows[i].identity.tradingDay == tradingDay
  }

  ghost predicate NoSharedIdentity(rows: seq<Row>) {
    forall i, j :: 0 <= i < j < |rows| ==> rows[i].identity != rows[j].identity
  }

  /** Accept the rows of a query iff all are of the day and no identity is repeated. */
  method CheckRows(rows: seq<Row>, tradingDay: string) returns (r: Result<()>)
    ensures r.Ok? <==> OfDay(rows, tradingDay) && NoSharedIdentity(rows)
    ensures r.Ok? ==> UniqueRows(rows)
    ensures r == Err(RowInvalid) <==> !OfDay(rows, tradingDay)
    ensures r == Err(RowDuplicate) <==> OfDay(rows, tradingDay) && !NoSharedIdentity(rows)
  {
    for i := 0 to |rows|
      invariant OfDay(rows[..i], tradingDay)
    {
      if rows[i].identity.tradingDay != tradingDay {
        return Err(RowInvalid);
      }
    }
    assert OfDay(rows, tradingDay);
    var identities: set<Identity> := {};
    for i := 0 to |rows|
      invariant forall k :: 0 <= k < i ==> rows[k].identity in identities
      invariant forall id :: id in identities ==> exists k :: 0 <= k < i && rows[k].identity == id
      invariant NoSharedIdentity(rows[..i])
    {
      if rows[i].identity in identities {
        return Err(RowDuplicate);
      }
      identities := identities + {rows[i].identity};
    }
    assert rows[..|rows|] == rows;
    r := Ok(());
  }

  // ---- the legs of the request -----------------------------------------------------------

  /** Positive quantities and no key twice. */
  ghost predicate LegsAreSound(legs: seq<Leg>) {
    && (forall i :: 0 <= i < |legs| ==> legs[i].quantity > 0)
    && (forall i, j :: 0 <= i < j < |legs| ==> legs[i].key != legs[j].key)
  }

  ghost predicate KeySeen(legs: seq<Leg>, n: nat)
    requires n < |legs|
  {
    exists k :: 0 <= k < n && legs[k].key == legs[n].key
  }

  /** The leg that stops the normalization: all before it are sound. */
  ghost predicate FirstUnsound(legs: seq<Leg>, n: int) {
    && 0 <= n < |legs|
    && LegsAreSound(legs[..n])
    && (legs[n].quantity <= 0 || KeySeen(legs, n))
  }

  ghost predicate Normal(legs: seq<Leg>) {
    0 < |legs| <= 3 && LegsAreSound(legs)
  }

  /** Why the legs of a request are refused. */
  ghost predicate LegsRefused(legs: seq<Leg>, error: PlanError) {
    if legs == [] then error == RequestEmpty
    else if |legs| > 3 then error == TooManyLegs
    else exists n :: FirstUnsound(legs, n) && error == (if legs[n].quantity <= 0 then QuantityInvalid else LegDuplicate)
  }

  /** Accept the legs iff there are one to three and they are sound; the first unsound leg
      decides the error, its quantity before its key. */
  method NormalizeLegs(legs: seq<Leg>) returns (r: Result<()>)
    ensures r.Ok? <==> Normal(legs)
    ensures r.Err? ==> LegsRefused(legs, r.error)
  {
    if legs == [] {
      return Err(RequestEmpty);
    }
    if |legs| > MAX_LEGS {
      return Err(TooManyLegs);
    }
    var seen: set<LegKey> := {};
    for i := 0 to |legs|
      invariant forall k :: 0 <= k < i ==> legs[k].key in seen
      invariant forall key :: key in seen ==> exists k :: 0 <= k < i && legs[k].key == key
      invariant LegsAreSound(legs[..i])
    {
      if legs[i].quantity <= 0 {
        assert FirstUnsound(legs, i);
        return Err(QuantityInvalid);
      }
      if legs[i].key in seen {
        assert KeySeen(legs, i);
        assert FirstUnsound(legs, i);
        return Err(LegDuplicate);
      }
      seen := seen + {legs[i].key};
    }
    assert legs[..|legs|] == legs;
    r := Ok(());
  }

  // ---- what the actions of a plan are ------------------------------------------------------

  function LegCheck(model: RowModel, leg: Leg, rows: seq<Row>): Result<()>
    requires leg.quantity > 0
  {
    match model
    case SplitByDate(_) => SplitCheck(leg, rows)
    case Combined(age) =>
      var g := GenericActions(leg, rows, age);
      if g.Err? then Err(g.error) else Ok(())
  }

  ghost predicate LegPart(model: RowModel, leg: Leg, rows: seq<Row>, actions: seq<Action>) {
    match model
    case SplitByDate(priority) => IsSplit(leg, rows, priority, actions)
    case Combined(age) => leg.quantity > 0 && GenericActions(leg, rows, age) == Ok(actions)
  }

  /** The actions are the legs' own parts, one after the other. */
  ghost predicate PlanParts(model: RowModel, legs: seq<Leg>, rows: seq<Row>, actions: seq<Action>) {
    if legs == [] then actions == []
    else
      exists k :: 0 <= k <= |actions| &&
        PlanParts(model, legs[..|legs| - 1], rows, actions[..k]) && LegPart(model, legs[|legs| - 1], rows, actions[k..])
  }

  function LegTotal(actions: seq<Action>, key: LegKey): nat {
    if actions == [] then 0
    else
      var a := actions[|actions| - 1];
      LegTotal(actions[..|actions| - 1], key) + (if a.leg.key == key then a.quantity else 0)
  }

  lemma {:induction false} TotalsAdd(a: seq<Action>, b: seq<Action>, id: Identity, key: LegKey)
    ensures Allocated(a + b, id) == Allocated(a, id) + Allocated(b, id)
    ensures LegTotal(a + b, key) == LegTotal(a, key) + LegTotal(b, key)
    decreases |b|
  {
    if b == [] {
      assert a + b == a;
    } else {
      var n := |b| - 1;
      assert (a + b)[..|a + b| - 1] == a + b[..n];
      TotalsAdd(a, b[..n], id, key);
    }
  }

  lemma {:induction false} NothingElsewhere(actions: seq<Action>, id: Identity, key: LegKey)
    ensures (forall i :: 0 <= i < |actions| ==> actions[i].row != id) ==> Allocated(actions, id) == 0
    ensures (forall i :: 0 <= i < |actions| ==> actions[i].leg.key != key) ==> LegTotal(actions, key) == 0
    ensures (forall i :: 0 <= i < |actions| ==> actions[i].leg.key == key) ==> LegTotal(actions, key) == Sum(actions)
  {
    if actions == [] {
    } else {
      NothingElsewhere(actions[..|actions| - 1], id, key);
    }
  }

  function KeyOf(id: Identity): LegKey {
    LegKey(id.instrument, id.exchange, id.hedge, id.side)
  }

  ghost predicate ActionsBelong(legs: seq<Leg>, rows: seq<Row>, actions: seq<Action>) {
    forall i :: 0 <= i < |actions| ==> actions[i].leg in legs && InRows(rows, actions[i].leg, actions[i].row)
  }

  ghost predicate LegsAreMet(legs: seq<Leg>, actions: seq<Action>) {
    forall i :: 0 <= i < |legs| ==> LegTotal(actions, legs[i].key) == legs[i].quantity
  }

  ghost predicate RowsAreCovered(rows: seq<Row>, actions: seq<Action>) {
    forall r :: r in rows ==> Allocated(actions, r.identity) <= r.position
  }

  /** Conservation: each leg is closed exactly and no row gives more than it holds. */
  ghost predicate Conserves(legs: seq<Leg>, rows: seq<Row>, actions: seq<Action>) {
    && |legs| <= |actions| <= 2 * |legs|
    && ActionsBelong(legs, rows, actions)
    && LegsAreMet(legs, actions)
    && RowsAreCovered(rows, actions)
  }

  lemma PartIsClosed(model: RowModel, leg: Leg, rows: seq<Row>, part: seq<Action>)
    requires UniqueRows(rows) && LegPart(model, leg, rows, part)
    ensures LegClosed(leg, rows, part)
  {
    match model
    case SplitByDate(priority) => SplitClosesLeg(leg, rows, priority, part);
    case Combined(age) => GenericClosesLeg(leg, rows, age);
  }

  lemma OneMoreRow(legs: seq<Leg>, leg: Leg, rows: seq<Row>, a: seq<Action>, b: seq<Action>, r: Row)
    requires ActionsBelong(legs, rows, a) && RowsAreCovered(rows, a) && LegClosed(leg, rows, b) && r in rows
    requires forall i :: 0 <= i < |legs| ==> legs[i].key != leg.key
    ensures Allocated(a + b, r.identity) <= r.position
  {
    hide Allocated, LegTotal, Sum;
    TotalsAdd(a, b, r.identity, leg.key);
    NothingElsewhere(a, r.identity, leg.key);
    NothingElsewhere(b, r.identity, leg.key);
    if KeyOf(r.identity) == leg.key {
      assert forall i :: 0 <= i < |a| ==> a[i].row != r.identity;
    } else {
      assert forall i :: 0 <= i < |b| ==> b[i].row != r.identity;
    }
  }

  lemma OneMoreLeg(legs: seq<Leg>, leg: Leg, rows: seq<Row>, a: seq<Action>, b: seq<Action>, id: Identity)
    requires ActionsBelong(legs, rows, a) && LegsAreMet(legs, a) && LegClosed(leg, rows, b)
    requires forall i :: 0 <= i < |legs| ==> legs[i].key != leg.key
    ensures LegsAreMet(legs + [leg], a + b)
  {
    hide Allocated, LegTotal, Sum, InRows;
    forall i | 0 <= i < |legs| ensures LegTotal(a + b, legs[i].key) == legs[i].quantity {
      TotalsAdd(a, b, id, legs[i].key);
      NothingElsewhere(b, id, legs[i].key);
    }
    TotalsAdd(a, b, id, leg.key);
    NothingElsewhere(a, id, leg.key);
    NothingElsewhere(b, id, leg.key);
  }

  /** Adding one more leg's part keeps conservation, because its rows are its own. */
  lemma OneMorePart(legs: seq<Leg>, leg: Leg, rows: seq<Row>, a: seq<Action>, b: seq<Action>)
    requires Conserves(legs, rows, a) && LegClosed(leg, rows, b)
    requires forall i :: 0 <= i < |legs| ==> legs[i].key != leg.key
    ensures Conserves(legs + [leg], rows, a + b)
  {
    hide Allocated, LegTotal, Sum, InRows, MatchesLeg;
    OneMoreLeg(legs, leg, rows, a, b, b[0].row);
    forall r | r in rows ensures Allocated(a + b, r.identity) <= r.position {
      OneMoreRow(legs, leg, rows, a, b, r);
    }
  }

  lemma NothingIsConserved(rows: seq<Row>)
    ensures Conserves([], rows, []) && RolesAreExact([], [])
  {
    assert forall r :: r in rows ==> Allocated([], r.identity) == 0;
  }

  lemma {:induction false} PartsConserve(model: RowModel, legs: seq<Leg>, rows: seq<Row>, actions: seq<Action>)
    requires UniqueRows(rows) && LegsAreSound(legs) && PlanParts(model, legs, rows, actions)
    ensures Conserves(legs, rows, actions)
    decreases |legs|
  {
    hide UniqueRows, LegPart, Allocated, LegTotal, LegClosed, InRows;
    if legs != [] {
      var n := |legs| - 1;
      var k :| 0 <= k <= |actions| && PlanParts(model, legs[..n], rows, actions[..k]) &&
          LegPart(model, legs[n], rows, actions[k..]);
      hide PlanParts, Conserves;
      PartsConserve(model, legs[..n], rows, actions[..k]);
      PartIsClosed(model, legs[n], rows, actions[k..]);
      OneMorePart(legs[..n], legs[n], rows, actions[..k], actions[k..]);
      assert legs[..n] + [legs[n]] == legs && actions[..k] + actions[k..] == actions;
    } else {
      NothingIsConserved(rows);
    }
  }

  // ---- fee roles -------------------------------------------------------------------------

  predicate Needs(a: Action, role: Offset) {
    a.offset == role || (role.CloseToday? && a.age.Range? && a.age.todayMax != 0)
  }

  ghost predicate Needed(actions: seq<Action>, role: Offset) {
    exists i :: 0 <= i < |actions| && Needs(actions[i], role)
  }

  ghost predicate NoRepeat(roles: seq<Offset>) {
    forall i, j :: 0 <= i < j < |roles| ==> roles[i] != roles[j]
  }

  /** The fee roles one leg reports. */
  function FeesOf(model: RowModel, part: seq<Action>): seq<Offset>
    requires model.Combined? ==> |part| == 1 && part[0].age.Range?
  {
    match model
    case SplitByDate(_) => seq(|part|, i requires 0 <= i < |part| => part[i].offset)
    case Combined(_) => if part[0].age.todayMax != 0 then [Close, CloseToday] else [Close]
  }

  /** Append the roles not yet present, in order. */
  method AddRoles(roles: seq<Offset>, fees: seq<Offset>) returns (out: seq<Offset>)
    requires NoRepeat(roles)
    ensures NoRepeat(out) && roles <= out
    ensures forall role :: role in out <==> role in roles || role in fees
  {
    out := roles;
    for i := 0 to |fees|
      invariant NoRepeat(out) && roles <= out
      invariant forall role :: role in out <==> role in roles || role in fees[..i]
    {
      if fees[i] !in out {
        out := out + [fees[i]];
      }
    }
    assert fees[..|fees|] == fees;
  }

  ghost predicate RolesAreExact(actions: seq<Action>, roles: seq<Offset>) {
    NoRepeat(roles) && forall role :: role in roles <==> Needed(actions, role)
  }

  lemma PartNeeds(model: RowModel, leg: Leg, rows: seq<Row>, part: seq<Action>, role: Offset)
    requires LegPart(model, leg, rows, part)
    ensures model.Combined? ==> |part| == 1 && part[0].age.Range?
    ensures role in FeesOf(model, part) <==> Needed(part, role)
  {
    match model
    case SplitByDate(priority) =>
      forall i | 0 <= i < |part| ensures Needs(part[i], role) <==> part[i].offset == role {
        assert TakesFrom(leg, rows, part[i]);
      }
      var fees := FeesOf(model, part);
      assert forall i :: 0 <= i < |part| ==> fees[i] == part[i].offset;
      if Needed(part, role) {
        var i :| 0 <= i < |part| && Needs(part[i], role);
        assert fees[i] == role;
      }
    case Combined(age) =>
      hide Matches, FreezeError, AgeGuaranteed;
      assert Needed(part, role) <==> Needs(part[0], role);
  }

  lemma NeededJoin(a: seq<Action>, b: seq<Action>, role: Offset)
    ensures Needed(a + b, role) <==> Needed(a, role) || Needed(b, role)
  {
    if Needed(b, role) {
      var i :| 0 <= i < |b| && Needs(b[i], role);
      assert (a + b)[|a| + i] == b[i];
    }
    if Needed(a, role) {
      var i :| 0 <= i < |a| && Needs(a[i], role);
      assert (a + b)[i] == a[i];
    }
  }

  // ---- the plan ---------------------------------------------------------------------------

  ghost predicate AllLegsPass(model: RowModel, legs: seq<Leg>, rows: seq<Row>)
    requires LegsAreSound(legs)
  {
    forall i :: 0 <= i < |legs| ==> LegCheck(model, legs[i], rows).Ok?
  }

  /** The leg whose check refuses the plan. */
  ghost predicate FirstRefused(model: RowModel, legs: seq<Leg>, rows: seq<Row>, n: int)
    requires LegsAreSound(legs)
  {
    0 <= n < |legs| && AllLegsPass(model, legs[..n], rows) && LegCheck(model, legs[n], rows).Err?
  }

  /** How an action divides its lots by age: by the date of its row, or as the venue may choose. */
  ghost predicate HasAge(model: RowModel, rows: seq<Row>, a: Action) {
    match model
    case SplitByDate(_) => IsAged(a)
    case Combined(_) => IsRanged(rows, a)
  }

  ghost predicate HaveAges(model: RowModel, rows: seq<Row>, actions: seq<Action>) {
    forall i :: 0 <= i < |actions| ==> HasAge(model, rows, actions[i])
  }

  lemma PartHasAges(model: RowModel, leg: Leg, rows: seq<Row>, part: seq<Action>)
    requires LegPart(model, leg, rows, part)
    ensures HaveAges(model, rows, part)
  {
    hide IsAged, IsRanged, IsSplit, GenericActions;
    match model
    case SplitByDate(priority) => SplitMeans(leg, rows, priority, part);
    case Combined(age) => GenericIsRanged(leg, rows, age);
  }

  method LegActions(model: RowModel, leg: Leg, rows: seq<Row>) returns (r: Result<seq<Action>>)
    requires UniqueRows(rows) && leg.quantity > 0
    ensures r.Ok? <==> LegCheck(model, leg, rows).Ok?
    ensures r.Err? ==> r.error == LegCheck(model, leg, rows).error
    ensures r.Ok? ==> LegPart(model, leg, rows, r.value) && HaveAges(model, rows, r.value)
  {
    hide UniqueRows, IsSplit, SplitCheck, GenericActions, HaveAges;
    match model {
      case SplitByDate(priority) => r := SplitActions(leg, rows, priority);
      case Combined(age) => r := GenericActions(leg, rows, age);
    }
    if r.Ok? {
      PartHasAges(model, leg, rows, r.value);
    }
  }

  lemma ExtendParts(model: RowModel, legs: seq<Leg>, n: nat, rows: seq<Row>, a: seq<Action>, b: seq<Action>)
    requires n < |legs| && PlanParts(model, legs[..n], rows, a) && LegPart(model, legs[n], rows, b)
    ensures PlanParts(model, legs[..n + 1], rows, a + b)
  {
    hide LegPart;
    assert legs[..n + 1][..n] == legs[..n];
    assert (a + b)[..|a|] == a && (a + b)[|a|..] == b;
  }

  lemma ExtendRoles(model: RowModel, leg: Leg, rows: seq<Row>, a: seq<Action>, b: seq<Action>, roles: seq<Offset>,
                    out: seq<Offset>)
    requires LegPart(model, leg, rows, b)
    requires model.Combined? ==> |b| == 1 && b[0].age.Range?
    requires RolesAreExact(a, roles) && NoRepeat(out)
    requires forall role :: role in out <==> role in roles || role in FeesOf(model, b)
    ensures RolesAreExact(a + b, out)
  {
    hide LegPart, Needed, NoRepeat, FeesOf;
    forall role ensures role in out <==> Needed(a + b, role) {
      PartNeeds(model, leg, rows, b, role);
      NeededJoin(a, b, role);
    }
  }

  /** Build the actions. Refused exactly when some leg's check fails, with the first such leg's
      error; the bound on the number of actions is never what refuses. */
  method BuildActions(model: RowModel, legs: seq<Leg>, rows: seq<Row>)
    returns (r: Result<seq<Action>>, roles: seq<Offset>)
    requires UniqueRows(rows) && Normal(legs)
    ensures r.Ok? <==> AllLegsPass(model, legs, rows)
    ensures r.Err? ==> exists n :: FirstRefused(model, legs, rows, n) && r.error == LegCheck(model, legs[n], rows).error
    ensures r.Ok? ==> PlanParts(model, legs, rows, r.value) && RolesAreExact(r.value, roles)
    ensures r.Ok? ==> Conserves(legs, rows, r.value) && 1 <= |r.value| <= 6 && HaveAges(model, rows, r.value)
  {
    hide UniqueRows, LegPart, LegCheck, FeesOf, Needed, HasAge;
    var actions: seq<Action> := [];
    roles := [];
    NothingIsConserved(rows);
    var i := 0;
    while i < |legs|
      invariant 0 <= i <= |legs|
      invariant AllLegsPass(model, legs[..i], rows)
      invariant PlanParts(model, legs[..i], rows, actions)
      invariant RolesAreExact(actions, roles) && HaveAges(model, rows, actions)
    {
      var part := LegActions(model, legs[i], rows);
      if part.Err? {
        assert FirstRefused(model, legs, rows, i);
        return Err(part.error), roles;
      }
      PartNeeds(model, legs[i], rows, part.value, Close);
      var more := AddRoles(roles, FeesOf(model, part.value));
      ExtendParts(model, legs, i, rows, actions, part.value);
      ExtendRoles(model, legs[i], rows, actions, part.value, roles, more);
      roles := more;
      actions := actions + part.value;
      i := i + 1;
    }
    assert legs[..i] == legs;
    PartsConserve(model, legs, rows, actions);
    if actions == [] || |actions| > MAX_ACTIONS {
      return Err(ActionLimitExceeded), roles;
    }
    r := Ok(actions);
  }

  ghost predicate TodayRoleFollows(leg: Leg, r: Row, age: AgeRequest, part: seq<Action>)
    requires |part| == 1 && part[0].age.Range?
  {
    && r.identity == part[0].row && leg.quantity <= r.position
    && (CloseToday in FeesOf(Combined(age), part) <==> exists t :: t > 0 && Feasible(r, leg.quantity, t))
  }

  /** A combined row needs the close-today fee iff the venue may choose to close a today lot. */
  lemma TodayRoleIff(leg: Leg, rows: seq<Row>, age: AgeRequest, part: seq<Action>)
    requires LegPart(Combined(age), leg, rows, part)
    ensures |part| == 1 && part[0].age.Range? && Close in FeesOf(Combined(age), part)
    ensures exists r: Row :: r in rows && TodayRoleFollows(leg, r, age, part)
  {
    MatchesAre(leg, rows);
    hide Matches, FreezeError, AgeGuaranteed, TodayMin, TodayMax, Feasible;
    var r := Matches(leg, rows)[0];
    assert r in Matches(leg, rows);
    TodayFeasibleIff(r, leg.quantity);
  }

  // ---- the whole build ------------------------------------------------------------------

  datatype Evidence = Evidence(rows: seq<Row>, tradingDay: string, completed: CloseDeadlines.Instant,
      expiry: CloseDeadlines.Instant)
  datatype Request = Request(legs: seq<Leg>, expiry: CloseDeadlines.Instant)
  datatype Policy = Policy(model: RowModel, exchanges: set<string>, expiry: Option<CloseDeadlines.Instant>)

  datatype Built =
    | Planned(actions: seq<Action>, roles: seq<Offset>, expiry: CloseDeadlines.Instant)
    | Refused(error: PlanError)
    | RefusedClock(clock: CloseDeadlines.ClockError)

  ghost predicate OnExchanges(legs: seq<Leg>, exchanges: set<string>) {
    forall i :: 0 <= i < |legs| ==> legs[i].key.exchange in exchanges
  }

  /** What a caller can check to know whether a plan will be emitted. */
  ghost predicate Plannable(c: CloseDeadlines.Rounding, e: Evidence, q: Request, p: Policy,
                            context: CloseDeadlines.Instant, now: CloseDeadlines.Instant)
  {
    && CloseDeadlines.CheckSource(c, e.completed, e.expiry).None?
    && OfDay(e.rows, e.tradingDay) && NoSharedIdentity(e.rows)
    && Normal(q.legs) && OnExchanges(q.legs, p.exchanges)
    && e.completed.utc <= now.utc && e.completed.mono <= now.mono
    && CloseDeadlines.AllDeadlines(c, CloseDeadlines.Deadlines(e.expiry, q.expiry, context, p.expiry), e.completed, now)
    && AllLegsPass(p.model, q.legs, e.rows)
  }

  method CheckExchanges(legs: seq<Leg>, exchanges: set<string>) returns (ok: bool)
    ensures ok <==> OnExchanges(legs, exchanges)
  {
    for i := 0 to |legs|
      invariant forall k :: 0 <= k < i ==> legs[k].key.exchange in exchanges
    {
      if legs[i].key.exchange !in exchanges {
        return false;
      }
    }
    ok := true;
  }

  /** No leg check reports a bound or a shortage after the split. */
  lemma CheckErrors(model: RowModel, leg: Leg, rows: seq<Row>)
    requires leg.quantity > 0 && LegCheck(model, leg, rows).Err?
    ensures LegCheck(model, leg, rows).error !in {ActionLimitExceeded, SplitUnsatisfied, RowDuplicate, LegDuplicate}
  {
    var m := Matches(leg, rows);
    FreezeErrors(m);
    if |m| == 1 {
      FreezeErrors([m[0]]);
    }
  }

  /** The first reason not to emit a plan decides: the window of the evidence, then its rows, then the legs,
      their exchanges, the deadlines, and last the first leg whose rows do not allow its close. */
  ghost predicate RefusedFirst(c: CloseDeadlines.Rounding, e: Evidence, q: Request, p: Policy,
                               context: CloseDeadlines.Instant, now: CloseDeadlines.Instant, b: Built)
  {
    var source := CloseDeadlines.CheckSource(c, e.completed, e.expiry);
    var deadlines := CloseDeadlines.ValidateDeadlines(c, e.completed, e.expiry, q.expiry, context, p.expiry, now);
    if source.Some? then b == RefusedClock(source.value)
    else if !OfDay(e.rows, e.tradingDay) then b == Refused(RowInvalid)
    else if !NoSharedIdentity(e.rows) then b == Refused(RowDuplicate)
    else if !Normal(q.legs) then b.Refused? && LegsRefused(q.legs, b.error)
    else if !OnExchanges(q.legs, p.exchanges) then b == Refused(ExchangeOutsidePolicy)
    else if deadlines.Refused? then b == RefusedClock(deadlines.error)
    else exists n :: FirstRefused(p.model, q.legs, e.rows, n) &&
           b == Refused(LegCheck(p.model, q.legs[n], e.rows).error)
  }

  /** A plan is emitted exactly for a plannable input; it conserves lots, names exactly the fee
      roles its actions may need, and expires no later than any of its sources. */
  method BuildClosePlan(c: CloseDeadlines.Rounding, e: Evidence, q: Request, p: Policy,
                        context: CloseDeadlines.Instant, now: CloseDeadlines.Instant)
    returns (b: Built)
    requires CloseDeadlines.Monotone(c)
    ensures b.Planned? <==> Plannable(c, e, q, p, context, now)
    ensures b.Planned? ==> Conserves(q.legs, e.rows, b.actions) && 1 <= |b.actions| <= 6
    ensures b.Planned? ==> HaveAges(p.model, e.rows, b.actions)
    ensures b.Planned? ==> PlanParts(p.model, q.legs, e.rows, b.actions) && RolesAreExact(b.actions, b.roles)
    ensures b.Planned? ==>
      CloseDeadlines.ValidateDeadlines(c, e.completed, e.expiry, q.expiry, context, p.expiry, now) ==
          CloseDeadlines.Accepted(b.expiry)
    ensures !b.Planned? ==> RefusedFirst(c, e, q, p, context, now, b)
    ensures b.Refused? ==> b.error != ActionLimitExceeded && b.error != SplitUnsatisfied
  {
    hide HaveAges, UniqueRows, OfDay, NoSharedIdentity, Conserves, PlanParts, RolesAreExact, LegCheck;
    hide CloseDeadlines.Monotone, CloseDeadlines.AllDeadlines;
    hide CloseDeadlines.CheckSource, CloseDeadlines.ValidateDeadlines;
    var source := CloseDeadlines.CheckSource(c, e.completed, e.expiry);
    if source.Some? {
      return RefusedClock(source.value);
    }
    var rows := CheckRows(e.rows, e.tradingDay);
    if rows.Err? {
      return Refused(rows.error);
    }
    var legs := NormalizeLegs(q.legs);
    if legs.Err? {
      return Refused(legs.error);
    }
    var exchanges := CheckExchanges(q.legs, p.exchanges);
    if !exchanges {
      return Refused(ExchangeOutsidePolicy);
    }
    CloseDeadlines.AcceptedIff(c, e.completed, e.expiry, q.expiry, context, p.expiry, now);
    var deadlines := CloseDeadlines.ValidateDeadlines(c, e.completed, e.expiry, q.expiry, context, p.expiry, now);
    if deadlines.Refused? {
      return RefusedClock(deadlines.error);
    }
    var actions, roles := BuildActions(p.model, q.legs, e.rows);
    if actions.Err? {
      ghost var n :| FirstRefused(p.model, q.legs, e.rows, n) &&
          actions.error == LegCheck(p.model, q.legs[n], e.rows).error;
      CheckErrors(p.model, q.legs[n], e.rows);
      return Refused(actions.error);
    }
    b := Planned(actions.value, roles, deadlines.expiry);
  }
}
