/** The settlement readback schedule of the direct write provider.

    Two callers share one attempt budget: the background monitor, which waits out
    a backoff, and the write path, which waits out a cooldown. Both run under
    one lock, so their calls are atomic and interleave in any order.
 */
module ReadbackSchedule {
  import opened Options

  const MAX_READBACKS := 730
  const WRITE_COOLDOWN := 5.0
  const BACKOFF := [2.0, 5.0, 10.0, 20.0, 30.0]

  /** A trader object and its connection generation. */
  datatype Scope = Scope(trader: nat, generation: int)

  datatype Caller = Background | WritePath

  /** One readback: when it was decided, when it ended, and whether the session is ready. */
  datatype Attempt = Attempt(caller: Caller, start: real, end: real, ready: bool)

  /** One stay in a scope, with the readbacks run during it. */
  datatype Visit = Visit(scope: Scope, attempts: seq<Attempt>)

  datatype Schedule = Schedule(
    scope: Option<Scope>,
    attempts: nat,
    failures: nat,
    lastAt: Option<real>,
    nextAt: real,
    // History, oldest first.
    visits: seq<Visit>)

  const FRESH := Schedule(None, 0, 0, None, 0.0, [])

  /** One call: the scope whose readback may run now, if any, the clock when the call
      decides and when its readback would end, and what that readback finds. */
  datatype Call = Call(caller: Caller, candidate: Option<Scope>, now: real, end: real, ready: bool)

  datatype Reply = NotNeeded | NotRepeated | Pending | Ready | Unverified

  function BackoffAfter(failures: nat): real {
    BACKOFF[if failures < |BACKOFF| then failures else |BACKOFF| - 1]
  }

  function EnterScope(s: Schedule, scope: Scope): Schedule {
    if s.scope == Some(scope) then s
    else Schedule(Some(scope), 0, 0, None, 0.0, s.visits + [Visit(scope, [])])
  }

  function LogAttempt(visits: seq<Visit>, a: Attempt): seq<Visit> {
    if visits == [] then visits
    else
      var n := |visits| - 1;
      visits[n := visits[n].(attempts := visits[n].attempts + [a])]
  }

  function RunReadback(s: Schedule, a: Attempt): Schedule {
    var t := s.(attempts := s.attempts + 1, lastAt := Some(a.end), visits := LogAttempt(s.visits, a));
    if a.ready then t.(failures := 0, nextAt := 0.0)
    else t.(failures := s.failures + 1, nextAt := a.end + BackoffAfter(s.failures))
  }

  predicate Waits(s: Schedule, c: Call) {
    match c.caller
    case Background => c.now < s.nextAt
    case WritePath => s.lastAt.Some? && c.now - s.lastAt.value < WRITE_COOLDOWN
  }

  function Serve(s: Schedule, c: Call): (Schedule, Reply) {
    if c.candidate.None? then (s, NotNeeded)
    else
      var t := EnterScope(s, c.candidate.value);
      if t.attempts >= MAX_READBACKS then (t, NotRepeated)
      else if Waits(t, c) then (t, Pending)
      else (RunReadback(t, Attempt(c.caller, c.now, c.end, c.ready)), if c.ready then Ready else Unverified)
  }

  function ServeAll(calls: seq<Call>): Schedule {
    if calls == [] then FRESH else Serve(ServeAll(calls[..|calls| - 1]), calls[|calls| - 1]).0
  }

  // ---- what every visit satisfies ----------------------------------------------------

  /** Consecutive failures at the end. */
  function TrailingFailures(attempts: seq<Attempt>): nat {
    if attempts == [] || attempts[|attempts| - 1].ready then 0
    else 1 + TrailingFailures(attempts[..|attempts| - 1])
  }

  /** How long attempt `i` had to wait for the one before it: a write path attempt the
      cooldown; a background attempt the backoff indexed by the failures so far. */
  predicate WaitedEnough(attempts: seq<Attempt>, i: nat)
    requires 0 < i < |attempts|
  {
    var a, before := attempts[i], attempts[i - 1];
    && (a.caller.WritePath? ==> a.start >= before.end + WRITE_COOLDOWN)
    && (a.caller.Background? && !before.ready ==>
          a.start >= before.end + BackoffAfter(TrailingFailures(attempts[..i - 1])))
  }

  ghost predicate Spaced(attempts: seq<Attempt>) {
    forall i :: 0 < i < |attempts| ==> WaitedEnough(attempts, i)
  }

  ghost predicate VisitInv(v: Visit) {
    |v.attempts| <= MAX_READBACKS && Spaced(v.attempts)
  }

  ghost predicate ScheduleInv(s: Schedule) {
    && (forall k :: 0 <= k < |s.visits| ==> VisitInv(s.visits[k]))
    && (s.scope.None? <==> s.visits == [])
    && (s.visits == [] ==> s == FRESH)
    && (s.failures == 0 ==> s.nextAt == 0.0)
    && (s.visits != [] ==>
          var v := s.visits[|s.visits| - 1];
          && s.scope == Some(v.scope)
          && s.attempts == |v.attempts|
          && s.failures == TrailingFailures(v.attempts)
          && (s.lastAt == if v.attempts == [] then None else Some(v.attempts[|v.attempts| - 1].end))
          && (s.failures > 0 ==>
                s.nextAt == v.attempts[|v.attempts| - 1].end + BackoffAfter(s.failures - 1)))
  }

  lemma EnterKeeps(s: Schedule, scope: Scope)
    requires ScheduleInv(s)
    ensures ScheduleInv(EnterScope(s, scope)) && EnterScope(s, scope).visits != []
  {
  }

  lemma SpacedAppend(attempts: seq<Attempt>, a: Attempt)
    requires Spaced(attempts)
    requires attempts != [] ==> WaitedEnough(attempts + [a], |attempts|)
    ensures Spaced(attempts + [a])
  {
    var more := attempts + [a];
    forall i | 0 < i < |more| ensures WaitedEnough(more, i) {
      if i < |attempts| {
        assert WaitedEnough(attempts, i);
        assert more[..i - 1] == attempts[..i - 1];
      }
    }
  }

  lemma ReadbackKeeps(s: Schedule, c: Call)
    requires ScheduleInv(s) && s.visits != [] && s.attempts < MAX_READBACKS && !Waits(s, c)
    ensures ScheduleInv(RunReadback(s, Attempt(c.caller, c.now, c.end, c.ready)))
  {
    var n := |s.visits| - 1;
    var had := s.visits[n].attempts;
    var a := Attempt(c.caller, c.now, c.end, c.ready);
    var more := had + [a];
    assert VisitInv(s.visits[n]);
    assert more[..|had|] == had;
    if had != [] {
      assert more[..|had| - 1] == had[..|had| - 1];
      assert WaitedEnough(more, |had|);
    }
    SpacedAppend(had, a);
    var t := RunReadback(s, a);
    assert t.visits == s.visits[n := s.visits[n].(attempts := more)];
    forall k | 0 <= k < |t.visits| ensures VisitInv(t.visits[k]) {
      if k != n { assert VisitInv(s.visits[k]); }
    }
  }

  lemma ServeKeeps(s: Schedule, c: Call)
    requires ScheduleInv(s)
    ensures ScheduleInv(Serve(s, c).0)
  {
    hide ScheduleInv;
    if c.candidate.Some? {
      EnterKeeps(s, c.candidate.value);
      var t := EnterScope(s, c.candidate.value);
      if t.attempts < MAX_READBACKS && !Waits(t, c) {
        ReadbackKeeps(t, c);
      }
    }
  }

  lemma {:induction false} EveryScheduleKeeps(calls: seq<Call>)
    ensures ScheduleInv(ServeAll(calls))
  {
    if calls == [] {
    } else {
      EveryScheduleKeeps(calls[..|calls| - 1]);
      ServeKeeps(ServeAll(calls[..|calls| - 1]), calls[|calls| - 1]);
    }
  }

  // ---- the budget of a generation ---------------------------------------------------------

  function Readbacks(visits: seq<Visit>, scope: Scope): nat {
    if visits == [] then 0
    else
      var v := visits[|visits| - 1];
      Readbacks(visits[..|visits| - 1], scope) + (if v.scope == scope then |v.attempts| else 0)
  }

  /** The stays in a scope. */
  ghost function Stays(visits: seq<Visit>, scope: Scope): set<int> {
    set k | 0 <= k < |visits| && visits[k].scope == scope
  }

  lemma {:induction false} ReadbacksPerStay(visits: seq<Visit>, scope: Scope)
    requires forall k :: 0 <= k < |visits| ==> |visits[k].attempts| <= MAX_READBACKS
    ensures Readbacks(visits, scope) <= 730 * |Stays(visits, scope)|
  {
    if visits == [] {
    } else {
      var n := |visits| - 1;
      ReadbacksPerStay(visits[..n], scope);
      assert Stays(visits, scope) == Stays(visits[..n], scope) + (if visits[n].scope == scope then {n} else {});
    }
  }

  /** In every interleaving of monitor ticks and writes a generation that was entered
      once has at most 730 readbacks; each re-entry after another scope adds at most 730. */
  lemma GenerationBudget(calls: seq<Call>, scope: Scope)
    ensures Readbacks(ServeAll(calls).visits, scope) <= 730 * |Stays(ServeAll(calls).visits, scope)|
  {
    EveryScheduleKeeps(calls);
    var visits := ServeAll(calls).visits;
    forall k | 0 <= k < |visits| ensures |visits[k].attempts| <= MAX_READBACKS {
      assert VisitInv(visits[k]);
    }
    ReadbacksPerStay(visits, scope);
  }

  /** Consecutive readbacks of one stay are apart by the cooldown or the indexed backoff. */
  lemma ReadbacksAreSpaced(calls: seq<Call>, k: nat, i: nat)
    requires k < |ServeAll(calls).visits| && 0 < i < |ServeAll(calls).visits[k].attempts|
    ensures WaitedEnough(ServeAll(calls).visits[k].attempts, i)
  {
    EveryScheduleKeeps(calls);
    assert VisitInv(ServeAll(calls).visits[k]);
  }

  // ---- how long the budget lasts --------------------------------------------------------------

  /** Time between the end of the first and the start of attempt n + 1 if all fail. */
  function BackoffSum(n: nat): real {
    if n == 0 then 0.0 else BackoffSum(n - 1) + BackoffAfter(n - 1)
  }

  lemma {:induction false} BackoffSumClosed(n: nat)
    requires n >= 4
    ensures BackoffSum(n) == 37.0 + 30.0 * (n - 4) as real
  {
    if n == 4 {
      assert BackoffSum(4) == BackoffSum(3) + 20.0 && BackoffSum(3) == BackoffSum(2) + 10.0;
      assert BackoffSum(2) == BackoffSum(1) + 5.0 && BackoffSum(1) == 2.0;
    } else {
      BackoffSumClosed(n - 1);
      assert BackoffAfter(n - 1) == 30.0;
    }
  }

  lemma {:induction false} AllFailed(attempts: seq<Attempt>)
    requires forall i :: 0 <= i < |attempts| ==> !attempts[i].ready
    ensures TrailingFailures(attempts) == |attempts|
  {
    if attempts == [] {
    } else {
      AllFailed(attempts[..|attempts| - 1]);
    }
  }

  lemma {:induction false} FailingBackgroundTakes(attempts: seq<Attempt>, n: nat)
    requires Spaced(attempts) && 0 < n < |attempts|
    requires forall i :: 0 <= i < |attempts| ==>
      attempts[i].caller.Background? && !attempts[i].ready && attempts[i].start <= attempts[i].end
    ensures attempts[n].start >= attempts[0].end + BackoffSum(n)
  {
    AllFailed(attempts[..n - 1]);
    assert WaitedEnough(attempts, n);
    if n > 1 {
      FailingBackgroundTakes(attempts, n - 1);
    }
  }

  /** If the background alone uses the whole budget and every readback fails, the last
      one starts at least 21787 s (more than six hours) after the first one ended. */
  lemma BudgetOutlastsSession(calls: seq<Call>, k: nat)
    requires k < |ServeAll(calls).visits|
    requires |ServeAll(calls).visits[k].attempts| == MAX_READBACKS
    requires forall a :: a in ServeAll(calls).visits[k].attempts ==>
      a.caller.Background? && !a.ready && a.start <= a.end
    ensures var attempts := ServeAll(calls).visits[k].attempts;
      attempts[MAX_READBACKS - 1].start - attempts[0].end >= 21787.0 > 6.0 * 3600.0
  {
    var attempts := ServeAll(calls).visits[k].attempts;
    EveryScheduleKeeps(calls);
    assert VisitInv(ServeAll(calls).visits[k]);
    assert forall i :: 0 <= i < |attempts| ==> attempts[i] in attempts;
    FailingBackgroundTakes(attempts, MAX_READBACKS - 1);
    BackoffSumClosed(MAX_READBACKS - 1);
  }

  lemma {:induction false} FailingStayTakes(attempts: seq<Attempt>, n: nat)
    requires Spaced(attempts) && 0 < n < |attempts|
    requires forall i :: 0 <= i < |attempts| ==> !attempts[i].ready && attempts[i].start <= attempts[i].end
    ensures attempts[n].start >= attempts[0].end + 2.0 + 5.0 * (n - 1) as real
  {
    AllFailed(attempts[..n - 1]);
    assert WaitedEnough(attempts, n);
    if n > 1 {
      FailingStayTakes(attempts, n - 1);
      assert BackoffAfter(n - 1) >= 5.0;
    }
  }

  /** Whoever makes the attempts, background or writes in any mix: if every readback of a stay fails, its
      n-th further attempt starts at least 2 s and then 5 s each after the first one ended, so the whole
      budget takes at least 3642 s. */
  lemma FailingBudgetTakesAnHour(calls: seq<Call>, k: nat, n: nat)
    requires k < |ServeAll(calls).visits| && 0 < n < |ServeAll(calls).visits[k].attempts|
    requires forall a :: a in ServeAll(calls).visits[k].attempts ==> !a.ready && a.start <= a.end
    ensures var attempts := ServeAll(calls).visits[k].attempts;
      && attempts[n].start - attempts[0].end >= 2.0 + 5.0 * (n - 1) as real
      && (n == MAX_READBACKS - 1 ==> attempts[n].start - attempts[0].end >= 3642.0)
  {
    var attempts := ServeAll(calls).visits[k].attempts;
    EveryScheduleKeeps(calls);
    assert VisitInv(ServeAll(calls).visits[k]);
    assert forall i :: 0 <= i < |attempts| ==> attempts[i] in attempts;
    FailingStayTakes(attempts, n);
  }

  // ---- the schedule in place --------------------------------------------------------------------

  class ReadbackState {
    var scope: Option<Scope>
    var attempts: nat
    var failures: nat
    var lastAt: Option<real>
    var nextAt: real
    ghost var visits: seq<Visit>

    ghost function View(): Schedule
      reads this
    {
      Schedule(scope, attempts, failures, lastAt, nextAt, visits)
    }

    /** Over all stays: at most 730 readbacks each, every one after the wait it owed the one before;
        the fields describe the current stay. */
    ghost predicate Valid()
      reads this
    {
      ScheduleInv(View())
    }

    constructor ()
      ensures View() == FRESH && Valid()
    {
      scope, attempts, failures, lastAt, nextAt, visits := None, 0, 0, None, 0.0, [];
    }

    /** Begin a new stay unless the candidate is the current scope. A new stay owes nothing to the
        one before it, and no readback of any stay is forgotten. */
    method Enter(candidate: Scope)
      requires Valid()
      modifies this
      ensures Valid() && View() == EnterScope(old(View()), candidate)
      ensures scope == Some(candidate) && attempts <= MAX_READBACKS
      ensures old(scope) == scope ==> unchanged(this)
      ensures old(scope) != scope ==> attempts == 0 && forall c :: !Waits(View(), c) || c.now < 0.0
      ensures TotalReadbacks(visits) == old(TotalReadbacks(visits))
    {
      EnterKeeps(View(), candidate);
      EnterForgetsNothing(View(), candidate);
      ScheduleIsCapped(EnterScope(View(), candidate));
      hide ScheduleInv;
      if scope != Some(candidate) {
        visits := visits + [Visit(candidate, [])];
        scope := Some(candidate);
        attempts := 0;
        failures := 0;
        lastAt := None;
        nextAt := 0.0;
      }
    }

    /** One bounded readback that was decided at `start` and ended at `end`. It uses one attempt of the
        stay; a success clears the backoff, and the k-th failure in a row sets the k-th backoff. */
    method RunSettlementReadback(caller: Caller, start: real, end: real, ready: bool)
      requires Valid() && scope.Some? && attempts < MAX_READBACKS
      requires !Waits(View(), Call(caller, scope, start, end, ready))
      modifies this
      ensures Valid() && View() == RunReadback(old(View()), Attempt(caller, start, end, ready))
      ensures scope == old(scope) && attempts == old(attempts) + 1 <= MAX_READBACKS && lastAt == Some(end)
      ensures TotalReadbacks(visits) == old(TotalReadbacks(visits)) + 1
      ensures failures == TrailingFailures(visits[|visits| - 1].attempts)
      ensures ready ==> failures == 0 && nextAt == 0.0
      ensures !ready ==> failures == old(failures) + 1 && 2.0 <= nextAt - end <= 30.0
      ensures !ready && failures >= 5 ==> nextAt == end + 30.0
    {
      hide ScheduleInv, Waits, TotalReadbacks, LogAttempt, TrailingFailures, RunReadback;
      ReadbackMeans(View(), Call(caller, scope, start, end, ready));
      attempts := attempts + 1;
      visits := LogAttempt(visits, Attempt(caller, start, end, ready));
      lastAt := Some(end);
      if ready {
        failures := 0;
        nextAt := 0.0;
      } else {
        var step := if failures < |BACKOFF| - 1 then failures else |BACKOFF| - 1;
        failures := failures + 1;
        nextAt := end + BACKOFF[step];
      }
    }

    /** The write path. It reads back iff the scope qualifies, has attempts left and the last attempt of
        this stay ended at least 5 s ago; otherwise nothing is spent. */
    method ReadbackForWrite(candidate: Option<Scope>, now: real, end: real, ready: bool) returns (reply: Reply)
      requires Valid()
      modifies this
      ensures Valid() && (View(), reply) == Serve(old(View()), Call(WritePath, candidate, now, end, ready))
      ensures Ran(reply) <==>
        && candidate.Some?
        && (old(scope) == candidate ==>
              old(attempts) < 730 && (old(lastAt).Some? ==> now - old(lastAt).value >= 5.0))
      ensures reply == NotNeeded <==> candidate.None?
      ensures reply == NotRepeated <==> candidate.Some? && old(scope) == candidate && old(attempts) == 730
      ensures reply == Ready <==> Ran(reply) && ready
      ensures reply == Unverified <==> Ran(reply) && !ready
      ensures TotalReadbacks(visits) == old(TotalReadbacks(visits)) + (if Ran(reply) then 1 else 0)
      ensures Ran(reply) ==> lastAt == Some(end) && scope == candidate
      ensures candidate.Some? ==> scope == candidate
      ensures !Ran(reply) && old(scope) == scope ==> unchanged(this)
    {
      hide ScheduleInv, TotalReadbacks;
      if candidate.None? {
        return NotNeeded;
      }
      Enter(candidate.value);
      if attempts >= MAX_READBACKS {
        return NotRepeated;
      }
      if lastAt.Some? && now - lastAt.value < WRITE_COOLDOWN {
        return Pending;
      }
      RunSettlementReadback(WritePath, now, end, ready);
      reply := if ready then Ready else Unverified;
    }

    /** One monitor step. It reads back iff the scope qualifies, has attempts left and the backoff of the
        last failure in this stay is over; otherwise nothing is spent. */
    method MonitorTick(candidate: Option<Scope>, now: real, end: real, ready: bool) returns (reply: Reply)
      requires Valid()
      modifies this
      ensures Valid() && (View(), reply) == Serve(old(View()), Call(Background, candidate, now, end, ready))
      ensures Ran(reply) <==>
        && candidate.Some? && (old(scope) == candidate ==> old(attempts) < 730)
        && (if old(scope) == candidate && old(failures) > 0
            then old(lastAt).Some? && now >= old(lastAt).value + BackoffAfter(old(failures) - 1) else now >= 0.0)
      ensures reply == NotNeeded <==> candidate.None?
      ensures reply == NotRepeated <==> candidate.Some? && old(scope) == candidate && old(attempts) == 730
      ensures reply == Ready <==> Ran(reply) && ready
      ensures reply == Unverified <==> Ran(reply) && !ready
      ensures TotalReadbacks(visits) == old(TotalReadbacks(visits)) + (if Ran(reply) then 1 else 0)
      ensures Ran(reply) ==> lastAt == Some(end) && scope == candidate
      ensures candidate.Some? ==> scope == candidate
      ensures !Ran(reply) && old(scope) == scope ==> unchanged(this)
    {
      hide ScheduleInv, TotalReadbacks, BackoffAfter, RunReadback, LogAttempt;
      NextIsBackoff(View());
      if candidate.None? {
        return NotNeeded;
      }
      Enter(candidate.value);
      if attempts >= MAX_READBACKS {
        return NotRepeated;
      }
      if now < nextAt {
        return Pending;
      }
      RunSettlementReadback(Background, now, end, ready);
      reply := if ready then Ready else Unverified;
    }
  }

  predicate Ran(reply: Reply) {
    reply.Ready? || reply.Unverified?
  }

  /** Readbacks of all stays together. */
  function TotalReadbacks(visits: seq<Visit>): nat {
    if visits == [] then 0 else TotalReadbacks(visits[..|visits| - 1]) + |visits[|visits| - 1].attempts|
  }

  lemma EnterForgetsNothing(s: Schedule, scope: Scope)
    ensures TotalReadbacks(EnterScope(s, scope).visits) == TotalReadbacks(s.visits)
  {
    var more := s.visits + [Visit(scope, [])];
    assert more[..|more| - 1] == s.visits;
  }

  lemma ReadbackIsLogged(s: Schedule, a: Attempt)
    requires s.visits != []
    ensures TotalReadbacks(RunReadback(s, a).visits) == TotalReadbacks(s.visits) + 1
  {
    var n := |s.visits| - 1;
    assert RunReadback(s, a).visits[..n] == s.visits[..n];
  }

  /** The backoff after a failure: 2, 5, 10 and 20 s, and 30 s from the fifth failure in a row on. */
  lemma BackoffRange(failures: nat)
    ensures 2.0 <= BackoffAfter(failures) <= 30.0 && (failures >= 4 ==> BackoffAfter(failures) == 30.0)
    ensures BackoffAfter(0) == 2.0 && BackoffAfter(1) == 5.0 && BackoffAfter(2) == 10.0 && BackoffAfter(3) == 20.0
  {
  }

  lemma ReadbackMeans(s: Schedule, c: Call)
    requires ScheduleInv(s) && s.scope.Some? && s.attempts < MAX_READBACKS && !Waits(s, c)
    ensures var t := RunReadback(s, Attempt(c.caller, c.now, c.end, c.ready));
      && ScheduleInv(t) && s.visits != [] && t.visits != []
      && TotalReadbacks(t.visits) == TotalReadbacks(s.visits) + 1
      && t.failures == TrailingFailures(t.visits[|t.visits| - 1].attempts)
      && t == Schedule(s.scope, s.attempts + 1, if c.ready then 0 else s.failures + 1, Some(c.end),
                       if c.ready then 0.0 else c.end + BackoffAfter(s.failures),
                       LogAttempt(s.visits, Attempt(c.caller, c.now, c.end, c.ready)))
      && 2.0 <= BackoffAfter(s.failures) <= 30.0 && (s.failures >= 4 ==> BackoffAfter(s.failures) == 30.0)
  {
    hide Spaced, VisitInv;
    assert s.visits != [];
    ReadbackKeeps(s, c);
    ReadbackIsLogged(s, Attempt(c.caller, c.now, c.end, c.ready));
    FailuresTrail(RunReadback(s, Attempt(c.caller, c.now, c.end, c.ready)));
    BackoffRange(s.failures);
  }

  lemma ScheduleIsCapped(s: Schedule)
    requires ScheduleInv(s)
    ensures s.attempts <= MAX_READBACKS || s.visits == []
  {
    if s.visits != [] {
      assert VisitInv(s.visits[|s.visits| - 1]);
    }
  }

  lemma FailuresTrail(s: Schedule)
    requires ScheduleInv(s) && s.visits != []
    ensures s.failures == TrailingFailures(s.visits[|s.visits| - 1].attempts)
  {
  }

  /** The next time of the monitor: the backoff after the last failure, or at once. */
  lemma NextIsBackoff(s: Schedule)
    requires ScheduleInv(s)
    ensures s.failures > 0 ==> s.lastAt.Some? && s.nextAt == s.lastAt.value + BackoffAfter(s.failures - 1)
    ensures s.failures == 0 ==> s.nextAt == 0.0
  {
  }
}
