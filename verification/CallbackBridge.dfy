/** The callback source bridge as atomic steps of several threads.

    One step is one stretch of `next_envelope` or `close` between two
    releases of the bridge lock, or one call into the source client. Events,
    failed checks and failed releases are chosen by the environment, and the
    steps of any number of threads interleave in any order.
 */
module CallbackBridge {
  import opened Options

  type Thread = nat

  /** What the source queue returned: its sequence number, if it is an integer,
      and whether every other field matches the bound login lifecycle. */
  datatype Event = Event(sequence: Option<int>, matchesLifecycle: bool)

  datatype Result = Timeout | Envelope(sequence: int) | Raised

  /** Where one thread is. `Failing` remembers whether an event was consumed. */
  datatype Pc =
    | Idle
    | Entered(generation: nat)
    | Waiting(generation: nat)
    | Returned(generation: nat, event: Option<Event>)
    | Failing(generation: nat, consumed: bool)
    | Releasing(polling: bool)
    | Clearing(polling: bool)
    | Leaving(result: Result)

  datatype Bridge = Bridge(
    baseline: int,
    last: int,
    closed: bool,
    generation: nat,
    inFlight: bool,
    leased: bool,
    pcs: map<Thread, Pc>,
    // History: sequences of the finalized envelopes, how many events the
    // queue handed out, and whether the lease was released successfully.
    finalized: seq<int>,
    consumed: nat,
    released: bool)

  datatype Wait = WaitRaised | WaitReturned(event: Option<Event>)

  datatype Action =
    | Enter(thread: Thread)
    | Check(thread: Thread, current: bool)
    | Await(thread: Thread, outcome: Wait)
    | Finalize(thread: Thread, current: bool)
    | Poison(thread: Thread)
    | Release(thread: Thread, ok: bool)
    | Clear(thread: Thread)
    | Leave(thread: Thread)
    | Close(thread: Thread)

  function Bind(baseline: int): Bridge {
    Bridge(baseline, baseline, false, 0, false, true, map[], [], 0, false)
  }

  function PcOf(b: Bridge, t: Thread): Pc {
    if t in b.pcs then b.pcs[t] else Idle
  }

  function Goto(b: Bridge, t: Thread, pc: Pc): Bridge {
    b.(pcs := b.pcs[t := pc])
  }

  predicate PollCurrent(b: Bridge, generation: nat) {
    !b.closed && b.generation == generation && b.leased
  }

  predicate CanEnter(b: Bridge) {
    !b.closed && !b.inFlight && b.leased
  }

  /** The next event in sequence, of the bound lifecycle. */
  predicate Maps(b: Bridge, e: Event) {
    e.sequence == Some(b.last + 1) && e.matchesLifecycle
  }

  /** Latch closed and capture the lease, if it is still held. */
  function Shut(b: Bridge): Bridge {
    if b.closed then b else b.(closed := true, generation := b.generation + 1)
  }

  /** Where the acting thread goes; it stays when the action is not enabled. */
  function NextPc(b: Bridge, a: Action): Pc {
    var pc := PcOf(b, a.thread);
    match a
    case Enter(_) => if pc.Idle? && CanEnter(b) then Entered(b.generation) else pc
    case Check(_, current) =>
      if !pc.Entered? then pc
      else if current && PollCurrent(b, pc.generation) then Waiting(pc.generation)
      else Failing(pc.generation, false)
    case Await(_, outcome) =>
      if !pc.Waiting? then pc
      else if outcome.WaitRaised? then Failing(pc.generation, false)
      else Returned(pc.generation, outcome.event)
    case Finalize(_, current) =>
      if !pc.Returned? then pc
      else if !PollCurrent(b, pc.generation) || !current then Failing(pc.generation, pc.event.Some?)
      else if pc.event.None? then Leaving(Timeout)
      else if Maps(b, pc.event.value) then Leaving(Envelope(b.last + 1))
      else Failing(pc.generation, true)
    case Poison(_) =>
      if !pc.Failing? then pc
      else if b.closed || b.generation != pc.generation || !b.leased then Leaving(Raised)
      else Releasing(true)
    case Release(_, ok) =>
      if !pc.Releasing? then pc
      else if ok then Clearing(pc.polling)
      else if pc.polling then Leaving(Raised) else Idle
    case Clear(_) =>
      if !pc.Clearing? then pc
      else if pc.polling then Leaving(Raised) else Idle
    case Leave(_) => if pc.Leaving? then Idle else pc
    case Close(_) => if pc.Idle? && b.leased then Releasing(false) else pc
  }

  /** What the action does to the shared state. */
  function Shared(b: Bridge, a: Action): Bridge {
    var pc := PcOf(b, a.thread);
    match a
    case Enter(_) => if pc.Idle? && CanEnter(b) then b.(inFlight := true) else b
    case Check(_, _) => b
    case Await(_, outcome) =>
      if pc.Waiting? && outcome.WaitReturned? && outcome.event.Some? then b.(consumed := b.consumed + 1) else b
    case Finalize(_, current) =>
      if !pc.Returned? || !PollCurrent(b, pc.generation) || !current then b
      else if pc.event.None? then b.(inFlight := false)
      else if Maps(b, pc.event.value) then
        b.(last := b.last + 1, inFlight := false, finalized := b.finalized + [b.last + 1])
      else b
    case Poison(_) => if pc.Failing? && !b.closed && b.generation == pc.generation then Shut(b) else b
    case Release(_, ok) => if pc.Releasing? && ok then b.(released := true) else b
    case Clear(_) => if pc.Clearing? then b.(leased := false) else b
    case Leave(_) => if pc.Leaving? then b.(inFlight := false) else b
    case Close(_) => if pc.Idle? then Shut(b) else b
  }

  /** One atomic step. */
  function Step(b: Bridge, a: Action): Bridge {
    Goto(Shared(b, a), a.thread, NextPc(b, a))
  }

  function Run(b: Bridge, actions: seq<Action>): Bridge {
    if actions == [] then b else Step(Run(b, actions[..|actions| - 1]), actions[|actions| - 1])
  }

  // ---- safety over every interleaving ----------------------------------------------

  /** A thread that holds an event it took from the queue. */
  predicate Holds(pc: Pc) {
    (pc.Returned? && pc.event.Some?) || (pc.Failing? && pc.consumed)
  }

  ghost function Holders(b: Bridge): set<Thread> {
    set t | t in b.pcs && Holds(b.pcs[t])
  }

  ghost predicate Contiguous(baseline: int, sequences: seq<int>) {
    forall i :: 0 <= i < |sequences| ==> sequences[i] == baseline + 1 + i
  }

  ghost predicate BridgeInv(b: Bridge) {
    && Contiguous(b.baseline, b.finalized)
    && b.last == b.baseline + |b.finalized|
    && b.generation == (if b.closed then 1 else 0)
    && (!b.leased ==> b.released)
    && (b.released ==> b.closed)
    && (forall t :: t in b.pcs ==> PcInv(b, b.pcs[t]))
    && (!b.closed ==> b.consumed == |b.finalized| + |Holders(b)|)
  }

  lemma StepHolders(b: Bridge, a: Action)
    ensures |Holders(Step(b, a))| ==
      |Holders(b)| + (if Holds(NextPc(b, a)) then 1 else 0) - (if Holds(PcOf(b, a.thread)) then 1 else 0)
  {
    hide NextPc, Holds;
    var t := a.thread;
    SharedKeepsPcs(b, a);
    hide Shared;
    var before, after := Holders(b), Holders(Step(b, a));
    if Holds(NextPc(b, a)) {
      assert after == before + {t};
    } else {
      assert after == before - {t};
    }
    assert !Holds(Idle) by { IdleHoldsNothing(); }
  }

  lemma IdleHoldsNothing()
    ensures !Holds(Idle)
  {
  }

  lemma SharedKeepsPcs(b: Bridge, a: Action)
    ensures Shared(b, a).pcs == b.pcs && Shared(b, a).baseline == b.baseline
  {
  }

  ghost predicate PcInv(b: Bridge, pc: Pc) {
    && (pc.Releasing? || pc.Clearing? ==> b.closed)
    && (pc.Clearing? ==> b.released)
    && (pc.Entered? || pc.Waiting? || pc.Returned? || pc.Failing? ==> pc.generation == 0)
  }

  lemma StepPcs(b: Bridge, a: Action)
    requires BridgeInv(b)
    ensures PcInv(Step(b, a), NextPc(b, a))
    ensures b.closed ==> Step(b, a).closed
    ensures b.released ==> Step(b, a).released
  {
    hide Holders, Contiguous;
  }

  lemma StepKeeps(b: Bridge, a: Action)
    requires BridgeInv(b)
    ensures BridgeInv(Step(b, a))
  {
    StepHolders(b, a);
    StepPcs(b, a);
    SharedKeepsPcs(b, a);
    hide Holders;
  }

  /** In every interleaving: finalized sequences are baseline+1, baseline+2, ... with no
      gap, repeat or reordering; the state generation changes at most once; the
      lease is dropped only after a successful release; and while the bridge is
      open no consumed event is lost. */
  lemma {:induction false} RunKeeps(b: Bridge, actions: seq<Action>)
    requires BridgeInv(b)
    ensures BridgeInv(Run(b, actions))
  {
    if actions == [] {
    } else {
      RunKeeps(b, actions[..|actions| - 1]);
      StepKeeps(Run(b, actions[..|actions| - 1]), actions[|actions| - 1]);
    }
  }

  lemma BoundIsInv(baseline: int)
    ensures BridgeInv(Bind(baseline))
  {
    assert Holders(Bind(baseline)) == {};
  }

  /** The closed state latches: nothing is finalized after the close or poison step. */
  lemma {:induction false} ClosedLatches(b: Bridge, actions: seq<Action>)
    requires b.closed
    ensures var c := Run(b, actions);
      c.closed && c.generation == b.generation && c.finalized == b.finalized && c.last == b.last
  {
    if actions == [] {
    } else {
      ClosedLatches(b, actions[..|actions| - 1]);
    }
  }

  /** Finalized envelopes are never withdrawn. */
  lemma {:induction false} FinalizedOnlyGrows(b: Bridge, actions: seq<Action>)
    ensures b.finalized <= Run(b, actions).finalized
    ensures Run(b, actions).baseline == b.baseline
  {
    if actions == [] {
    } else {
      FinalizedOnlyGrows(b, actions[..|actions| - 1]);
    }
  }

  /** When no thread is inside the bridge and it is still open, every event ever
      taken from the queue was finalized. */
  lemma QuietOpenBridgeLostNothing(baseline: int, actions: seq<Action>)
    ensures var b := Run(Bind(baseline), actions);
      !b.closed && (forall t :: t in b.pcs ==> b.pcs[t].Idle?) ==> b.consumed == |b.finalized|
  {
    BoundIsInv(baseline);
    RunKeeps(Bind(baseline), actions);
    var b := Run(Bind(baseline), actions);
    if forall t :: t in b.pcs ==> b.pcs[t].Idle? {
      assert Holders(b) == {};
    }
  }

  // ---- the in-flight flag is not mutual exclusion ------------------------------------

  predicate Polling(pc: Pc) {
    pc.Entered? || pc.Waiting? || pc.Returned? || pc.Failing? ||
    (pc.Releasing? && pc.polling) || (pc.Clearing? && pc.polling)
  }

  /** A finalized poll clears the flag under the lock and again when it leaves. A
      poll that entered in between loses its flag, and a third one may enter. */
  function OverlapRun(): seq<Action> {
    [ Enter(0), Check(0, true), Await(0, WaitReturned(None)), Finalize(0, true),
      Enter(1), Leave(0), Enter(2) ]
  }

  lemma FlagAloneDoesNotExclude()
    ensures var b := Run(Bind(0), OverlapRun());
      Polling(PcOf(b, 1)) && Polling(PcOf(b, 2))
  {
    var b0 := Bind(0);
    RunOne(b0, [], Enter(0));
    var a1 := [Enter(0)];
    assert [] + a1 == a1;
    RunOne(b0, a1, Check(0, true));
    var a2 := a1 + [Check(0, true)];
    RunOne(b0, a2, Await(0, WaitReturned(None)));
    var a3 := a2 + [Await(0, WaitReturned(None))];
    RunOne(b0, a3, Finalize(0, true));
    var a4 := a3 + [Finalize(0, true)];
    assert PcOf(Run(b0, a4), 0) == Leaving(Timeout) && CanEnter(Run(b0, a4));
    RunOne(b0, a4, Enter(1));
    var a5 := a4 + [Enter(1)];
    RunOne(b0, a5, Leave(0));
    var a6 := a5 + [Leave(0)];
    assert CanEnter(Run(b0, a6)) && PcOf(Run(b0, a6), 1) == Entered(0);
    RunOne(b0, a6, Enter(2));
    assert OverlapRun() == a6 + [Enter(2)];
  }

  lemma RunOne(b: Bridge, actions: seq<Action>, a: Action)
    ensures Run(b, actions + [a]) == Step(Run(b, actions), a)
  {
    assert (actions + [a])[..|actions|] == actions;
  }

  ghost predicate Excluded(b: Bridge) {
    && (forall t, u :: t in b.pcs && u in b.pcs && Polling(b.pcs[t]) && Polling(b.pcs[u]) ==> t == u)
    && (forall t :: t in b.pcs && Polling(b.pcs[t]) ==> b.inFlight)
    && (forall t, u :: t in b.pcs && u in b.pcs && Polling(b.pcs[t]) && b.pcs[u].Leaving? ==> t == u)
  }

  /** No thread is between finalizing and leaving when this action lets one enter. */
  ghost predicate EntersQuiet(b: Bridge, a: Action) {
    a.Enter? ==> forall t :: t in b.pcs ==> !b.pcs[t].Leaving?
  }

  lemma StepMovesFlag(b: Bridge, a: Action)
    ensures var pc, next := PcOf(b, a.thread), NextPc(b, a);
      && (Polling(next) ==> Polling(pc) || (a.Enter? && !b.inFlight && Shared(b, a).inFlight))
      && (next.Leaving? ==> Polling(pc) || pc.Leaving?)
      && (b.inFlight && !Shared(b, a).inFlight ==> (Polling(pc) && next.Leaving?) || (pc.Leaving? && next.Idle?))
      && (pc.Leaving? ==> next.Leaving? || next.Idle?)
      && (forall p :: Polling(p) ==> !p.Idle? && !p.Leaving?)
  {
  }

  lemma QuietStepExcludes(b: Bridge, a: Action)
    requires Excluded(b) && EntersQuiet(b, a)
    ensures Excluded(Step(b, a))
  {
    SharedKeepsPcs(b, a);
    StepMovesFlag(b, a);
    hide NextPc, Shared, Polling;
  }

  ghost predicate QuietRun(b: Bridge, actions: seq<Action>) {
    forall k :: 0 <= k < |actions| ==> EntersQuiet(Run(b, actions[..k]), actions[k])
  }

  /** As long as polls enter only when no thread is still leaving, at most one poll runs. */
  lemma {:induction false} QuietRunExcludes(baseline: int, actions: seq<Action>)
    requires QuietRun(Bind(baseline), actions)
    ensures Excluded(Run(Bind(baseline), actions))
  {
    if actions == [] {
    } else {
      var n := |actions| - 1;
      var earlier := actions[..n];
      assert forall k :: 0 <= k < n ==> earlier[..k] == actions[..k];
      QuietRunExcludes(baseline, earlier);
      QuietStepExcludes(Run(Bind(baseline), earlier), actions[n]);
    }
  }

  /** And otherwise it can fail: from any state where a poll may enter while another
      thread is still leaving, two more polls can run at once. */
  lemma LateLeaveOverlaps(b: Bridge, leaving: Thread, first: Thread, second: Thread)
    requires CanEnter(b) && PcOf(b, leaving).Leaving?
    requires PcOf(b, first).Idle? && PcOf(b, second).Idle? && first != second
    ensures var c := Run(b, [Enter(first), Leave(leaving), Enter(second)]);
      Polling(PcOf(c, first)) && Polling(PcOf(c, second))
  {
    RunOne(b, [], Enter(first));
    RunOne(b, [Enter(first)], Leave(leaving));
    RunOne(b, [Enter(first), Leave(leaving)], Enter(second));
    assert [] + [Enter(first)] == [Enter(first)];
    assert [Enter(first)] + [Leave(leaving)] == [Enter(first), Leave(leaving)];
    assert [Enter(first), Leave(leaving)] + [Enter(second)] == [Enter(first), Leave(leaving), Enter(second)];
  }

  // ---- what a poll returns ------------------------------------------------------------------------------

  /** What the environment does to one poll: the first check, the wait, the second check, the release. */
  datatype Environment = Environment(before: bool, wait: Wait, after: bool, released: bool)

  /** One poll of a thread on its own, up to where it leaves; steps that are not due change nothing. */
  function SoloPoll(t: Thread, env: Environment): seq<Action> {
    [Enter(t)] + InsidePoll(t, env)
  }

  function InsidePoll(t: Thread, env: Environment): seq<Action> {
    [Check(t, env.before), Await(t, env.wait), Finalize(t, env.after), Poison(t), Release(t, env.released), Clear(t)]
  }

  /** Both checks pass and the wait ends with nothing, or with the next event of the lifecycle. */
  predicate Succeeds(b: Bridge, env: Environment) {
    && env.before && env.after && env.wait.WaitReturned?
    && (env.wait.event.Some? ==> env.wait.event.value == Event(Some(b.last + 1), true))
  }

  predicate TookEvent(env: Environment) {
    env.before && env.wait.WaitReturned? && env.wait.event.Some?
  }

  function PollResult(b: Bridge, env: Environment): Result {
    if !Succeeds(b, env) then Raised
    else if env.wait.event.None? then Timeout
    else Envelope(b.last + 1)
  }

  /** The bridge after that poll: one more envelope, or none, or closed for good and without its lease unless
      the release failed. */
  function AfterPoll(b: Bridge, t: Thread, env: Environment): Bridge {
    var c := b.(pcs := b.pcs[t := Leaving(PollResult(b, env))],
                consumed := b.consumed + if TookEvent(env) then 1 else 0);
    if !Succeeds(b, env) then
      c.(inFlight := true, closed := true, generation := b.generation + 1, leased := !env.released,
         released := b.released || env.released)
    else if env.wait.event.Some? then c.(last := b.last + 1, finalized := b.finalized + [b.last + 1])
    else c
  }

  lemma {:induction false} RunJoins(b: Bridge, first: seq<Action>, second: seq<Action>)
    ensures Run(b, first + second) == Run(Run(b, first), second)
  {
    if second == [] {
      assert first + second == first;
    } else {
      var n := |second| - 1;
      assert (first + second)[..|first + second| - 1] == first + second[..n];
      RunJoins(b, first, second[..n]);
    }
  }

  lemma RunThree(b: Bridge, a: Action, a': Action, a'': Action)
    ensures Run(b, [a, a', a'']) == Step(Step(Step(b, a), a'), a'')
  {
    hide Step;
    RunOne(b, [], a);
    assert [] + [a] == [a];
    RunOne(b, [a], a');
    assert [a] + [a'] == [a, a'];
    RunOne(b, [a, a'], a'');
    assert [a, a'] + [a''] == [a, a', a''];
  }

  predicate MayPoll(b: Bridge, t: Thread) {
    !b.closed && !b.inFlight && b.leased && PcOf(b, t).Idle?
  }

  /** The bridge while the poll holds what its wait returned. */
  function AfterWait(b: Bridge, t: Thread, env: Environment): Bridge {
    b.(inFlight := true, consumed := b.consumed + (if TookEvent(env) then 1 else 0),
       pcs := b.pcs[t := if env.before && env.wait.WaitReturned? then Returned(b.generation, env.wait.event)
                         else Failing(b.generation, false)])
  }

  lemma PollWaits(b: Bridge, t: Thread, env: Environment)
    requires MayPoll(b, t)
    ensures Run(b, [Enter(t), Check(t, env.before), Await(t, env.wait)]) == AfterWait(b, t, env)
  {
    RunThree(b, Enter(t), Check(t, env.before), Await(t, env.wait));
    hide Run;
    var one := Step(b, Enter(t));
    assert one == b.(inFlight := true, pcs := b.pcs[t := Entered(b.generation)]);
    var two := Step(one, Check(t, env.before));
    assert two == one.(pcs := b.pcs[t := if env.before then Waiting(b.generation) else Failing(b.generation, false)]);
  }

  lemma PollFinalizes(b: Bridge, t: Thread, env: Environment)
    requires MayPoll(b, t)
    ensures Step(AfterWait(b, t, env), Finalize(t, env.after)) ==
      if Succeeds(b, env) then AfterPoll(b, t, env)
      else AfterWait(b, t, env).(pcs := b.pcs[t := Failing(b.generation, TookEvent(env))])
  {
  }

  lemma PollFails(b: Bridge, t: Thread, env: Environment)
    requires MayPoll(b, t) && !Succeeds(b, env)
    ensures var c := AfterWait(b, t, env).(pcs := b.pcs[t := Failing(b.generation, TookEvent(env))]);
      Run(c, [Poison(t), Release(t, env.released), Clear(t)]) == AfterPoll(b, t, env)
  {
    var c := AfterWait(b, t, env).(pcs := b.pcs[t := Failing(b.generation, TookEvent(env))]);
    RunThree(c, Poison(t), Release(t, env.released), Clear(t));
    hide Run;
    var one := Step(c, Poison(t));
    assert one == c.(closed := true, generation := b.generation + 1, pcs := b.pcs[t := Releasing(true)]);
    var two := Step(one, Release(t, env.released));
    assert two == one.(released := b.released || env.released,
                       pcs := b.pcs[t := if env.released then Clearing(true) else Leaving(Raised)]);
  }

  lemma LeavingStays(b: Bridge, t: Thread, ok: bool)
    requires t in b.pcs && b.pcs[t].Leaving?
    ensures Run(b, [Poison(t), Release(t, ok), Clear(t)]) == b
  {
    RunThree(b, Poison(t), Release(t, ok), Clear(t));
    hide Run;
    assert b.pcs[t := b.pcs[t]] == b.pcs;
    assert Step(b, Poison(t)) == b && Step(b, Release(t, ok)) == b && Step(b, Clear(t)) == b;
  }

  /** On an open bridge with no poll in flight, a poll on its own returns the next event as its envelope, a
      timeout if there was none, and in every other case raises and closes the bridge. */
  lemma SoloPollReturns(b: Bridge, t: Thread, env: Environment)
    requires !b.closed && !b.inFlight && b.leased && PcOf(b, t).Idle?
    ensures Run(b, SoloPoll(t, env)) == AfterPoll(b, t, env)
  {
    hide Run, Step, AfterWait, Succeeds;
    var first := [Enter(t), Check(t, env.before), Await(t, env.wait)];
    var last := [Poison(t), Release(t, env.released), Clear(t)];
    PollWaits(b, t, env);
    RunOne(b, first, Finalize(t, env.after));
    PollFinalizes(b, t, env);
    RunJoins(b, first + [Finalize(t, env.after)], last);
    assert SoloPoll(t, env) == first + [Finalize(t, env.after)] + last;
    if Succeeds(b, env) {
      LeavingStays(AfterPoll(b, t, env), t, env.released);
    } else {
      PollFails(b, t, env);
    }
  }

  /** A poll that finds the bridge closed when its wait is over raises, whatever it waited for, and changes
      nothing more. */
  lemma LatePollRaises(b: Bridge, t: Thread, current: bool)
    requires b.closed && PcOf(b, t).Returned?
    ensures var c := Step(Step(b, Finalize(t, current)), Poison(t));
      c == b.(pcs := b.pcs[t := Leaving(Raised)])
  {
    var one := Step(b, Finalize(t, current));
    assert one == b.(pcs := b.pcs[t := Failing(PcOf(b, t).generation, PcOf(b, t).event.Some?)]);
  }

  /** A close on its own always leaves the bridge closed, and without its lease unless the release failed; a
      later close tries the release again while the lease is held, and otherwise changes nothing. */
  lemma SoloCloseReleases(b: Bridge, t: Thread, ok: bool)
    requires PcOf(b, t).Idle?
    ensures Run(b, [Close(t), Release(t, ok), Clear(t)]) ==
            b.(closed := true, generation := if b.closed then b.generation else b.generation + 1,
               leased := b.leased && !ok, released := b.released || (b.leased && ok), pcs := b.pcs[t := Idle])
  {
    hide Run, Step;
    RunThree(b, Close(t), Release(t, ok), Clear(t));
    CloseShuts(b, t);
    if b.leased {
      CloseGoesOn(Shut(b).(pcs := b.pcs[t := Releasing(false)]), t, ok);
    } else {
      IdleStays(Shut(b).(pcs := b.pcs[t := Idle]), t, ok);
    }
  }

  lemma CloseShuts(b: Bridge, t: Thread)
    requires PcOf(b, t).Idle?
    ensures Step(b, Close(t)) == Shut(b).(pcs := b.pcs[t := if b.leased then Releasing(false) else Idle])
  {
  }

  lemma CloseGoesOn(b: Bridge, t: Thread, ok: bool)
    requires PcOf(b, t) == Releasing(false)
    ensures Step(Step(b, Release(t, ok)), Clear(t)) ==
            b.(leased := b.leased && !ok, released := b.released || ok, pcs := b.pcs[t := Idle])
  {
    var one := Step(b, Release(t, ok));
    assert one == b.(released := b.released || ok, pcs := b.pcs[t := if ok then Clearing(false) else Idle]);
  }

  lemma IdleStays(b: Bridge, t: Thread, ok: bool)
    requires t in b.pcs && b.pcs[t].Idle?
    ensures Step(Step(b, Release(t, ok)), Clear(t)) == b
  {
    assert b.pcs[t := b.pcs[t]] == b.pcs;
    assert Step(b, Release(t, ok)) == b && Step(b, Clear(t)) == b;
  }

  /** Leaving clears the flag and returns the thread. */
  lemma LeaveReturns(b: Bridge, t: Thread)
    requires PcOf(b, t).Leaving?
    ensures Step(b, Leave(t)) == b.(inFlight := false, pcs := b.pcs[t := Idle])
  {
  }
}
