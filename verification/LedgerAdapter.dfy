/** The callback ledger adapter, as the sole user of a bridge.

    Its steps interleave with each other and with the steps of the bridge they
    run: `apply_next` on any thread, `close` on any thread, and every step of
    the bridge inside them. Whether the store commits is the environment's choice.
 */
module LedgerAdapter {
  import opened Options
  import opened CallbackBridge

  /** What became of one store transaction. */
  datatype Outcome = Committed | Rejected | CommittedThenRaised

  datatype Where =
    | Resting
    | Started
    | InPoll
    | Holding(sequence: int)
    | Applying(sequence: int)
    | Broken
    | Shutting(poisoning: bool)
    | ShutDown(poisoning: bool)
    | Exiting

  datatype Adapter = Adapter(
    bridge: Bridge,
    inFlight: bool,
    closed: bool,
    poisoned: bool,
    at: map<Thread, Where>,
    // History: the source sequences committed to the ledger.
    applied: seq<int>)

  datatype Move =
    | Begin(thread: Thread)
    | CallBridge(thread: Thread)
    | Within(thread: Thread, action: Action)
    | Return(thread: Thread)
    | Recheck(thread: Thread)
    | Apply(thread: Thread, outcome: Outcome)
    | PoisonSelf(thread: Thread)
    | BeginClose(thread: Thread)
    | CloseBridge(thread: Thread)
    | ShutReturns(thread: Thread)
    | Exit(thread: Thread)

  function BindAdapter(baseline: int): Adapter {
    Adapter(Bind(baseline), false, false, false, map[], [])
  }

  function At(s: Adapter, t: Thread): Where {
    if t in s.at then s.at[t] else Resting
  }

  /** The bridge steps a thread takes inside `next_envelope`, and inside the bridge's `close`. */
  predicate Inside(w: Where, t: Thread, a: Action) {
    && a.thread == t
    && (w.InPoll? ==> a.Check? || a.Await? || a.Finalize? || a.Poison? || a.Release? || a.Clear?)
    && (w.ShutDown? ==> a.Release? || a.Clear?)
    && (w.InPoll? || w.ShutDown?)
  }

  function NextAt(s: Adapter, m: Move): Where {
    var t := m.thread;
    var w := At(s, t);
    var pc := PcOf(s.bridge, t);
    match m
    case Begin(_) => if w.Resting? && !s.closed && !s.poisoned && !s.inFlight then Started else w
    case CallBridge(_) => if !w.Started? then w else if CanEnter(s.bridge) then InPoll else Broken
    case Within(_, _) => w
    case Return(_) =>
      if !w.InPoll? || !pc.Leaving? then w
      else (match pc.result
            case Timeout => Exiting
            case Envelope(x) => Holding(x)
            case Raised => Broken)
    case Recheck(_) => if !w.Holding? then w else if s.closed || s.poisoned then Broken else Applying(w.sequence)
    case Apply(_, outcome) => if !w.Applying? then w else if outcome.Committed? then Exiting else Broken
    case PoisonSelf(_) => if w.Broken? then Shutting(true) else w
    case BeginClose(_) => if w.Resting? && !s.closed then Shutting(false) else w
    case CloseBridge(_) => if w.Shutting? then ShutDown(w.poisoning) else w
    case ShutReturns(_) => if !w.ShutDown? || !pc.Idle? then w else if w.poisoning then Exiting else Resting
    case Exit(_) => if w.Exiting? then Resting else w
  }

  function NextShared(s: Adapter, m: Move): Adapter {
    var t := m.thread;
    var w := At(s, t);
    match m
    case Begin(_) => if w.Resting? && !s.closed && !s.poisoned && !s.inFlight then s.(inFlight := true) else s
    case CallBridge(_) => if w.Started? then s.(bridge := Step(s.bridge, Enter(t))) else s
    case Within(_, a) => if Inside(w, t, a) then s.(bridge := Step(s.bridge, a)) else s
    case Return(_) => if w.InPoll? && PcOf(s.bridge, t).Leaving? then s.(bridge := Step(s.bridge, Leave(t))) else s
    case Recheck(_) => s
    case Apply(_, outcome) => if w.Applying? && !outcome.Rejected? then s.(applied := s.applied + [w.sequence]) else s
    case PoisonSelf(_) => if w.Broken? then s.(poisoned := true, closed := true) else s
    case BeginClose(_) => if w.Resting? && !s.closed then s.(closed := true) else s
    case CloseBridge(_) => if w.Shutting? then s.(bridge := Step(s.bridge, Close(t))) else s
    case ShutReturns(_) => s
    case Exit(_) => if w.Exiting? then s.(inFlight := false) else s
  }

  function Take(s: Adapter, m: Move): Adapter {
    var n := NextShared(s, m);
    n.(at := n.at[m.thread := NextAt(s, m)])
  }

  function RunAdapter(s: Adapter, moves: seq<Move>): Adapter {
    if moves == [] then s else Take(RunAdapter(s, moves[..|moves| - 1]), moves[|moves| - 1])
  }

  // ---- the invariant ------------------------------------------------------------------

  /** Inside `apply_next`. */
  predicate Active(w: Where) {
    !w.Resting? && !(w.Shutting? && !w.poisoning) && !(w.ShutDown? && !w.poisoning)
  }

  /** The consumed envelope this thread has not applied yet. */
  function Carries(w: Where, pc: Pc): Option<int> {
    if w.Holding? || w.Applying? then Some(w.sequence)
    else if w.InPoll? && pc.Leaving? && pc.result.Envelope? then Some(pc.result.sequence)
    else None
  }

  function Carrying(s: Adapter, t: Thread): Option<int> {
    Carries(At(s, t), PcOf(s.bridge, t))
  }

  predicate Fits(w: Where, pc: Pc) {
    if w.InPoll? then CallbackBridge.Polling(pc) || pc.Leaving?
    else if w.ShutDown? then pc.Idle? || (pc.Releasing? && !pc.polling) || (pc.Clearing? && !pc.polling)
    else pc.Idle?
  }

  ghost predicate OneActive(s: Adapter) {
    && (forall t, u {:trigger At(s, t), At(s, u)} :: Active(At(s, t)) && Active(At(s, u)) ==> t == u)
    && (forall t :: Active(At(s, t)) ==> s.inFlight)
  }

  ghost predicate AllFit(s: Adapter) {
    forall t {:trigger At(s, t)} {:trigger PcOf(s.bridge, t)} :: Fits(At(s, t), PcOf(s.bridge, t))
  }

  /** Every finalized envelope is applied, except at most the last one: it is carried by
      the active thread, or lost with the adapter poisoned or about to be. */
  ghost predicate Delivered(s: Adapter) {
    && (forall t :: Carrying(s, t).Some? ==> s.bridge.finalized == s.applied + [Carrying(s, t).value])
    && (s.bridge.finalized == s.applied ||
        (|s.bridge.finalized| == |s.applied| + 1 && s.applied <= s.bridge.finalized &&
         (s.poisoned || exists t :: Carrying(s, t).Some? || At(s, t).Broken?)))
  }

  ghost predicate PoisonStops(s: Adapter) {
    s.poisoned ==> s.closed && forall t :: Stopped(At(s, t))
  }

  /** This thread has an event that left the queue and is not applied yet. */
  predicate SurelyHolds(w: Where, pc: Pc) {
    Carries(w, pc).Some? || (w.InPoll? && Holds(pc))
  }

  /** This thread may have lost such an event: it failed after, or instead of, consuming one. */
  predicate MayHold(w: Where, pc: Pc) {
    || SurelyHolds(w, pc)
    || w.Broken?
    || (w.InPoll? && (pc.Releasing? || pc.Clearing? || (pc.Leaving? && pc.result.Raised?)))
  }

  /** Every event that left the queue is applied, except at most one: an active thread has it
      or lost it, or it is lost with the adapter poisoned. */
  ghost predicate ConsumedIsApplied(s: Adapter) {
    && |s.applied| <= s.bridge.consumed <= |s.applied| + 1
    && (forall t {:trigger At(s, t)} :: SurelyHolds(At(s, t), PcOf(s.bridge, t)) ==>
          s.bridge.consumed == |s.applied| + 1)
    && (s.bridge.consumed != |s.applied| ==> s.poisoned || exists t :: MayHold(At(s, t), PcOf(s.bridge, t)))
  }

  ghost predicate AdapterInv(s: Adapter) {
    BridgeInv(s.bridge) && OneActive(s) && AllFit(s) && PoisonStops(s) && Delivered(s) && ConsumedIsApplied(s)
  }

  // ---- every move keeps it ----------------------------------------------------------------

  /** The bridge action a move performs, if any. */
  function BridgeAction(s: Adapter, m: Move): Option<Action> {
    var w := At(s, m.thread);
    match m
    case CallBridge(t) => if w.Started? then Some(Enter(t)) else None
    case Within(t, a) => if Inside(w, t, a) then Some(a) else None
    case Return(t) => if w.InPoll? && PcOf(s.bridge, t).Leaving? then Some(Leave(t)) else None
    case CloseBridge(t) => if w.Shutting? then Some(Close(t)) else None
    case _ => None
  }

  lemma BridgeMoves(s: Adapter, m: Move)
    ensures var a := BridgeAction(s, m);
      && Take(s, m).bridge == (if a.Some? then Step(s.bridge, a.value) else s.bridge)
      && (a.Some? ==> a.value.thread == m.thread)
  {
  }

  lemma OthersStay(s: Adapter, m: Move, t: Thread)
    requires t != m.thread
    ensures At(Take(s, m), t) == At(s, t) && PcOf(Take(s, m).bridge, t) == PcOf(s.bridge, t)
  {
    hide Step, NextAt, BridgeAction;
    BridgeMoves(s, m);
    var a := BridgeAction(s, m);
    if a.Some? {
      StepMovesOne(s.bridge, a.value, t);
    }
    AtMovesOne(s, m, t);
  }

  lemma StepMovesOne(b: Bridge, a: Action, t: Thread)
    ensures PcOf(Step(b, a), t) == if t == a.thread then NextPc(b, a) else PcOf(b, t)
  {
    SharedKeepsPcs(b, a);
  }

  lemma AtMovesOne(s: Adapter, m: Move, t: Thread)
    ensures At(Take(s, m), t) == if t == m.thread then NextAt(s, m) else At(s, t)
  {
    assert NextShared(s, m).at == s.at;
  }

  /** Where the moving thread's bridge position goes. */
  lemma OwnPc(s: Adapter, m: Move)
    ensures PcOf(Take(s, m).bridge, m.thread) ==
      (if BridgeAction(s, m).Some? then NextPc(s.bridge, BridgeAction(s, m).value) else PcOf(s.bridge, m.thread))
  {
    hide Step, NextAt, BridgeAction, NextPc;
    BridgeMoves(s, m);
    if BridgeAction(s, m).Some? {
      StepMovesOne(s.bridge, BridgeAction(s, m).value, m.thread);
    }
  }

  lemma BridgeInvKept(s: Adapter, m: Move)
    requires BridgeInv(s.bridge)
    ensures BridgeInv(Take(s, m).bridge)
  {
    hide Step, NextAt, BridgeAction, BridgeInv;
    BridgeMoves(s, m);
    if BridgeAction(s, m).Some? {
      StepKeeps(s.bridge, BridgeAction(s, m).value);
    }
  }

  lemma MoveFits(s: Adapter, m: Move)
    requires Fits(At(s, m.thread), PcOf(s.bridge, m.thread))
    ensures var a := BridgeAction(s, m);
      Fits(NextAt(s, m), if a.Some? then NextPc(s.bridge, a.value) else PcOf(s.bridge, m.thread))
  {
  }

  lemma FitKept(s: Adapter, m: Move)
    requires AllFit(s)
    ensures AllFit(Take(s, m))
  {
    hide Take, NextAt, BridgeAction, NextPc, Fits;
    forall t ensures Fits(At(Take(s, m), t), PcOf(Take(s, m).bridge, t)) {
      assert Fits(At(s, t), PcOf(s.bridge, t));
      if t == m.thread {
        MoveFits(s, m);
        AtMovesOne(s, m, t);
        OwnPc(s, m);
      } else {
        OthersStay(s, m, t);
      }
    }
  }

  lemma MoveActive(s: Adapter, m: Move)
    ensures var w, x := At(s, m.thread), NextAt(s, m);
      && (Active(x) && !Active(w) ==> !s.inFlight && Take(s, m).inFlight)
      && (s.inFlight && !Take(s, m).inFlight ==> Active(w) && !Active(x))
  {
  }

  lemma OneActiveKept(s: Adapter, m: Move)
    requires OneActive(s)
    ensures OneActive(Take(s, m))
  {
    MoveActive(s, m);
    forall t ensures At(Take(s, m), t) == if t == m.thread then NextAt(s, m) else At(s, t) { AtMovesOne(s, m, t); }
    hide Take, NextAt, Active;
    var n := Take(s, m);
    forall t | Active(At(n, t)) ensures n.inFlight {
      if t != m.thread { assert Active(At(s, t)); }
      assert Active(At(s, m.thread)) ==> s.inFlight;
      if t != m.thread && Active(At(s, m.thread)) { assert At(s, t) == At(s, t); }
    }
  }

  ghost predicate Stopped(w: Where) {
    w.Resting? || w.Shutting? || w.ShutDown? || w.Exiting?
  }

  lemma MoveStops(s: Adapter, m: Move)
    ensures Stopped(At(s, m.thread)) && s.poisoned ==> Stopped(NextAt(s, m))
    ensures s.closed ==> Take(s, m).closed
    ensures s.poisoned ==> Take(s, m).poisoned
    ensures Take(s, m).poisoned && !s.poisoned ==> At(s, m.thread).Broken? && Stopped(NextAt(s, m)) && Take(s, m).closed
  {
  }

  lemma PoisonKept(s: Adapter, m: Move)
    requires PoisonStops(s) && OneActive(s)
    ensures PoisonStops(Take(s, m))
  {
    MoveStops(s, m);
    var n := Take(s, m);
    if n.poisoned {
      forall t ensures Stopped(At(n, t)) {
        AtMovesOne(s, m, t);
        if t != m.thread && !s.poisoned && !Stopped(At(s, t)) {
          assert Active(At(s, t)) && Active(At(s, m.thread));
        }
      }
    }
  }

  lemma BridgeStepFinalizes(b: Bridge, a: Action)
    ensures var c := Step(b, a);
      if a.Finalize? && PcOf(b, a.thread).Returned? && NextPc(b, a).Leaving? && NextPc(b, a).result.Envelope?
      then c.finalized == b.finalized + [NextPc(b, a).result.sequence]
      else c.finalized == b.finalized
  {
  }

  /** What one move does to the envelopes: it consumes one, applies the carried one, or neither. */
  lemma MoveDelivers(s: Adapter, m: Move)
    requires Fits(At(s, m.thread), PcOf(s.bridge, m.thread))
    ensures var n := Take(s, m);
      var t := m.thread;
      var w, x := At(s, t), NextAt(s, m);
      var before := Carries(w, PcOf(s.bridge, t));
      var a := BridgeAction(s, m);
      var after := Carries(x, if a.Some? then NextPc(s.bridge, a.value) else PcOf(s.bridge, t));
      && (n.bridge.finalized == s.bridge.finalized ||
          (w.InPoll? && before.None? && after.Some? && n.applied == s.applied &&
                n.bridge.finalized == s.bridge.finalized + [after.value]))
      && (n.applied == s.applied ||
          (w.Applying? && before.Some? && after.None? && n.applied == s.applied + [before.value] &&
                n.bridge.finalized == s.bridge.finalized))
      && (after.Some? && after != before ==> n.bridge.finalized == s.bridge.finalized + [after.value])
      && (before.Some? && after.None? ==> n.applied == s.applied + [before.value] || x.Broken?)
      && (w.Broken? ==> x.Broken? || n.poisoned)
      && (after.Some? && after == before ==> n.bridge.finalized == s.bridge.finalized && n.applied == s.applied)
  {
    hide Step;
    BridgeMoves(s, m);
    var a := BridgeAction(s, m);
    if a.Some? {
      BridgeStepFinalizes(s.bridge, a.value);
    }
  }

  /** The same, said of the states before and after. */
  lemma MoveEffect(s: Adapter, m: Move)
    requires AllFit(s)
    ensures var n := Take(s, m);
      var t := m.thread;
      var before, after := Carrying(s, t), Carrying(n, t);
      && (n.bridge.finalized == s.bridge.finalized ||
          (At(s, t).InPoll? && before.None? && after.Some? && n.applied == s.applied &&
                n.bridge.finalized == s.bridge.finalized + [after.value]))
      && (n.applied == s.applied ||
          (At(s, t).Applying? && before.Some? && after.None? && n.applied == s.applied + [before.value] &&
                n.bridge.finalized == s.bridge.finalized))
      && (after.Some? && after != before ==> n.bridge.finalized == s.bridge.finalized + [after.value])
      && (before.Some? && after.None? ==> n.applied == s.applied + [before.value] || At(n, t).Broken?)
      && (At(s, t).Broken? ==> At(n, t).Broken? || n.poisoned)
      && (after.Some? && after == before ==> n.bridge.finalized == s.bridge.finalized && n.applied == s.applied)
  {
    hide Take, NextAt, NextPc, BridgeAction, Carries;
    assert Fits(At(s, m.thread), PcOf(s.bridge, m.thread));
    MoveDelivers(s, m);
    OwnPc(s, m);
    AtMovesOne(s, m, m.thread);
  }

  lemma CarrierIsActive(s: Adapter, t: Thread)
    ensures Carrying(s, t).Some? || At(s, t).Broken? || At(s, t).InPoll? || At(s, t).Applying? ==> Active(At(s, t))
    ensures s.poisoned && PoisonStops(s) ==> !At(s, t).InPoll?
  {
  }

  /** A thread that is about to consume finds everything consumed before it applied. */
  lemma ConsumesWhenCaughtUp(s: Adapter, t: Thread)
    requires OneActive(s) && PoisonStops(s) && Delivered(s)
    requires At(s, t).InPoll? && Carrying(s, t).None?
    ensures s.bridge.finalized == s.applied
  {
    CarrierIsActive(s, t);
    if s.bridge.finalized != s.applied {
      var u :| Carrying(s, u).Some? || At(s, u).Broken?;
      CarrierIsActive(s, u);
    }
  }

  lemma CarriedIsLast(s: Adapter, m: Move, u: Thread)
    requires AllFit(s) && OneActive(s) && PoisonStops(s) && Delivered(s)
    requires Carrying(Take(s, m), u).Some?
    ensures Take(s, m).bridge.finalized == Take(s, m).applied + [Carrying(Take(s, m), u).value]
  {
    hide Take, Carries, Active, Fits;
    var t := m.thread;
    MoveEffect(s, m);
    CarrierIsActive(s, t);
    CarrierIsActive(s, u);
    if u == t {
      if Carrying(Take(s, m), t) != Carrying(s, t) && Carrying(s, t).None? {
        ConsumesWhenCaughtUp(s, t);
      }
    } else {
      OthersStay(s, m, u);
      assert Carrying(Take(s, m), u) == Carrying(s, u);
      assert !Active(At(s, t));
    }
  }

  lemma LastIsAccounted(s: Adapter, m: Move)
    requires AllFit(s) && OneActive(s) && PoisonStops(s) && Delivered(s)
    ensures var n := Take(s, m);
      n.bridge.finalized == n.applied ||
      (|n.bridge.finalized| == |n.applied| + 1 && n.applied <= n.bridge.finalized &&
       (n.poisoned || exists t :: Carrying(n, t).Some? || At(n, t).Broken?))
  {
    hide Take, NextAt, Carries, Active, Fits;
    var n := Take(s, m);
    var t := m.thread;
    MoveEffect(s, m);
    MoveStops(s, m);
    if n.bridge.finalized != s.bridge.finalized {
      ConsumesWhenCaughtUp(s, t);
      assert Carrying(n, t).Some?;
    } else if n.applied == s.applied && s.bridge.finalized != s.applied && !s.poisoned {
      var u :| Carrying(s, u).Some? || At(s, u).Broken?;
      if u == t {
        assert n.poisoned || Carrying(n, t).Some? || At(n, t).Broken?;
      } else {
        OthersStay(s, m, u);
        assert Carrying(n, u).Some? || At(n, u).Broken?;
      }
    }
  }

  lemma DeliveredKept(s: Adapter, m: Move)
    requires AllFit(s) && OneActive(s) && PoisonStops(s) && Delivered(s)
    ensures Delivered(Take(s, m))
  {
    hide Take, Carrying, Active, Fits;
    forall u | Carrying(Take(s, m), u).Some?
      ensures Take(s, m).bridge.finalized == Take(s, m).applied + [Carrying(Take(s, m), u).value]
    {
      CarriedIsLast(s, m, u);
    }
    LastIsAccounted(s, m);
  }

  // ---- events that left the queue ----------------------------------------------------------

  lemma BridgeStepConsumes(b: Bridge, a: Action)
    ensures var c := Step(b, a);
      if PcOf(b, a.thread).Waiting? && NextPc(b, a).Returned? && NextPc(b, a).event.Some?
      then c.consumed == b.consumed + 1
      else c.consumed == b.consumed
  {
  }

  /** What one move does to a consumed event: takes one, applies it, loses it, or neither. */
  lemma MoveConsumes(s: Adapter, m: Move)
    requires Fits(At(s, m.thread), PcOf(s.bridge, m.thread))
    ensures var n := Take(s, m);
      var w, x, pc := At(s, m.thread), NextAt(s, m), PcOf(s.bridge, m.thread);
      var a := BridgeAction(s, m);
      var next := if a.Some? then NextPc(s.bridge, a.value) else pc;
      && (n.bridge.consumed != s.bridge.consumed ==>
            && n.bridge.consumed == s.bridge.consumed + 1 && n.applied == s.applied
            && w.InPoll? && !MayHold(w, pc) && SurelyHolds(x, next))
      && (n.applied != s.applied ==>
            && |n.applied| == |s.applied| + 1 && n.bridge.consumed == s.bridge.consumed
            && SurelyHolds(w, pc) && !SurelyHolds(x, next))
      && (SurelyHolds(x, next) && !SurelyHolds(w, pc) ==> n.bridge.consumed == s.bridge.consumed + 1)
      && (MayHold(w, pc) && !MayHold(x, next) ==> n.applied != s.applied || n.poisoned)
  {
    hide Step;
    BridgeMoves(s, m);
    var a := BridgeAction(s, m);
    if a.Some? {
      BridgeStepConsumes(s.bridge, a.value);
    }
  }

  /** The same, said of the states before and after. */
  lemma ConsumeEffect(s: Adapter, m: Move)
    requires AllFit(s)
    ensures var n, t := Take(s, m), m.thread;
      var sureBefore, sureAfter := SurelyHolds(At(s, t), PcOf(s.bridge, t)), SurelyHolds(At(n, t), PcOf(n.bridge, t));
      var mayBefore, mayAfter := MayHold(At(s, t), PcOf(s.bridge, t)), MayHold(At(n, t), PcOf(n.bridge, t));
      && (n.bridge.consumed != s.bridge.consumed ==>
            n.bridge.consumed == s.bridge.consumed + 1 && n.applied == s.applied && At(s, t).InPoll? && !mayBefore &&
                sureAfter)
      && (n.applied != s.applied ==>
            |n.applied| == |s.applied| + 1 && n.bridge.consumed == s.bridge.consumed && sureBefore && !sureAfter)
      && (sureAfter && !sureBefore ==> n.bridge.consumed == s.bridge.consumed + 1)
      && (mayBefore && !mayAfter ==> n.applied != s.applied || n.poisoned)
  {
    hide Take, NextAt, NextPc, BridgeAction, SurelyHolds, MayHold;
    assert Fits(At(s, m.thread), PcOf(s.bridge, m.thread));
    MoveConsumes(s, m);
    OwnPc(s, m);
    AtMovesOne(s, m, m.thread);
  }

  lemma HolderIsActive(w: Where, pc: Pc)
    ensures SurelyHolds(w, pc) ==> MayHold(w, pc)
    ensures MayHold(w, pc) || w.InPoll? ==> Active(w)
  {
  }

  /** A poll takes an event only when everything taken before is applied. */
  lemma TakesWhenCaughtUp(s: Adapter, t: Thread)
    requires OneActive(s) && PoisonStops(s) && ConsumedIsApplied(s)
    requires At(s, t).InPoll? && !MayHold(At(s, t), PcOf(s.bridge, t))
    ensures s.bridge.consumed == |s.applied|
  {
    hide SurelyHolds, MayHold, Active;
    HolderIsActive(At(s, t), PcOf(s.bridge, t));
    if s.bridge.consumed != |s.applied| {
      var u :| MayHold(At(s, u), PcOf(s.bridge, u));
      HolderIsActive(At(s, u), PcOf(s.bridge, u));
    }
  }

  lemma HolderIsUnapplied(s: Adapter, m: Move, u: Thread)
    requires AllFit(s) && OneActive(s) && PoisonStops(s) && ConsumedIsApplied(s)
    requires SurelyHolds(At(Take(s, m), u), PcOf(Take(s, m).bridge, u))
    ensures Take(s, m).bridge.consumed == |Take(s, m).applied| + 1
  {
    hide Take, SurelyHolds, MayHold, Active, Fits;
    var t := m.thread;
    ConsumeEffect(s, m);
    HolderIsActive(At(s, t), PcOf(s.bridge, t));
    if Take(s, m).bridge.consumed != s.bridge.consumed {
      TakesWhenCaughtUp(s, t);
    } else if u != t {
      OthersStay(s, m, u);
      HolderIsActive(At(s, u), PcOf(s.bridge, u));
      assert At(s, u) == At(Take(s, m), u);
    }
  }

  lemma LossIsNoticed(s: Adapter, m: Move)
    requires AllFit(s) && OneActive(s) && PoisonStops(s) && ConsumedIsApplied(s)
    ensures var n := Take(s, m);
      && |n.applied| <= n.bridge.consumed <= |n.applied| + 1
      && (n.bridge.consumed != |n.applied| ==> n.poisoned || exists t :: MayHold(At(n, t), PcOf(n.bridge, t)))
  {
    hide Take, NextAt, SurelyHolds, MayHold, Active, Fits;
    var n, t := Take(s, m), m.thread;
    ConsumeEffect(s, m);
    MoveStops(s, m);
    HolderIsActive(At(n, t), PcOf(n.bridge, t));
    if n.bridge.consumed != s.bridge.consumed {
      TakesWhenCaughtUp(s, t);
    } else if n.applied != s.applied {
      assert s.bridge.consumed == |s.applied| + 1;
    } else if s.bridge.consumed != |s.applied| && !s.poisoned {
      var u :| MayHold(At(s, u), PcOf(s.bridge, u));
      if u != t {
        OthersStay(s, m, u);
      }
      assert n.poisoned || MayHold(At(n, u), PcOf(n.bridge, u));
    }
  }

  lemma ConsumedKept(s: Adapter, m: Move)
    requires AllFit(s) && OneActive(s) && PoisonStops(s) && ConsumedIsApplied(s)
    ensures ConsumedIsApplied(Take(s, m))
  {
    hide Take, SurelyHolds, MayHold, Active, Fits;
    LossIsNoticed(s, m);
    forall u | SurelyHolds(At(Take(s, m), u), PcOf(Take(s, m).bridge, u))
      ensures Take(s, m).bridge.consumed == |Take(s, m).applied| + 1
    {
      HolderIsUnapplied(s, m, u);
    }
  }

  lemma TakeKeeps(s: Adapter, m: Move)
    requires AdapterInv(s)
    ensures AdapterInv(Take(s, m))
  {
    hide BridgeInv, OneActive, AllFit, PoisonStops, Delivered, ConsumedIsApplied;
    ConsumedKept(s, m);
    BridgeInvKept(s, m);
    OneActiveKept(s, m);
    FitKept(s, m);
    PoisonKept(s, m);
    DeliveredKept(s, m);
  }

  lemma {:induction false} RunAdapterKeeps(s: Adapter, moves: seq<Move>)
    requires AdapterInv(s)
    ensures AdapterInv(RunAdapter(s, moves))
  {
    hide AdapterInv;
    if moves == [] {
    } else {
      RunAdapterKeeps(s, moves[..|moves| - 1]);
      TakeKeeps(RunAdapter(s, moves[..|moves| - 1]), moves[|moves| - 1]);
    }
  }

  lemma BoundAdapterIsInv(baseline: int)
    ensures AdapterInv(BindAdapter(baseline))
  {
    BoundIsInv(baseline);
  }

  // ---- what it means ---------------------------------------------------------------------------

  /** In every run the ledger holds a contiguous prefix of the source from the baseline;
      at most one event that left the queue is unapplied, whether or not it was finalized;
      and once every thread has left `apply_next` an unapplied event means the adapter is poisoned. */
  lemma LedgerIsContiguous(baseline: int, moves: seq<Move>)
    ensures var s := RunAdapter(BindAdapter(baseline), moves);
      && Contiguous(baseline, s.applied)
      && s.applied <= s.bridge.finalized && |s.bridge.finalized| <= |s.applied| + 1
      && |s.applied| <= s.bridge.consumed <= |s.applied| + 1
    ensures var s := RunAdapter(BindAdapter(baseline), moves);
      (forall t :: !Active(At(s, t))) && !s.poisoned ==>
        s.bridge.finalized == s.applied && s.bridge.consumed == |s.applied|
  {
    BoundAdapterIsInv(baseline);
    RunAdapterKeeps(BindAdapter(baseline), moves);
    AppliedOnlyGrows(BindAdapter(baseline), moves);
    var s := RunAdapter(BindAdapter(baseline), moves);
    if s.bridge.finalized != s.applied && (forall t :: !Active(At(s, t))) && !s.poisoned {
      var u :| Carrying(s, u).Some? || At(s, u).Broken?;
      CarrierIsActive(s, u);
    }
    if s.bridge.consumed != |s.applied| && (forall t :: !Active(At(s, t))) && !s.poisoned {
      var u :| MayHold(At(s, u), PcOf(s.bridge, u));
      HolderIsActive(At(s, u), PcOf(s.bridge, u));
    }
  }

  /** Through the adapter at most one poll runs in the bridge at any time. */
  lemma AdapterExcludesPolls(baseline: int, moves: seq<Move>, t: Thread, u: Thread)
    ensures var b := RunAdapter(BindAdapter(baseline), moves).bridge;
      CallbackBridge.Polling(PcOf(b, t)) && CallbackBridge.Polling(PcOf(b, u)) ==> t == u
  {
    BoundAdapterIsInv(baseline);
    RunAdapterKeeps(BindAdapter(baseline), moves);
    var s := RunAdapter(BindAdapter(baseline), moves);
    assert Fits(At(s, t), PcOf(s.bridge, t)) && Fits(At(s, u), PcOf(s.bridge, u));
  }

  /** Once the adapter is poisoned nothing is applied, finalized or taken from the queue. */
  lemma {:induction false} PoisonedAppliesNothing(s: Adapter, moves: seq<Move>)
    requires AdapterInv(s) && s.poisoned
    ensures var n := RunAdapter(s, moves);
      && n.poisoned && n.applied == s.applied
      && n.bridge.finalized == s.bridge.finalized && n.bridge.consumed == s.bridge.consumed
  {
    if moves == [] {
    } else {
      var before := moves[..|moves| - 1];
      PoisonedAppliesNothing(s, before);
      RunAdapterKeeps(s, before);
      PoisonedMove(RunAdapter(s, before), moves[|moves| - 1]);
    }
  }

  lemma PoisonedMove(s: Adapter, m: Move)
    requires AdapterInv(s) && s.poisoned
    ensures Take(s, m).poisoned && Take(s, m).applied == s.applied
    ensures Take(s, m).bridge.finalized == s.bridge.finalized && Take(s, m).bridge.consumed == s.bridge.consumed
  {
    hide Take, Carries, Delivered, BridgeInv, ConsumedIsApplied, MayHold, SurelyHolds;
    MoveStops(s, m);
    MoveEffect(s, m);
    ConsumeEffect(s, m);
  }

  /** The ledger is append-only. */
  lemma {:induction false} AppliedOnlyGrows(s: Adapter, moves: seq<Move>)
    ensures s.applied <= RunAdapter(s, moves).applied
    ensures RunAdapter(s, moves).bridge.baseline == s.bridge.baseline
  {
    hide Step;
    if moves == [] {
    } else {
      var before, m := RunAdapter(s, moves[..|moves| - 1]), moves[|moves| - 1];
      AppliedOnlyGrows(s, moves[..|moves| - 1]);
      BridgeMoves(before, m);
      if BridgeAction(before, m).Some? {
        StepBaseline(before.bridge, BridgeAction(before, m).value);
      }
    }
  }

  lemma StepBaseline(b: Bridge, a: Action)
    ensures Step(b, a).baseline == b.baseline
  {
    SharedKeepsPcs(b, a);
  }

  // ---- what one call does --------------------------------------------------------------------------------

  function Inner(t: Thread, actions: seq<Action>): seq<Move> {
    if actions == [] then [] else Inner(t, actions[..|actions| - 1]) + [Within(t, actions[|actions| - 1])]
  }

  /** One `apply_next` of a thread on its own: its poll, its store transaction, and what a failure makes of
      it; moves that are not due change nothing. */
  function SoloApply(t: Thread, env: Environment, outcome: Outcome, ok: bool): seq<Move> {
    [Begin(t), CallBridge(t)] + Inner(t, InsidePoll(t, env)) + [Return(t), Recheck(t), Apply(t, outcome)] +
    Ending(t, ok)
  }

  function Ending(t: Thread, ok: bool): seq<Move> {
    [PoisonSelf(t), CloseBridge(t)] + [Within(t, Release(t, ok)), Within(t, Clear(t))] + [ShutReturns(t), Exit(t)]
  }

  /** The poll brought an envelope, and the store kept it. */
  predicate Applies(b: Bridge, env: Environment, outcome: Outcome) {
    Succeeds(b, env) && env.wait.event.Some? && !outcome.Rejected?
  }

  /** Nothing failed: the poll timed out, or its envelope was committed. */
  predicate GoesWell(b: Bridge, env: Environment, outcome: Outcome) {
    Succeeds(b, env) && (env.wait.event.None? || outcome.Committed?)
  }

  lemma {:induction false} MovesJoin(s: Adapter, first: seq<Move>, second: seq<Move>)
    ensures RunAdapter(s, first + second) == RunAdapter(RunAdapter(s, first), second)
  {
    if second == [] {
      assert first + second == first;
    } else {
      var n := |second| - 1;
      assert (first + second)[..|first + second| - 1] == first + second[..n];
      MovesJoin(s, first, second[..n]);
    }
  }

  lemma MoveOne(s: Adapter, m: Move)
    ensures RunAdapter(s, [m]) == Take(s, m)
  {
    assert [m][..0] == [];
  }

  lemma {:induction false} InnerRuns(s: Adapter, t: Thread, actions: seq<Action>)
    requires t in s.at && forall i :: 0 <= i < |actions| ==> Inside(s.at[t], t, actions[i])
    ensures RunAdapter(s, Inner(t, actions)) == s.(bridge := Run(s.bridge, actions))
  {
    if actions == [] {
    } else {
      var n := |actions| - 1;
      InnerRuns(s, t, actions[..n]);
      MovesJoin(s, Inner(t, actions[..n]), [Within(t, actions[n])]);
      var c := s.(bridge := Run(s.bridge, actions[..n]));
      MoveOne(c, Within(t, actions[n]));
      assert c.at[t := c.at[t]] == c.at;
    }
  }

  predicate MayApply(s: Adapter, t: Thread) {
    !s.closed && !s.poisoned && !s.inFlight && At(s, t).Resting? && MayPoll(s.bridge, t)
  }

  lemma MoveTwo(s: Adapter, m: Move, m': Move)
    ensures RunAdapter(s, [m, m']) == Take(Take(s, m), m')
  {
    hide Take;
    MoveOne(s, m);
    MoveOne(Take(s, m), m');
    assert [m, m'] == [m] + [m'];
    MovesJoin(s, [m], [m']);
  }

  lemma ApplyStarts(s: Adapter, t: Thread)
    requires MayApply(s, t)
    ensures RunAdapter(s, [Begin(t), CallBridge(t)]) ==
            s.(inFlight := true, at := s.at[t := InPoll], bridge := Step(s.bridge, Enter(t)))
  {
    hide Step, RunAdapter;
    MoveTwo(s, Begin(t), CallBridge(t));
    assert Take(s, Begin(t)) == s.(inFlight := true, at := s.at[t := Started]);
  }

  lemma ApplyPolls(s: Adapter, t: Thread, env: Environment)
    requires MayApply(s, t)
    ensures RunAdapter(s, [Begin(t), CallBridge(t)] + Inner(t, InsidePoll(t, env))) ==
            s.(inFlight := true, at := s.at[t := InPoll], bridge := AfterPoll(s.bridge, t, env))
  {
    hide RunAdapter, AfterPoll, Step, Run, Inner;
    var rest := InsidePoll(t, env);
    ApplyStarts(s, t);
    var started := s.(inFlight := true, at := s.at[t := InPoll], bridge := Step(s.bridge, Enter(t)));
    MovesJoin(s, [Begin(t), CallBridge(t)], Inner(t, rest));
    assert forall i :: 0 <= i < |rest| ==> Inside(InPoll, t, rest[i]);
    InnerRuns(started, t, rest);
    PollIsRun(s.bridge, t, env);
  }

  lemma PollIsRun(b: Bridge, t: Thread, env: Environment)
    requires MayPoll(b, t)
    ensures Run(Step(b, Enter(t)), InsidePoll(t, env)) == AfterPoll(b, t, env)
  {
    hide Step, AfterPoll;
    var rest := InsidePoll(t, env);
    assert SoloPoll(t, env) == [Enter(t)] + rest;
    RunOne(b, [], Enter(t));
    assert [] + [Enter(t)] == [Enter(t)];
    RunJoins(b, [Enter(t)], rest);
    SoloPollReturns(b, t, env);
  }

  /** The bridge once the poll has left it. */
  function Left(b: Bridge, t: Thread, env: Environment): Bridge {
    AfterPoll(b, t, env).(inFlight := false, pcs := b.pcs[t := Idle])
  }

  function AppliedNow(b: Bridge, env: Environment, outcome: Outcome): seq<int> {
    if Applies(b, env, outcome) then [b.last + 1] else []
  }

  lemma ApplyStores(s: Adapter, t: Thread, env: Environment, outcome: Outcome)
    requires MayApply(s, t)
    ensures var p := s.(inFlight := true, at := s.at[t := InPoll], bridge := AfterPoll(s.bridge, t, env));
      Take(Take(Take(p, Return(t)), Recheck(t)), Apply(t, outcome)) ==
      s.(inFlight := true, bridge := Left(s.bridge, t, env), applied := s.applied + AppliedNow(s.bridge, env, outcome),
         at := s.at[t := if GoesWell(s.bridge, env, outcome) then Exiting else Broken])
  {
    var p := s.(inFlight := true, at := s.at[t := InPoll], bridge := AfterPoll(s.bridge, t, env));
    PollLeaves(s.bridge, t, env);
    var result := PollResult(s.bridge, env);
    var back := match result case Timeout => Exiting case Envelope(x) => Holding(x) case Raised => Broken;
    hide Step, AfterPoll;
    var one := Take(p, Return(t));
    assert one == s.(inFlight := true, bridge := Left(s.bridge, t, env), at := s.at[t := back]);
    hide Left;
    var two := Take(one, Recheck(t));
    assert two == one.(at := s.at[t := if back.Holding? then Applying(back.sequence) else back]);
    var three := Take(two, Apply(t, outcome));
    if back.Holding? {
      assert three == two.(at := s.at[t := if outcome.Committed? then Exiting else Broken],
                           applied := s.applied + if outcome.Rejected? then [] else [back.sequence]);
    } else {
      assert s.applied + [] == s.applied;
      assert three == two;
    }
  }

  lemma PollLeaves(b: Bridge, t: Thread, env: Environment)
    ensures var c := AfterPoll(b, t, env);
      PcOf(c, t) == Leaving(PollResult(b, env)) && Step(c, Leave(t)) == Left(b, t, env)
  {
    LeaveReturns(AfterPoll(b, t, env), t);
  }

  lemma EndingRuns(s: Adapter, t: Thread, ok: bool)
    ensures var one := Take(Take(s, PoisonSelf(t)), CloseBridge(t));
      var two := Take(Take(one, Within(t, Release(t, ok))), Within(t, Clear(t)));
      RunAdapter(s, Ending(t, ok)) == Take(Take(two, ShutReturns(t)), Exit(t))
  {
    hide Take;
    var a, b := [PoisonSelf(t), CloseBridge(t)], [Within(t, Release(t, ok)), Within(t, Clear(t))];
    var c := [ShutReturns(t), Exit(t)];
    MovesJoin(s, a + b, c);
    MovesJoin(s, a, b);
    MoveTwo(s, PoisonSelf(t), CloseBridge(t));
    var one := Take(Take(s, PoisonSelf(t)), CloseBridge(t));
    MoveTwo(one, Within(t, Release(t, ok)), Within(t, Clear(t)));
    MoveTwo(Take(Take(one, Within(t, Release(t, ok))), Within(t, Clear(t))), ShutReturns(t), Exit(t));
  }

  lemma WellEnds(s: Adapter, t: Thread, ok: bool)
    requires t in s.at && s.at[t].Exiting?
    ensures RunAdapter(s, Ending(t, ok)) == s.(inFlight := false, at := s.at[t := Resting])
  {
    EndingRuns(s, t, ok);
    hide RunAdapter, Step, Ending;
    assert s.at[t := s.at[t]] == s.at;
    assert Take(s, PoisonSelf(t)) == s && Take(s, CloseBridge(t)) == s;
    assert Take(s, Within(t, Release(t, ok))) == s && Take(s, Within(t, Clear(t))) == s;
    assert Take(s, ShutReturns(t)) == s;
  }

  /** The bridge after it was closed by this thread. */
  function ShutBridge(b: Bridge, t: Thread, ok: bool): Bridge {
    b.(closed := true, generation := if b.closed then b.generation else b.generation + 1,
       leased := b.leased && !ok, released := b.released || (b.leased && ok), pcs := b.pcs[t := Idle])
  }

  lemma BadEnds(s: Adapter, t: Thread, ok: bool)
    requires t in s.at && s.at[t].Broken? && PcOf(s.bridge, t).Idle?
    ensures RunAdapter(s, Ending(t, ok)) ==
            s.(inFlight := false, poisoned := true, closed := true, at := s.at[t := Resting],
               bridge := ShutBridge(s.bridge, t, ok))
  {
    hide RunAdapter, Take, Ending, ShutBridge;
    EndingRuns(s, t, ok);
    BrokenShuts(s, t, ok);
    ShutEnds(s.(poisoned := true, closed := true, at := s.at[t := ShutDown(true)],
                bridge := ShutBridge(s.bridge, t, ok)), t);
  }

  lemma BrokenShuts(s: Adapter, t: Thread, ok: bool)
    requires t in s.at && s.at[t].Broken? && PcOf(s.bridge, t).Idle?
    ensures var one := Take(Take(s, PoisonSelf(t)), CloseBridge(t));
      Take(Take(one, Within(t, Release(t, ok))), Within(t, Clear(t))) ==
      s.(poisoned := true, closed := true, at := s.at[t := ShutDown(true)], bridge := ShutBridge(s.bridge, t, ok))
    ensures PcOf(ShutBridge(s.bridge, t, ok), t).Idle?
  {
    hide Step, Run;
    SoloCloseReleases(s.bridge, t, ok);
    RunThree(s.bridge, Close(t), Release(t, ok), Clear(t));
    var b := Step(s.bridge, Close(t));
    var one := s.(poisoned := true, closed := true, at := s.at[t := ShutDown(true)], bridge := b);
    assert Take(s, PoisonSelf(t)) == s.(poisoned := true, closed := true, at := s.at[t := Shutting(true)]);
    assert Take(Take(s, PoisonSelf(t)), CloseBridge(t)) == one;
    WithinShut(one, t, Release(t, ok));
    WithinShut(one.(bridge := Step(b, Release(t, ok))), t, Clear(t));
  }

  lemma WithinShut(s: Adapter, t: Thread, a: Action)
    requires t in s.at && s.at[t].ShutDown? && a.thread == t && (a.Release? || a.Clear?)
    ensures Take(s, Within(t, a)) == s.(bridge := Step(s.bridge, a))
  {
    hide Step;
    assert s.at[t := s.at[t]] == s.at;
  }

  lemma ShutEnds(s: Adapter, t: Thread)
    requires t in s.at && s.at[t] == ShutDown(true) && PcOf(s.bridge, t).Idle?
    ensures Take(Take(s, ShutReturns(t)), Exit(t)) == s.(inFlight := false, at := s.at[t := Resting])
  {
    hide Step;
    assert Take(s, ShutReturns(t)) == s.(at := s.at[t := Exiting]);
  }

  /** The adapter after one `apply_next` on its own. */
  function AfterApply(s: Adapter, t: Thread, env: Environment, outcome: Outcome, ok: bool): Adapter {
    var left := Left(s.bridge, t, env);
    var c := s.(at := s.at[t := Resting], applied := s.applied + AppliedNow(s.bridge, env, outcome), bridge := left);
    if GoesWell(s.bridge, env, outcome) then c
    else c.(poisoned := true, closed := true, bridge := ShutBridge(left, t, ok))
  }

  lemma StoresInRun(p: Adapter, t: Thread, outcome: Outcome)
    ensures RunAdapter(p, [Return(t), Recheck(t), Apply(t, outcome)]) ==
            Take(Take(Take(p, Return(t)), Recheck(t)), Apply(t, outcome))
  {
    hide Take;
    MoveTwo(p, Return(t), Recheck(t));
    MoveOne(Take(Take(p, Return(t)), Recheck(t)), Apply(t, outcome));
    assert [Return(t), Recheck(t), Apply(t, outcome)] == [Return(t), Recheck(t)] + [Apply(t, outcome)];
    MovesJoin(p, [Return(t), Recheck(t)], [Apply(t, outcome)]);
  }

  /** On an open adapter with nothing in flight, a call on its own applies the next event iff its poll brings it
      and the store keeps it; a timeout changes nothing; and every failure, one after the commit included,
      poisons the adapter and closes it and its bridge. */
  lemma SoloApplyDelivers(s: Adapter, t: Thread, env: Environment, outcome: Outcome, ok: bool)
    requires MayApply(s, t)
    ensures RunAdapter(s, SoloApply(t, env, outcome, ok)) == AfterApply(s, t, env, outcome, ok)
  {
    hide RunAdapter, Step, AfterPoll, Ending, Inner, GoesWell, AppliedNow, Run, MayPoll, InsidePoll;
    var first := [Begin(t), CallBridge(t)] + Inner(t, InsidePoll(t, env));
    var next := [Return(t), Recheck(t), Apply(t, outcome)];
    MovesJoin(s, first + next, Ending(t, ok));
    MovesJoin(s, first, next);
    ApplyPolls(s, t, env);
    var p := s.(inFlight := true, at := s.at[t := InPoll], bridge := AfterPoll(s.bridge, t, env));
    StoresInRun(p, t, outcome);
    ApplyStores(s, t, env, outcome);
    hide Take;
    var q := RunAdapter(s, first + next);
    if GoesWell(s.bridge, env, outcome) {
      WellEnds(q, t, ok);
    } else {
      BadEnds(q, t, ok);
    }
  }

  /** A close on its own, on an adapter that is not closed yet, closes it and its bridge without poisoning it. */
  lemma SoloCloseShuts(s: Adapter, t: Thread, ok: bool)
    requires !s.closed && At(s, t).Resting? && PcOf(s.bridge, t).Idle?
    ensures var one := Take(Take(s, BeginClose(t)), CloseBridge(t));
      Take(Take(Take(one, Within(t, Release(t, ok))), Within(t, Clear(t))), ShutReturns(t)) ==
      s.(closed := true, at := s.at[t := Resting], bridge := ShutBridge(s.bridge, t, ok))
  {
    hide Step, Run;
    SoloCloseReleases(s.bridge, t, ok);
    RunThree(s.bridge, Close(t), Release(t, ok), Clear(t));
    var b := Step(s.bridge, Close(t));
    var one := s.(closed := true, at := s.at[t := ShutDown(false)], bridge := b);
    assert Take(s, BeginClose(t)) == s.(closed := true, at := s.at[t := Shutting(false)]);
    assert Take(Take(s, BeginClose(t)), CloseBridge(t)) == one;
    WithinShut(one, t, Release(t, ok));
    WithinShut(one.(bridge := Step(b, Release(t, ok))), t, Clear(t));
  }

  /** An envelope whose adapter was closed meanwhile is not applied, and its call poisons the adapter. */
  lemma LateEnvelopeIsLost(s: Adapter, t: Thread, outcome: Outcome)
    requires s.closed && At(s, t).Holding?
    ensures Take(Take(Take(s, Recheck(t)), Apply(t, outcome)), PoisonSelf(t)) ==
            s.(poisoned := true, at := s.at[t := Shutting(true)])
  {
    var one := s.(at := s.at[t := Broken]);
    assert Take(s, Recheck(t)) == one;
    assert one.at[t := one.at[t]] == one.at;
    assert Take(one, Apply(t, outcome)) == one;
  }

  /** A call on an adapter that is closed, poisoned or in use, and a close of a closed one, change nothing. */
  lemma RefusedCallsChangeNothing(s: Adapter, t: Thread)
    requires t in s.at
    ensures s.closed || s.poisoned || s.inFlight ==> Take(s, Begin(t)) == s
    ensures s.closed ==> Take(s, BeginClose(t)) == s
  {
    assert s.at[t := s.at[t]] == s.at;
  }

  /** A call that finds its bridge closed takes nothing from it and poisons the adapter. */
  lemma LateCallPoisons(s: Adapter, t: Thread)
    requires s.bridge.closed && At(s, t).Started? && PcOf(s.bridge, t).Idle?
    ensures Take(Take(s, CallBridge(t)), PoisonSelf(t)) ==
            s.(poisoned := true, closed := true, at := s.at[t := Shutting(true)],
               bridge := s.bridge.(pcs := s.bridge.pcs[t := Idle]))
  {
    var one := Take(s, CallBridge(t));
    assert one == s.(at := s.at[t := Broken], bridge := s.bridge.(pcs := s.bridge.pcs[t := Idle]));
  }
}
