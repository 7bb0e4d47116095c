/** The bounded queue between native return callbacks and the drain of the host.

    A return is numbered, then projected outside the lock, then ignored, lost
    or enqueued; an overflowing queue drops its oldest event. Returns on several
    threads and drains interleave at these steps in any order.
 */
module ReturnQueue {
  const MAX_EVENTS := 50_000

  /** Numbers stand for the events that carry them. From `open` on the fields are history: numbered
      but unfinished returns, ignored and unprojectable ones, the enqueue order, for each event that
      has left the queue whether it was drained, and the drained and the overflowed ones in order. */
  datatype Returns = Returns(
    sequence: nat,
    events: seq<nat>,
    dropped: nat,
    open: set<nat>,
    ignored: set<nat>,
    failed: set<nat>,
    enqueued: seq<nat>,
    gone: seq<bool>,
    drained: seq<nat>,
    overflowed: seq<nat>)

  const EMPTY := Returns(0, [], 0, {}, {}, {}, [], [], [], [])

  datatype Action =
    | Number
    | Ignore(number: nat)
    | ProjectionFails(number: nat)
    | Enqueue(number: nat)
    | Drain(limit: int)

  function Limit(maxEvents: int): nat {
    if maxEvents < 1 then 1 else maxEvents
  }

  function Front(events: seq<nat>, limit: nat): seq<nat> {
    if |events| <= limit then events else events[..limit]
  }

  /** A full queue loses its oldest event. */
  function MakeRoom(r: Returns): Returns {
    if |r.events| < MAX_EVENTS then r
    else
      r.(events := r.events[1..], dropped := r.dropped + 1,
         gone := r.gone + [false], overflowed := r.overflowed + [r.events[0]])
  }

  /** One step; finishing a return that is not open leaves the queue unchanged. */
  function Step(r: Returns, a: Action): Returns {
    match a
    case Number => r.(sequence := r.sequence + 1, open := r.open + {r.sequence + 1})
    case Ignore(n) => if n !in r.open then r else r.(open := r.open - {n}, ignored := r.ignored + {n})
    case ProjectionFails(n) =>
      if n !in r.open then r
      else r.(open := r.open - {n}, failed := r.failed + {n}, dropped := r.dropped + 1)
    case Enqueue(n) =>
      if n !in r.open then r
      else
        var s := MakeRoom(r);
        s.(open := r.open - {n}, events := s.events + [n], enqueued := r.enqueued + [n])
    case Drain(limit) =>
      var page := Front(r.events, Limit(limit));
      r.(events := r.events[|page|..], gone := r.gone + seq(|page|, _ => true), drained := r.drained + page)
  }

  function Run(actions: seq<Action>): Returns {
    if actions == [] then EMPTY else Step(Run(actions[..|actions| - 1]), actions[|actions| - 1])
  }

  // ---- conservation --------------------------------------------------------------------

  /** The numbers given so far. */
  function Numbers(sequence: nat): set<nat> {
    if sequence == 0 then {} else Numbers(sequence - 1) + {sequence}
  }

  lemma {:induction false} NumbersAre(sequence: nat)
    ensures |Numbers(sequence)| == sequence
    ensures forall n :: n in Numbers(sequence) <==> 1 <= n <= sequence
  {
    if sequence == 0 {
      assert Numbers(0) == {};
    } else {
      NumbersAre(sequence - 1);
    }
  }

  /** Every return, under what became of it. */
  ghost function Fates(r: Returns): multiset<nat> {
    multiset(r.open) + multiset(r.ignored) + multiset(r.failed) +
    multiset(r.events) + multiset(r.drained) + multiset(r.overflowed)
  }

  /** The elements whose flag is `which`, in order. */
  function Select(ns: seq<nat>, flags: seq<bool>, which: bool): seq<nat>
    requires |ns| == |flags|
  {
    if ns == [] then []
    else
      var k := |ns| - 1;
      Select(ns[..k], flags[..k], which) + (if flags[k] == which then [ns[k]] else [])
  }

  /** The queue is what was enqueued and has not left; what left was drained or overflowed, in order. */
  ghost predicate LineInv(r: Returns) {
    && |r.gone| + |r.events| == |r.enqueued|
    && r.events == r.enqueued[|r.gone|..]
    && r.drained == Select(r.enqueued[..|r.gone|], r.gone, true)
    && r.overflowed == Select(r.enqueued[..|r.gone|], r.gone, false)
  }

  ghost predicate QueueInv(r: Returns) {
    && Fates(r) == multiset(Numbers(r.sequence))
    && r.dropped == |r.failed| + |r.overflowed|
    && |r.events| <= MAX_EVENTS
    && LineInv(r)
  }

  lemma {:induction false} SelectJoin(a: seq<nat>, f: seq<bool>, b: seq<nat>, g: seq<bool>, which: bool)
    requires |a| == |f| && |b| == |g|
    ensures Select(a + b, f + g, which) == Select(a, f, which) + Select(b, g, which)
    decreases |b|
  {
    if b == [] {
      assert a + b == a && f + g == f;
    } else {
      var k := |b| - 1;
      SelectJoin(a, f, b[..k], g[..k], which);
      assert (a + b)[..|a + b| - 1] == a + b[..k] && (f + g)[..|f + g| - 1] == f + g[..k];
    }
  }

  lemma {:induction false} SelectAll(b: seq<nat>, g: seq<bool>, which: bool)
    requires |b| == |g| && forall i :: 0 <= i < |g| ==> g[i] == which
    ensures Select(b, g, which) == b && Select(b, g, !which) == []
  {
    if b == [] {
      assert Select(b, g, which) == [];
    } else {
      var k := |b| - 1;
      SelectAll(b[..k], g[..k], which);
      assert b == b[..k] + [b[k]];
    }
  }

  /** The oldest events leave the queue together, all drained or all overflowed. */
  lemma LineMoves(r: Returns, page: seq<nat>, flags: seq<bool>, which: bool)
    requires LineInv(r) && page <= r.events && |flags| == |page| && forall i :: 0 <= i < |flags| ==> flags[i] == which
    ensures LineInv(r.(events := r.events[|page|..], gone := r.gone + flags,
                       drained := r.drained + (if which then page else []),
                       overflowed := r.overflowed + (if which then [] else page)))
  {
    hide Select;
    var k := |r.gone|;
    var before := r.enqueued[..k];
    assert r.enqueued[..k + |page|] == before + page;
    assert r.enqueued[k + |page|..] == r.events[|page|..];
    SelectAll(page, flags, which);
    SelectJoin(before, r.gone, page, flags, which);
    SelectJoin(before, r.gone, page, flags, !which);
  }

  lemma LineGrows(r: Returns, n: nat)
    requires LineInv(r)
    ensures LineInv(r.(events := r.events + [n], enqueued := r.enqueued + [n]))
  {
    var more := r.enqueued + [n];
    assert more[..|r.gone|] == r.enqueued[..|r.gone|];
    assert more[|r.gone|..] == r.enqueued[|r.gone|..] + [n];
  }

  lemma LineFrame(r: Returns, s: Returns)
    requires LineInv(r) && s.events == r.events && s.enqueued == r.enqueued && s.gone == r.gone
    requires s.drained == r.drained && s.overflowed == r.overflowed
    ensures LineInv(s)
  {
  }

  lemma StepKeepsLine(r: Returns, a: Action)
    requires LineInv(r)
    ensures LineInv(Step(r, a))
  {
    hide LineInv;
    match a
    case Enqueue(n) =>
      if n in r.open {
        var s := MakeRoom(r);
        if |r.events| >= MAX_EVENTS {
          LineMoves(r, r.events[..1], [false], false);
          assert r.overflowed + r.events[..1] == r.overflowed + [r.events[0]] && r.drained + [] == r.drained;
          LineFrame(r.(events := r.events[1..], gone := r.gone + [false],
              overflowed := r.overflowed + [r.events[0]]), s);
        }
        LineGrows(s, n);
        LineFrame(s.(events := s.events + [n], enqueued := s.enqueued + [n]), Step(r, a));
      }
    case Drain(limit) =>
      var page := Front(r.events, Limit(limit));
      LineMoves(r, page, seq(|page|, _ => true), true);
      assert r.overflowed + [] == r.overflowed;
    case _ => LineFrame(r, Step(r, a));
  }

  lemma NumbersGrow(k: nat, next: nat)
    requires next == k + 1
    ensures multiset(Numbers(next)) == multiset(Numbers(k)) + multiset{next}
  {
    NumbersAre(k);
    assert Numbers(next) == Numbers(k) + {next};
  }

  /** A set and a new element, as multisets. */
  lemma SetMoves(a: set<nat>, n: nat)
    ensures n in a ==> multiset(a) == multiset(a - {n}) + multiset{n}
    ensures n !in a ==> multiset(a + {n}) == multiset(a) + multiset{n}
  {
  }

  /** No number has two fates. */
  lemma OneFate(r: Returns, n: nat)
    requires Fates(r) == multiset(Numbers(r.sequence))
    ensures Fates(r)[n] == (if 1 <= n <= r.sequence then 1 else 0)
  {
    NumbersAre(r.sequence);
    hide Fates, Numbers;
  }

  lemma OpenHasNoOtherFate(r: Returns, n: nat)
    requires Fates(r) == multiset(Numbers(r.sequence)) && n in r.open
    ensures n !in r.ignored && n !in r.failed && 1 <= n <= r.sequence
  {
    OneFate(r, n);
    assert multiset(r.open)[n] == 1;
  }

  lemma NextIsNew(r: Returns)
    requires Fates(r) == multiset(Numbers(r.sequence))
    ensures r.sequence + 1 !in r.open && Fates(r)[r.sequence + 1] == 0
  {
    OneFate(r, r.sequence + 1);
    assert multiset(r.open)[r.sequence + 1] == 0;
  }

  lemma MakeRoomKeepsFates(r: Returns)
    ensures Fates(MakeRoom(r)) == Fates(r) && MakeRoom(r).open == r.open && MakeRoom(r).sequence == r.sequence
  {
    if |r.events| >= MAX_EVENTS {
      assert r.events == [r.events[0]] + r.events[1..];
    }
  }

  lemma NumberKeepsFates(r: Returns)
    requires Fates(r) == multiset(Numbers(r.sequence))
    ensures Fates(Step(r, Number)) == multiset(Numbers(r.sequence + 1))
  {
    NextIsNew(r);
    hide Numbers;
    NumbersGrow(r.sequence, r.sequence + 1);
    SetMoves(r.open, r.sequence + 1);
  }

  lemma FinishKeepsFates(r: Returns, n: nat)
    requires Fates(r) == multiset(Numbers(r.sequence)) && n in r.open
    ensures Fates(Step(r, Ignore(n))) == Fates(r) && Fates(Step(r, ProjectionFails(n))) == Fates(r)
  {
    OpenHasNoOtherFate(r, n);
    hide Numbers;
    SetMoves(r.open, n);
    SetMoves(r.ignored, n);
    SetMoves(r.failed, n);
  }

  lemma EnqueueKeepsFates(r: Returns, n: nat)
    requires n in r.open
    ensures Fates(Step(r, Enqueue(n))) == Fates(r)
  {
    MakeRoomKeepsFates(r);
    SetMoves(r.open, n);
    hide MakeRoom;
  }

  lemma DrainKeepsFates(r: Returns, limit: int)
    ensures Fates(Step(r, Drain(limit))) == Fates(r)
  {
    var page := Front(r.events, Limit(limit));
    assert r.events == page + r.events[|page|..];
  }

  lemma StepKeepsFates(r: Returns, a: Action)
    requires Fates(r) == multiset(Numbers(r.sequence))
    ensures Fates(Step(r, a)) == multiset(Numbers(Step(r, a).sequence))
  {
    hide Fates, Numbers;
    match a
    case Number => NumberKeepsFates(r);
    case Ignore(n) => if n in r.open { FinishKeepsFates(r, n); }
    case ProjectionFails(n) => if n in r.open { FinishKeepsFates(r, n); }
    case Enqueue(n) => if n in r.open { EnqueueKeepsFates(r, n); }
    case Drain(limit) => DrainKeepsFates(r, limit);
  }

  lemma StepKeepsLosses(r: Returns, a: Action)
    requires Fates(r) == multiset(Numbers(r.sequence))
    requires r.dropped == |r.failed| + |r.overflowed| && |r.events| <= MAX_EVENTS
    ensures var s := Step(r, a); s.dropped == |s.failed| + |s.overflowed| && |s.events| <= MAX_EVENTS
  {
    if a.ProjectionFails? && a.number in r.open {
      OpenHasNoOtherFate(r, a.number);
    }
  }

  lemma StepKeeps(r: Returns, a: Action)
    requires QueueInv(r)
    ensures QueueInv(Step(r, a))
  {
    hide Fates, LineInv, Step;
    StepKeepsFates(r, a);
    StepKeepsLosses(r, a);
    StepKeepsLine(r, a);
  }

  lemma FatesCount(r: Returns)
    requires Fates(r) == multiset(Numbers(r.sequence))
    ensures r.sequence == |r.open| + |r.ignored| + |r.failed| + |r.events| + |r.drained| + |r.overflowed|
  {
    NumbersAre(r.sequence);
    assert |multiset(Numbers(r.sequence))| == |Numbers(r.sequence)|;
  }

  /** After every run: each number given is in progress, ignored, lost to its projection, queued, drained
      or overflowed, exactly once; `dropped` counts exactly the lost ones; the queue is bounded and is the
      newest stretch of the enqueue order; and the drained events are a subsequence of that order. */
  lemma {:induction false} EveryReturnIsAccounted(actions: seq<Action>)
    ensures var r := Run(actions);
      && Fates(r) == multiset(Numbers(r.sequence))
      && r.sequence == |r.open| + |r.ignored| + |r.failed| + |r.events| + |r.drained| + |r.overflowed|
      && r.dropped == |r.failed| + |r.overflowed| && |r.events| <= 50_000
      && LineInv(r)
    ensures QueueInv(Run(actions))
  {
    hide Fates, LineInv, Step;
    if actions == [] {
      EmptyIsInv();
    } else {
      EveryReturnIsAccounted(actions[..|actions| - 1]);
      StepKeeps(Run(actions[..|actions| - 1]), actions[|actions| - 1]);
    }
    FatesCount(Run(actions));
  }

  lemma EmptyIsInv()
    ensures QueueInv(EMPTY)
  {
    assert Numbers(0) == {};
  }

  // ---- order ---------------------------------------------------------------------------------

  ghost predicate Increasing(ns: seq<nat>) {
    forall i, j :: 0 <= i < j < |ns| ==> ns[i] < ns[j]
  }

  /** One return thread: a return is numbered only when no other is in progress. */
  ghost predicate OneThread(actions: seq<Action>) {
    forall k :: 0 <= k < |actions| && actions[k].Number? ==> Run(actions[..k]).open == {}
  }

  /** Drained, then queued: in increasing order, below the return in progress. */
  ghost predicate LineInOrder(line: seq<nat>, open: set<nat>, sequence: nat) {
    && Increasing(line)
    && (forall i :: 0 <= i < |line| ==> line[i] <= sequence)
    && (open == {} || (open == {sequence} && forall i :: 0 <= i < |line| ==> line[i] < sequence))
  }

  ghost predicate Ordered(r: Returns) {
    LineInOrder(r.drained + r.events, r.open, r.sequence)
  }

  lemma DropOne(line: seq<nat>, k: nat, open: set<nat>, sequence: nat)
    requires LineInOrder(line, open, sequence) && k < |line|
    ensures LineInOrder(line[..k] + line[k + 1..], open, sequence)
  {
  }

  lemma AppendOpen(line: seq<nat>, n: nat, open: set<nat>, sequence: nat)
    requires LineInOrder(line, open, sequence) && n in open
    ensures LineInOrder(line + [n], open - {n}, sequence)
  {
  }

  lemma EnqueueOrdered(r: Returns, n: nat)
    requires Ordered(r)
    ensures Ordered(Step(r, Enqueue(n)))
  {
    hide LineInOrder;
    if n in r.open {
      var s := Step(r, Enqueue(n));
      var line := r.drained + r.events;
      if |r.events| >= MAX_EVENTS {
        var k := |r.drained|;
        DropOne(line, k, r.open, r.sequence);
        AppendOpen(line[..k] + line[k + 1..], n, r.open, r.sequence);
        assert s.drained + s.events == line[..k] + line[k + 1..] + [n];
      } else {
        AppendOpen(line, n, r.open, r.sequence);
        assert s.drained + s.events == line + [n];
      }
    }
  }

  lemma StepOrdered(r: Returns, a: Action)
    requires Ordered(r)
    requires a.Number? ==> r.open == {}
    ensures Ordered(Step(r, a))
  {
    if a.Enqueue? {
      EnqueueOrdered(r, a.number);
    } else {
      assert Step(r, a).drained + Step(r, a).events == r.drained + r.events;
    }
  }

  /** With one return thread the drained sequence numbers strictly increase, in every run. */
  lemma {:induction false} OneThreadDrainsInOrder(actions: seq<Action>)
    requires OneThread(actions)
    ensures Ordered(Run(actions)) && Increasing(Run(actions).drained)
  {
    if actions != [] {
      var n := |actions| - 1;
      assert forall k :: 0 <= k < n ==> actions[..n][..k] == actions[..k];
      OneThreadDrainsInOrder(actions[..n]);
      StepOrdered(Run(actions[..n]), actions[n]);
      var r := Run(actions);
      assert forall i :: 0 <= i < |r.drained| ==> r.drained[i] == (r.drained + r.events)[i];
    } else {
      assert Run(actions).drained == [];
    }
  }

  lemma EnqueueLast(r: Returns, n: nat)
    requires QueueInv(r) && n in r.open
    ensures var s := Step(r, Enqueue(n));
      && s.events != [] && s.events[|s.events| - 1] == n && s.drained == r.drained && s.open == r.open - {n}
      && (r.events != [] ==> |s.events| >= 2 && s.events[|s.events| - 2] == r.events[|r.events| - 1])
  {
  }

  /** And with more than one it can fail: whenever a return is numbered while another is
      in progress, the two may be enqueued the other way round, and a drain shows it. */
  lemma OverlapMayReorder(r: Returns, n: nat)
    requires QueueInv(r) && n in r.open
    ensures var numbered := Step(r, Number);
      var s := Step(Step(numbered, Enqueue(numbered.sequence)), Enqueue(n));
      !Increasing(Step(s, Drain(MAX_EVENTS)).drained)
  {
    hide QueueInv;
    var numbered := Step(r, Number);
    var one := Step(numbered, Enqueue(numbered.sequence));
    var s := Step(one, Enqueue(n));
    assert n <= r.sequence by { OpenIsNumbered(r, n); }
    StepKeeps(r, Number);
    StepKeeps(numbered, Enqueue(numbered.sequence));
    StepKeeps(one, Enqueue(n));
    EnqueueLast(numbered, numbered.sequence);
    EnqueueLast(one, n);
    var out := Step(s, Drain(MAX_EVENTS)).drained;
    assert out == s.drained + s.events by { QueueFits(s); }
    assert out[|out| - 2] == numbered.sequence && out[|out| - 1] == n;
  }

  lemma OpenIsNumbered(r: Returns, n: nat)
    requires QueueInv(r) && n in r.open
    ensures n <= r.sequence
  {
    hide LineInv;
    OpenHasNoOtherFate(r, n);
  }

  lemma QueueFits(r: Returns)
    requires QueueInv(r)
    ensures |r.events| <= MAX_EVENTS && r.dropped == |r.failed| + |r.overflowed|
    ensures |r.events| <= |r.enqueued| && r.events == r.enqueued[|r.enqueued| - |r.events|..]
    ensures Fates(r) == multiset(Numbers(r.sequence))
  {
    hide Fates, Numbers, Select;
  }

  lemma EnqueueMeans(r: Returns, n: nat)
    requires QueueInv(r) && n in r.open
    ensures var s := Step(r, Enqueue(n));
      && QueueInv(s) && s == MakeRoom(r).(open := r.open - {n}, events := MakeRoom(r).events + [n],
            enqueued := r.enqueued + [n])
      && |r.events| <= MAX_EVENTS && 1 <= |s.events| <= MAX_EVENTS && |s.events| <= |s.enqueued|
      && s.events == s.enqueued[|s.enqueued| - |s.events|..]
      && s.dropped == |s.failed| + |s.overflowed|
  {
    hide QueueInv, Fates, Numbers, Step, MakeRoom;
    EnqueueShape(r, n);
    QueueFits(r);
    StepKeeps(r, Enqueue(n));
    QueueFits(Step(r, Enqueue(n)));
  }

  lemma EnqueueShape(r: Returns, n: nat)
    requires n in r.open
    ensures Step(r, Enqueue(n)) == MakeRoom(r).(open := r.open - {n}, events := MakeRoom(r).events + [n],
      enqueued := r.enqueued + [n])
  {
  }

  // ---- the queue in place ------------------------------------------------------------------------

  class ReturnTap {
    var sequence: nat
    var events: seq<nat>
    var droppedEvents: nat
    ghost var open: set<nat>
    ghost var ignored: set<nat>
    ghost var failed: set<nat>
    ghost var enqueued: seq<nat>
    ghost var gone: seq<bool>
    ghost var drained: seq<nat>
    ghost var overflowed: seq<nat>

    ghost function View(): Returns
      reads this
    {
      Returns(sequence, events, droppedEvents, open, ignored, failed, enqueued, gone, drained, overflowed)
    }

    /** No return is lost from the accounts, and the loss counter, the bound and the order hold. */
    ghost predicate Valid()
      reads this
    {
      QueueInv(View())
    }

    constructor ()
      ensures View() == EMPTY && Valid()
    {
      sequence, events, droppedEvents := 0, [], 0;
      open, ignored, failed, enqueued, gone, drained, overflowed := {}, {}, {}, [], [], [], [];
      new;
      EmptyIsInv();
    }

    /** A new return gets a number that nothing before it had. */
    method NumberReturn() returns (n: nat)
      requires Valid()
      modifies this
      ensures Valid() && View() == Step(old(View()), Number)
      ensures n == sequence && n in open && old(Fates(View()))[n] == 0
    {
      hide QueueInv, Fates, Numbers;
      ghost var before := View();
      QueueFits(before);
      StepKeeps(before, Number);
      NextIsNew(before);
      sequence := sequence + 1;
      n := sequence;
      open := open + {n};
    }

    /** A return without an event: nothing is queued and nothing counts as lost. */
    method IgnoreReturn(n: nat)
      requires Valid() && n in open
      modifies this
      ensures Valid() && View() == Step(old(View()), Ignore(n))
      ensures events == old(events) && droppedEvents == old(droppedEvents)
      ensures n in ignored && |open| + 1 == old(|open|)
    {
      hide QueueInv;
      StepKeeps(View(), Ignore(n));
      open := open - {n};
      ignored := ignored + {n};
    }

    /** An unprojectable return is counted as lost, once. */
    method NoteProjectionFailed(n: nat)
      requires Valid() && n in open
      modifies this
      ensures Valid() && View() == Step(old(View()), ProjectionFails(n))
      ensures droppedEvents == old(droppedEvents) + 1 == |failed| + |overflowed|
      ensures events == old(events) && n in failed && n !in old(failed)
    {
      hide QueueInv, Fates, Numbers;
      ghost var before := View();
      QueueFits(before);
      StepKeeps(before, ProjectionFails(n));
      QueueFits(Step(before, ProjectionFails(n)));
      OpenHasNoOtherFate(before, n);
      droppedEvents := droppedEvents + 1;
      open := open - {n};
      failed := failed + {n};
    }

    /** A return is queued last; a full queue loses exactly its oldest event, and counts it. */
    method EnqueueReturn(n: nat) returns (overflow: bool)
      requires Valid() && n in open
      modifies this
      ensures Valid() && View() == Step(old(View()), Enqueue(n))
      ensures overflow <==> old(|events|) == 50_000
      ensures enqueued == old(enqueued) + [n] && events == enqueued[|enqueued| - |events|..]
      ensures 1 <= |events| <= 50_000
      ensures droppedEvents == |failed| + |overflowed|
      ensures overflowed == old(overflowed) + (if overflow then [old(events)[0]] else [])
    {
      hide QueueInv, Step, Fates, Numbers;
      EnqueueMeans(View(), n);
      overflow := |events| >= MAX_EVENTS;
      if overflow {
        gone := gone + [false];
        overflowed := overflowed + [events[0]];
        events := events[1..];
        droppedEvents := droppedEvents + 1;
      }
      events := events + [n];
      enqueued := enqueued + [n];
      open := open - {n};
    }

    /** The oldest queued events, at most `maxEvents` but at least one if any is queued. */
    method DrainEvents(maxEvents: int) returns (page: seq<nat>)
      requires Valid()
      modifies this
      ensures Valid() && View() == Step(old(View()), Drain(maxEvents))
      ensures page + events == old(events) && (|page| == (if maxEvents < 1 then 1 else maxEvents) || events == [])
      ensures |page| <= 1 || |page| <= maxEvents
      ensures drained == old(drained) + page && droppedEvents == old(droppedEvents)
    {
      hide QueueInv, MakeRoom;
      StepKeeps(View(), Drain(maxEvents));
      var limit := if maxEvents < 1 then 1 else maxEvents;
      page := [];
      while events != [] && |page| < limit
        invariant |page| <= limit && page + events == old(events)
        invariant View() == old(View()).(events := events)
        decreases |events|
      {
        page := page + [events[0]];
        events := events[1..];
      }
      assert page == Front(old(events), limit);
      drained := drained + page;
      gone := gone + seq(|page|, _ => true);
    }
  }
}
