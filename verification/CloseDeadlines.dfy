/** The two clocks of a close plan, in integer nanoseconds.

    Every deadline is a pair of instants, one on the UTC clock and one on the
    monotonic clock. A pair is trusted only if both clocks measure the same time
    since the query completed, up to one microsecond. How the two measurements are
    rounded before they are compared is a parameter: any monotone rounding will do.
 */
module CloseDeadlines {
  import opened Options

  const DRIFT := 1_000
  const MAX_SOURCE_TTL := 5_000_000_000

  datatype Instant = Instant(utc: int, mono: int)

  /** How measured times are rounded, in nanoseconds: the difference of a UTC time and a monotonic
      time since completion, and a UTC time alone. */
  datatype Rounding = Rounding(gap: (int, int) -> real, span: int -> real)

  /** More UTC time never lessens the difference, more monotonic time never raises it. */
  ghost predicate Monotone(c: Rounding) {
    && (forall u, v, m :: u <= v ==> c.gap(u, m) <= c.gap(v, m))
    && (forall u, m, n :: m <= n ==> c.gap(u, n) <= c.gap(u, m))
    && (forall u, v :: u <= v ==> c.span(u) <= c.span(v))
  }

  datatype ClockError =
    | ExpiryNotAfterCompletion
    | NotPaired
    | TtlTooLong
    | NowBeforeCompletion
    | DeadlineBeforeCompletion
    | PolicyElapsed
    | EffectiveElapsed
    | EffectiveNotPaired
    | SourceExpired

  datatype Checked = Accepted(expiry: Instant) | Refused(error: ClockError)

  predicate After(d: Instant, completed: Instant) {
    d.utc > completed.utc && d.mono > completed.mono
  }

  predicate Paired(c: Rounding, d: Instant, completed: Instant) {
    -(DRIFT as real) <= c.gap(d.utc - completed.utc, d.mono - completed.mono) <= DRIFT as real
  }

  /** The source's own expiry, checked when the evidence is read. */
  function CheckSource(c: Rounding, completed: Instant, source: Instant): Option<ClockError> {
    if !After(source, completed) then Some(ExpiryNotAfterCompletion)
    else if !Paired(c, source, completed) then Some(NotPaired)
    else if c.span(source.utc - completed.utc) > (MAX_SOURCE_TTL + DRIFT) as real then Some(TtlTooLong)
    else None
  }

  function MinUtc(ds: seq<Instant>): int
    requires ds != []
  {
    if |ds| == 1 then ds[0].utc
    else var rest := MinUtc(ds[..|ds| - 1]); if ds[|ds| - 1].utc < rest then ds[|ds| - 1].utc else rest
  }

  function MinMono(ds: seq<Instant>): int
    requires ds != []
  {
    if |ds| == 1 then ds[0].mono
    else var rest := MinMono(ds[..|ds| - 1]); if ds[|ds| - 1].mono < rest then ds[|ds| - 1].mono else rest
  }

  function Deadlines(source: Instant, request: Instant, context: Instant, policy: Option<Instant>): seq<Instant> {
    [source, request, context] + (if policy.Some? then [policy.value] else [])
  }

  /** Combine the deadlines: each clock keeps its own minimum. */
  function ValidateDeadlines(c: Rounding, completed: Instant, source: Instant, request: Instant, context: Instant,
                             policy: Option<Instant>, now: Instant): Checked
  {
    if now.utc < completed.utc || now.mono < completed.mono then Refused(NowBeforeCompletion)
    else if !After(request, completed) then Refused(DeadlineBeforeCompletion)
    else if !Paired(c, request, completed) then Refused(NotPaired)
    else if !After(context, completed) then Refused(DeadlineBeforeCompletion)
    else if !Paired(c, context, completed) then Refused(NotPaired)
    else if policy.Some? && !After(policy.value, completed) then Refused(PolicyElapsed)
    else if policy.Some? && !Paired(c, policy.value, completed) then Refused(NotPaired)
    else
      var ds := Deadlines(source, request, context, policy);
      var effective := Instant(MinUtc(ds), MinMono(ds));
      if !After(effective, completed) then Refused(EffectiveElapsed)
      else if !Paired(c, effective, completed) then Refused(EffectiveNotPaired)
      else if now.utc >= effective.utc || now.mono >= effective.mono then Refused(SourceExpired)
      else Accepted(effective)
  }

  // ---- the minima ---------------------------------------------------------------------

  lemma {:induction false} MinimaAre(ds: seq<Instant>)
    requires ds != []
    ensures forall i :: 0 <= i < |ds| ==> MinUtc(ds) <= ds[i].utc && MinMono(ds) <= ds[i].mono
    ensures exists i :: 0 <= i < |ds| && MinUtc(ds) == ds[i].utc
    ensures exists i :: 0 <= i < |ds| && MinMono(ds) == ds[i].mono
  {
    if |ds| == 1 {
      assert MinUtc(ds) == ds[0].utc && MinMono(ds) == ds[0].mono;
    } else {
      var n := |ds| - 1;
      var rest := ds[..n];
      MinimaAre(rest);
      assert forall i :: 0 <= i < n ==> ds[i] == rest[i];
      if MinUtc(ds) != ds[n].utc {
        var i :| 0 <= i < n && MinUtc(rest) == rest[i].utc;
        assert MinUtc(ds) == ds[i].utc;
      }
      if MinMono(ds) != ds[n].mono {
        var i :| 0 <= i < n && MinMono(rest) == rest[i].mono;
        assert MinMono(ds) == ds[i].mono;
      }
    }
  }

  /** The later UTC instant and the earlier monotonic one of two paired deadlines are paired too. */
  lemma CrossPaired(c: Rounding, completed: Instant, a: Instant, b: Instant)
    requires Monotone(c) && Paired(c, a, completed) && Paired(c, b, completed)
    requires a.utc <= b.utc && b.mono <= a.mono
    ensures Paired(c, Instant(a.utc, b.mono), completed)
  {
    var u, v := a.utc - completed.utc, b.utc - completed.utc;
    var m, n := a.mono - completed.mono, b.mono - completed.mono;
    assert c.gap(u, m) <= c.gap(u, n) <= c.gap(v, n);
  }

  /** Although the two minima may come from different deadlines, they are paired and after
      completion whenever every deadline is, under any monotone rounding. */
  lemma MinimaArePaired(c: Rounding, ds: seq<Instant>, completed: Instant)
    requires Monotone(c) && ds != []
    requires forall i :: 0 <= i < |ds| ==> After(ds[i], completed) && Paired(c, ds[i], completed)
    ensures After(Instant(MinUtc(ds), MinMono(ds)), completed)
    ensures Paired(c, Instant(MinUtc(ds), MinMono(ds)), completed)
  {
    MinimaAre(ds);
    var u :| 0 <= u < |ds| && MinUtc(ds) == ds[u].utc;
    var m :| 0 <= m < |ds| && MinMono(ds) == ds[m].mono;
    assert After(ds[u], completed) && After(ds[m], completed);
    CrossPaired(c, completed, ds[u], ds[m]);
  }

  // ---- what acceptance means ---------------------------------------------------------------

  /** The deadline is not later than completion on one of the clocks. */
  ghost predicate NotLater(d: Instant, completed: Instant) {
    d.utc <= completed.utc || d.mono <= completed.mono
  }

  /** Both clocks put the deadline after completion and agree, as measured, up to a microsecond. */
  ghost predicate Trusted(c: Rounding, d: Instant, completed: Instant) {
    && completed.utc < d.utc && completed.mono < d.mono
    && -1000.0 <= c.gap(d.utc - completed.utc, d.mono - completed.mono) <= 1000.0
  }

  lemma TrustedIff(c: Rounding, d: Instant, completed: Instant)
    ensures Trusted(c, d, completed) <==> After(d, completed) && Paired(c, d, completed)
    ensures NotLater(d, completed) <==> !After(d, completed)
  {
  }

  /** The evidence's own expiry passes iff it is trusted and, as measured, at most five seconds and a microsecond
      after completion; otherwise the first of these that fails is the error. */
  lemma SourceIs(c: Rounding, completed: Instant, source: Instant)
    ensures CheckSource(c, completed, source) ==
      if NotLater(source, completed) then Some(ExpiryNotAfterCompletion)
      else if !Trusted(c, source, completed) then Some(NotPaired)
      else if c.span(source.utc - completed.utc) > 5_000_001_000.0 then Some(TtlTooLong)
      else None
  {
  }

  ghost predicate AllDeadlines(c: Rounding, ds: seq<Instant>, completed: Instant, now: Instant) {
    forall i :: 0 <= i < |ds| ==> Trusted(c, ds[i], completed) && now.utc < ds[i].utc && now.mono < ds[i].mono
  }

  lemma DeadlinesAre(c: Rounding, completed: Instant, source: Instant, request: Instant, context: Instant,
                     policy: Option<Instant>)
    requires CheckSource(c, completed, source).None?
    requires Trusted(c, request, completed) && Trusted(c, context, completed)
    requires policy.Some? ==> Trusted(c, policy.value, completed)
    ensures var ds := Deadlines(source, request, context, policy);
      forall i :: 0 <= i < |ds| ==>
        Trusted(c, ds[i], completed) && After(ds[i], completed) && Paired(c, ds[i], completed)
  {
    hide Paired, Trusted;
    TrustedIff(c, source, completed);
    TrustedIff(c, request, completed);
    TrustedIff(c, context, completed);
    if policy.Some? {
      TrustedIff(c, policy.value, completed);
    }
  }

  /** Which error refuses a plan: a clock behind completion, then the first deadline of request, context and
      policy that is not trusted, then a deadline that has passed. */
  lemma RefusalIs(c: Rounding, completed: Instant, source: Instant, request: Instant, context: Instant,
                  policy: Option<Instant>, now: Instant)
    requires Monotone(c) && CheckSource(c, completed, source).None?
    ensures var r := ValidateDeadlines(c, completed, source, request, context, policy, now);
      var ds := Deadlines(source, request, context, policy);
      if now.utc < completed.utc || now.mono < completed.mono then r == Refused(NowBeforeCompletion)
      else if !Trusted(c, request, completed) then
        r == Refused(if NotLater(request, completed) then DeadlineBeforeCompletion else NotPaired)
      else if !Trusted(c, context, completed) then
        r == Refused(if NotLater(context, completed) then DeadlineBeforeCompletion else NotPaired)
      else if policy.Some? && !Trusted(c, policy.value, completed) then
        r == Refused(if NotLater(policy.value, completed) then PolicyElapsed else NotPaired)
      else if exists i :: 0 <= i < |ds| && (now.utc >= ds[i].utc || now.mono >= ds[i].mono) then
        r == Refused(SourceExpired)
      else r.Accepted?
  {
    hide Monotone, Paired, Trusted, CheckSource, Deadlines, MinUtc, MinMono, NotLater;
    var ds := Deadlines(source, request, context, policy);
    TrustedIff(c, request, completed);
    TrustedIff(c, context, completed);
    if policy.Some? {
      TrustedIff(c, policy.value, completed);
    }
    DeadlinesExist(source, request, context, policy);
    MinimaAre(ds);
    if Trusted(c, request, completed) && Trusted(c, context, completed) &&
        (policy.Some? ==> Trusted(c, policy.value, completed)) {
      DeadlinesAre(c, completed, source, request, context, policy);
      MinimaArePaired(c, ds, completed);
    }
  }

  lemma DeadlinesExist(source: Instant, request: Instant, context: Instant, policy: Option<Instant>)
    ensures Deadlines(source, request, context, policy) != []
  {
  }

  /** For evidence whose own expiry passed, a plan is accepted iff the clock has not gone
      back behind completion and lies before every trusted deadline on both clocks. */
  lemma AcceptedIff(c: Rounding, completed: Instant, source: Instant, request: Instant, context: Instant,
                    policy: Option<Instant>, now: Instant)
    requires Monotone(c) && CheckSource(c, completed, source).None?
    ensures ValidateDeadlines(c, completed, source, request, context, policy, now).Accepted? <==>
      && completed.utc <= now.utc && completed.mono <= now.mono
      && AllDeadlines(c, Deadlines(source, request, context, policy), completed, now)
  {
    RefusalIs(c, completed, source, request, context, policy, now);
    hide Monotone, Trusted, ValidateDeadlines;
    var ds := Deadlines(source, request, context, policy);
    assert ds[0] == source && ds[1] == request && ds[2] == context;
    assert policy.Some? ==> ds[3] == policy.value;
    TrustedIff(c, source, completed);
  }

  /** The effective expiry is no later than any deadline, is reached on each clock by one of
      them, and the plan is emitted inside its window on both clocks. */
  lemma AcceptedWindow(c: Rounding, completed: Instant, source: Instant, request: Instant, context: Instant,
                       policy: Option<Instant>, now: Instant)
    requires ValidateDeadlines(c, completed, source, request, context, policy, now).Accepted?
    ensures var e := ValidateDeadlines(c, completed, source, request, context, policy, now).expiry;
      var ds := Deadlines(source, request, context, policy);
      && completed.utc <= now.utc < e.utc && completed.mono <= now.mono < e.mono
      && (forall i :: 0 <= i < |ds| ==> e.utc <= ds[i].utc && e.mono <= ds[i].mono)
      && (exists i :: 0 <= i < |ds| && e.utc == ds[i].utc)
      && (exists i :: 0 <= i < |ds| && e.mono == ds[i].mono)
      && Trusted(c, e, completed)
  {
    MinimaAre(Deadlines(source, request, context, policy));
  }

  /** The two checks of the combined deadline can never fail. */
  lemma EffectiveChecksNeverFail(c: Rounding, completed: Instant, source: Instant, request: Instant, context: Instant,
                                 policy: Option<Instant>, now: Instant)
    requires Monotone(c) && CheckSource(c, completed, source).None?
    ensures var r := ValidateDeadlines(c, completed, source, request, context, policy, now);
      r != Refused(EffectiveElapsed) && r != Refused(EffectiveNotPaired)
  {
    hide Monotone, Paired;
    var ds := Deadlines(source, request, context, policy);
    assert ds[0] == source && ds[1] == request && ds[2] == context;
    assert policy.Some? ==> ds[3] == policy.value;
    if forall i :: 0 <= i < |ds| ==> After(ds[i], completed) && Paired(c, ds[i], completed) {
      MinimaArePaired(c, ds, completed);
    }
  }

  /** Exact measurement, without rounding. */
  function Exact(): Rounding {
    Rounding((u: int, m: int) => (u - m) as real, (u: int) => u as real)
  }

  /** A plan never outlives its source: its measured life is at most five seconds and the drift. Measured
      exactly, that is also its life on the monotonic clock, up to one more drift. */
  lemma PlanLifetimeIsBounded(c: Rounding, completed: Instant, source: Instant, request: Instant, context: Instant,
                              policy: Option<Instant>, now: Instant)
    requires Monotone(c) && CheckSource(c, completed, source).None?
    requires ValidateDeadlines(c, completed, source, request, context, policy, now).Accepted?
    ensures var e := ValidateDeadlines(c, completed, source, request, context, policy, now).expiry;
      && c.span(e.utc - completed.utc) <= 5_000_001_000.0
      && (c == Exact() ==> e.mono - completed.mono <= 5_000_002_000)
  {
    AcceptedWindow(c, completed, source, request, context, policy, now);
    assert Deadlines(source, request, context, policy)[0] == source;
    var e := ValidateDeadlines(c, completed, source, request, context, policy, now).expiry;
    assert c.span(e.utc - completed.utc) <= c.span(source.utc - completed.utc);
    hide Monotone, ValidateDeadlines;
    if c == Exact() {
      assert c.span(e.utc - completed.utc) == (e.utc - completed.utc) as real;
      assert c.gap(e.utc - completed.utc, e.mono - completed.mono) ==
          ((e.utc - completed.utc) - (e.mono - completed.mono)) as real;
    }
  }
}
