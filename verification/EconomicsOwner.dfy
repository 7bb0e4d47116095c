/** The owner of issued affordability decisions. It hands out a decision once, keeps it under
    its lease, and later confirms only the very object it handed out.
 */
module EconomicsOwner {
  import opened Options
  import opened Decimals
  import opened DecimalTexts
  import opened OrderEconomics

  datatype Cause = RuntimeUnavailable | RouteMismatch | EvidenceUnavailable | CapacityReached

  datatype Reply = Granted(decision: Handle<Decision>) | Insufficient(shortfall: Decision) | Unavailable(cause: Cause)

  /** What the outside answers during one evaluation, in the order it is asked. */
  datatype Answers = Answers(runtime: bool, route: bool, evidence: Option<Evidence>, validationNow: int,
                             issuerValid: bool, runtimeAgain: bool, decisionNow: int)

  /** What the outside answers during one revalidation. */
  datatype Checks = Checks(now: int, runtime: bool, route: bool, issuerValid: bool, runtimeAgain: bool, finalNow: int)

  /** The evidence held at both readings of the clock and every outside check agreed. */
  ghost predicate Backed(r: Request, a: Answers) {
    && a.runtime && a.route && a.evidence.Some?
    && EvidenceStands(r, a.evidence.value, a.validationNow)
    && a.issuerValid && a.runtimeAgain
    && EvidenceStands(r, a.evidence.value, a.decisionNow)
  }

  /** The decision the evidence supports at the second reading. */
  ghost predicate Decides(r: Request, a: Answers, d: Decision) {
    r.rule.Accepted? && a.evidence.Some? && DecisionFrom(r, a.evidence.value, a.decisionNow) == Some(d)
  }

  ghost predicate Affordable(r: Request, a: Answers) {
    && Backed(r, a)
    && DecisionFrom(r, a.evidence.value, a.decisionNow).Some?
    && DecisionFrom(r, a.evidence.value, a.decisionNow).value.affordable
  }

  ghost predicate Confirmed(record: Issued, request: Handle<Request>, decision: Handle<Decision>, c: Checks) {
    && record.request == request && record.decision == decision && decision.value.affordable
    && c.runtime && c.route && c.issuerValid && c.runtimeAgain
    && EvidenceStands(request.value, record.evidence, c.now)
    && DecisionFrom(request.value, record.evidence, c.now) == Some(decision.value)
    && EvidenceStands(request.value, record.evidence, c.finalNow)
    && DecisionFrom(request.value, record.evidence, c.finalNow) == Some(decision.value)
  }

  /** Every retained record was issued, and every issued decision is a new object. */
  ghost predicate LogInv(issued: Ledger, log: seq<Issued>, objects: nat) {
    && (forall lease :: lease in issued ==> issued[lease] in log)
    && (forall i :: 0 <= i < |log| ==> log[i].decision.id < objects)
    && (forall i, j :: 0 <= i < j < |log| ==> log[i].decision.id < log[j].decision.id)
  }

  lemma LogGrows(issued: Ledger, after: Ledger, log: seq<Issued>, objects: nat, record: Issued)
    requires LogInv(issued, log, objects) && AddsOnly(issued, after, record) && record.decision.id == objects
    ensures LogInv(after, log + [record], objects + 1)
  {
    forall lease | lease in after ensures after[lease] in log + [record] {
      assert (log + [record])[|log|] == record;
      if after[lease] != record {
        assert issued[lease] in log;
      }
    }
  }

  lemma PurgedLog(issued: Ledger, log: seq<Issued>, objects: nat, now: int)
    requires LogInv(issued, log, objects)
    ensures LogInv(Purge(issued, now), log, objects + 1)
  {
  }

  lemma AdmitMeans(issued: Ledger, record: Issued, now: int)
    ensures var live, (after, outcome) := Purge(issued, now), Admit(issued, record, now);
      if |live| >= MAX_RETAINED then after == live && outcome == CapacityExhausted
      else if record.decision.value.lease in live then after == live && outcome == LeaseTaken
      else after == live[record.decision.value.lease := record] && outcome == Retained
  {
  }

  /** Whatever the outcome, the ledger and the log stay valid together. */
  lemma AdmitIsValid(issued: Ledger, log: seq<Issued>, objects: nat, record: Issued, now: int)
    requires LedgerInv(issued) && LogInv(issued, log, objects) && Supported(record) && record.decision.id == objects
    ensures LedgerInv(Admit(issued, record, now).0)
    ensures LogInv(Admit(issued, record, now).0, log + [record], objects + 1)
    ensures !Admit(issued, record, now).1.Retained? ==> LogInv(Admit(issued, record, now).0, log, objects + 1)
  {
    hide Supported, Purge, LedgerInv, LogInv, KeepsLive, AddsOnly;
    AdmitKeeps(issued, record, now);
    PurgedLog(issued, log, objects, now);
    LogGrows(issued, Admit(issued, record, now).0, log, objects, record);
  }

  class Owner {
    var issued: Ledger
    var objects: nat
    ghost var log: seq<Issued>

    ghost predicate Valid()
      reads this
    {
      LedgerInv(issued) && LogInv(issued, log, objects)
    }

    constructor ()
      ensures Valid() && issued == map[] && log == []
    {
      issued, objects, log := map[], 0, [];
    }

    /** Remove exactly the expired records. */
    method PurgeExpired(now: int)
      modifies `issued
      ensures issued == Purge(old(issued), now)
    {
      var pending := issued.Keys;
      var kept := issued;
      while pending != {}
        invariant pending <= issued.Keys
        invariant issued == old(issued)
        invariant kept.Keys <= issued.Keys
        invariant forall lease :: lease in issued ==>
          (lease in kept <==> lease in pending || now < issued[lease].decision.value.expires)
        invariant forall lease :: lease in kept ==> kept[lease] == issued[lease]
        decreases |pending|
      {
        var lease :| lease in pending;
        if now >= issued[lease].decision.value.expires {
          kept := kept - {lease};
        }
        pending := pending - {lease};
      }
      issued := kept;
    }

    /** Retain one decision, after purging: refused at capacity or while its lease is live. */
    method Retain(record: Issued, now: int) returns (outcome: Admission)
      requires Valid() && Supported(record) && record.decision.id == objects
      modifies this
      ensures Valid() && issued == Admit(old(issued), record, now).0 && outcome == Admit(old(issued), record, now).1
      ensures log == old(log) + (if outcome.Retained? then [record] else []) && objects == old(objects) + 1
    {
      hide Supported, Purge, LedgerInv, LogInv, KeepsLive, AddsOnly, Admit;
      AdmitMeans(issued, record, now);
      AdmitIsValid(issued, log, objects, record, now);
      PurgeExpired(now);
      objects := objects + 1;
      var lease := record.decision.value.lease;
      if |issued| >= MAX_RETAINED {
        outcome := CapacityExhausted;
      } else if lease in issued {
        outcome := LeaseTaken;
      } else {
        issued := issued[lease := record];
        log := log + [record];
        outcome := Retained;
      }
    }

    /** Evaluate affordability. A decision is granted iff the evidence stood at both clock readings,
        the sum is affordable and the ledger could retain it; nothing else changes the ledger. */
    method Evaluate(request: Handle<Request>, a: Answers) returns (reply: Reply)
      requires Valid()
      modifies this
      ensures Valid() && old(log) <= log
      ensures !Affordable(request.value, a) ==> !reply.Granted? && issued == old(issued) && log == old(log)
      ensures Affordable(request.value, a) ==>
        var decision := DecisionFrom(request.value, a.evidence.value, a.decisionNow).value;
        var record := Issued(request, Handle(old(objects), decision), a.evidence.value);
        && issued == Admit(old(issued), record, a.decisionNow).0
        && (reply.Granted? <==> Admit(old(issued), record, a.decisionNow).1.Retained?)
        && (reply.Granted? ==> reply.decision == record.decision && log == old(log) + [record])
        && (!reply.Granted? ==> log == old(log))
        && (reply == Unavailable(CapacityReached) <==> Admit(old(issued), record, a.decisionNow).1.CapacityExhausted?)
      ensures forall d :: reply == Insufficient(d) <==>
        Backed(request.value, a) && Decides(request.value, a, d) && !d.affordable
      ensures reply == Unavailable(RouteMismatch) <==> a.runtime && !a.route
      ensures reply == Unavailable(RuntimeUnavailable) <==>
        || !a.runtime
        || (a.route && a.evidence.Some? && EvidenceStands(request.value, a.evidence.value, a.validationNow) &&
            a.issuerValid && !a.runtimeAgain)
      ensures reply == Unavailable(CapacityReached) ==> Affordable(request.value, a)
    {
      hide EvidenceStands, DecisionFrom, LedgerInv, LogInv, Admit;
      if !a.runtime {
        return Unavailable(RuntimeUnavailable);
      }
      if !a.route {
        return Unavailable(RouteMismatch);
      }
      if a.evidence.None? {
        return Unavailable(EvidenceUnavailable);
      }
      var e := a.evidence.value;
      var stands := ValidateEvidence(request.value, e, a.validationNow);
      if !stands || !a.issuerValid {
        return Unavailable(EvidenceUnavailable);
      }
      if !a.runtimeAgain {
        return Unavailable(RuntimeUnavailable);
      }
      stands := ValidateEvidence(request.value, e, a.decisionNow);
      if !stands {
        return Unavailable(EvidenceUnavailable);
      }
      StandingIsAccepted(request.value, e, a.decisionNow);
      var decision := DecisionFrom(request.value, e, a.decisionNow);
      if decision.None? {
        return Unavailable(EvidenceUnavailable);
      }
      if !decision.value.affordable {
        return Insufficient(decision.value);
      }
      var record := Issued(request, Handle(objects, decision.value), e);
      var outcome := Retain(record, a.decisionNow);
      match outcome {
        case Retained => reply := Granted(record.decision);
        case CapacityExhausted => reply := Unavailable(CapacityReached);
        case LeaseTaken => reply := Unavailable(EvidenceUnavailable);
      }
    }

    /** Confirm a decision: true iff it is the object retained under its lease for this very
        request, and the evidence supports it at both readings of the clock. */
    method Revalidate(request: Handle<Request>, decision: Handle<Decision>, c: Checks) returns (ok: bool)
      requires Valid()
      ensures ok <==> decision.value.lease in issued && Confirmed(issued[decision.value.lease], request, decision, c)
      ensures ok ==> exists i :: 0 <= i < |log| && log[i].request == request && log[i].decision == decision
    {
      hide EvidenceStands, DecisionFrom, LedgerInv;
      if !c.runtime || !c.route || decision.value.lease !in issued {
        return false;
      }
      var record := issued[decision.value.lease];
      if record.request != request || record.decision != decision || !decision.value.affordable {
        return false;
      }
      var stands := ValidateEvidence(request.value, record.evidence, c.now);
      if !stands {
        return false;
      }
      StandingIsAccepted(request.value, record.evidence, c.now);
      if DecisionFrom(request.value, record.evidence, c.now) != Some(decision.value) || !c.issuerValid ||
          !c.runtimeAgain {
        return false;
      }
      stands := ValidateEvidence(request.value, record.evidence, c.finalNow);
      if !stands {
        return false;
      }
      ok := DecisionFrom(request.value, record.evidence, c.finalNow) == Some(decision.value);
    }
  }

  lemma StandingIsAccepted(r: Request, e: Evidence, now: int)
    requires EvidenceStands(r, e, now)
    ensures r.rule.Accepted?
  {
  }

  // ---- what a confirmation means ------------------------------------------------------------

  /** The clock lies inside the windows of the certified queries, the account lease and, for a close, the
      position evidence, and before the rule facts expire. When the rule facts begin is not compared. */
  ghost predicate InsideWindows(r: Request, e: Evidence, now: int) {
    && r.rule.Accepted? && r.facts.expires.Some? && now < r.facts.expires.value
    && |e.queries| == 7
    && (forall i :: 0 <= i < |e.queries| ==> e.queries[i].completed <= now < e.queries[i].expires)
    && e.account.leaseIssued <= now < e.account.leaseExpires
    && (!r.rule.offset.Open? ==>
          && r.order.evidenceObserved.Some? && r.order.evidenceExpires.Some?
          && r.order.evidenceObserved.value <= now < r.order.evidenceExpires.value)
  }

  lemma StandingIsInside(r: Request, e: Evidence, now: int)
    requires EvidenceStands(r, e, now)
    ensures InsideWindows(r, e, now)
  {
    hide CheckFee, BalanceCovers;
  }

  /** Evidence that stood once stands at every clock inside its own window. */
  lemma StandsUntilExpiry(r: Request, e: Evidence, now: int, later: int)
    requires EvidenceStands(r, e, now) && e.observed <= later < e.expires
    ensures EvidenceStands(r, e, later)
  {
    hide CheckFee, BalanceCovers, CertificateIsSound, PositionIsBound;
  }

  /** A confirmed decision is current at the last clock reading, was granted as accepted, and its
      exact requirement, with the exact fee, is within the amount the provider's account shows. */
  lemma ConfirmedIsCurrent(record: Issued, request: Handle<Request>, decision: Handle<Decision>, c: Checks)
    requires Confirmed(record, request, decision, c)
    ensures InsideWindows(request.value, record.evidence, c.finalNow)
    ensures decision.value.affordable
    ensures CheckFee(request.value, record.evidence).FeeStands?
    ensures BalanceCovers(record.evidence.account.balances, record.evidence.currency, decision.value.available)
    ensures var fee, before := ParseAmount(request.value.rule.estimate), ParseAmount(record.evidence.beforeFee);
      && fee.Some? && before.Some? && ParseAmount(decision.value.available).Some?
      && Val(before.value) + Val(fee.value) <= Val(ParseAmount(decision.value.available).value)
  {
    var r, e := request.value, record.evidence;
    StandingIsInside(r, e, c.finalNow);
    DecisionIsExact(r, e, c.finalNow);
    hide InsideWindows, CheckFee, BalanceCovers, ParseAmount, Val, Show, Add, PositionIsBound, CertificateIsSound;
  }

  /** For a retained record, confirmation holds exactly for the same two objects, with every
      outside check passed, and both clock readings inside the evidence's own window. */
  lemma ConfirmedIff(record: Issued, request: Handle<Request>, decision: Handle<Decision>, c: Checks)
    requires Supported(record)
    ensures Confirmed(record, request, decision, c) <==>
      && record.request == request && record.decision == decision
      && c.runtime && c.route && c.issuerValid && c.runtimeAgain
      && record.evidence.observed <= c.now < record.evidence.expires
      && record.evidence.observed <= c.finalNow < record.evidence.expires
  {
    var r, e := record.request.value, record.evidence;
    var at :| EvidenceStands(r, e, at) && DecisionFrom(r, e, at) == Some(record.decision.value);
    StandsInside(r, e, at);
    if e.observed <= c.now < e.expires && e.observed <= c.finalNow < e.expires {
      StandsUntilExpiry(r, e, at, c.now);
      StandsUntilExpiry(r, e, at, c.finalNow);
      DecisionIsStable(r, e, at, c.now);
      DecisionIsStable(r, e, at, c.finalNow);
    }
    if Confirmed(record, request, decision, c) {
      StandsInside(r, e, c.now);
      StandsInside(r, e, c.finalNow);
    }
    hide EvidenceStands, DecisionFrom;
  }

  lemma StandsInside(r: Request, e: Evidence, now: int)
    requires EvidenceStands(r, e, now)
    ensures e.observed <= now < e.expires
  {
  }

  ghost predicate OthersBefore(entries: seq<Entry>, expires: int) {
    forall i :: 0 <= i < |entries| ==> entries[i].now < expires
  }

  /** A decision, once granted, stays in the ledger under its evidence's lease through every run of other
      evaluations made before the evidence expires, and until then it is confirmed at every pair of clock
      readings inside the evidence's window at which the outside checks pass, and at no other. */
  lemma GrantedIsConfirmed(issued: Ledger, record: Issued, now: int, entries: seq<Entry>, c: Checks)
    requires LedgerInv(issued) && Supported(record) && Admit(issued, record, now).1.Retained?
    requires AllSupported(entries) && OthersBefore(entries, record.evidence.expires)
    ensures var after := RunLedger(Admit(issued, record, now).0, entries);
      && record.evidence.lease in after && after[record.evidence.lease] == record
      && (Confirmed(after[record.evidence.lease], record.request, record.decision, c) <==>
            && c.runtime && c.route && c.issuerValid && c.runtimeAgain
            && record.evidence.observed <= c.now < record.evidence.expires
            && record.evidence.observed <= c.finalNow < record.evidence.expires)
  {
    hide Supported, Confirmed, LedgerInv, KeepsLive, AddsOnly;
    DecisionIsOfEvidence(record);
    AdmitKeeps(issued, record, now);
    var after := Admit(issued, record, now).0;
    hide Admit;
    LiveLeaseStays(after, entries, record.evidence.lease);
    ConfirmedIff(record, record.request, record.decision, c);
  }

  lemma DecisionIsOfEvidence(record: Issued)
    requires Supported(record)
    ensures record.decision.value.lease == record.evidence.lease
    ensures record.decision.value.expires == record.evidence.expires
  {
    var at :| EvidenceStands(record.request.value, record.evidence, at) &&
        DecisionFrom(record.request.value, record.evidence, at) == Some(record.decision.value);
    hide EvidenceStands, DecisionFrom;
    DecisionIsExact(record.request.value, record.evidence, at);
  }

  // ---- the window of the rule facts -----------------------------------------------------------

  predicate InFactsWindow(f: Rules.Facts, now: int) {
    f.observed.Some? && f.expires.Some? && f.observed.value <= now < f.expires.value
  }

  /** Every confirmation of this record lies in the whole window of its rule facts. */
  ghost predicate ConfirmsInFactsWindow(record: Issued) {
    forall request, decision, c :: Confirmed(record, request, decision, c) ==>
      InFactsWindow(record.request.value.facts, c.finalNow)
  }

  lemma SupportedExpiry(record: Issued)
    requires Supported(record)
    ensures record.evidence.observed < record.evidence.expires
    ensures record.request.value.facts.expires.Some?
    ensures record.evidence.expires <= record.request.value.facts.expires.value
  {
    var at :| EvidenceStands(record.request.value, record.evidence, at) &&
        DecisionFrom(record.request.value, record.evidence, at) == Some(record.decision.value);
    hide CheckFee, AccountStands, PositionIsBound, CertificateIsSound;
  }

  /** A retained decision is confirmed only inside the whole window of its rule facts iff those were
      observed no later than the evidence: nothing else compares when they begin. */
  lemma FactsWindowIff(record: Issued)
    requires Supported(record)
    ensures var observed := record.request.value.facts.observed;
      ConfirmsInFactsWindow(record) <==> observed.Some? && observed.value <= record.evidence.observed
  {
    SupportedExpiry(record);
    hide Supported, Confirmed;
    var e := record.evidence;
    var first := Checks(e.observed, true, true, true, true, e.observed);
    ConfirmedIff(record, record.request, record.decision, first);
    assert Confirmed(record, record.request, record.decision, first);
    forall request, decision, c | Confirmed(record, request, decision, c)
      ensures e.observed <= c.finalNow < e.expires
    {
      ConfirmedIff(record, request, decision, c);
    }
  }

  /** A decision the rules really made, no later than the last clock reading, is confirmed only inside
      the whole window of its rule facts. */
  lemma GenuineIsInFactsWindow(record: Issued, request: Handle<Request>, decision: Handle<Decision>, c: Checks,
                               at: int, validated: bool)
    requires Confirmed(record, request, decision, c) && at <= c.finalNow
    requires request.value.rule == Rules.Evaluate(request.value.order, Some(request.value.facts), at, validated)
    ensures InFactsWindow(request.value.facts, c.finalNow)
  {
    hide Rules.Evaluate, CheckFee;
    StandingIsInside(request.value, record.evidence, c.finalNow);
    Rules.AcceptedIsPriced(request.value.order, Some(request.value.facts), at, validated);
  }
}
