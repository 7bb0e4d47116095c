/** Exactly which orders are accepted, and which defect a refusal names.

    A defect is a condition on the request, the facts and the clock; the defects are listed in the order
    in which an order is examined for them.
 */
module OrderDefects {
  import opened Options
  import opened Decimals
  import opened DecimalTexts
  import opened TickTest
  import opened OrderRules

  // ---- the position an order acts on -----------------------------------------------------------------

  ghost predicate Covers(size: Option<Dec>, quantity: Dec) {
    size.Some? && Val(quantity) <= Val(size.value)
  }

  /** A buy opens long and a sell opens short. */
  ghost predicate OpensSide(s: Side, p: PositionSide) {
    (s == Buy && p == Long) || (s == Sell && p == Short)
  }

  /** A sell closes long and a buy closes short. */
  ghost predicate ClosesSide(s: Side, p: PositionSide) {
    (s == Sell && p == Long) || (s == Buy && p == Short)
  }

  /** A close of a named age stays within what is reported of that age. */
  ghost predicate BucketCovers(q: Request, p: PositionSide, o: Offset, quantity: Dec) {
    && (p == Long && o == CloseToday ==> Covers(q.longToday, quantity))
    && (p == Long && o == CloseYesterday ==> Covers(q.longYesterday, quantity))
    && (p == Short && o == CloseToday ==> Covers(q.shortToday, quantity))
    && (p == Short && o == CloseYesterday ==> Covers(q.shortYesterday, quantity))
  }

  ghost predicate DualPermits(q: Request, s: Side, quantity: Dec, p: PositionSide, o: Offset) {
    && q.positionSide == Some(p) && q.offset == Some(o)
    && (o == Open ==> OpensSide(s, p))
    && (o != Open ==> o != OtherOffset && ClosesSide(s, p))
    && (o != Open && p == Long ==> Covers(q.long, quantity))
    && (o != Open && p == Short ==> Covers(q.short, quantity))
    && BucketCovers(q, p, o, quantity)
  }

  /** The net position is on the side this order would reduce. */
  ghost predicate Against(q: Request, s: Side) {
    q.net.Some? && ((s == Buy && NetVal(q.net.value) < 0.0) || (s == Sell && NetVal(q.net.value) > 0.0))
  }

  /** How much of the net position this order can close; the size of a short one is rounded to 28 digits. */
  ghost function Closable(q: Request, s: Side): real
    requires q.net.Some?
  {
    if !Against(q, s) then 0.0
    else if s == Buy then Val(Round(q.net.value.size, 28))
    else NetVal(q.net.value)
  }

  /** The offset an order of net mode has: its own, or a close against the position and an open otherwise. */
  ghost predicate NetMeans(q: Request, s: Side, o: Offset) {
    q.offset == Some(o) || (q.offset.None? && q.net.Some? && o == (if Against(q, s) then Close else Open))
  }

  ghost predicate NetPermits(q: Request, s: Side, quantity: Dec, p: PositionSide, o: Offset) {
    && NetMeans(q, s, o)
    && (q.positionSide.None? || q.positionSide == Some(p))
    && (o == Open ==> OpensSide(s, p))
    && (o != Open ==> ClosesSide(s, p) && q.net.Some? && Val(quantity) <= Closable(q, s))
    && BucketCovers(q, p, o, quantity)
  }

  lemma SignsAre(q: Request)
    requires q.net.Some?
    ensures NetVal(q.net.value) < 0.0 <==> Below(q.net.value)
    ensures NetVal(q.net.value) > 0.0 <==> Above(q.net.value)
    ensures Val(ZERO) == 0.0 && (q.net.value.size.coef == 0 ==> Val(q.net.value.size) == 0.0)
  {
    ValSign(q.net.value.size);
    ValSign(ZERO);
  }

  /** A dual-side order acts iff it names both a side and an offset, an open is a buy of the long or a sell of
      the short side, a close is a sell of the long or a buy of the short side, and a close stays within the
      reported size of the side and of any age it names. */
  lemma DualActsIff(q: Request, s: Side, quantity: Dec, p: PositionSide, o: Offset)
    requires q.mode.DualSide?
    ensures PositionAction(q, s, quantity) == Act(p, o) <==> DualPermits(q, s, quantity, p, o)
  {
    hide Val, ParseAmount;
  }

  /** A net order acts iff the side it names, if any, is the one its offset means, and a close stays within
      the closable part of the position and within any age it names. */
  lemma NetActsIff(q: Request, s: Side, quantity: Dec, p: PositionSide, o: Offset)
    requires q.mode.NetMode? && !s.OtherSide?
    ensures PositionAction(q, s, quantity) == Act(p, o) <==> NetPermits(q, s, quantity, p, o)
  {
    hide Val, ParseAmount, Round;
    if q.net.Some? {
      SignsAre(q);
    }
  }

  /** The order acts on this side of the position with this offset. */
  ghost predicate Permits(q: Request, s: Side, quantity: Dec, p: PositionSide, o: Offset) {
    match q.mode
    case DualSide => DualPermits(q, s, quantity, p, o)
    case NetMode => NetPermits(q, s, quantity, p, o)
    case OtherMode => false
  }

  lemma ActsIff(q: Request, s: Side, quantity: Dec, p: PositionSide, o: Offset)
    requires !s.OtherSide?
    ensures PositionAction(q, s, quantity) == Act(p, o) <==> Permits(q, s, quantity, p, o)
  {
    match q.mode
    case DualSide => DualActsIff(q, s, quantity, p, o);
    case NetMode => NetActsIff(q, s, quantity, p, o);
    case OtherMode =>
  }

  // ---- the defects of a position action ----------------------------------------------------------------

  ghost predicate Means(q: Request, s: Side, o: Offset) {
    if q.mode.NetMode? then NetMeans(q, s, o) else q.offset == Some(o)
  }

  ghost predicate NetCloses(q: Request, s: Side) {
    (q.offset.Some? && q.offset.value != Open) || (q.offset.None? && Against(q, s))
  }

  /** The reported size a close is measured against. */
  ghost function Held(q: Request, s: Side): Option<real> {
    if q.mode.NetMode? then (if q.net.Some? then Some(Closable(q, s)) else None)
    else if s == Sell then (if q.long.Some? then Some(Val(q.long.value)) else None)
    else (if q.short.Some? then Some(Val(q.short.value)) else None)
  }

  /** The reported size of the age a close names, where it names one. */
  ghost function Aged(q: Request, s: Side): Option<Dec> {
    match (s, q.offset)
    case (Sell, Some(CloseToday)) => q.longToday
    case (Sell, Some(CloseYesterday)) => q.longYesterday
    case (Buy, Some(CloseToday)) => q.shortToday
    case (Buy, Some(CloseYesterday)) => q.shortYesterday
    case _ => None
  }

  ghost predicate IsAged(q: Request) {
    q.offset == Some(CloseToday) || q.offset == Some(CloseYesterday)
  }

  /** What is wrong with the position an order would act on. */
  ghost predicate ActionDefect(q: Request, s: Side, quantity: Dec, r: Reason) {
    match r
    case ModeUnsupported => q.mode.OtherMode?
    case DualMetadataRequired => q.mode.DualSide? && (q.positionSide.None? || q.offset.None?)
    case DualActionInvalid =>
      && q.mode.DualSide? && q.positionSide.Some? && q.offset.Some?
      && !(q.offset.value == Open && OpensSide(s, q.positionSide.value))
      && !(q.offset.value in {Close, CloseToday, CloseYesterday} && ClosesSide(s, q.positionSide.value))
    case ReversalNeedsSplit =>
      q.mode.NetMode? && q.offset.None? && Against(q, s) && Val(quantity) > Closable(q, s)
    case SideConflict =>
      && q.mode.NetMode? && q.positionSide.Some?
      && ((NetMeans(q, s, Open) && !OpensSide(s, q.positionSide.value)) ||
          (NetCloses(q, s) && !ClosesSide(s, q.positionSide.value)))
    case SizeUnavailable => q.mode.DualSide? && q.offset != Some(Open) && Held(q, s).None?
    case NetUnavailable => q.mode.NetMode? && q.offset != Some(Open) && Held(q, s).None?
    case CloseExceedsPosition => !Means(q, s, Open) && Held(q, s).Some? && Val(quantity) > Held(q, s).value
    case BucketUnavailable => IsAged(q) && Aged(q, s).None?
    case CloseExceedsBucket => IsAged(q) && Aged(q, s).Some? && Val(quantity) > Val(Aged(q, s).value)
    case _ => false
  }

  /** Where a reason stands in the order of examination. */
  function Rank(r: Reason): nat {
    match r
    case FactsUnavailable => 0
    case GenerationUnavailable => 1
    case InstrumentMismatch => 2
    case GenerationMismatch => 3
    case FactsExpired => 4
    case FactsFromFuture => 5
    case SideUnsupported => 6
    case LimitOnly => 7
    case GoodForDayOnly => 8
    case LimitPriceRequired => 9
    case PriceUnavailable => 10
    case DecimalInvalid => 11
    case QuantityNotWhole => 12
    case CurrencyUnverified => 13
    case InvalidTick => 14
    case OptionIncomplete => 15
    case ModeUnsupported => 16
    case DualMetadataRequired => 17
    case DualActionInvalid => 18
    case ReversalNeedsSplit => 19
    case SideConflict => 20
    case SizeUnavailable => 21
    case NetUnavailable => 22
    case CloseExceedsPosition => 23
    case BucketUnavailable => 24
    case CloseExceedsBucket => 25
    case EvidenceUnavailable => 26
    case EvidenceStale => 27
    case EvidenceUnverified => 28
    case FeeRuleUnavailable => 29
    case FeeUnverified => 30
    case FeeCurrencyMismatch => 31
    case EstimateInvalid => 32
  }

  /** An order known to be wrong is rejected, a number that is not positive raises an error, and what is not
      known, current or verified makes the order unavailable. */
  function StatusOf(r: Reason): Status {
    match r
    case DecimalInvalid => Raised
    case SideUnsupported | LimitOnly | GoodForDayOnly | LimitPriceRequired | QuantityNotWhole | InvalidTick => Rejected
    case DualMetadataRequired | DualActionInvalid | CloseExceedsPosition | CloseExceedsBucket => Rejected
    case ModeUnsupported | ReversalNeedsSplit | SideConflict => Rejected
    case _ => Unavailable
  }

  lemma DualDefectIsFirst(q: Request, s: Side, quantity: Dec)
    requires q.mode.DualSide? && !s.OtherSide? && PositionAction(q, s, quantity).Decline?
    ensures var a := PositionAction(q, s, quantity);
      && ActionDefect(q, s, quantity, a.reason) && a.status == StatusOf(a.reason)
      && forall r :: ActionDefect(q, s, quantity, r) ==> Rank(r) >= Rank(a.reason)
  {
    hide Val, ParseAmount;
  }

  lemma NetDefectIsFirst(q: Request, s: Side, quantity: Dec)
    requires q.mode.NetMode? && !s.OtherSide? && PositionAction(q, s, quantity).Decline?
    ensures var a := PositionAction(q, s, quantity);
      && ActionDefect(q, s, quantity, a.reason) && a.status == StatusOf(a.reason)
      && forall r :: ActionDefect(q, s, quantity, r) ==> Rank(r) >= Rank(a.reason)
  {
    hide Val, ParseAmount, Round;
    if q.net.Some? {
      SignsAre(q);
    }
  }

  lemma NoDefectActs(q: Request, s: Side, quantity: Dec)
    requires !s.OtherSide? && PositionAction(q, s, quantity).Act?
    ensures forall r :: !ActionDefect(q, s, quantity, r)
  {
    hide Val, ParseAmount, Round;
    if q.net.Some? {
      SignsAre(q);
    }
  }

  // ---- the other defects ------------------------------------------------------------------------------------

  ghost predicate NotPositive(n: Option<Num>) {
    n.Some? && Val(n.value.value) <= 0.0
  }

  /** What is wrong with the order, or with the facts it is held against, before any position is looked at. */
  ghost predicate VenueDefect(q: Request, facts: Option<Facts>, now: int, r: Reason) {
    match facts
    case None => r.FactsUnavailable?
    case Some(f) => (
      match r
      case FactsUnavailable => !f.available
      case GenerationUnavailable => q.generation.None?
      case InstrumentMismatch => f.instrument != q.instrument
      case GenerationMismatch => q.generation != Some(f.generation)
      case FactsExpired => f.expires.None? || now >= f.expires.value
      case FactsFromFuture => f.observed.None? || now < f.observed.value
      case SideUnsupported => q.side.OtherSide?
      case LimitOnly => !q.limitOrder
      case GoodForDayOnly => !q.goodForDay
      case LimitPriceRequired => q.limitPrice.None?
      case PriceUnavailable => f.tick.None? || f.multiplier.None?
      case DecimalInvalid =>
        NotPositive(q.limitPrice) || NotPositive(f.tick) || NotPositive(f.multiplier) || NotPositive(Some(q.quantity))
      case QuantityNotWhole => Val(q.quantity.value) != Val(q.quantity.value).Floor as real
      case CurrencyUnverified => !f.currencyVerified || f.currency.None?
      case InvalidTick =>
        q.limitPrice.Some? && f.tick.Some? && Positive(f.tick.value) &&
        !Aligns(q.limitPrice.value.value, f.tick.value.value)
      case OptionIncomplete => f.isOption && !f.optionComplete
      case _ => false
    )
  }

  ghost function MeantOffset(q: Request): Offset {
    if q.offset.Some? then q.offset.value else if Against(q, q.side) then Close else Open
  }

  /** What is wrong with the evidence of the position, or with the fee of the order. */
  ghost predicate TermsDefect(q: Request, f: Facts, now: int, validated: bool, r: Reason) {
    var rule := FeeRuleFor(f.rules, MeantOffset(q));
    match r
    case EvidenceUnavailable =>
      && q.offset != Some(Open)
      && (q.evidenceRef.None? || q.evidenceGeneration != q.generation ||
          q.evidenceObserved.None? || q.evidenceExpires.None?)
    case EvidenceStale =>
      && q.offset != Some(Open) && q.evidenceObserved.Some? && q.evidenceExpires.Some?
      && !(q.evidenceObserved.value <= now < q.evidenceExpires.value)
    case EvidenceUnverified => q.offset != Some(Open) && !validated
    case FeeRuleUnavailable => rule.None?
    case FeeUnverified =>
      && rule.Some?
      && (!rule.value.verified || rule.value.currency.None? || rule.value.rate.None? || rule.value.amount.None? ||
          rule.value.source.None? || rule.value.generation != f.generation ||
          rule.value.currencyGeneration != Some(f.generation))
    case FeeCurrencyMismatch => rule.Some? && rule.value.currency != f.currency
    case EstimateInvalid =>
      && rule.Some? && rule.value.rate.Some? && rule.value.amount.Some? && q.limitPrice.Some? && f.multiplier.Some?
      && |Show(RuleFee(q.quantity, q.limitPrice.value, f.multiplier.value, rule.value))| > 128
    case _ => false
  }

  ghost predicate Defect(q: Request, facts: Option<Facts>, now: int, validated: bool, r: Reason) {
    || VenueDefect(q, facts, now, r)
    || ActionDefect(q, q.side, q.quantity.value, r)
    || (facts.Some? && TermsDefect(q, facts.value, now, validated, r))
  }

  // ---- a refusal names the first defect ------------------------------------------------------------------------

  ghost predicate IsFirst(q: Request, facts: Option<Facts>, now: int, validated: bool, r: Reason) {
    && Defect(q, facts, now, validated, r)
    && forall other :: Defect(q, facts, now, validated, other) ==> Rank(other) >= Rank(r)
  }

  lemma RanksAre(q: Request, facts: Option<Facts>, now: int, validated: bool, r: Reason)
    ensures VenueDefect(q, facts, now, r) ==> Rank(r) < 16
    ensures ActionDefect(q, q.side, q.quantity.value, r) ==> 16 <= Rank(r) < 26
    ensures facts.Some? && TermsDefect(q, facts.value, now, validated, r) ==> 26 <= Rank(r)
  {
    hide Val, Show, RuleFee, FeeRuleFor, Aligns, ParseAmount, Closable, Against;
  }

  lemma NumbersAre(q: Request, f: Facts)
    ensures NotPositive(Some(q.quantity)) <==> !Positive(q.quantity)
    ensures q.limitPrice.Some? ==> (NotPositive(q.limitPrice) <==> !Positive(q.limitPrice.value))
    ensures f.tick.Some? ==> (NotPositive(f.tick) <==> !Positive(f.tick.value))
    ensures f.multiplier.Some? ==> (NotPositive(f.multiplier) <==> !Positive(f.multiplier.value))
    ensures IsWholeNumber(q.quantity.value) <==> Val(q.quantity.value) == Val(q.quantity.value).Floor as real
  {
    hide Val, ParseAmount, IsWholeNumber;
    WholeIff(q.quantity.value);
    ValSign(q.quantity.value);
    if q.limitPrice.Some? {
      ValSign(q.limitPrice.value.value);
    }
    if f.tick.Some? {
      ValSign(f.tick.value.value);
    }
    if f.multiplier.Some? {
      ValSign(f.multiplier.value.value);
    }
  }

  /** The venue defects are examined first: the first of them is named, or there is none. */
  lemma VenueDefectIsFirst(q: Request, facts: Option<Facts>, now: int, validated: bool)
    ensures var e := Evaluate(q, facts, now, validated);
      if e.Refused? && VenueDefect(q, facts, now, e.reason) then
        && e.status == StatusOf(e.reason)
        && forall r :: VenueDefect(q, facts, now, r) ==> Rank(r) >= Rank(e.reason)
      else
        && facts.Some? && q.limitPrice.Some? && facts.value.multiplier.Some? && facts.value.currency.Some?
        && !q.side.OtherSide?
        && e == EvaluatePosition(q, facts.value, now, validated)
        && forall r :: !VenueDefect(q, facts, now, r)
  {
    hide Val, ParseAmount, IsWholeNumber, NotPositive, Aligns, EvaluatePosition;
    if facts.Some? {
      NumbersAre(q, facts.value);
    }
  }

  lemma ActionDefectIsFirst(q: Request, s: Side, quantity: Dec)
    requires !s.OtherSide? && PositionAction(q, s, quantity).Decline?
    ensures var a := PositionAction(q, s, quantity);
      && ActionDefect(q, s, quantity, a.reason) && a.status == StatusOf(a.reason)
      && forall r :: ActionDefect(q, s, quantity, r) ==> Rank(r) >= Rank(a.reason)
  {
    match q.mode
    case DualSide => DualDefectIsFirst(q, s, quantity);
    case NetMode => NetDefectIsFirst(q, s, quantity);
    case OtherMode => OtherDefectIsFirst(q, s, quantity);
  }

  lemma OtherDefectIsFirst(q: Request, s: Side, quantity: Dec)
    requires q.mode.OtherMode?
    ensures PositionAction(q, s, quantity) == Decline(StatusOf(ModeUnsupported), ModeUnsupported)
    ensures ActionDefect(q, s, quantity, ModeUnsupported)
    ensures forall r :: ActionDefect(q, s, quantity, r) ==> Rank(r) >= Rank(ModeUnsupported)
  {
    hide Val, ParseAmount;
  }

  /** The offset an order acts with is its own, or the one its position means. */
  lemma ActsAsMeant(q: Request, quantity: Dec)
    requires !q.side.OtherSide? && PositionAction(q, q.side, quantity).Act?
    ensures PositionAction(q, q.side, quantity).offset == MeantOffset(q)
    ensures NeedsEvidence(q) <==> q.offset != Some(Open)
  {
    hide PositionAction, Against, Val;
    var a := PositionAction(q, q.side, quantity);
    ActsIff(q, q.side, quantity, a.positionSide, a.offset);
  }

  /** The estimate is the text of the fee of the rule that prices the order. */
  ghost predicate HasFee(q: Request, f: Facts, e: Outcome) {
    && e.Accepted? && q.limitPrice.Some? && f.multiplier.Some? && FeeRuleFor(f.rules, e.offset).Some?
    && var rule := FeeRuleFor(f.rules, e.offset).value;
    && rule.rate.Some? && rule.amount.Some?
    && e.estimate == Show(RuleFee(q.quantity, q.limitPrice.value, f.multiplier.value, rule))
  }

  lemma TermsDefectIsFirst(q: Request, f: Facts, now: int, validated: bool)
    requires q.limitPrice.Some? && f.multiplier.Some? && f.currency.Some? && !q.side.OtherSide?
    requires PositionAction(q, q.side, q.quantity.value).Act?
    ensures var e, a := EvaluatePosition(q, f, now, validated), PositionAction(q, q.side, q.quantity.value);
      if e.Refused? then
        && TermsDefect(q, f, now, validated, e.reason) && e.status == StatusOf(e.reason)
        && forall r :: TermsDefect(q, f, now, validated, r) ==> Rank(r) >= Rank(e.reason)
      else
        && e.positionSide == a.positionSide && e.offset == a.offset && e.evidenceValidated == validated
        && HasFee(q, f, e)
        && forall r :: !TermsDefect(q, f, now, validated, r)
  {
    hide PositionAction, Val, Show, RuleFee, FeeRuleFor, ParseAmount, NeedsEvidence, MeantOffset;
    ActsAsMeant(q, q.quantity.value);
  }

  lemma AcceptedHasNoDefect(q: Request, facts: Option<Facts>, now: int, validated: bool)
    requires Evaluate(q, facts, now, validated).Accepted?
    ensures forall r :: !Defect(q, facts, now, validated, r)
    ensures var e := Evaluate(q, facts, now, validated);
      && facts.Some? && HasFee(q, facts.value, e) && e.evidenceValidated == validated
      && Permits(q, q.side, q.quantity.value, e.positionSide, e.offset)
  {
    hide Evaluate, PositionAction, VenueDefect, ActionDefect, TermsDefect, HasFee, Permits, ParseAmount;
    VenueDefectIsFirst(q, facts, now, validated);
    var f, a := facts.value, PositionAction(q, q.side, q.quantity.value);
    TermsDefectIsFirst(q, f, now, validated);
    NoDefectActs(q, q.side, q.quantity.value);
    ActsIff(q, q.side, q.quantity.value, a.positionSide, a.offset);
  }

  lemma RefusedHasDefect(q: Request, facts: Option<Facts>, now: int, validated: bool)
    requires Evaluate(q, facts, now, validated).Refused?
    ensures var e := Evaluate(q, facts, now, validated);
      IsFirst(q, facts, now, validated, e.reason) && e.status == StatusOf(e.reason)
  {
    hide Evaluate, PositionAction, VenueDefect, ActionDefect, TermsDefect, ParseAmount, Rank, StatusOf;
    VenueDefectIsFirst(q, facts, now, validated);
    var e, a := Evaluate(q, facts, now, validated), PositionAction(q, q.side, q.quantity.value);
    forall r
      ensures VenueDefect(q, facts, now, r) ==> Rank(r) < 16
      ensures ActionDefect(q, q.side, q.quantity.value, r) ==> 16 <= Rank(r) < 26
      ensures facts.Some? && TermsDefect(q, facts.value, now, validated, r) ==> 26 <= Rank(r)
    {
      RanksAre(q, facts, now, validated, r);
    }
    if !VenueDefect(q, facts, now, e.reason) {
      if a.Decline? {
        ActionDefectIsFirst(q, q.side, q.quantity.value);
      } else {
        NoDefectActs(q, q.side, q.quantity.value);
        TermsDefectIsFirst(q, facts.value, now, validated);
      }
    }
  }

  /** An order is accepted iff it has no defect, and then it acts on the side and with the offset its position
      permits and carries the fee of its rule; otherwise it is refused with the first defect it has. */
  lemma EvaluateNamesFirstDefect(q: Request, facts: Option<Facts>, now: int, validated: bool)
    ensures var e := Evaluate(q, facts, now, validated);
      && (e.Accepted? <==> forall r :: !Defect(q, facts, now, validated, r))
      && (e.Accepted? ==> facts.Some? && HasFee(q, facts.value, e) && e.evidenceValidated == validated &&
                          Permits(q, q.side, q.quantity.value, e.positionSide, e.offset))
      && (forall r :: e == Refused(StatusOf(r), r) <==> IsFirst(q, facts, now, validated, r))
  {
    hide Evaluate, Defect, StatusOf, HasFee, Permits, ParseAmount;
    if Evaluate(q, facts, now, validated).Accepted? {
      AcceptedHasNoDefect(q, facts, now, validated);
    } else {
      RefusedHasDefect(q, facts, now, validated);
      assert forall r, other :: Rank(r) == Rank(other) ==> r == other;
    }
  }
}
