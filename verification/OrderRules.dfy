/** Whether a CTP order may be placed: its facts, the position it acts on and its fee. */
module OrderRules {
  import opened Options
  import opened Decimals
  import opened DecimalTexts
  import opened TickTest

  /** Working precision of the commission, and of an ordinary decimal operation. */
  const FEE_PRECISION := 700
  const DEFAULT_PRECISION := 28

  /** A number as supplied: its text and the decimal it is read as. */
  datatype RawNum = Num(text: string, value: Dec)
  type Num = n: RawNum | ParseAmount(n.text).Some? ==> ParseAmount(n.text).value == n.value
    witness Num("", Dec(false, 0, 0))

  datatype Side = Buy | Sell | OtherSide
  datatype PositionSide = Long | Short
  datatype Mode = DualSide | NetMode | OtherMode
  datatype Offset = Open | Close | CloseToday | CloseYesterday | OtherOffset

  /** A signed position. */
  datatype Net = Net(negative: bool, size: Dec)

  datatype Request = Request(
    instrument: string, generation: Option<string>, side: Side, limitOrder: bool, goodForDay: bool,
    quantity: Num, limitPrice: Option<Num>,
    mode: Mode, positionSide: Option<PositionSide>, offset: Option<Offset>,
    long: Option<Dec>, short: Option<Dec>, net: Option<Net>,
    longToday: Option<Dec>, longYesterday: Option<Dec>, shortToday: Option<Dec>, shortYesterday: Option<Dec>,
    evidenceRef: Option<string>, evidenceGeneration: Option<string>,
    evidenceObserved: Option<int>, evidenceExpires: Option<int>)

  datatype FeeRule = FeeRule(
    role: Offset, rate: Option<Num>, amount: Option<Num>, verified: bool, currency: Option<string>,
    source: Option<string>, currencySource: Option<string>, generation: string, currencyGeneration: Option<string>)

  datatype Facts = Facts(
    instrument: string, available: bool, generation: string, observed: Option<int>, expires: Option<int>,
    tick: Option<Num>, multiplier: Option<Num>, currencyVerified: bool, currency: Option<string>,
    isOption: bool, optionComplete: bool, rules: seq<FeeRule>)

  datatype Status = Unavailable | Rejected | Raised

  datatype Reason =
    | FactsUnavailable | GenerationUnavailable | InstrumentMismatch | GenerationMismatch
    | FactsExpired | FactsFromFuture
    | SideUnsupported | LimitOnly | GoodForDayOnly | LimitPriceRequired | PriceUnavailable | DecimalInvalid
    | QuantityNotWhole | CurrencyUnverified | InvalidTick | OptionIncomplete
    | DualMetadataRequired | DualActionInvalid | SizeUnavailable | CloseExceedsPosition | BucketUnavailable
    | CloseExceedsBucket | ModeUnsupported | NetUnavailable | ReversalNeedsSplit | SideConflict
    | EvidenceUnavailable | EvidenceStale | EvidenceUnverified
    | FeeRuleUnavailable | FeeUnverified | FeeCurrencyMismatch | EstimateInvalid

  datatype Outcome =
    | Accepted(positionSide: PositionSide, offset: Offset, estimate: string, evidenceValidated: bool)
    | Refused(status: Status, reason: Reason)

  datatype Action = Act(positionSide: PositionSide, offset: Offset) | Decline(status: Status, reason: Reason)

  // ---- the position an order acts on ----------------------------------------------------------

  function NetVal(n: Net): real {
    if n.negative then -Val(n.size) else Val(n.size)
  }

  predicate Below(n: Net) {
    n.negative && n.size.coef > 0
  }

  predicate Above(n: Net) {
    !n.negative && n.size.coef > 0
  }

  /** The absolute value is an arithmetic operation: it rounds to the default precision. */
  function AbsSize(n: Net): Dec {
    Round(n.size, DEFAULT_PRECISION)
  }

  const ZERO: Dec := Dec(false, 0, 0)

  function Bucket(q: Request, p: PositionSide, o: Offset): Option<Dec> {
    match (p, o)
    case (Long, CloseToday) => q.longToday
    case (Long, CloseYesterday) => q.longYesterday
    case (Short, CloseToday) => q.shortToday
    case (Short, CloseYesterday) => q.shortYesterday
    case _ => None
  }

  predicate NamesBucket(o: Offset) {
    o.CloseToday? || o.CloseYesterday?
  }

  /** The last two tests of every close: the side's size and any named age bucket. */
  function CloseAction(q: Request, p: PositionSide, o: Offset, available: Dec, quantity: Dec): Action {
    if Val(quantity) > Val(available) then Decline(Rejected, CloseExceedsPosition)
    else if NamesBucket(o) && Bucket(q, p, o).None? then Decline(Unavailable, BucketUnavailable)
    else if NamesBucket(o) && Val(quantity) > Val(Bucket(q, p, o).value) then Decline(Rejected, CloseExceedsBucket)
    else Act(p, o)
  }

  predicate DualAllowed(s: Side, p: PositionSide, o: Offset) {
    match o
    case Open => (s.Buy? && p.Long?) || (s.Sell? && p.Short?)
    case OtherOffset => false
    case _ => (s.Sell? && p.Long?) || (s.Buy? && p.Short?)
  }

  function DualAction(q: Request, s: Side, quantity: Dec): Action {
    if q.positionSide.None? || q.offset.None? then Decline(Rejected, DualMetadataRequired)
    else
      var p, o := q.positionSide.value, q.offset.value;
      var available := if p.Long? then q.long else q.short;
      if !DualAllowed(s, p, o) then Decline(Rejected, DualActionInvalid)
      else if o.Open? then Act(p, o)
      else if available.None? then Decline(Unavailable, SizeUnavailable)
      else CloseAction(q, p, o, available.value, quantity)
  }

  /** The offset a net order means when it names none. */
  function InferOffset(n: Net, s: Side, quantity: Dec): Option<Offset> {
    if s.Buy? && Below(n) then (if Val(quantity) > Val(AbsSize(n)) then None else Some(Close))
    else if s.Sell? && Above(n) then (if Val(quantity) > Val(n.size) then None else Some(Close))
    else Some(Open)
  }

  function NetAvailable(n: Net, p: PositionSide): Dec {
    if p.Long? then (if Below(n) then ZERO else n.size)
    else if Below(n) then AbsSize(n) else ZERO
  }

  function NetActionWith(q: Request, s: Side, o: Offset, quantity: Dec): Action {
    var p := if o.Open? then (if s.Buy? then Long else Short) else (if s.Buy? then Short else Long);
    if q.positionSide.Some? && q.positionSide.value != p then Decline(Rejected, SideConflict)
    else if o.Open? then Act(p, o)
    else if q.net.None? then Decline(Unavailable, NetUnavailable)
    else CloseAction(q, p, o, NetAvailable(q.net.value, p), quantity)
  }

  function NetAction(q: Request, s: Side, quantity: Dec): Action {
    if q.offset.Some? then NetActionWith(q, s, q.offset.value, quantity)
    else if q.net.None? then Decline(Unavailable, NetUnavailable)
    else
      var inferred := InferOffset(q.net.value, s, quantity);
      if inferred.None? then Decline(Rejected, ReversalNeedsSplit) else NetActionWith(q, s, inferred.value, quantity)
  }

  function PositionAction(q: Request, s: Side, quantity: Dec): Action {
    match q.mode
    case DualSide => DualAction(q, s, quantity)
    case NetMode => NetAction(q, s, quantity)
    case OtherMode => Decline(Rejected, ModeUnsupported)
  }

  // ---- fee rules --------------------------------------------------------------------------------

  /** A dictionary by role keeps the last rule of each role. */
  function ByRole(rules: seq<FeeRule>, role: Offset): Option<FeeRule> {
    if rules == [] then None
    else if rules[|rules| - 1].role == role then Some(rules[|rules| - 1])
    else ByRole(rules[..|rules| - 1], role)
  }

  function FeeRuleFor(rules: seq<FeeRule>, o: Offset): Option<FeeRule> {
    if o.OtherOffset? then None
    else if o.CloseYesterday? && ByRole(rules, o).None? then ByRole(rules, Close)
    else ByRole(rules, o)
  }

  /** Rule i is the last of its role. */
  ghost predicate LastOfRole(rules: seq<FeeRule>, i: int, role: Offset) {
    0 <= i < |rules| && rules[i].role == role && forall j :: i < j < |rules| ==> rules[j].role != role
  }

  ghost predicate HasRole(rules: seq<FeeRule>, role: Offset) {
    exists i :: 0 <= i < |rules| && rules[i].role == role
  }

  ghost predicate IsLast(rules: seq<FeeRule>, role: Offset, r: FeeRule) {
    exists i :: LastOfRole(rules, i, role) && r == rules[i]
  }

  lemma LastStays(rules: seq<FeeRule>, role: Offset, r: FeeRule)
    requires rules != [] && rules[|rules| - 1].role != role && IsLast(rules[..|rules| - 1], role, r)
    ensures IsLast(rules, role, r)
  {
    hide ParseAmount;
    var n := |rules| - 1;
    var i :| LastOfRole(rules[..n], i, role) && r == rules[..n][i];
    assert forall j :: i < j < n ==> rules[j] == rules[..n][j];
    assert LastOfRole(rules, i, role);
  }

  lemma {:induction false} ByRoleIsLast(rules: seq<FeeRule>, role: Offset)
    ensures ByRole(rules, role).Some? <==> HasRole(rules, role)
    ensures ByRole(rules, role).Some? ==> IsLast(rules, role, ByRole(rules, role).value)
  {
    hide ParseAmount;
    if rules == [] {
    } else {
      var n := |rules| - 1;
      if rules[n].role == role {
        assert LastOfRole(rules, n, role);
      } else {
        ByRoleIsLast(rules[..n], role);
        if ByRole(rules, role).Some? {
          LastStays(rules, role, ByRole(rules, role).value);
        } else {
          assert forall i :: 0 <= i < n ==> rules[i] == rules[..n][i];
        }
      }
    }
  }

  /** The rule that prices an order: the last of its role, and for a close of yesterday's lots
      without a rule of its own the last plain close rule. */
  lemma FeeRuleIs(rules: seq<FeeRule>, o: Offset)
    ensures FeeRuleFor(rules, o).Some? <==>
      !o.OtherOffset? && (HasRole(rules, o) || (o.CloseYesterday? && HasRole(rules, Close)))
    ensures FeeRuleFor(rules, o).Some? && HasRole(rules, o) ==> IsLast(rules, o, FeeRuleFor(rules, o).value)
    ensures FeeRuleFor(rules, o).Some? && !HasRole(rules, o) ==> IsLast(rules, Close, FeeRuleFor(rules, o).value)
  {
    ByRoleIsLast(rules, o);
    ByRoleIsLast(rules, Close);
    hide HasRole, IsLast, ByRole, ParseAmount;
  }

  // ---- the evaluation ------------------------------------------------------------------------------

  predicate IsWholeNumber(d: Dec) {
    d.exp >= 0 || d.coef % Pow(-d.exp) == 0
  }

  predicate Positive(n: Num) {
    n.value.coef > 0
  }

  predicate NeedsEvidence(q: Request) {
    (q.mode.NetMode? && q.offset.None?) || (q.offset.Some? && !q.offset.value.Open?)
  }

  /** Why the position evidence of a request does not stand, if it does not. */
  function EvidenceProblem(q: Request, now: int, validated: bool): Option<Reason> {
    if q.evidenceRef.None? || q.evidenceGeneration != q.generation || q.evidenceObserved.None? ||
        q.evidenceExpires.None?
    then Some(EvidenceUnavailable)
    else if now < q.evidenceObserved.value || now >= q.evidenceExpires.value then Some(EvidenceStale)
    else if !validated then Some(EvidenceUnverified)
    else None
  }

  predicate RuleIsUsable(r: FeeRule, generation: string) {
    && r.verified && r.currency.Some? && r.rate.Some? && r.amount.Some? && r.source.Some?
    && r.generation == generation && r.currencyGeneration == Some(generation)
  }

  function RuleFee(quantity: Num, price: Num, multiplier: Num, r: FeeRule): Dec
    requires r.rate.Some? && r.amount.Some?
  {
    Fee(quantity.value, price.value, multiplier.value, r.rate.value.value, r.amount.value.value, FEE_PRECISION)
  }

  /** Price the order once its position action is known. */
  function Price(q: Request, f: Facts, a: Action, validated: bool): Outcome
    requires a.Act? && q.limitPrice.Some? && f.multiplier.Some? && f.currency.Some?
  {
    var rule := FeeRuleFor(f.rules, a.offset);
    if rule.None? then Refused(Unavailable, FeeRuleUnavailable)
    else if !RuleIsUsable(rule.value, f.generation) then Refused(Unavailable, FeeUnverified)
    else if rule.value.currency != f.currency then Refused(Unavailable, FeeCurrencyMismatch)
    else
      var text := Show(RuleFee(q.quantity, q.limitPrice.value, f.multiplier.value, rule.value));
      if |text| > MAX_TEXT then Refused(Unavailable, EstimateInvalid)
      else Accepted(a.positionSide, a.offset, text, validated)
  }

  function EvaluatePosition(q: Request, f: Facts, now: int, validated: bool): Outcome
    requires q.limitPrice.Some? && f.multiplier.Some? && f.currency.Some?
  {
    var a := PositionAction(q, q.side, q.quantity.value);
    if a.Decline? then Refused(a.status, a.reason)
    else
      var problem := if NeedsEvidence(q) then EvidenceProblem(q, now, validated) else None;
      if problem.Some? then Refused(Unavailable, problem.value) else Price(q, f, a, validated)
  }

  /** Evaluate an order against facts. */
  function Evaluate(q: Request, facts: Option<Facts>, now: int, validated: bool): Outcome {
    if facts.None? || !facts.value.available then Refused(Unavailable, FactsUnavailable)
    else
      var f := facts.value;
      if q.generation.None? then Refused(Unavailable, GenerationUnavailable)
      else if f.instrument != q.instrument then Refused(Unavailable, InstrumentMismatch)
      else if f.generation != q.generation.value then Refused(Unavailable, GenerationMismatch)
      else if f.expires.None? || now >= f.expires.value then Refused(Unavailable, FactsExpired)
      else if f.observed.None? || now < f.observed.value then Refused(Unavailable, FactsFromFuture)
      else if q.side.OtherSide? then Refused(Rejected, SideUnsupported)
      else if !q.limitOrder then Refused(Rejected, LimitOnly)
      else if !q.goodForDay then Refused(Rejected, GoodForDayOnly)
      else if q.limitPrice.None? then Refused(Rejected, LimitPriceRequired)
      else if f.tick.None? || f.multiplier.None? then Refused(Unavailable, PriceUnavailable)
      else if !Positive(q.limitPrice.value) || !Positive(f.tick.value) || !Positive(f.multiplier.value) ||
          !Positive(q.quantity)
      then Refused(Raised, DecimalInvalid)
      else if !IsWholeNumber(q.quantity.value) then Refused(Rejected, QuantityNotWhole)
      else if !f.currencyVerified || f.currency.None? then Refused(Unavailable, CurrencyUnverified)
      else if !Aligns(q.limitPrice.value.value, f.tick.value.value) then Refused(Rejected, InvalidTick)
      else if f.isOption && !f.optionComplete then Refused(Unavailable, OptionIncomplete)
      else EvaluatePosition(q, f, now, validated)
  }

  // ---- what an accepted position action does ----------------------------------------------------------

  function NetAfter(n: Net, s: Side, quantity: Dec): real {
    if s.Buy? then NetVal(n) + Val(quantity) else NetVal(n) - Val(quantity)
  }

  function AbsReal(x: real): real {
    if x < 0.0 then -x else x
  }

  lemma ValSign(d: Dec)
    ensures Val(d) >= 0.0 && (Val(d) > 0.0 <==> d.coef > 0)
  {
    var c, s := d.coef as real, Scale(d.exp);
    if d.coef > 0 {
      assert c > 0.0 && s > 0.0;
      assert c * s > 0.0;
    } else {
      assert c == 0.0;
      assert c * s == 0.0;
    }
  }

  /** Dual-side closes stay within the side's size and any named age bucket. */
  lemma DualCloseFits(q: Request, s: Side, quantity: Dec)
    requires q.mode.DualSide? && PositionAction(q, s, quantity).Act? && !PositionAction(q, s, quantity).offset.Open?
    ensures var a := PositionAction(q, s, quantity);
      var size := if a.positionSide.Long? then q.long else q.short;
      && q.offset == Some(a.offset) && q.positionSide == Some(a.positionSide)
      && (s.Sell? <==> a.positionSide.Long?)
      && size.Some? && Val(quantity) <= Val(size.value)
      && (NamesBucket(a.offset) ==> Bucket(q, a.positionSide, a.offset).Some? &&
                                    Val(quantity) <= Val(Bucket(q, a.positionSide, a.offset).value))
  {
    hide Val;
  }

  lemma NetActionShape(q: Request, s: Side, quantity: Dec)
    requires q.mode.NetMode? && PositionAction(q, s, quantity).Act?
    ensures var a := PositionAction(q, s, quantity);
      && a.positionSide == (if a.offset.Open? == s.Buy? then Long else Short)
      && (q.offset.Some? ==> q.offset.value == a.offset)
      && (q.offset.None? ==> q.net.Some? && InferOffset(q.net.value, s, quantity) == Some(a.offset))
      && (!a.offset.Open? ==> q.net.Some? && Val(quantity) <= Val(NetAvailable(q.net.value, a.positionSide)))
      && (NamesBucket(a.offset) ==> Bucket(q, a.positionSide, a.offset).Some? &&
                                    Val(quantity) <= Val(Bucket(q, a.positionSide, a.offset).value))
  {
    hide Val;
  }

  /** A net sell that closes never flips the position and reduces it by exactly the quantity. */
  lemma NetSellCloseReduces(q: Request, quantity: Dec)
    requires q.mode.NetMode? && quantity.coef > 0
    requires PositionAction(q, Sell, quantity).Act? && !PositionAction(q, Sell, quantity).offset.Open?
    ensures q.net.Some? && Above(q.net.value) && 0.0 <= NetAfter(q.net.value, Sell, quantity)
    ensures AbsReal(NetAfter(q.net.value, Sell, quantity)) == AbsReal(NetVal(q.net.value)) - Val(quantity)
  {
    NetActionShape(q, Sell, quantity);
    ValSign(quantity);
    ValSign(q.net.value.size);
    ValSign(ZERO);
    hide Val, PositionAction;
  }

  /** An inferred open grows the position by exactly the quantity. */
  lemma NetOpenGrows(q: Request, s: Side, quantity: Dec)
    requires q.mode.NetMode? && !s.OtherSide? && q.offset.None? && quantity.coef > 0
    requires PositionAction(q, s, quantity).Act? && PositionAction(q, s, quantity).offset.Open?
    ensures q.net.Some? && AbsReal(NetAfter(q.net.value, s, quantity)) == AbsReal(NetVal(q.net.value)) + Val(quantity)
  {
    NetActionShape(q, s, quantity);
    ValSign(quantity);
    ValSign(q.net.value.size);
    hide Val, PositionAction;
  }

  // ---- exactly when a net buy close can overshoot ----------------------------------------------------

  lemma WholeValue(d: Dec)
    requires IsWholeNumber(d)
    ensures Val(d) == Val(d).Floor as real
  {
    hide Scale;
    if d.exp >= 0 {
      ScaleIsPow(d.exp);
      RealProduct(d.coef, Pow(d.exp));
      assert Val(d) == (d.coef * Pow(d.exp)) as real;
    } else {
      var p, k := Pow(-d.exp), d.coef / Pow(-d.exp);
      assert d.coef == k * p;
      ScaleAdds(-d.exp, d.exp);
      ScaleZero();
      ScaleIsPow(-d.exp);
      RealProduct(k, p);
      Associate(k as real, p as real, Scale(d.exp));
      assert Val(d) == k as real * 1.0;
    }
  }

  /** A decimal is whole, as the code tests it, iff its value is. */
  lemma WholeIff(d: Dec)
    ensures IsWholeNumber(d) <==> Val(d) == Val(d).Floor as real
  {
    hide Scale;
    if IsWholeNumber(d) {
      WholeValue(d);
    } else if Val(d) == Val(d).Floor as real {
      ValSign(d);
      var p, k: nat := Pow(-d.exp), Val(d).Floor;
      ScaleAdds(d.exp, -d.exp);
      ScaleZero();
      ScaleIsPow(-d.exp);
      Associate(d.coef as real, Scale(d.exp), Scale(-d.exp));
      assert d.coef as real == k as real * p as real;
      RealProduct(k, p);
      assert d.coef == k * p;
      MultipleHasNoRemainder(k, p);
      assert false;
    }
  }

  lemma MultipleHasNoRemainder(k: int, p: int)
    requires p > 0
    ensures (k * p) % p == 0
  {
    var n := k * p;
    var q, r := n / p, n % p;
    assert (k - q) * p == r;
    BeyondOne(k - q, p);
  }

  lemma WholeDec(n: nat)
    ensures IsWholeNumber(Dec(false, n, 0)) && Val(Dec(false, n, 0)) == n as real
  {
  }

  function MinReal(x: real, y: real): real {
    if x < y then x else y
  }

  /** The age bucket a net buy names: what is reported of it, or nothing. */
  function BuyBucket(q: Request): real {
    match q.offset
    case Some(CloseToday) => if q.shortToday.Some? then Val(q.shortToday.value) else 0.0
    case Some(CloseYesterday) => if q.shortYesterday.Some? then Val(q.shortYesterday.value) else 0.0
    case _ => 0.0
  }

  /** The most a net buy can close: the short size, rounded to 28 digits, and any named age bucket; nothing
      if the request opens, names the long side or names a bucket that is not reported. */
  function BuyLimit(q: Request): real
    requires q.net.Some?
  {
    var available := if NetVal(q.net.value) < 0.0 then Val(Round(q.net.value.size, 28)) else 0.0;
    if q.positionSide == Some(Long) || q.offset == Some(Open) then 0.0
    else if q.offset == Some(CloseToday) || q.offset == Some(CloseYesterday) then MinReal(available, BuyBucket(q))
    else available
  }

  function ShortSize(n: Net): real {
    if Below(n) then Val(n.size) else 0.0
  }

  predicate BuyCloses(q: Request, quantity: Dec) {
    var a := PositionAction(q, Buy, quantity);
    a.Act? && !a.offset.Open?
  }

  lemma BuyClosesIff(q: Request, quantity: Dec)
    requires q.mode.NetMode? && q.net.Some? && quantity.coef > 0
    ensures BuyCloses(q, quantity) <==> Val(quantity) <= BuyLimit(q)
    ensures BuyCloses(q, quantity) ==> Below(q.net.value) && PositionAction(q, Buy, quantity).positionSide == Short
  {
    hide Val, Round, ParseAmount;
    ValSign(quantity);
    ValSign(ZERO);
    ValSign(q.net.value.size);
  }

  ghost predicate BuyCloseIsSafe(q: Request)
    requires q.net.Some?
  {
    forall quantity: Dec :: IsWholeNumber(quantity) && quantity.coef > 0 && BuyCloses(q, quantity) ==>
      Val(quantity) <= ShortSize(q.net.value)
  }

  predicate LimitPassesNoLot(q: Request)
    requires q.net.Some?
  {
    BuyLimit(q).Floor as real <= ShortSize(q.net.value)
  }

  lemma FloorOfLimit(x: real, limit: real)
    requires x == x.Floor as real && x <= limit
    ensures x <= limit.Floor as real
  {
  }

  lemma WholeWithinLimit(q: Request, quantity: Dec)
    requires q.mode.NetMode? && q.net.Some? && LimitPassesNoLot(q)
    requires IsWholeNumber(quantity) && quantity.coef > 0 && BuyCloses(q, quantity)
    ensures Val(quantity) <= ShortSize(q.net.value)
  {
    hide Val, IsWholeNumber, BuyCloses, BuyLimit, ShortSize, PositionAction;
    BuyClosesIff(q, quantity);
    WholeValue(quantity);
    FloorOfLimit(Val(quantity), BuyLimit(q));
  }

  lemma LimitSign(q: Request)
    requires q.net.Some?
    ensures BuyLimit(q) >= 0.0 && ShortSize(q.net.value) >= 0.0
  {
    ValSign(Round(q.net.value.size, 28));
    ValSign(q.net.value.size);
    if q.shortToday.Some? {
      ValSign(q.shortToday.value);
    }
    if q.shortYesterday.Some? {
      ValSign(q.shortYesterday.value);
    }
  }

  /** Because the absolute size is rounded, a net buy of whole lots can be accepted as a close beyond
      the short position exactly when its limit passes a whole number of lots the position lacks. */
  lemma BuyCloseIsSafeIff(q: Request)
    requires q.mode.NetMode? && q.net.Some?
    ensures BuyCloseIsSafe(q) <==> LimitPassesNoLot(q)
  {
    LimitSign(q);
    var most: nat := BuyLimit(q).Floor;
    var whole := Dec(false, most, 0);
    WholeDec(most);
    hide BuyCloses, BuyLimit, ShortSize, Val, IsWholeNumber;
    if LimitPassesNoLot(q) {
      forall quantity: Dec | IsWholeNumber(quantity) && quantity.coef > 0 && BuyCloses(q, quantity)
        ensures Val(quantity) <= ShortSize(q.net.value)
      {
        WholeWithinLimit(q, quantity);
      }
    } else {
      BuyClosesIff(q, whole);
      assert BuyCloses(q, whole);
    }
  }

  /** A net buy of whole lots that closes never flips the position and reduces it by exactly the
      quantity, whenever its limit passes no whole lot. */
  lemma NetBuyCloseReduces(q: Request, quantity: Dec)
    requires q.mode.NetMode? && q.net.Some? && IsWholeNumber(quantity) && quantity.coef > 0
    requires BuyCloses(q, quantity) && LimitPassesNoLot(q)
    ensures Below(q.net.value) && NetAfter(q.net.value, Buy, quantity) <= 0.0
    ensures AbsReal(NetAfter(q.net.value, Buy, quantity)) == AbsReal(NetVal(q.net.value)) - Val(quantity)
  {
    BuyClosesIff(q, quantity);
    WholeWithinLimit(q, quantity);
    ValSign(q.net.value.size);
    hide Val, BuyCloses, BuyLimit, IsWholeNumber;
  }

  /** A size of at most 28 digits is not rounded, so its limit passes no lot, whatever the offset. */
  lemma ShortSizeIsSafe(q: Request)
    requires q.net.Some? && NumDigits(q.net.value.size.coef) <= DEFAULT_PRECISION
    ensures LimitPassesNoLot(q)
  {
    LimitSign(q);
    ValSign(ZERO);
    hide Val, NumDigits;
  }

  lemma RoundsUp(size: Dec)
    requires size == Dec(false, Pow(28) + 9, 0)
    ensures Val(Round(size, DEFAULT_PRECISION)) == (Pow(28) + 10) as real
  {
    hide Pow, NumDigits;
    var n, p := size.coef, Pow(27);
    PowStep(0);
    PowStep(27);
    PowStep(28);
    DigitsIff(n, 28);
    DigitsIff(n, 29);
    assert n / 10 == p && n % 10 == 9;
    assert Round(size, 28) == Dec(false, p + 1, 1);
    ScaleStep(0);
    ScaleZero();
  }

  /** The limit does pass one: a short position of ten to the 28 plus nine lots accepts a close of one
      lot more than it holds, and would end long; so does a close of a named age whose bucket is
      reported that large. */
  lemma BuyCloseMayFlip(q: Request, more: Dec)
    requires q.mode.NetMode? && q.net == Some(Net(true, Dec(false, Pow(28) + 9, 0)))
    requires more == Dec(false, Pow(28) + 10, 0)
    requires q.positionSide != Some(Long) && q.offset != Some(Open)
    requires q.offset.Some? && NamesBucket(q.offset.value) ==> Bucket(q, Short, q.offset.value) == Some(more)
    ensures BuyCloses(q, more) && IsWholeNumber(more)
    ensures NetAfter(q.net.value, Buy, more) > 0.0
  {
    hide Pow, Round, PositionAction, BuyCloses;
    RoundsUp(q.net.value.size);
    WholeDec(Pow(28) + 10);
    WholeDec(Pow(28) + 9);
    hide Val;
    BuyClosesIff(q, more);
  }

  // ---- what an accepted order had ---------------------------------------------------------------------

  /** Every accepted close, and every accepted order whose offset was inferred, had position
      evidence of the same session generation, current at the clock and validated. */
  lemma AcceptedHadEvidence(q: Request, facts: Option<Facts>, now: int, validated: bool)
    requires Evaluate(q, facts, now, validated).Accepted?
    requires !Evaluate(q, facts, now, validated).offset.Open? || (q.mode.NetMode? && q.offset.None?)
    ensures q.evidenceRef.Some? && q.evidenceGeneration == q.generation && q.generation.Some? && validated
    ensures q.evidenceObserved.Some? && q.evidenceExpires.Some?
    ensures q.evidenceObserved.value <= now < q.evidenceExpires.value
  {
    hide Val, Show, RuleFee, FeeRuleFor, IsWholeNumber;
    var a := PositionAction(q, q.side, q.quantity.value);
    if q.mode.NetMode? {
      NetActionShape(q, q.side, q.quantity.value);
    }
    assert a.offset == Evaluate(q, facts, now, validated).offset;
  }

  /** The numbers are usable and the rule of this offset prices them within the text bound. */
  ghost predicate CanPrice(q: Request, f: Facts, o: Offset) {
    && f.multiplier.Some? && q.limitPrice.Some?
    && Positive(q.quantity) && Positive(q.limitPrice.value) && Positive(f.multiplier.value) &&
          IsWholeNumber(q.quantity.value)
    && FeeRuleFor(f.rules, o).Some?
    && var rule := FeeRuleFor(f.rules, o).value;
    && RuleIsUsable(rule, f.generation) && rule.currency == f.currency
    && |Show(RuleFee(q.quantity, q.limitPrice.value, f.multiplier.value, rule))| <= MAX_TEXT
  }

  /** The order was priced with the text of the fee of its rule. */
  ghost predicate Priced(q: Request, f: Facts, o: Outcome) {
    && o.Accepted? && CanPrice(q, f, o.offset)
    && o.estimate == Show(RuleFee(q.quantity, q.limitPrice.value, f.multiplier.value, FeeRuleFor(f.rules,
          o.offset).value))
  }

  /** The order fits the venue and its facts are current, for this instrument and session. */
  ghost predicate OrderStands(q: Request, f: Facts, now: int) {
    && f.available && f.instrument == q.instrument && q.generation == Some(f.generation)
    && f.observed.Some? && f.expires.Some? && f.observed.value <= now < f.expires.value
    && !q.side.OtherSide? && q.limitOrder && q.goodForDay
    && q.limitPrice.Some? && f.tick.Some? && Positive(f.tick.value) &&
          Aligns(q.limitPrice.value.value, f.tick.value.value)
    && f.currencyVerified && f.currency.Some? && (f.isOption ==> f.optionComplete)
  }

  /** An accepted order stands and was priced from facts that were current at the clock. */
  lemma AcceptedIsPriced(q: Request, facts: Option<Facts>, now: int, validated: bool)
    requires Evaluate(q, facts, now, validated).Accepted?
    ensures facts.Some? && Priced(q, facts.value, Evaluate(q, facts, now, validated))
    ensures OrderStands(q, facts.value, now)
    ensures PositionAction(q, q.side, q.quantity.value).Act?
  {
    hide Val, Show, RuleFee, FeeRuleFor, IsWholeNumber, RuleIsUsable, PositionAction, Aligns;
  }

  /** An accepted price given as plain text is within the tolerance of a whole number of ticks, up to
      1E-42 ticks. */
  lemma AcceptedPriceIsOnTick(q: Request, facts: Option<Facts>, now: int, validated: bool)
    requires Evaluate(q, facts, now, validated).Accepted?
    requires q.limitPrice.Some? && ParseAmount(q.limitPrice.value.text).Some?
    requires facts.Some? && facts.value.tick.Some? && ParseAmount(facts.value.tick.value.text).Some?
    ensures exists k: int :: WithinTicks(q.limitPrice.value.value, facts.value.tick.value.value, k, WideLimit())
  {
    hide Evaluate, Fits, Aligns, WithinTicks, ParseAmount;
    AcceptedIsPriced(q, facts, now, validated);
    ParsedFits(q.limitPrice.value.text);
    ParsedFits(facts.value.tick.value.text);
    AlignedIsNearTicks(q.limitPrice.value.value, facts.value.tick.value.value, MAX_TEXT);
  }

  /** Both clocks are inside the windows of the facts and of any evidence the order needs. */
  predicate InWindows(q: Request, f: Facts, now: int) {
    && f.observed.Some? && f.expires.Some? && f.observed.value <= now < f.expires.value
    && (NeedsEvidence(q) ==>
          && q.evidenceObserved.Some? && q.evidenceExpires.Some?
          && q.evidenceObserved.value <= now < q.evidenceExpires.value)
  }

  /** The clock decides only through the windows: an accepted order gets the same outcome, fee text
      included, at every other clock inside them. */
  lemma OutcomeIsStable(q: Request, f: Facts, now: int, later: int, validated: bool)
    requires Evaluate(q, Some(f), now, validated).Accepted? && InWindows(q, f, later)
    ensures Evaluate(q, Some(f), later, validated) == Evaluate(q, Some(f), now, validated)
  {
    hide Val, Show, RuleFee, FeeRuleFor, IsWholeNumber, RuleIsUsable, PositionAction, Aligns;
  }

  lemma SmallerDualActsTheSame(q: Request, s: Side, quantity: Dec, smaller: Dec)
    requires DualAction(q, s, quantity).Act? && Val(smaller) <= Val(quantity)
    ensures DualAction(q, s, smaller) == DualAction(q, s, quantity)
  {
    hide Val, ParseAmount;
  }

  lemma SmallerNetActsTheSame(q: Request, s: Side, quantity: Dec, smaller: Dec)
    requires NetAction(q, s, quantity).Act? && Val(smaller) <= Val(quantity)
    ensures NetAction(q, s, smaller) == NetAction(q, s, quantity)
  {
    hide Val, ParseAmount, AbsSize, Bucket, NetAvailable;
  }

  /** What an order may do, every smaller order may do too, with the same side and offset: an inferred
      offset does not change, and no limit is passed. */
  lemma SmallerOrderActsTheSame(q: Request, s: Side, quantity: Dec, smaller: Dec)
    requires PositionAction(q, s, quantity).Act? && Val(smaller) <= Val(quantity)
    ensures PositionAction(q, s, smaller) == PositionAction(q, s, quantity)
  {
    hide Val, ParseAmount, DualAction, NetAction;
    match q.mode
    case DualSide => SmallerDualActsTheSame(q, s, quantity, smaller);
    case NetMode => SmallerNetActsTheSame(q, s, quantity, smaller);
    case OtherMode =>
  }
}
