/** Whether an account can afford an order: evidence, decision, and the ledger of issued
    decisions that a later revalidation is answered from.
 */
module OrderEconomics {
  import opened Options
  import opened Decimals
  import opened DecimalTexts
  import Rules = OrderRules

  const SUM_PRECISION := 300
  const MAX_RETAINED := 4096
  const QUERIES := 7

  /** An object as the program holds it: two handles are the same object iff they are equal. */
  datatype Handle<+T> = Handle(id: nat, value: T)

  /** An order with the rule decision its caller presents; the decision may be made up. */
  datatype Request = Request(order: Rules.Request, facts: Rules.Facts, rule: Rules.Outcome, currency: Option<string>)

  datatype Query = Query(started: int, completed: int, expires: int)
  datatype Balance = Balance(currency: string, available: Option<string>)

  datatype Account = Account(
    receiptStarted: int, snapshotStarted: int, snapshotCompleted: int, receiptCompleted: int,
    leaseIssued: int, leaseExpires: int, observed: Option<int>, balances: seq<Balance>)

  /** `bound` is the outcome of the identity, scope, digest and reference comparisons. */
  datatype Evidence = Evidence(
    bound: bool, generation: string, currency: string, feeCurrencySource: string,
    available: string, beforeFee: string, lease: string, observed: int, expires: int,
    positionRef: Option<string>, positionGeneration: Option<string>,
    positionObserved: Option<int>, positionExpires: Option<int>,
    queries: seq<Query>, account: Account)

  // ---- the fee is computed again ----------------------------------------------------------------

  datatype FeeCheck = FeeStands | AmountInvalid | FeeFactsUnavailable | FeeMismatch

  predicate FeeRuleIsBound(r: Rules.FeeRule, e: Evidence) {
    && r.verified && r.currency == Some(e.currency) && r.source.Some?
    && r.currencySource == Some(e.feeCurrencySource)
    && r.generation == e.generation && r.currencyGeneration == Some(e.generation)
  }

  predicate Plain(n: Rules.Num) {
    ParseAmount(n.text).Some?
  }

  /** Compare the presented commission with the fee of the selected rule. */
  function CheckFee(r: Request, e: Evidence): FeeCheck
    requires r.rule.Accepted?
  {
    var estimate := ParseAmount(r.rule.estimate);
    var chosen := Rules.FeeRuleFor(r.facts.rules, r.rule.offset);
    if estimate.None? then AmountInvalid
    else if chosen.None? || !FeeRuleIsBound(chosen.value, e) then FeeFactsUnavailable
    else
      var rule := chosen.value;
      if r.facts.multiplier.None? || rule.rate.None? || rule.amount.None? then FeeFactsUnavailable
      else if r.order.limitPrice.None? then AmountInvalid
      else
        var quantity, price, multiplier := r.order.quantity, r.order.limitPrice.value, r.facts.multiplier.value;
        if !Plain(quantity) || !Plain(price) || !Plain(multiplier) || !Plain(rule.rate.value) ||
            !Plain(rule.amount.value)
        then AmountInvalid
        else if !Rules.Positive(quantity) || !Rules.IsWholeNumber(quantity.value) || !Rules.Positive(price) ||
            !Rules.Positive(multiplier)
        then FeeFactsUnavailable
        else if Val(Rules.RuleFee(quantity, price, multiplier, rule)) != Val(estimate.value) then FeeMismatch
        else FeeStands
  }

  lemma PlainFits(n: Rules.Num)
    requires Plain(n)
    ensures Fits(n.value, MAX_TEXT, MAX_TEXT)
  {
    ParsedFits(n.text);
  }

  /** For plain texts the fee is the true rational, and its own text reads back as it. */
  lemma RuleFeeIsExact(quantity: Rules.Num, price: Rules.Num, multiplier: Rules.Num, rule: Rules.FeeRule)
    requires rule.rate.Some? && rule.amount.Some?
    requires Plain(quantity) && Plain(price) && Plain(multiplier) && Plain(rule.rate.value) && Plain(rule.amount.value)
    ensures var fee := Rules.RuleFee(quantity, price, multiplier, rule);
      && Val(fee) == Val(quantity.value) *
                     (Val(price.value) * Val(multiplier.value) * Val(rule.rate.value.value) +
                           Val(rule.amount.value.value))
      && (|Show(fee)| <= MAX_TEXT ==> ParseAmount(Show(fee)) == Some(fee))
  {
    hide Pow, Fits, Val, Fee, ExactFee, Show, ParseAmount, Plain;
    PlainFits(quantity);
    PlainFits(price);
    PlainFits(multiplier);
    PlainFits(rule.rate.value);
    PlainFits(rule.amount.value);
    FeeIsExact(quantity.value, price.value, multiplier.value, rule.rate.value.value, rule.amount.value.value,
               MAX_TEXT, Rules.FEE_PRECISION);
    var fee := Rules.RuleFee(quantity, price, multiplier, rule);
    if |Show(fee)| <= MAX_TEXT {
      ShownReadsBack(fee);
    }
  }

  /** A standing fee is the commission formula on true rationals. */
  lemma StandingFeeIsExact(r: Request, e: Evidence)
    requires r.rule.Accepted? && CheckFee(r, e).FeeStands?
    ensures var rule := Rules.FeeRuleFor(r.facts.rules, r.rule.offset).value;
      Val(ParseAmount(r.rule.estimate).value) == Val(r.order.quantity.value) *
        (Val(r.order.limitPrice.value.value) * Val(r.facts.multiplier.value.value) * Val(rule.rate.value.value)
         + Val(rule.amount.value.value))
  {
    hide Val, Rules.RuleFee, ParseAmount, Rules.IsWholeNumber, Rules.FeeRuleFor, Show;
    var rule := Rules.FeeRuleFor(r.facts.rules, r.rule.offset).value;
    RuleFeeIsExact(r.order.quantity, r.order.limitPrice.value, r.facts.multiplier.value, rule);
  }

  /** The rule prices this currency, is verified with a source, and is of the evidence's session. */
  ghost predicate RuleBacks(rule: Rules.FeeRule, e: Evidence) {
    && rule.verified && rule.source.Some? && rule.currency == Some(e.currency)
    && rule.currencySource == Some(e.feeCurrencySource)
    && rule.generation == e.generation && rule.currencyGeneration == Some(e.generation)
  }

  /** What the order costs under this rule: quantity * (price * multiplier * rate + amount). */
  ghost predicate Costs(r: Request, rule: Rules.FeeRule, fee: real) {
    && r.order.limitPrice.Some? && r.facts.multiplier.Some? && rule.rate.Some? && rule.amount.Some?
    && fee == Val(r.order.quantity.value) *
              (Val(r.order.limitPrice.value.value) * Val(r.facts.multiplier.value.value) * Val(rule.rate.value.value)
               + Val(rule.amount.value.value))
  }

  /** A presented commission stands iff the rule of its offset backs it, its text and the five numbers are plain
      amount texts, quantity, price and multiplier are positive and the quantity whole, and it is exactly the
      cost of the order under that rule. */
  lemma FeeStandsIff(r: Request, e: Evidence)
    requires r.rule.Accepted?
    ensures CheckFee(r, e).FeeStands? <==>
      var chosen := Rules.FeeRuleFor(r.facts.rules, r.rule.offset);
      && chosen.Some? && RuleBacks(chosen.value, e) && ParseAmount(r.rule.estimate).Some?
      && Costs(r, chosen.value, Val(ParseAmount(r.rule.estimate).value)) && AllPlain(r, chosen.value)
      && Val(r.order.limitPrice.value.value) > 0.0 && Val(r.facts.multiplier.value.value) > 0.0
      && Val(r.order.quantity.value) > 0.0
      && Val(r.order.quantity.value) == Val(r.order.quantity.value).Floor as real
  {
    hide Val, Rules.RuleFee, ParseAmount, Rules.IsWholeNumber, Rules.FeeRuleFor, Show;
    var chosen := Rules.FeeRuleFor(r.facts.rules, r.rule.offset);
    Rules.ValSign(r.order.quantity.value);
    Rules.WholeIff(r.order.quantity.value);
    if chosen.Some? && HasFacts(r, chosen.value) && r.order.limitPrice.Some? {
      Rules.ValSign(r.order.limitPrice.value.value);
      Rules.ValSign(r.facts.multiplier.value.value);
      if AllPlain(r, chosen.value) {
        RuleFeeIsExact(r.order.quantity, r.order.limitPrice.value, r.facts.multiplier.value, chosen.value);
      }
    }
  }

  predicate AllPlain(r: Request, rule: Rules.FeeRule)
    requires r.order.limitPrice.Some? && r.facts.multiplier.Some? && rule.rate.Some? && rule.amount.Some?
  {
    && Plain(r.order.quantity) && Plain(r.order.limitPrice.value) && Plain(r.facts.multiplier.value)
    && Plain(rule.rate.value) && Plain(rule.amount.value)
  }

  ghost predicate HasFacts(r: Request, rule: Rules.FeeRule) {
    r.facts.multiplier.Some? && rule.rate.Some? && rule.amount.Some?
  }

  /** The five numbers are there and are plain amount texts. */
  ghost predicate HasPlainNumbers(r: Request, rule: Rules.FeeRule) {
    HasFacts(r, rule) && r.order.limitPrice.Some? && AllPlain(r, rule)
  }

  /** Which error a presented commission that does not stand meets: an amount that is no plain text, its own or,
      if the rule backs it with all facts, one of the five; a mismatch, if it differs from the exact cost; and
      missing facts otherwise. */
  lemma FeeFailsAs(r: Request, e: Evidence)
    requires r.rule.Accepted?
    ensures var chosen, estimate := Rules.FeeRuleFor(r.facts.rules, r.rule.offset), ParseAmount(r.rule.estimate);
      && (CheckFee(r, e) == AmountInvalid <==>
            || estimate.None?
            || (chosen.Some? && RuleBacks(chosen.value, e) &&
                HasFacts(r, chosen.value) && !HasPlainNumbers(r, chosen.value)))
      && (CheckFee(r, e) == FeeMismatch <==>
            && estimate.Some? && chosen.Some? && RuleBacks(chosen.value, e)
            && HasPlainNumbers(r, chosen.value)
            && Val(r.order.limitPrice.value.value) > 0.0 && Val(r.facts.multiplier.value.value) > 0.0
            && Val(r.order.quantity.value) > 0.0
            && Val(r.order.quantity.value) == Val(r.order.quantity.value).Floor as real
            && !Costs(r, chosen.value, Val(estimate.value)))
  {
    hide Val, Rules.RuleFee, ParseAmount, Rules.IsWholeNumber, Rules.FeeRuleFor, Show;
    var chosen := Rules.FeeRuleFor(r.facts.rules, r.rule.offset);
    Rules.ValSign(r.order.quantity.value);
    Rules.WholeIff(r.order.quantity.value);
    if chosen.Some? && HasFacts(r, chosen.value) && r.order.limitPrice.Some? {
      Rules.ValSign(r.order.limitPrice.value.value);
      Rules.ValSign(r.facts.multiplier.value.value);
      if AllPlain(r, chosen.value) {
        RuleFeeIsExact(r.order.quantity, r.order.limitPrice.value, r.facts.multiplier.value, chosen.value);
      }
    }
  }

  lemma PricedFeeStands(r: Request, e: Evidence, rule: Rules.FeeRule)
    requires Rules.Priced(r.order, r.facts, r.rule) && Rules.FeeRuleFor(r.facts.rules, r.rule.offset) == Some(rule)
    ensures rule.rate.Some? && rule.amount.Some? && CheckFee(r, e) != FeeMismatch
    ensures CheckFee(r, e).FeeStands? <==> FeeRuleIsBound(rule, e) && AllPlain(r, rule)
  {
    hide Val, Rules.RuleFee, ParseAmount, Rules.IsWholeNumber, Rules.FeeRuleFor, Show, FeeRuleIsBound;
    if AllPlain(r, rule) {
      RuleFeeIsExact(r.order.quantity, r.order.limitPrice.value, r.facts.multiplier.value, rule);
    }
  }

  /** A decision the rules really made never fails on the fee itself: it stands iff the rule it
      was priced with is the bound one and all five numbers are plain amount texts. */
  lemma GenuineFeeStands(r: Request, e: Evidence, now: int, validated: bool)
    requires r.rule.Accepted? && r.rule == Rules.Evaluate(r.order, Some(r.facts), now, validated)
    ensures CheckFee(r, e) != FeeMismatch
    ensures Rules.Priced(r.order, r.facts, r.rule)
    ensures var rule := Rules.FeeRuleFor(r.facts.rules, r.rule.offset).value;
      CheckFee(r, e).FeeStands? <==> FeeRuleIsBound(rule, e) && AllPlain(r, rule)
  {
    Rules.AcceptedIsPriced(r.order, Some(r.facts), now, validated);
    PricedFeeStands(r, e, Rules.FeeRuleFor(r.facts.rules, r.rule.offset).value);
    hide *;
  }

  // ---- the evidence -----------------------------------------------------------------------------

  ghost predicate PositionIsBound(r: Request, e: Evidence)
    requires r.rule.Accepted?
  {
    var o := r.order;
    && o.evidenceRef == e.positionRef && o.evidenceGeneration == e.positionGeneration
    && o.evidenceObserved == e.positionObserved && o.evidenceExpires == e.positionExpires
    && (!r.rule.offset.Open? ==>
          && r.rule.evidenceValidated && o.evidenceRef.Some? && o.evidenceGeneration == Some(e.generation)
          && o.evidenceObserved.Some? && o.evidenceExpires.Some?
          && e.expires <= o.evidenceExpires.value && o.evidenceObserved.value <= e.observed)
  }

  /** Compare the position evidence of the order with the one in the evidence. */
  method CheckPosition(r: Request, e: Evidence) returns (ok: bool)
    requires r.rule.Accepted?
    ensures ok <==> PositionIsBound(r, e)
  {
    var o := r.order;
    if o.evidenceRef != e.positionRef || o.evidenceGeneration != e.positionGeneration ||
        o.evidenceObserved != e.positionObserved || o.evidenceExpires != e.positionExpires
    {
      return false;
    }
    if r.rule.offset.Open? {
      return true;
    }
    if !r.rule.evidenceValidated || o.evidenceRef.None? || o.evidenceGeneration != Some(e.generation) ||
        o.evidenceObserved.None? || o.evidenceExpires.None?
    {
      return false;
    }
    ok := e.expires <= o.evidenceExpires.value && o.evidenceObserved.value <= e.observed;
  }

  ghost predicate QueryIsSound(q: Query) {
    q.started <= q.completed < q.expires
  }

  ghost predicate CertificateIsSound(queries: seq<Query>) {
    |queries| == 7 && forall i :: 0 <= i < |queries| ==> QueryIsSound(queries[i])
  }

  ghost predicate IsEarliestExpiry(queries: seq<Query>, t: int) {
    && (forall i :: 0 <= i < |queries| ==> t <= queries[i].expires)
    && (exists i :: 0 <= i < |queries| && t == queries[i].expires)
  }

  ghost predicate IsLatestCompletion(queries: seq<Query>, t: int) {
    && (forall i :: 0 <= i < |queries| ==> queries[i].completed <= t)
    && (exists i :: 0 <= i < |queries| && t == queries[i].completed)
  }

  /** Read the certificate: the earliest expiry and the latest completion of its queries. */
  method ReadCertificate(queries: seq<Query>) returns (ok: bool, expiry: int, observed: int)
    ensures ok <==> CertificateIsSound(queries)
    ensures ok ==> IsEarliestExpiry(queries, expiry) && IsLatestCompletion(queries, observed)
  {
    if |queries| != QUERIES {
      return false, 0, 0;
    }
    expiry, observed := queries[0].expires, queries[0].completed;
    var i := 0;
    while i < |queries|
      invariant 0 <= i <= |queries|
      invariant forall k :: 0 <= k < i ==> QueryIsSound(queries[k])
      invariant forall k :: 0 <= k < i ==> expiry <= queries[k].expires && queries[k].completed <= observed
      invariant exists k :: 0 <= k < |queries| && expiry == queries[k].expires
      invariant exists k :: 0 <= k < |queries| && observed == queries[k].completed
    {
      if queries[i].started > queries[i].completed || queries[i].completed >= queries[i].expires {
        return false, 0, 0;
      }
      if queries[i].expires < expiry {
        expiry := queries[i].expires;
      }
      if queries[i].completed > observed {
        observed := queries[i].completed;
      }
      i := i + 1;
    }
    ok := true;
  }

  /** Exactly one balance is in the currency, no currency is listed twice, and the reported
      amount does not exceed what the provider shows. */
  ghost predicate BalanceCovers(balances: seq<Balance>, currency: string, reported: string) {
    && (forall i, j :: 0 <= i < j < |balances| ==> balances[i].currency != balances[j].currency)
    && ParseAmount(reported).Some?
    && (exists i :: 0 <= i < |balances| && balances[i].currency == currency && balances[i].available.Some? &&
          ParseAmount(balances[i].available.value).Some? &&
          Val(ParseAmount(reported).value) <= Val(ParseAmount(balances[i].available.value).value))
  }

  method CheckBalances(balances: seq<Balance>, currency: string, reported: string) returns (ok: bool)
    ensures ok <==> BalanceCovers(balances, currency, reported)
  {
    hide ParseAmount, Val;
    var currencies: set<string> := {};
    var at := -1;
    var i := 0;
    while i < |balances|
      invariant 0 <= i <= |balances|
      invariant forall c :: c in currencies <==> exists k :: 0 <= k < i && balances[k].currency == c
      invariant forall j, k :: 0 <= j < k < i ==> balances[j].currency != balances[k].currency
      invariant -1 <= at < i
      invariant at >= 0 ==> balances[at].currency == currency
      invariant forall k :: 0 <= k < i && balances[k].currency == currency ==> k == at
    {
      if balances[i].currency in currencies {
        return false;
      }
      if balances[i].currency == currency {
        at := i;
      }
      currencies := currencies + {balances[i].currency};
      i := i + 1;
    }
    if at < 0 || balances[at].available.None? {
      return false;
    }
    var provider, amount := ParseAmount(balances[at].available.value), ParseAmount(reported);
    ok := provider.Some? && amount.Some? && Val(amount.value) <= Val(provider.value);
  }

  ghost predicate AccountStands(e: Evidence, now: int) {
    var a := e.account;
    && a.receiptStarted <= a.snapshotStarted <= a.snapshotCompleted <= a.receiptCompleted <= a.leaseIssued <= e.observed
    && e.expires <= a.leaseExpires && a.leaseIssued <= now < a.leaseExpires
    && a.observed.Some? && a.observed.value <= e.observed
    && BalanceCovers(a.balances, e.currency, e.available)
  }

  /** The evidence lives no longer than the rule facts and every certified query. */
  ghost predicate WindowStands(r: Request, e: Evidence, now: int) {
    && r.facts.expires.Some? && e.expires <= r.facts.expires.value
    && (forall i :: 0 <= i < |e.queries| ==> e.expires <= e.queries[i].expires && e.queries[i].completed <= e.observed)
    && e.observed <= now < e.expires
  }

  ghost predicate EvidenceStands(r: Request, e: Evidence, now: int) {
    && e.bound && r.rule.Accepted? && r.facts.available
    && PositionIsBound(r, e)
    && r.currency == Some(e.currency) && r.facts.currencyVerified && r.facts.currency == Some(e.currency)
    && CheckFee(r, e).FeeStands?
    && CertificateIsSound(e.queries)
    && AccountStands(e, now)
    && WindowStands(r, e, now)
  }

  /** Validate the evidence of a request at one reading of the clock. */
  method ValidateEvidence(r: Request, e: Evidence, now: int) returns (ok: bool)
    ensures ok <==> EvidenceStands(r, e, now)
  {
    hide CheckFee, CertificateIsSound, BalanceCovers;
    if !e.bound || !r.rule.Accepted? || !r.facts.available {
      return false;
    }
    var bound := CheckPosition(r, e);
    if !bound {
      return false;
    }
    if r.currency != Some(e.currency) || !r.facts.currencyVerified || r.facts.currency != Some(e.currency) {
      return false;
    }
    if !CheckFee(r, e).FeeStands? {
      return false;
    }
    var certified, expiry, completed := ReadCertificate(e.queries);
    if !certified {
      return false;
    }
    var a := e.account;
    if a.receiptStarted > a.snapshotStarted || a.snapshotStarted > a.snapshotCompleted
       || a.snapshotCompleted > a.receiptCompleted || a.receiptCompleted > a.leaseIssued
       || a.leaseIssued > e.observed || e.expires > a.leaseExpires || now < a.leaseIssued || now >= a.leaseExpires
       || a.observed.None? || e.observed < a.observed.value
    {
      return false;
    }
    var covered := CheckBalances(a.balances, e.currency, e.available);
    if !covered {
      return false;
    }
    ok := r.facts.expires.Some? && e.expires <= r.facts.expires.value && e.expires <= expiry && completed <= e.observed
    && e.observed <= now < e.expires;
  }

  // ---- the decision ---------------------------------------------------------------------------

  datatype Decision = Decision(
    affordable: bool, required: string, available: string, currency: string, lease: string, observed: int, expires: int)

  /** The decision the evidence supports: none if it is stale or an amount cannot be used. */
  function DecisionFrom(r: Request, e: Evidence, now: int): Option<Decision>
    requires r.rule.Accepted?
  {
    var fee, before, available := ParseAmount(r.rule.estimate), ParseAmount(e.beforeFee), ParseAmount(e.available);
    if e.observed > now || now >= e.expires then None
    else if fee.None? || before.None? || available.None? then None
    else
      var required := Add(before.value, fee.value, SUM_PRECISION);
      if |Show(required)| > MAX_TEXT then None
      else Some(Decision(Val(required) <= Val(available.value), Show(required), e.available, e.currency,
                         e.lease, e.observed, e.expires))
  }

  /** The requirement is the exact sum, its text reads back as it, and the decision accepts iff
      the account holds it; everything else of the decision is the evidence's. */
  lemma DecisionIsExact(r: Request, e: Evidence, now: int)
    requires r.rule.Accepted? && DecisionFrom(r, e, now).Some?
    ensures var d := DecisionFrom(r, e, now).value;
      var fee, before, available := ParseAmount(r.rule.estimate), ParseAmount(e.beforeFee), ParseAmount(e.available);
      && fee.Some? && before.Some? && available.Some?
      && ParseAmount(d.required).Some? && Val(ParseAmount(d.required).value) == Val(before.value) + Val(fee.value)
      && (d.affordable <==> Val(before.value) + Val(fee.value) <= Val(available.value))
      && d.observed == e.observed && d.expires == e.expires && d.lease == e.lease
      && d.currency == e.currency && d.available == e.available
  {
    ParsedFits(r.rule.estimate);
    ParsedFits(e.beforeFee);
    hide Pow, Fits, Val, Add, Show, ParseAmount;
    var before, fee := ParseAmount(e.beforeFee).value, ParseAmount(r.rule.estimate).value;
    SumIsExact(before, fee, MAX_TEXT, SUM_PRECISION);
    ShownReadsBack(Add(before, fee, SUM_PRECISION));
  }

  /** There is a decision iff the clock is inside the evidence's window, the three amounts are plain texts and
      the text of their sum has at most 128 characters. */
  lemma DecidedIff(r: Request, e: Evidence, now: int)
    requires r.rule.Accepted?
    ensures DecisionFrom(r, e, now).Some? <==>
      var fee, before, available := ParseAmount(r.rule.estimate), ParseAmount(e.beforeFee), ParseAmount(e.available);
      && e.observed <= now < e.expires && fee.Some? && before.Some? && available.Some?
      && |Show(Add(before.value, fee.value, 300))| <= 128
  {
    hide ParseAmount, Show, Add, Val;
  }

  /** Only the window depends on the clock: two readings inside it support the same decision. */
  lemma DecisionIsStable(r: Request, e: Evidence, now: int, later: int)
    requires r.rule.Accepted? && e.observed <= now < e.expires && e.observed <= later < e.expires
    ensures DecisionFrom(r, e, now) == DecisionFrom(r, e, later)
  {
  }

  // ---- the ledger of issued decisions -----------------------------------------------------------------

  datatype Issued = Issued(request: Handle<Request>, decision: Handle<Decision>, evidence: Evidence)
  type Ledger = map<string, Issued>

  function Purge(issued: Ledger, now: int): Ledger {
    map lease | lease in issued && now < issued[lease].decision.value.expires :: issued[lease]
  }

  datatype Admission = Retained | CapacityExhausted | LeaseTaken

  function Admit(issued: Ledger, record: Issued, now: int): (Ledger, Admission) {
    var live := Purge(issued, now);
    var lease := record.decision.value.lease;
    if |live| >= MAX_RETAINED then (live, CapacityExhausted)
    else if lease in live then (live, LeaseTaken)
    else (live[lease := record], Retained)
  }

  /** What every retained decision is. */
  ghost predicate Supported(record: Issued) {
    && record.request.value.rule.Accepted?
    && record.decision.value.affordable
    && exists now :: EvidenceStands(record.request.value, record.evidence, now) &&
                     DecisionFrom(record.request.value, record.evidence, now) == Some(record.decision.value)
  }

  ghost predicate LedgerInv(issued: Ledger) {
    && |issued| <= 4096
    && (forall lease :: lease in issued ==> issued[lease].decision.value.lease == lease && Supported(issued[lease]))
  }

  lemma {:induction false} SmallerMap(small: Ledger, large: Ledger)
    requires small.Keys <= large.Keys
    ensures |small| <= |large|
  {
    KeysBound(small.Keys, large.Keys);
    assert |small| == |small.Keys| && |large| == |large.Keys|;
  }

  lemma KeysBound(a: set<string>, b: set<string>)
    requires a <= b
    ensures |a| <= |b|
  {
    assert b == a + (b - a);
  }

  /** Live records stay as they are; a key that was there before changes only after its expiry. */
  ghost predicate KeepsLive(issued: Ledger, after: Ledger, now: int) {
    forall lease :: lease in issued && now < issued[lease].decision.value.expires ==>
      lease in after && after[lease] == issued[lease]
  }

  /** Every record of the ledger after was there before, or is the one record just issued. */
  ghost predicate AddsOnly(issued: Ledger, after: Ledger, record: Issued) {
    forall lease :: lease in after ==> (lease in issued && after[lease] == issued[lease]) || after[lease] == record
  }

  lemma PurgeKeeps(issued: Ledger, now: int)
    requires LedgerInv(issued)
    ensures LedgerInv(Purge(issued, now)) && KeepsLive(issued, Purge(issued, now), now)
    ensures forall lease :: lease in Purge(issued, now) <==>
      lease in issued && now < issued[lease].decision.value.expires
  {
    hide Supported;
    SmallerMap(Purge(issued, now), issued);
  }

  /** A decision is retained iff fewer than 4096 decisions have not expired and its lease is none of theirs. */
  lemma RetainedIff(issued: Ledger, record: Issued, now: int)
    ensures var live := set lease | lease in issued && now < issued[lease].decision.value.expires;
      var (after, outcome) := Admit(issued, record, now);
      && (outcome == CapacityExhausted <==> |live| >= 4096)
      && (outcome == LeaseTaken <==> |live| < 4096 && record.decision.value.lease in live)
      && (outcome == Retained <==> |live| < 4096 && record.decision.value.lease !in live)
      && after.Keys == live + (if outcome == Retained then {record.decision.value.lease} else {})
  {
    var live := set lease | lease in issued && now < issued[lease].decision.value.expires;
    assert Purge(issued, now).Keys == live;
    assert |Purge(issued, now)| == |live|;
  }

  /** One admission keeps the ledger's invariant, drops only expired records and overwrites none. */
  lemma AdmitKeeps(issued: Ledger, record: Issued, now: int)
    requires LedgerInv(issued) && Supported(record)
    ensures LedgerInv(Admit(issued, record, now).0)
    ensures KeepsLive(issued, Admit(issued, record, now).0, now)
    ensures AddsOnly(issued, Admit(issued, record, now).0, record)
  {
    hide Supported, Purge;
    PurgeKeeps(issued, now);
  }

  datatype Entry = Entry(record: Issued, now: int)

  function RunLedger(issued: Ledger, entries: seq<Entry>): Ledger {
    if entries == [] then issued
    else
      var last := entries[|entries| - 1];
      Admit(RunLedger(issued, entries[..|entries| - 1]), last.record, last.now).0
  }

  ghost predicate AllSupported(entries: seq<Entry>) {
    forall i :: 0 <= i < |entries| ==> Supported(entries[i].record)
  }

  ghost predicate LiveThroughout(record: Issued, entries: seq<Entry>) {
    forall i :: 0 <= i < |entries| ==> entries[i].now < record.decision.value.expires
  }

  /** Over every run the ledger holds at most 4096 supported decisions, each under its own lease,
      and only decisions that the run issued. */
  lemma {:induction false} RunKeepsLedger(entries: seq<Entry>)
    requires AllSupported(entries)
    ensures LedgerInv(RunLedger(map[], entries))
    ensures forall lease :: lease in RunLedger(map[], entries) ==>
      exists i :: 0 <= i < |entries| && RunLedger(map[], entries)[lease] == entries[i].record
  {
    hide Supported, Admit;
    if entries == [] {
    } else {
      var n := |entries| - 1;
      var before, after := RunLedger(map[], entries[..n]), RunLedger(map[], entries);
      RunKeepsLedger(entries[..n]);
      AdmitKeeps(before, entries[n].record, entries[n].now);
      forall lease | lease in after ensures exists i :: 0 <= i < |entries| && after[lease] == entries[i].record {
        if after[lease] != entries[n].record {
          var i :| 0 <= i < n && before[lease] == entries[..n][i].record;
          assert after[lease] == entries[i].record;
        }
      }
    }
  }

  /** A retained lease is neither dropped nor overwritten while it has not expired, whatever else
      the run issues. */
  lemma {:induction false} LiveLeaseStays(issued: Ledger, entries: seq<Entry>, lease: string)
    requires LedgerInv(issued) && AllSupported(entries) && lease in issued && LiveThroughout(issued[lease], entries)
    ensures LedgerInv(RunLedger(issued, entries))
    ensures lease in RunLedger(issued, entries) && RunLedger(issued, entries)[lease] == issued[lease]
  {
    hide Supported, Admit;
    if entries == [] {
    } else {
      var n := |entries| - 1;
      LiveLeaseStays(issued, entries[..n], lease);
      AdmitKeeps(RunLedger(issued, entries[..n]), entries[n].record, entries[n].now);
    }
  }
}
