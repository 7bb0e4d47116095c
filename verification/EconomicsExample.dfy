/** One order that goes all the way: a close with position evidence, accepted by the rules, affordable
    with its fee, retained and confirmed. */
module EconomicsExample {
  import opened Options
  import opened Decimals
  import opened DecimalTexts
  import opened TickTest
  import opened OrderEconomics
  import opened EconomicsOwner

  /** The plain text of one digit. */
  ghost predicate IsDigitNum(n: Rules.Num, digit: nat) {
    && n.value == Dec(false, digit, 0) && ParseAmount(n.text) == Some(n.value)
    && Show(n.value) == n.text && |n.text| <= MAX_TEXT
  }

  lemma DigitNum(digit: nat) returns (n: Rules.Num)
    requires digit < 10
    ensures IsDigitNum(n, digit)
  {
    var d := Dec(false, digit, 0);
    var text := [CharOf(digit)];
    assert ShowDigits(digit) == text;
    assert Padded(digit, 0) == text && text[..1] == text && text[1..] == "";
    assert Show(d) == text;
    ShownReadsBack(d);
    n := Rules.Num(text, d);
  }

  /** The numbers of the example: price, quantity and rates are one, the fee is two, the requirement three. */
  ghost predicate Numbers(one: Rules.Num, two: Rules.Num, three: Rules.Num) {
    IsDigitNum(one, 1) && IsDigitNum(two, 2) && IsDigitNum(three, 3)
  }

  /** One text stands for the instrument, the session, the currency and every reference. */
  ghost function SmallRule(one: Rules.Num, c: string): Rules.FeeRule {
    Rules.FeeRule(Rules.Close, Some(one), Some(one), true, Some(c), Some(c), Some(c), c, Some(c))
  }

  /** Sell one lot at price one, closing a long net position of one lot. */
  ghost function SmallOrder(one: Rules.Num, c: string): Rules.Request {
    Rules.Request(c, Some(c), Rules.Sell, true, true, one, Some(one), Rules.NetMode, None, Some(Rules.Close),
                  None, None, Some(Rules.Net(false, one.value)), None, None, None, None,
                  Some(c), Some(c), Some(0), Some(9))
  }

  ghost function SmallFacts(one: Rules.Num, c: string, observed: int): Rules.Facts {
    Rules.Facts(c, true, c, Some(observed), Some(10), Some(one), Some(one), true, Some(c), false, false,
                [SmallRule(one, c)])
  }

  ghost function SmallRequest(one: Rules.Num, two: Rules.Num, c: string, observed: int): Request {
    Request(SmallOrder(one, c), SmallFacts(one, c, observed),
            Rules.Accepted(Rules.Long, Rules.Close, two.text, true), Some(c))
  }

  /** Seven sound queries, an account that holds exactly three, a requirement of one before the fee. */
  ghost function SmallEvidence(one: Rules.Num, three: Rules.Num, c: string): Evidence {
    var query := Query(0, 1, 9);
    Evidence(true, c, c, c, three.text, one.text, c, 1, 5, Some(c), Some(c), Some(0), Some(9),
             [query, query, query, query, query, query, query],
             Account(0, 0, 0, 0, 0, 9, Some(0), [Balance(c, Some(three.text))]))
  }

  lemma SmallSums(one: Dec, two: Dec, three: Dec)
    requires one == Dec(false, 1, 0) && two == Dec(false, 2, 0) && three == Dec(false, 3, 0)
    ensures ExactFee(one, one, one, one, one) == two && ExactAdd(one, two) == three
  {
    assert ExactMul(one, one) == one;
    assert ExactAdd(one, one) == two;
    assert ExactMul(one, two) == two;
  }

  lemma SmallFee(one: Rules.Num, two: Rules.Num, three: Rules.Num, c: string)
    requires Numbers(one, two, three)
    ensures Plain(one) && Plain(two) && Rules.RuleFee(one, one, one, SmallRule(one, c)) == two.value
  {
    hide ParseAmount, Fee, Show, ExactFee, ExactAdd, Fits, Val;
    PlainFits(one);
    SmallSums(one.value, two.value, three.value);
    FeeIsExact(one.value, one.value, one.value, one.value, one.value, MAX_TEXT, Rules.FEE_PRECISION);
  }

  lemma RuleIsFound(one: Rules.Num, c: string, observed: int)
    ensures Rules.FeeRuleFor(SmallFacts(one, c, observed).rules, Rules.Close) == Some(SmallRule(one, c))
    ensures Rules.RuleIsUsable(SmallRule(one, c), c) && SmallRule(one, c).currency == Some(c)
  {
  }

  lemma OneIsOneTick(one: Rules.Num)
    requires IsDigitNum(one, 1)
    ensures Aligns(one.value, one.value)
  {
    hide ParseAmount, Show, Fits, Aligns;
    PlainFits(one);
    ScaleZero();
    WholeTicksAlign(one.value, one.value, MAX_TEXT, 1);
  }

  lemma SmallClose(one: Rules.Num, c: string)
    ensures Rules.PositionAction(SmallOrder(one, c), Rules.Sell, one.value) == Rules.Act(Rules.Long, Rules.Close)
  {
    hide Val;
  }

  lemma SmallOrderIsAccepted(one: Rules.Num, two: Rules.Num, three: Rules.Num, c: string)
    requires Numbers(one, two, three)
    ensures Rules.Evaluate(SmallOrder(one, c), Some(SmallFacts(one, c, 0)), 1, true) ==
            Rules.Accepted(Rules.Long, Rules.Close, two.text, true)
  {
    hide ParseAmount, Show, Val, Rules.RuleFee, Rules.FeeRuleFor;
    hide SmallRule, Rules.PositionAction, Aligns, Rules.RuleIsUsable;
    SmallFee(one, two, three, c);
    RuleIsFound(one, c, 0);
    OneIsOneTick(one);
    SmallClose(one, c);
  }

  lemma SmallBalanceCovers(three: Rules.Num, c: string)
    requires IsDigitNum(three, 3)
    ensures BalanceCovers([Balance(c, Some(three.text))], c, three.text)
  {
    hide ParseAmount, Val, Show;
    var balances := [Balance(c, Some(three.text))];
    assert balances[0].currency == c;
  }

  lemma SmallFeeStands(one: Rules.Num, two: Rules.Num, three: Rules.Num, c: string, observed: int)
    requires Numbers(one, two, three)
    ensures CheckFee(SmallRequest(one, two, c, observed), SmallEvidence(one, three, c)).FeeStands?
  {
    hide ParseAmount, Show, Val, Rules.RuleFee, Rules.FeeRuleFor;
    SmallFee(one, two, three, c);
    RuleIsFound(one, c, observed);
  }

  lemma SmallEvidenceStands(one: Rules.Num, two: Rules.Num, three: Rules.Num, c: string, observed: int)
    requires Numbers(one, two, three)
    ensures EvidenceStands(SmallRequest(one, two, c, observed), SmallEvidence(one, three, c), 1)
  {
    hide CheckFee, BalanceCovers, ParseAmount, Show;
    SmallFeeStands(one, two, three, c, observed);
    SmallBalanceCovers(three, c);
  }

  lemma FlatDecision(r: Request, e: Evidence, before: Dec, fee: Dec, required: Dec)
    requires r.rule.Accepted? && ParseAmount(r.rule.estimate) == Some(fee) && ParseAmount(e.beforeFee) == Some(before)
    requires Add(before, fee, SUM_PRECISION) == required && ParseAmount(e.available) == Some(required)
    requires |Show(required)| <= MAX_TEXT && e.observed <= 1 < e.expires
    ensures DecisionFrom(r, e, 1).Some? && DecisionFrom(r, e, 1).value.affordable
  {
    hide ParseAmount, Show, Add, Val;
  }

  lemma SmallSum(one: Rules.Num, two: Rules.Num, three: Rules.Num)
    requires Numbers(one, two, three)
    ensures Add(one.value, two.value, SUM_PRECISION) == three.value
  {
    hide ParseAmount, Fits, Val, Show, Add, ExactAdd, ExactFee;
    PlainFits(one);
    PlainFits(two);
    SmallSums(one.value, two.value, three.value);
    SumIsExact(one.value, two.value, MAX_TEXT, SUM_PRECISION);
  }

  lemma SmallDecision(one: Rules.Num, two: Rules.Num, three: Rules.Num, c: string, observed: int)
    requires Numbers(one, two, three)
    ensures var d := DecisionFrom(SmallRequest(one, two, c, observed), SmallEvidence(one, three, c), 1);
      d.Some? && d.value.affordable
  {
    hide ParseAmount, Show, Add, DecisionFrom;
    SmallSum(one, two, three);
    FlatDecision(SmallRequest(one, two, c, observed), SmallEvidence(one, three, c), one.value, two.value, three.value);
  }

  /** The rules accept some close with a fee, its evidence stands, its decision is affordable and can be
      confirmed: none of the results about decisions is about nothing. */
  lemma SomeDecisionIsConfirmed() returns (r: Request, record: Issued, c: Checks)
    ensures r.rule.Accepted? && r.rule.offset == Rules.Close
    ensures r.rule == Rules.Evaluate(r.order, Some(r.facts), 1, true)
    ensures ParseAmount(r.rule.estimate) == Some(Dec(false, 2, 0))
    ensures record.request.value == r && Supported(record)
    ensures Confirmed(record, record.request, record.decision, c)
  {
    hide EvidenceStands, DecisionFrom, Rules.Evaluate, ParseAmount, Show;
    var one := DigitNum(1);
    var two := DigitNum(2);
    var three := DigitNum(3);
    SmallOrderIsAccepted(one, two, three, "x");
    SmallEvidenceStands(one, two, three, "x", 0);
    SmallDecision(one, two, three, "x", 0);
    r := SmallRequest(one, two, "x", 0);
    var e := SmallEvidence(one, three, "x");
    record := Issued(Handle(0, r), Handle(0, DecisionFrom(r, e, 1).value), e);
    c := Checks(1, true, true, true, true, 1);
  }

  /** A made-up decision may name rule facts observed in the future: this one is retained and confirmed
      at the clock 1 although its facts begin at 8. */
  lemma FutureFactsAreConfirmed() returns (record: Issued, c: Checks)
    ensures Supported(record) && Confirmed(record, record.request, record.decision, c)
    ensures record.request.value.facts.observed == Some(8) && c.finalNow == 1
    ensures !InFactsWindow(record.request.value.facts, c.finalNow) && !ConfirmsInFactsWindow(record)
  {
    hide EvidenceStands, DecisionFrom, ParseAmount, Show;
    var one := DigitNum(1);
    var two := DigitNum(2);
    var three := DigitNum(3);
    SmallEvidenceStands(one, two, three, "x", 8);
    SmallDecision(one, two, three, "x", 8);
    var r, e := SmallRequest(one, two, "x", 8), SmallEvidence(one, three, "x");
    record := Issued(Handle(0, r), Handle(0, DecisionFrom(r, e, 1).value), e);
    c := Checks(1, true, true, true, true, 1);
    assert Confirmed(record, record.request, record.decision, c);
  }
}
