/** The threshold evaluator (bot.js:69-75): a pure decision on an entry's
    price and a watch's configured maximum price, expected resale value and
    minimum profit.

    A threshold counts as configured only when the configuration holds a
    number there (`typeof x === 'number'`); anything else is `None`. */
module Thresholds {
  import opened Options

  datatype Limits = Limits(maxPrice: Option<real>, expectedResaleValue: Option<real>, minProfit: Option<real>)

  datatype Evaluation = Evaluation(meetsPrice: bool, meetsProfit: bool, profit: Option<real>) {
    /** The entry is announced only when it meets both conditions (bot.js:77). */
    predicate Qualifies() {
      meetsPrice && meetsProfit
    }
  }

  function Evaluate(price: real, limits: Limits): (e: Evaluation)
    ensures e.meetsPrice <==> (limits.maxPrice.None? || price <= limits.maxPrice.value)
    ensures e.profit.Some? <==> limits.expectedResaleValue.Some?
    ensures e.profit.Some? ==> e.profit.value == limits.expectedResaleValue.value - price
    ensures !e.meetsProfit <==> e.profit.Some? && limits.minProfit.Some? && e.profit.value < limits.minProfit.value
  {
    var meetsPrice := if limits.maxPrice.Some? then price <= limits.maxPrice.value else true;
    match limits.expectedResaleValue
    case None => Evaluation(meetsPrice, true, None)
    case Some(resale) =>
      var profit := resale - price;
      var meetsProfit := if limits.minProfit.Some? then profit >= limits.minProfit.value else true;
      Evaluation(meetsPrice, meetsProfit, Some(profit))
  }

  /** The price ceiling the configured thresholds amount to: the maximum price,
      and the expected resale value less the minimum profit when both are set. */
  ghost predicate UnderCeiling(price: real, limits: Limits) {
    && (limits.maxPrice.Some? ==> price <= limits.maxPrice.value)
    && (limits.expectedResaleValue.Some? && limits.minProfit.Some? ==>
          price <= limits.expectedResaleValue.value - limits.minProfit.value)
  }

  /** An entry qualifies exactly when its price is under every configured ceiling. */
  lemma QualifiesIffUnderCeiling(price: real, limits: Limits)
    ensures Evaluate(price, limits).Qualifies() <==> UnderCeiling(price, limits)
  {
  }

  /** A cheaper entry never fails a threshold that a dearer one passes. */
  lemma QualifiesDownward(cheaper: real, dearer: real, limits: Limits)
    requires cheaper <= dearer
    requires Evaluate(dearer, limits).Qualifies()
    ensures Evaluate(cheaper, limits).Qualifies()
  {
    QualifiesIffUnderCeiling(dearer, limits);
    QualifiesIffUnderCeiling(cheaper, limits);
  }

  /** With nothing configured every priced entry qualifies and no profit is reported. */
  lemma NothingConfigured(price: real)
    ensures Evaluate(price, Limits(None, None, None)) == Evaluation(true, true, None)
  {
  }

  /** A price of 100 under a maximum price of 150 passes and one of 200 fails;
      with a resale value of 300, a price of 100 (profit 200) meets a minimum
      profit of 150 and misses one of 250. */
  lemma WorkedThresholds()
    ensures Evaluate(100.0, Limits(Some(150.0), None, None)).meetsPrice
    ensures !Evaluate(200.0, Limits(Some(150.0), None, None)).meetsPrice
    ensures Evaluate(100.0, Limits(None, Some(300.0), Some(150.0))) == Evaluation(true, true, Some(200.0))
    ensures Evaluate(100.0, Limits(None, Some(300.0), Some(250.0))) == Evaluation(true, false, Some(200.0))
  {
  }
}
