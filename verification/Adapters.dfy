/**
 Turning paper orders and fills into execution records (app/evaluation/adapters.py), and the
 inverse of the paper broker's slippage formula that the adapter applies on the way.
 */
module Adapters {
  import opened Wrappers
  import opened Sequences
  import opened Reals
  import opened Sums
  import opened Positions
  import opened Ledgers

  const BPS_DENOMINATOR: real := 10000.0

  datatype AdapterError =
    | NoMatchingOrder(fillId: string)
    | UnsupportedOrderType(orderType: string)
    | NegativeBps
    | SellRateTooLarge
    | UnsupportedSide(side: string)
    | InvalidRecord

  datatype PaperOrder = PaperOrder(orderId: string, systemId: string, symbol: string, side: string, orderType: string)

  datatype PaperFill = PaperFill(
    fillId: string, orderId: string, price: real, quantity: real, fee: real, filledAt: int)

  function Rate(bps: real): real {
    bps / BPS_DENOMINATOR
  }

  /** What a mark is multiplied by to give the price of a market fill. */
  function SlippageFactor(side: string, bps: real): real {
    if side == "BUY" then 1.0 + Rate(bps) else 1.0 - Rate(bps)
  }

  /** `_market_slippage_cost`. */
  function MarketSlippage(side: string, price: real, quantity: real, bps: Option<real>): Result<Option<real>, AdapterError> {
    if bps.None? then Ok(None)
    else if bps.value < 0.0 then Err(NegativeBps)
    else
      var factor := SlippageFactor(side, bps.value);
      if side == "BUY" then Ok(Some(Gain(quantity, price, price / factor)))
      else if side == "SELL" then
        if Rate(bps.value) >= 1.0 then Err(SellRateTooLarge) else Ok(Some(Gain(quantity, price / factor, price)))
      else Err(UnsupportedSide(side))
  }

  function RecordOf(orders: map<string, PaperOrder>, fill: PaperFill, bps: Option<real>): Result<Execution, AdapterError> {
    if fill.orderId !in orders then Err(NoMatchingOrder(fill.fillId))
    else
      var order := orders[fill.orderId];
      var slippage :=
        if order.orderType == "LIMIT" then Ok(Some(0.0))
        else if order.orderType == "MARKET" then MarketSlippage(order.side, fill.price, fill.quantity, bps)
        else Err(UnsupportedOrderType(order.orderType));
      if slippage.Err? then Err(slippage.error)
      else
        var e := Execution(
          fill.fillId, fill.orderId, order.systemId, order.symbol, order.side, order.orderType,
          fill.quantity, fill.price, fill.fee, fill.filledAt, slippage.value);
        if ValidExecution(e) then Ok(e) else Err(InvalidRecord)
  }

  /** The records of all fills, or the first error. */
  function RecordsOf(orders: map<string, PaperOrder>, fills: seq<PaperFill>, bps: Option<real>)
    : Result<seq<Execution>, AdapterError>
  {
    if fills == [] then Ok([])
    else
      var earlier := RecordsOf(orders, Init(fills), bps);
      if earlier.Err? then earlier
      else
        var r := RecordOf(orders, Last(fills), bps);
        if r.Err? then Err(r.error) else Ok(earlier.value + [r.value])
  }

  /** The dictionary from order id to order: a later order with the same id replaces an earlier one. */
  function OrdersById(orders: seq<PaperOrder>): map<string, PaperOrder> {
    if orders == [] then map[] else OrdersById(Init(orders))[Last(orders).orderId := Last(orders)]
  }

  lemma {:induction false} ErrorPersists(orders: map<string, PaperOrder>, fills: seq<PaperFill>, bps: Option<real>, k: nat)
    requires k <= |fills| && RecordsOf(orders, fills[..k], bps).Err?
    ensures RecordsOf(orders, fills, bps) == RecordsOf(orders, fills[..k], bps)
  {
    if k == |fills| {
      assert fills[..k] == fills;
    } else {
      assert Init(fills)[..k] == fills[..k];
      ErrorPersists(orders, Init(fills), bps, k);
    }
  }

  // ---------------------------------------------------------------- what a record says, field by field

  /** The cost of slippage: nothing for limit orders, unknown without a rate, else the rate's share of the price. */
  ghost predicate CostsSlippage(order: PaperOrder, fill: PaperFill, bps: Option<real>, slippage: Option<real>) {
    if order.orderType == "LIMIT" then slippage == Some(0.0)
    else if bps.None? then slippage == None
    else
      slippage.Some? && order.orderType == "MARKET" && bps.value >= 0.0
      && if order.side == "BUY"
         then slippage.value * (10000.0 + bps.value) == fill.quantity * fill.price * bps.value
         else order.side == "SELL" && bps.value < 10000.0
              && slippage.value * (10000.0 - bps.value) == fill.quantity * fill.price * bps.value
  }

  /** The order of a fill: the last one listed under its id. */
  ghost predicate IsOrderOf(orders: seq<PaperOrder>, k: nat, id: string)
    requires k < |orders|
  {
    orders[k].orderId == id && forall j | k < j < |orders| :: orders[j].orderId != id
  }

  /** The record joins the fill's own figures with its order's identity. */
  ghost predicate Joins(order: PaperOrder, fill: PaperFill, bps: Option<real>, e: Execution) {
    && e.fillId == fill.fillId && e.orderId == fill.orderId && e.filledAt == fill.filledAt
    && e.quantity == fill.quantity && e.price == fill.price && e.fee == fill.fee
    && e.systemId == order.systemId && e.symbol == order.symbol && e.side == order.side
    && e.orderType == order.orderType && CostsSlippage(order, fill, bps, e.slippage)
  }

  ghost predicate Records(orders: seq<PaperOrder>, fill: PaperFill, bps: Option<real>, e: Execution) {
    exists k | 0 <= k < |orders| :: IsOrderOf(orders, k, fill.orderId) && Joins(orders[k], fill, bps, e)
  }

  /** Why a fill cannot be recorded. */
  ghost predicate Refuses(orders: seq<PaperOrder>, fill: PaperFill, bps: Option<real>, e: AdapterError) {
    if forall o | o in orders :: o.orderId != fill.orderId then e == NoMatchingOrder(fill.fillId)
    else exists k | 0 <= k < |orders| :: IsOrderOf(orders, k, fill.orderId) && RefusesOrder(orders[k], fill, bps, e)
  }

  ghost predicate RefusesOrder(order: PaperOrder, fill: PaperFill, bps: Option<real>, e: AdapterError) {
    match e
    case NoMatchingOrder(_) => false
    case UnsupportedOrderType(t) => t == order.orderType && t != "LIMIT" && t != "MARKET"
    case NegativeBps => order.orderType == "MARKET" && bps.Some? && bps.value < 0.0
    case SellRateTooLarge => order.orderType == "MARKET" && order.side == "SELL" && bps.Some? && bps.value >= 10000.0
    case UnsupportedSide(side) =>
      side == order.side && side != "BUY" && side != "SELL" && order.orderType == "MARKET"
      && bps.Some? && bps.value >= 0.0
    case InvalidRecord =>
      || fill.quantity <= 0.0 || fill.price <= 0.0 || fill.fee < 0.0 || (order.side != "BUY" && order.side != "SELL")
  }

  lemma {:induction false} OrdersByIdExactly(orders: seq<PaperOrder>, id: string)
    ensures id in OrdersById(orders) <==> exists o | o in orders :: o.orderId == id
    ensures id in OrdersById(orders) ==> exists k | 0 <= k < |orders| :: OrderFound(orders, k, id)
  {
    if orders != [] {
      var earlier, last := Init(orders), Last(orders);
      OrdersByIdExactly(earlier, id);
      assert orders == earlier + [last];
      LastOrderWins(earlier, last, id);
      if last.orderId != id && id in OrdersById(earlier) {
        var k :| 0 <= k < |earlier| && OrderFound(earlier, k, id);
        OrderStays(earlier, last, k, id);
      }
    }
    hide OrderFound, IsOrderOf, OrdersById;
  }

  lemma LastOrderWins(earlier: seq<PaperOrder>, last: PaperOrder, id: string)
    ensures OrdersById(earlier + [last]) == OrdersById(earlier)[last.orderId := last]
    ensures last.orderId == id ==> OrderFound(earlier + [last], |earlier|, id)
  {
    assert Init(earlier + [last]) == earlier;
  }

  ghost predicate OrderFound(orders: seq<PaperOrder>, k: nat, id: string)
    requires k < |orders|
  {
    IsOrderOf(orders, k, id) && id in OrdersById(orders) && OrdersById(orders)[id] == orders[k]
  }

  lemma OrderStays(earlier: seq<PaperOrder>, last: PaperOrder, k: nat, id: string)
    requires k < |earlier| && OrderFound(earlier, k, id) && last.orderId != id
    ensures OrderFound(earlier + [last], k, id)
  {
    assert Init(earlier + [last]) == earlier;
  }

  lemma RateShare(price: real, quantity: real, bps: real, factor: real, sign: real)
    requires factor == 1.0 + sign * (bps / 10000.0) && factor != 0.0
    ensures Gain(quantity, price, price / factor) * (10000.0 + sign * bps) == sign * (quantity * price * bps)
  {
    var reference := price / factor;
    assert reference * factor == price;
    assert 10000.0 + sign * bps == 10000.0 * factor;
    assert (price - reference) * factor == price * factor - price;
    assert price * factor - price == price * (sign * (bps / 10000.0));
    assert Gain(quantity, price, reference) * (10000.0 * factor) == quantity * ((price - reference) * factor) * 10000.0;
  }

  lemma SlippageIsShare(order: PaperOrder, fill: PaperFill, bps: real)
    requires order.orderType == "MARKET" && MarketSlippage(order.side, fill.price, fill.quantity, Some(bps)).Ok?
    ensures CostsSlippage(order, fill, Some(bps), MarketSlippage(order.side, fill.price, fill.quantity, Some(bps)).value)
  {
    var factor := SlippageFactor(order.side, bps);
    if order.side == "BUY" {
      RateShare(fill.price, fill.quantity, bps, factor, 1.0);
    } else {
      RateShare(fill.price, fill.quantity, bps, factor, -1.0);
      Turned(fill.quantity, fill.price / factor, fill.price, 10000.0 - bps);
    }
    hide Gain;
  }

  lemma Turned(quantity: real, a: real, b: real, scale: real)
    ensures Gain(quantity, a, b) * scale == -(Gain(quantity, b, a) * scale)
  {
    assert Gain(quantity, a, b) == -Gain(quantity, b, a);
  }

  /** A record that is made joins fill and order; one that is not made is refused for the reason given. */
  lemma RecordExactly(orders: seq<PaperOrder>, fill: PaperFill, bps: Option<real>)
    ensures var r := RecordOf(OrdersById(orders), fill, bps);
            && (r.Ok? ==> ValidExecution(r.value) && Records(orders, fill, bps, r.value))
            && (r.Err? ==> Refuses(orders, fill, bps, r.error))
  {
    OrdersByIdExactly(orders, fill.orderId);
    if fill.orderId in OrdersById(orders) {
      var k :| 0 <= k < |orders| && OrderFound(orders, k, fill.orderId);
      JoinedExactly(OrdersById(orders), orders[k], fill, bps);
    }
    hide RecordOf, Joins, RefusesOrder, IsOrderOf, ValidExecution;
  }

  lemma JoinedExactly(byId: map<string, PaperOrder>, order: PaperOrder, fill: PaperFill, bps: Option<real>)
    requires fill.orderId in byId && byId[fill.orderId] == order
    ensures var r := RecordOf(byId, fill, bps);
            && (r.Ok? ==> ValidExecution(r.value) && Joins(order, fill, bps, r.value))
            && (r.Err? ==> RefusesOrder(order, fill, bps, r.error))
  {
    if order.orderType == "MARKET" && bps.Some? && MarketSlippage(order.side, fill.price, fill.quantity, bps).Ok? {
      SlippageIsShare(order, fill, bps.value);
    }
    if fill.quantity > 0.0 && fill.price > 0.0 {
      SlippageNeverNegative(order.side, fill.price, fill.quantity, bps);
    }
    MarketFails(order.side, fill.price, fill.quantity, bps);
    hide MarketSlippage, CostsSlippage;
  }

  lemma MarketFails(side: string, price: real, quantity: real, bps: Option<real>)
    ensures var r := MarketSlippage(side, price, quantity, bps);
            && (r == Err(NegativeBps) <==> bps.Some? && bps.value < 0.0)
            && (r == Err(SellRateTooLarge) <==> bps.Some? && side == "SELL" && bps.value >= 10000.0)
            && (r == Err(UnsupportedSide(side)) <==> bps.Some? && bps.value >= 0.0 && side != "BUY" && side != "SELL")
            && (r.Err? ==> r.error == NegativeBps || r.error == SellRateTooLarge || r.error == UnsupportedSide(side))
            && (r.Ok? ==> (r.value.None? <==> bps.None?))
  {
  }

  ghost predicate Recordable(orders: seq<PaperOrder>, fill: PaperFill, bps: Option<real>) {
    exists e :: Records(orders, fill, bps, e)
  }

  /** Every fill before number `i` can be recorded, and that one cannot. */
  ghost predicate FirstRefused(
    orders: seq<PaperOrder>, fills: seq<PaperFill>, bps: Option<real>, i: nat, e: AdapterError)
    requires i < |fills|
  {
    && Refuses(orders, fills[i], bps, e)
    && forall j | 0 <= j < i :: Recordable(orders, fills[j], bps)
  }

  method ExecutionRecordsFromPaper(orders: seq<PaperOrder>, fills: seq<PaperFill>, bps: Option<real>)
    returns (r: Result<seq<Execution>, AdapterError>)
    ensures r == RecordsOf(OrdersById(orders), fills, bps)
    ensures r.Ok? ==>
              && |r.value| == |fills|
              && forall i | 0 <= i < |fills| :: ValidExecution(r.value[i]) && Records(orders, fills[i], bps, r.value[i])
    ensures r.Err? ==> exists i | 0 <= i < |fills| :: FirstRefused(orders, fills, bps, i, r.error)
  {
    hide RecordOf, ValidExecution, Records, Refuses;
    var byId: map<string, PaperOrder> := map[];
    for i := 0 to |orders|
      invariant byId == OrdersById(orders[..i])
    {
      assert Init(orders[..i + 1]) == orders[..i];
      byId := byId[orders[i].orderId := orders[i]];
    }
    assert orders[..|orders|] == orders;
    var records := [];
    for i := 0 to |fills|
      invariant RecordsOf(byId, fills[..i], bps) == Ok(records)
      invariant |records| == i
      invariant forall j | 0 <= j < i :: ValidExecution(records[j]) && Records(orders, fills[j], bps, records[j])
    {
      assert Init(fills[..i + 1]) == fills[..i];
      var record := RecordOf(byId, fills[i], bps);
      RecordExactly(orders, fills[i], bps);
      if record.Err? {
        ErrorPersists(byId, fills, bps, i + 1);
        forall j | 0 <= j < i ensures Recordable(orders, fills[j], bps) {
          assert Records(orders, fills[j], bps, records[j]);
        }
        assert FirstRefused(orders, fills, bps, i, record.error);
        return Err(record.error);
      }
      records := records + [record.value];
    }
    assert fills[..|fills|] == fills;
    return Ok(records);
  }

  // ---------------------------------------------------------------- what the slippage means

  /** The mark the fill price was derived from. */
  function ReferencePrice(e: Execution, bps: real): real
    requires bps >= 0.0
  {
    if e.orderType == "LIMIT" || SlippageFactor(e.side, bps) == 0.0 then e.price
    else e.price / SlippageFactor(e.side, bps)
  }

  /** The price at which the paper broker fills a market order. */
  function BrokerFillPrice(side: string, mark: real, bps: real): real {
    mark * SlippageFactor(side, bps)
  }

  /** The adapter recovers the broker's mark, and the cost is the distance from it. */
  lemma SlippageInvertsBroker(side: string, mark: real, quantity: real, bps: real)
    requires (side == "BUY" || side == "SELL") && mark > 0.0 && quantity > 0.0 && bps >= 0.0
    requires side == "SELL" ==> bps < BPS_DENOMINATOR
    ensures var price := BrokerFillPrice(side, mark, bps);
            && price > 0.0 && (if side == "BUY" then price >= mark else price <= mark)
            && MarketSlippage(side, price, quantity, Some(bps))
               == Ok(Some(if side == "BUY" then Gain(quantity, price, mark) else Gain(quantity, mark, price)))
  {
    hide SlippageFactor, Rate, Gain, MarketSlippage;
    FactorBounds(side, bps);
    var factor, price := SlippageFactor(side, bps), BrokerFillPrice(side, mark, bps);
    Recovered(mark, factor);
    hide BrokerFillPrice;
    SlippageFromReference(side, price, quantity, bps, mark);
  }

  lemma SlippageFromReference(side: string, price: real, quantity: real, bps: real, reference: real)
    requires (side == "BUY" || side == "SELL") && bps >= 0.0 && (side == "SELL" ==> bps < BPS_DENOMINATOR)
    requires SlippageFactor(side, bps) != 0.0 && price / SlippageFactor(side, bps) == reference
    ensures MarketSlippage(side, price, quantity, Some(bps))
            == Ok(Some(if side == "BUY" then Gain(quantity, price, reference) else Gain(quantity, reference, price)))
  {
    hide SlippageFactor, Gain;
  }

  /** What the broker marked the symbol at when it filled: for limit orders, their own price. */
  predicate FilledAtMark(e: Execution, mark: real, bps: real) {
    if e.orderType == "LIMIT" then mark == e.price
    else mark > 0.0 && e.price == BrokerFillPrice(e.side, mark, bps)
  }

  /** The reference price is the broker's mark. */
  lemma ReferenceIsBrokerMark(e: Execution, mark: real, bps: real)
    requires ValidExecution(e) && bps >= 0.0 && FilledAtMark(e, mark, bps)
    ensures ReferencePrice(e, bps) == mark
  {
    var factor := SlippageFactor(e.side, bps);
    hide SlippageFactor;
    if e.orderType != "LIMIT" {
      assert mark * 0.0 == 0.0;
      Undo(e.price, mark, factor);
    }
  }

  lemma FactorBounds(side: string, bps: real)
    requires bps >= 0.0
    ensures side == "BUY" ==> SlippageFactor(side, bps) >= 1.0
    ensures side == "SELL" ==> SlippageFactor(side, bps) <= 1.0
    ensures side == "SELL" ==> (Rate(bps) < 1.0 <==> bps < BPS_DENOMINATOR)
    ensures side == "SELL" ==> (Rate(bps) < 1.0 <==> SlippageFactor(side, bps) > 0.0)
  {
  }

  lemma Recovered(mark: real, factor: real)
    requires mark > 0.0 && factor > 0.0
    ensures var price := mark * factor;
            && price > 0.0 && price / factor == mark
            && (factor >= 1.0 ==> price >= mark) && (factor <= 1.0 ==> price <= mark)
  {
    StrictScale(mark, factor);
    Undo(mark * factor, mark, factor);
    if factor >= 1.0 { Scale(1.0, factor, mark); } else { Scale(factor, 1.0, mark); }
  }

  lemma Undo(price: real, x: real, factor: real)
    requires factor != 0.0 && price == x * factor
    ensures price / factor == x
  {
  }

  /** Dividing by at least one shrinks, by at most one grows. */
  lemma DivideBounds(price: real, factor: real)
    requires price > 0.0 && factor > 0.0
    ensures factor >= 1.0 ==> price / factor <= price
    ensures factor <= 1.0 ==> price / factor >= price
  {
    Quotient(price, factor);
    if factor >= 1.0 {
      Scale(1.0, factor, price);
      CancelFactor(price / factor, price, factor);
    }
    if factor <= 1.0 {
      Scale(factor, 1.0, price);
      CancelFactor(price, price / factor, factor);
    }
  }

  lemma GainsNothingLost(quantity: real, high: real, low: real)
    requires quantity > 0.0
    ensures high >= low ==> Gain(quantity, high, low) >= 0.0
  {
  }

  /** Reported slippage is never negative. */
  lemma SlippageNeverNegative(side: string, price: real, quantity: real, bps: Option<real>)
    requires price > 0.0 && quantity > 0.0
    ensures var r := MarketSlippage(side, price, quantity, bps);
            r.Ok? && r.value.Some? ==> r.value.value >= 0.0
  {
    if bps.Some? && bps.value >= 0.0 {
      FactorBounds(side, bps.value);
      hide SlippageFactor;
      var factor := SlippageFactor(side, bps.value);
      if factor > 0.0 {
        DivideBounds(price, factor);
        GainsNothingLost(quantity, price, price / factor);
        GainsNothingLost(quantity, price / factor, price);
      }
    }
  }

  /** So the record's own check never rejects the adapter's slippage. */
  lemma RecordFailsOnlyOnItsInputs(orders: map<string, PaperOrder>, fill: PaperFill, bps: Option<real>)
    requires fill.orderId in orders && fill.quantity > 0.0 && fill.price > 0.0 && fill.fee >= 0.0
    requires orders[fill.orderId].side == "BUY" || orders[fill.orderId].side == "SELL"
    ensures RecordOf(orders, fill, bps) != Err(InvalidRecord)
  {
    SlippageNeverNegative(orders[fill.orderId].side, fill.price, fill.quantity, bps);
  }

  /** What one fill would have been worth at its pre-slippage reference mark. */
  function ReferenceFlow(marks: map<string, real>, bps: real): Execution -> real
    requires bps >= 0.0
  {
    (e: Execution) => Gain(SignedFill(e), MarkAt(marks, e.symbol), ReferencePrice(e, bps))
  }

  lemma GainSplits(quantity: real, mark: real, price: real, reference: real)
    ensures Gain(quantity, mark, price) + Gain(quantity, price, reference) == Gain(quantity, mark, reference)
    ensures Gain(-quantity, mark, price) + Gain(quantity, reference, price) == Gain(-quantity, mark, reference)
  {
  }

  /** The record's slippage is exactly what the fill lost against its reference mark. */
  lemma SlippageIsLossAgainstReference(orders: map<string, PaperOrder>, fill: PaperFill, bps: real, mark: real)
    requires bps >= 0.0 && RecordOf(orders, fill, Some(bps)).Ok?
    ensures var e := RecordOf(orders, fill, Some(bps)).value;
            && ValidExecution(e) && e.slippage.Some?
            && Gain(SignedFill(e), mark, e.price) + Slippage(e) == Gain(SignedFill(e), mark, ReferencePrice(e, bps))
  {
    var e := RecordOf(orders, fill, Some(bps)).value;
    FactorBounds(e.side, bps);
    hide SlippageFactor;
    var reference := ReferencePrice(e, bps);
    if e.orderType == "LIMIT" {
      assert reference == e.price;
    } else if e.side == "BUY" {
      assert Slippage(e) == Gain(e.quantity, e.price, reference);
      GainSplits(e.quantity, mark, e.price, reference);
    } else {
      assert Slippage(e) == Gain(e.quantity, reference, e.price);
      GainSplits(e.quantity, mark, e.price, reference);
    }
  }

  /** Over all records: profit at the fill prices plus slippage is profit at the reference marks. */
  lemma {:induction false} ProfitBeforeCosts(
    orders: map<string, PaperOrder>, fills: seq<PaperFill>, bps: real, marks: map<string, real>)
    requires bps >= 0.0 && RecordsOf(orders, fills, Some(bps)).Ok?
    ensures var records := RecordsOf(orders, fills, Some(bps)).value;
            && AllValid(records) && (forall e | e in records :: e.slippage.Some?)
            && Sum(records, Flow(marks)) + Sum(records, Slippage) == Sum(records, ReferenceFlow(marks, bps))
  {
    hide RecordOf, Gain, ReferencePrice, Slippage, ValidExecution;
    if fills != [] {
      ProfitBeforeCosts(orders, Init(fills), bps, marks);
      var earlier, e := RecordsOf(orders, Init(fills), Some(bps)).value, RecordOf(orders, Last(fills), Some(bps)).value;
      SlippageIsLossAgainstReference(orders, Last(fills), bps, MarkAt(marks, e.symbol));
      SumAppend(earlier, e, Flow(marks));
      SumAppend(earlier, e, Slippage);
      SumAppend(earlier, e, ReferenceFlow(marks, bps));
    }
  }
}
