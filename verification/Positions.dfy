/**
 One (system, symbol) position as the fill loop of app/evaluation/trading.py evolves it:
 adding, closing part, closing exactly, and flipping through zero.  Amounts are real numbers,
 so the divisions that split fees and slippage are exact; Decimal rounding is not modelled.
 */
module Positions {
  import opened Wrappers
  import opened Reals

  datatype Execution = Execution(
    fillId: string,
    orderId: string,
    systemId: string,
    symbol: string,
    side: string,
    orderType: string,
    quantity: real,
    price: real,
    fee: real,
    filledAt: int,
    slippage: Option<real>)

  /** What `ExecutionRecord.__post_init__` enforces on every record. */
  predicate ValidExecution(e: Execution) {
    && (e.side == "BUY" || e.side == "SELL")
    && (e.orderType == "MARKET" || e.orderType == "LIMIT")
    && e.quantity > 0.0 && e.price > 0.0 && e.fee >= 0.0
    && (e.slippage.Some? ==> e.slippage.value >= 0.0)
  }

  predicate AllValid(s: seq<Execution>) {
    forall e | e in s :: ValidExecution(e)
  }

  type Key = (string, string)

  function KeyOf(e: Execution): Key { (e.systemId, e.symbol) }

  function SignedFill(e: Execution): real {
    if e.side == "BUY" then e.quantity else -e.quantity
  }

  /** The fields of `_PositionState`. */
  datatype Position = Position(
    quantity: real,
    averageEntry: real,
    entryFees: real,
    entrySlippage: real,
    slippageKnown: bool,
    openedAt: Option<int>)

  const FLAT := Position(0.0, 0.0, 0.0, 0.0, true, None)

  datatype ClosedTrade = ClosedTrade(
    key: Key,
    side: string,
    quantity: real,
    entryPrice: real,
    exitPrice: real,
    openedAt: int,
    closedAt: int,
    grossPnl: real,
    fees: real,
    slippage: Option<real>,
    grossBeforeCosts: Option<real>,
    netPnl: real,
    exitFillId: string)

  /** Flat positions carry nothing; open ones have a positive entry price and non-negative costs. */
  predicate Coherent(p: Position) {
    && (p.quantity == 0.0 ==> p == FLAT)
    && (p.quantity != 0.0 ==> p.averageEntry > 0.0 && p.openedAt.Some?)
    && p.entryFees >= 0.0 && p.entrySlippage >= 0.0
  }

  predicate SameDirection(p: Position, e: Execution) {
    || p.quantity == 0.0
    || (p.quantity > 0.0 && SignedFill(e) > 0.0)
    || (p.quantity < 0.0 && SignedFill(e) < 0.0)
  }

  /** What holding `quantity` bought at `price` gains when valued at `mark`. */
  function Gain(quantity: real, mark: real, price: real): real {
    quantity * (mark - price)
  }

  /** The size-weighted average of two prices. */
  function Average(entry: real, held: real, price: real, more: real): real
    requires held + more != 0.0
  {
    (entry * held + price * more) / (held + more)
  }

  /** The branch that adds to a position (or opens one). */
  function Add(p: Position, e: Execution): Position
    requires ValidExecution(e)
  {
    var held := Abs(p.quantity);
    Position(
      p.quantity + SignedFill(e),
      Average(p.averageEntry, held, e.price, Abs(SignedFill(e))),
      p.entryFees + e.fee,
      if e.slippage.Some? then p.entrySlippage + e.slippage.value else p.entrySlippage,
      p.slippageKnown && e.slippage.Some?,
      if p.quantity == 0.0 then Some(e.filledAt) else p.openedAt)
  }

  function ClosingQuantity(p: Position, e: Execution): real {
    Min(Abs(p.quantity), Abs(SignedFill(e)))
  }

  /** The part of `amount` that falls to `part` units out of `whole`. */
  function Share(amount: real, part: real, whole: real): real
    requires whole != 0.0
  {
    amount * (part / whole)
  }

  /** The trade recorded when a fill goes against the position. */
  function Close(p: Position, e: Execution): ClosedTrade
    requires ValidExecution(e) && !SameDirection(p, e)
  {
    var closing, held := ClosingQuantity(p, e), Abs(p.quantity);
    var gross := if p.quantity > 0.0 then Gain(closing, e.price, p.averageEntry)
                 else Gain(closing, p.averageEntry, e.price);
    var fees := Share(p.entryFees, closing, held) + Share(e.fee, closing, e.quantity);
    var slippage :=
      if p.slippageKnown && e.slippage.Some?
      then Some(Share(p.entrySlippage, closing, held) + Share(e.slippage.value, closing, e.quantity)) else None;
    ClosedTrade(
      KeyOf(e), if p.quantity > 0.0 then "LONG" else "SHORT", closing, p.averageEntry, e.price,
      if p.openedAt.Some? then p.openedAt.value else e.filledAt, e.filledAt,
      gross, fees, slippage, if slippage.Some? then Some(gross + slippage.value) else None,
      gross - fees, e.fillId)
  }

  /** What remains after a fill against the position: nothing, a smaller position, or a flipped one. */
  function Reduce(p: Position, e: Execution): Position
    requires ValidExecution(e) && !SameDirection(p, e)
  {
    var closing, held := ClosingQuantity(p, e), Abs(p.quantity);
    var left := p.quantity + SignedFill(e);
    if left == 0.0 then FLAT
    else if (p.quantity > 0.0 && left > 0.0) || (p.quantity < 0.0 && left < 0.0) then
      p.(quantity := left,
         entryFees := p.entryFees - Share(p.entryFees, closing, held),
         entrySlippage :=
           if p.slippageKnown then p.entrySlippage - Share(p.entrySlippage, closing, held) else p.entrySlippage)
    else
      Position(
        left, e.price, Share(e.fee, Abs(left), e.quantity),
        if e.slippage.Some? then Share(e.slippage.value, Abs(left), e.quantity) else 0.0,
        e.slippage.Some?, Some(e.filledAt))
  }

  /** One fill: the new position and the trade it closed, if any. */
  function Apply(p: Position, e: Execution): (Position, Option<ClosedTrade>)
    requires ValidExecution(e)
  {
    if SameDirection(p, e) then (Add(p, e), None) else (Reduce(p, e), Some(Close(p, e)))
  }

  // ---------------------------------------------------------------- what one fill does, case by case

  /** The quantity a fill adds: bought units count up, sold ones down. */
  predicate Signs(e: Execution, change: real) {
    (e.side == "BUY" ==> change == e.quantity) && (e.side == "SELL" ==> change == -e.quantity)
  }

  /**
   What a fill does to a position: it opens one, adds at the size-weighted average price, closes part
   and leaves the entry price alone, closes all, or turns the position round at its own price.
   */
  predicate Moves(p: Position, e: Execution, q: Position, trade: Option<ClosedTrade>) {
    var change := q.quantity - p.quantity;
    && Signs(e, change)
    && (trade.None? <==> p.quantity * change >= 0.0)
    && if trade.None? then Adds(p, e, q) else Closes(p, e, q, trade.value)
  }

  function Size(quantity: real): real { if quantity < 0.0 then -quantity else quantity }

  predicate Adds(p: Position, e: Execution, q: Position) {
    && q.averageEntry * (Size(p.quantity) + e.quantity) == p.averageEntry * Size(p.quantity) + e.price * e.quantity
    && q.openedAt == (if p.quantity == 0.0 then Some(e.filledAt) else p.openedAt)
  }

  predicate Closes(p: Position, e: Execution, q: Position, t: ClosedTrade) {
    var size := Size(p.quantity);
    && (e.quantity < size ==> q.averageEntry == p.averageEntry && q.openedAt == p.openedAt)
    && (e.quantity == size ==> q == FLAT)
    && (e.quantity > size ==> q.averageEntry == e.price && q.openedAt == Some(e.filledAt))
    && t.quantity == (if e.quantity < size then e.quantity else size)
    && t.entryPrice == p.averageEntry && t.exitPrice == e.price
    && t.side == (if p.quantity > 0.0 then "LONG" else "SHORT")
    && t.grossPnl == t.quantity * (if p.quantity > 0.0 then e.price - p.averageEntry else p.averageEntry - e.price)
    && t.key == (e.systemId, e.symbol) && t.exitFillId == e.fillId && t.closedAt == e.filledAt
    && t.openedAt == (if p.openedAt.Some? then p.openedAt.value else e.filledAt)
  }

  lemma Directions(held: real, change: real)
    ensures held * change >= 0.0 <==> held == 0.0 || change == 0.0 || (held > 0.0 <==> change > 0.0)
  {
    if held > 0.0 && change > 0.0 { StrictScale(held, change); }
    if held > 0.0 && change < 0.0 { StrictScale(held, -change); }
    if held < 0.0 && change > 0.0 { StrictScale(-held, change); }
    if held < 0.0 && change < 0.0 { StrictScale(-held, -change); }
  }

  lemma AddAdds(p: Position, e: Execution)
    requires ValidExecution(e) && SameDirection(p, e)
    ensures Adds(p, e, Add(p, e))
  {
    WeightedAverage(p.averageEntry, Abs(p.quantity), e.price, Abs(SignedFill(e)));
    hide Average;
  }

  lemma ReduceCloses(p: Position, e: Execution)
    requires ValidExecution(e) && !SameDirection(p, e)
    ensures Closes(p, e, Reduce(p, e), Close(p, e))
  {
    hide Share;
  }

  lemma ApplyMoves(p: Position, e: Execution)
    requires ValidExecution(e)
    ensures Moves(p, e, Apply(p, e).0, Apply(p, e).1)
  {
    Directions(p.quantity, SignedFill(e));
    if SameDirection(p, e) { AddAdds(p, e); } else { ReduceCloses(p, e); }
    QuantityMoves(p, e);
    hide Adds, Closes, Add, Reduce, Close;
  }

  lemma QuantityMoves(p: Position, e: Execution)
    requires ValidExecution(e)
    ensures Apply(p, e).0.quantity == p.quantity + SignedFill(e)
  {
    hide Share, Average, Close;
  }

  // ---------------------------------------------------------------- what one fill conserves

  lemma ShareBetween(x: real, part: real, whole: real)
    requires x >= 0.0 && 0.0 <= part <= whole && whole > 0.0
    ensures 0.0 <= Share(x, part, whole) <= x
  {
    assert 0.0 <= part / whole <= 1.0;
  }

  lemma WholeShare(x: real, whole: real)
    requires whole != 0.0
    ensures Share(x, whole, whole) == x
  {
    assert whole / whole == 1.0;
  }

  lemma TwoShares(x: real, a: real, b: real, whole: real)
    requires whole != 0.0 && a + b == whole
    ensures Share(x, a, whole) + Share(x, b, whole) == x
  {
    assert a / whole + b / whole == 1.0;
    assert x * (a / whole) + x * (b / whole) == x * (a / whole + b / whole);
  }

  /** The entry price after adding is the size-weighted average of the old entry price and the fill price. */
  lemma WeightedAverage(a: real, held: real, price: real, more: real)
    requires held >= 0.0 && more > 0.0
    ensures Average(a, held, price, more) * (held + more) == a * held + price * more
  {
    Quotient(a * held + price * more, held + more);
  }

  /** Hence it lies between any bounds on those two prices. */
  lemma AverageBetween(a: real, held: real, price: real, more: real, lo: real, hi: real)
    requires held >= 0.0 && more > 0.0 && lo <= price <= hi && (held > 0.0 ==> lo <= a <= hi)
    ensures lo <= Average(a, held, price, more) <= hi
  {
    WeightedAverage(a, held, price, more);
    Scale(lo, price, more);
    Scale(price, hi, more);
    if held > 0.0 {
      Scale(lo, a, held);
      Scale(a, hi, held);
    } else {
      assert held == 0.0;
      assert a * held == a * 0.0 && lo * held == lo * 0.0 && hi * held == hi * 0.0;
    }
    assert lo * held <= a * held <= hi * held;
    assert lo * more <= price * more <= hi * more;
    var size := held + more;
    assert lo * size == lo * held + lo * more;
    assert hi * size == hi * held + hi * more;
    var total := a * held + price * more;
    assert lo * size <= total <= hi * size;
    QuotientBetween(lo, hi, total, size);
  }

  lemma AddKeepsCoherent(p: Position, e: Execution)
    requires Coherent(p) && ValidExecution(e) && SameDirection(p, e)
    ensures Coherent(Add(p, e)) && Add(p, e).quantity != 0.0
  {
    var held, more := Abs(p.quantity), Abs(SignedFill(e));
    assert p.averageEntry * held >= 0.0 && e.price * more > 0.0;
    Positive(p.averageEntry * held + e.price * more, held + more);
  }

  lemma ReduceKeepsCoherent(p: Position, e: Execution)
    requires Coherent(p) && ValidExecution(e) && !SameDirection(p, e)
    ensures Coherent(Reduce(p, e))
  {
    hide Share;
    var left, closing, held := p.quantity + SignedFill(e), ClosingQuantity(p, e), Abs(p.quantity);
    ShareBetween(p.entryFees, closing, held);
    ShareBetween(p.entrySlippage, closing, held);
    if Abs(left) <= e.quantity {
      ShareBetween(e.fee, Abs(left), e.quantity);
      if e.slippage.Some? { ShareBetween(e.slippage.value, Abs(left), e.quantity); }
    }
  }

  lemma ApplyKeepsCoherent(p: Position, e: Execution)
    requires Coherent(p) && ValidExecution(e)
    ensures Coherent(Apply(p, e).0)
  {
    if SameDirection(p, e) { AddKeepsCoherent(p, e); } else { ReduceKeepsCoherent(p, e); }
  }

  function Realized(t: Option<ClosedTrade>): real {
    if t.Some? then t.value.grossPnl else 0.0
  }

  function ClosedQuantity(t: Option<ClosedTrade>): real {
    if t.Some? then t.value.quantity else 0.0
  }

  function ClosedFees(t: Option<ClosedTrade>): real {
    if t.Some? then t.value.fees else 0.0
  }

  lemma AddBasis(p: Position, e: Execution)
    requires Coherent(p) && ValidExecution(e) && SameDirection(p, e)
    ensures Add(p, e).quantity * Add(p, e).averageEntry == p.quantity * p.averageEntry + SignedFill(e) * e.price
  {
    var held, more := Abs(p.quantity), Abs(SignedFill(e));
    WeightedAverage(p.averageEntry, held, e.price, more);
    var average := Add(p, e).averageEntry;
    assert average * (held + more) == p.averageEntry * held + e.price * more;
    if SignedFill(e) < 0.0 {
      assert (-(held + more)) * average == (-held) * p.averageEntry + (-more) * e.price;
    }
  }

  lemma ReduceBasis(p: Position, e: Execution)
    requires Coherent(p) && ValidExecution(e) && !SameDirection(p, e)
    ensures Reduce(p, e).quantity * Reduce(p, e).averageEntry - Close(p, e).grossPnl
            == p.quantity * p.averageEntry + SignedFill(e) * e.price
  {
    hide Gain, Share;
    var q, s, a, c := p.quantity, SignedFill(e), p.averageEntry, ClosingQuantity(p, e);
    SplitGain(c, e.price, a);
    SplitGain(c, a, e.price);
    SumTimes(q, s, a);
    SumTimes(q, s, e.price);
    Negated(c, a);
    Negated(c, e.price);
  }

  lemma SplitGain(quantity: real, mark: real, price: real)
    ensures Gain(quantity, mark, price) == quantity * mark - quantity * price
  {
  }

  lemma SumTimes(x: real, y: real, z: real)
    ensures (x + y) * z == x * z + y * z
  {
  }

  lemma Negated(x: real, z: real)
    ensures (-x) * z == -(x * z)
  {
  }

  /** Cost basis: what the position cost, less what has been realised, is the sum of signed purchases. */
  lemma BasisStep(p: Position, e: Execution)
    requires Coherent(p) && ValidExecution(e)
    ensures var (q, t) := Apply(p, e);
            && q.quantity == p.quantity + SignedFill(e)
            && q.quantity * q.averageEntry - Realized(t) == p.quantity * p.averageEntry + SignedFill(e) * e.price
  {
    if SameDirection(p, e) { AddBasis(p, e); } else { ReduceBasis(p, e); }
  }

  /** Fees are split between the closed trade and the position without loss. */
  lemma FeesStep(p: Position, e: Execution)
    requires Coherent(p) && ValidExecution(e)
    ensures var (q, t) := Apply(p, e);
            q.entryFees + ClosedFees(t) == p.entryFees + e.fee
  {
    if !SameDirection(p, e) { SplitStep(p, e, p.entryFees, e.fee); }
  }

  /** How an amount held since entry and an amount paid on the fill are split between trade and rest. */
  lemma SplitStep(p: Position, e: Execution, held: real, paid: real)
    requires ValidExecution(e) && !SameDirection(p, e)
    ensures var left, closing := p.quantity + SignedFill(e), ClosingQuantity(p, e);
            var traded := Share(held, closing, Abs(p.quantity)) + Share(paid, closing, e.quantity);
            && (left == 0.0 ==> traded == held + paid)
            && (left != 0.0 && (left > 0.0 <==> p.quantity > 0.0) ==> Share(paid, closing, e.quantity) == paid)
            && (left != 0.0 && !(left > 0.0 <==> p.quantity > 0.0) ==>
                  traded + Share(paid, Abs(left), e.quantity) == held + paid)
  {
    hide Share;
    var left, c := p.quantity + SignedFill(e), ClosingQuantity(p, e);
    WholeShare(paid, e.quantity);
    WholeShare(held, Abs(p.quantity));
    if left != 0.0 && !(left > 0.0 <==> p.quantity > 0.0) {
      TwoShares(paid, c, Abs(left), e.quantity);
    }
  }

  /** Filled quantity is accounted for by the change of the open size and twice what was closed. */
  lemma QuantityStep(p: Position, e: Execution)
    requires Coherent(p) && ValidExecution(e)
    ensures var (q, t) := Apply(p, e);
            Abs(q.quantity) + 2.0 * ClosedQuantity(t) == Abs(p.quantity) + e.quantity
  {
  }

  /** With every slippage known, slippage is split without loss too. */
  lemma SlippageStep(p: Position, e: Execution)
    requires Coherent(p) && ValidExecution(e) && p.slippageKnown && e.slippage.Some?
    ensures var (q, t) := Apply(p, e);
            && q.slippageKnown
            && (t.Some? ==> t.value.slippage.Some?)
            && q.entrySlippage + (if t.Some? then t.value.slippage.value else 0.0) == p.entrySlippage + e.slippage.value
  {
    if !SameDirection(p, e) { SplitStep(p, e, p.entrySlippage, e.slippage.value); }
  }
}
