/**
 The fill loop of `calculate_trading_metrics` as a function of the fills, and the accounting
 identities that hold for every fill history: adds, partial closes, exact closes and flips.
 */
module Ledgers {
  import opened Wrappers
  import opened Sequences
  import opened Reals
  import opened Sums
  import opened Positions

  /** `keys` is the insertion order of the dictionary of states. */
  datatype Ledger = Ledger(keys: seq<Key>, states: map<Key, Position>, closed: seq<ClosedTrade>, realized: real)

  const EMPTY := Ledger([], map[], [], 0.0)

  function StateOf(l: Ledger, k: Key): Position {
    if k in l.states then l.states[k] else FLAT
  }

  function Post(l: Ledger, e: Execution): Ledger
    requires ValidExecution(e)
  {
    var k := KeyOf(e);
    var (q, t) := Apply(StateOf(l, k), e);
    Ledger(
      if k in l.states then l.keys else l.keys + [k],
      l.states[k := q],
      if t.Some? then l.closed + [t.value] else l.closed,
      l.realized + Realized(t))
  }

  function Replay(fills: seq<Execution>): Ledger
    requires AllValid(fills)
  {
    if fills == [] then EMPTY
    else
      assert Last(fills) in fills;
      Post(Replay(Init(fills)), Last(fills))
  }

  ghost predicate WellKept(l: Ledger) {
    && NoRepeats(l.keys)
    && (forall k :: k in l.keys <==> k in l.states)
    && (forall k | k in l.states :: Coherent(l.states[k]))
  }

  lemma PostKeeps(l: Ledger, e: Execution)
    requires WellKept(l) && ValidExecution(e)
    ensures WellKept(Post(l, e))
  {
    ApplyKeepsCoherent(StateOf(l, KeyOf(e)), e);
  }

  lemma {:induction false} ReplayKeeps(fills: seq<Execution>)
    requires AllValid(fills)
    ensures WellKept(Replay(fills))
  {
    if fills != [] {
      ReplayKeeps(Init(fills));
      assert Last(fills) in fills;
      PostKeeps(Replay(Init(fills)), Last(fills));
    }
  }

  /** A total over the ledger changes by the change of the one position the fill touches. */
  lemma PostTotal(l: Ledger, e: Execution, f: (Key, Position) -> real)
    requires WellKept(l) && ValidExecution(e)
    requires f(KeyOf(e), FLAT) == 0.0
    ensures var k, m := KeyOf(e), Post(l, e);
            Total(m.keys, m.states, f) == Total(l.keys, l.states, f) - f(k, StateOf(l, k)) + f(k, StateOf(m, k))
  {
    var k, m := KeyOf(e), Post(l, e);
    if k in l.states {
      TotalUpdate(l.keys, l.states, k, m.states[k], f);
    } else {
      TotalIgnoresOthers(l.keys, l.states, k, m.states[k], f);
      SumAppend(l.keys, k, EntryOf(m.states, f));
    }
  }

  // ---------------------------------------------------------------- the quantities being added up

  function Fee(e: Execution): real { e.fee }
  function Quantity(e: Execution): real { e.quantity }
  function Slippage(e: Execution): real { if e.slippage.Some? then e.slippage.value else 0.0 }
  function EntryFees(k: Key, p: Position): real { p.entryFees }
  function OpenSize(k: Key, p: Position): real { Abs(p.quantity) }
  function OpenSlippage(k: Key, p: Position): real { p.entrySlippage }
  function TradeFees(t: ClosedTrade): real { t.fees }
  function TradeQuantity(t: ClosedTrade): real { t.quantity }
  function TradeGross(t: ClosedTrade): real { t.grossPnl }
  function TradeNet(t: ClosedTrade): real { t.netPnl }
  function TradeSlippage(t: ClosedTrade): real { if t.slippage.Some? then t.slippage.value else 0.0 }

  function MarkAt(marks: map<string, real>, symbol: string): real {
    if symbol in marks then marks[symbol] else 0.0
  }

  /** What one fill is worth at the marks: bought cheaper or sold dearer than the mark. */
  function Flow(marks: map<string, real>): Execution -> real {
    (e: Execution) => Gain(SignedFill(e), MarkAt(marks, e.symbol), e.price)
  }

  /** Unrealised profit of one position at the marks. */
  function OpenPnl(marks: map<string, real>): (Key, Position) -> real {
    (k: Key, p: Position) => Gain(p.quantity, MarkAt(marks, k.1), p.averageEntry)
  }

  // ---------------------------------------------------------------- identities over every history

  /** Realised plus unrealised profit is what all fills together are worth at the marks. */
  lemma {:induction false} MarkToMarket(fills: seq<Execution>, marks: map<string, real>)
    requires AllValid(fills)
    ensures var l := Replay(fills);
            l.realized + Total(l.keys, l.states, OpenPnl(marks)) == Sum(fills, Flow(marks))
  {
    hide Apply, Gain;
    if fills != [] {
      var u, e := Init(fills), Last(fills);
      assert e in fills;
      MarkToMarket(u, marks);
      ReplayKeeps(u);
      var l, k := Replay(u), KeyOf(e);
      var p, q := StateOf(l, k), StateOf(Post(l, e), k);
      FlatGainsNothing(MarkAt(marks, e.symbol));
      PostTotal(l, e, OpenPnl(marks));
      RevaluedFill(p, e, MarkAt(marks, e.symbol));
    }
  }

  lemma FlatGainsNothing(mark: real)
    ensures Gain(FLAT.quantity, mark, FLAT.averageEntry) == 0.0
  {
  }

  lemma RevaluedFill(p: Position, e: Execution, mark: real)
    requires Coherent(p) && ValidExecution(e)
    ensures var (q, t) := Apply(p, e);
            Realized(t) + Gain(q.quantity, mark, q.averageEntry)
            == Gain(p.quantity, mark, p.averageEntry) + Gain(SignedFill(e), mark, e.price)
  {
    hide Apply, Coherent, ValidExecution, Gain, Realized, SignedFill;
    BasisStep(p, e);
    var q, t := Apply(p, e).0, Apply(p, e).1;
    RevaluedStep(p.quantity, p.averageEntry, q.quantity, q.averageEntry, SignedFill(e), e.price, Realized(t), mark);
  }

  lemma RevaluedStep(pq: real, pa: real, qq: real, qa: real, s: real, price: real, realized: real, mark: real)
    requires qq == pq + s && qq * qa - realized == pq * pa + s * price
    ensures realized + Gain(qq, mark, qa) == Gain(pq, mark, pa) + Gain(s, mark, price)
  {
    assert qq * mark == pq * mark + s * mark;
  }

  /** Fees of closed trades plus fees still carried by open positions are all fees paid. */
  lemma {:induction false} FeesConserved(fills: seq<Execution>)
    requires AllValid(fills)
    ensures var l := Replay(fills);
            Sum(l.closed, TradeFees) + Total(l.keys, l.states, EntryFees) == Sum(fills, Fee)
  {
    hide Apply, Coherent, ValidExecution;
    if fills != [] {
      var u, e := Init(fills), Last(fills);
      assert e in fills;
      FeesConserved(u);
      ReplayKeeps(u);
      var l := Replay(u);
      var p := StateOf(l, KeyOf(e));
      PostTotal(l, e, EntryFees);
      FeesStep(p, e);
      if Apply(p, e).1.Some? { SumAppend(l.closed, Apply(p, e).1.value, TradeFees); }
    }
  }

  /** Every filled unit is in an open position or was closed against another filled unit. */
  lemma {:induction false} QuantityConserved(fills: seq<Execution>)
    requires AllValid(fills)
    ensures var l := Replay(fills);
            Total(l.keys, l.states, OpenSize) + 2.0 * Sum(l.closed, TradeQuantity) == Sum(fills, Quantity)
  {
    hide Apply, Coherent, ValidExecution;
    if fills != [] {
      var u, e := Init(fills), Last(fills);
      assert e in fills;
      QuantityConserved(u);
      ReplayKeeps(u);
      var l := Replay(u);
      var p := StateOf(l, KeyOf(e));
      PostTotal(l, e, OpenSize);
      QuantityStep(p, e);
      if Apply(p, e).1.Some? { SumAppend(l.closed, Apply(p, e).1.value, TradeQuantity); }
    }
  }

  lemma {:induction false} RealizedIsGross(fills: seq<Execution>)
    requires AllValid(fills)
    ensures Replay(fills).realized == Sum(Replay(fills).closed, TradeGross)
    ensures Sum(Replay(fills).closed, TradeNet)
            == Sum(Replay(fills).closed, TradeGross) - Sum(Replay(fills).closed, TradeFees)
  {
    if fills != [] {
      var u, e := Init(fills), Last(fills);
      assert e in fills;
      RealizedIsGross(u);
      var l := Replay(u);
      var t := Apply(StateOf(l, KeyOf(e)), e).1;
      if t.Some? {
        SumAppend(l.closed, t.value, TradeGross);
        SumAppend(l.closed, t.value, TradeNet);
        SumAppend(l.closed, t.value, TradeFees);
      }
    }
  }

  /** Net results of the closed trades, less fees still open, are the realised trading net. */
  lemma NetIdentity(fills: seq<Execution>)
    requires AllValid(fills)
    ensures var l := Replay(fills);
            Sum(l.closed, TradeNet) - Total(l.keys, l.states, EntryFees) == l.realized - Sum(fills, Fee)
  {
    RealizedIsGross(fills);
    FeesConserved(fills);
  }

  /** When every fill's slippage is known, every state and trade knows its share and nothing is lost. */
  lemma {:induction false} SlippageConserved(fills: seq<Execution>)
    requires AllValid(fills) && (forall e | e in fills :: e.slippage.Some?)
    ensures var l := Replay(fills);
            && (forall k | k in l.states :: l.states[k].slippageKnown)
            && (forall t | t in l.closed :: t.slippage.Some?)
            && Sum(l.closed, TradeSlippage) + Total(l.keys, l.states, OpenSlippage) == Sum(fills, Slippage)
  {
    hide Apply, Coherent, ValidExecution;
    if fills != [] {
      var u, e := Init(fills), Last(fills);
      assert e in fills;
      SlippageConserved(u);
      ReplayKeeps(u);
      var l := Replay(u);
      var p := StateOf(l, KeyOf(e));
      PostTotal(l, e, OpenSlippage);
      SlippageStep(p, e);
      if Apply(p, e).1.Some? { SumAppend(l.closed, Apply(p, e).1.value, TradeSlippage); }
    }
  }

  // ---------------------------------------------------------------- one key at a time

  function HasKey(k: Key): Execution -> bool {
    (e: Execution) => e.systemId == k.0 && e.symbol == k.1
  }

  function IsTradeOf(k: Key): ClosedTrade -> bool {
    (t: ClosedTrade) => t.key == k
  }

  /** The fills of one (system, symbol), in order. */
  function KeyFills(fills: seq<Execution>, k: Key): seq<Execution> {
    Select(fills, HasKey(k))
  }

  function KeyTrades(trades: seq<ClosedTrade>, k: Key): seq<ClosedTrade> {
    Select(trades, IsTradeOf(k))
  }

  /** Replaying the fills of a single key. */
  function PositionAfter(fills: seq<Execution>): Position
    requires AllValid(fills)
  {
    if fills == [] then FLAT
    else
      assert Last(fills) in fills;
      Apply(PositionAfter(Init(fills)), Last(fills)).0
  }

  function TradesAfter(fills: seq<Execution>): seq<ClosedTrade>
    requires AllValid(fills)
  {
    if fills == [] then []
    else
      assert Last(fills) in fills;
      var t := Apply(PositionAfter(Init(fills)), Last(fills)).1;
      TradesAfter(Init(fills)) + if t.Some? then [t.value] else []
  }

  lemma KeyFillsValid(fills: seq<Execution>, k: Key)
    requires AllValid(fills)
    ensures AllValid(KeyFills(fills, k))
  {
    forall e | e in KeyFills(fills, k) ensures ValidExecution(e) {
      SelectKeeps(fills, HasKey(k), e);
    }
  }

  lemma TradeHasKey(p: Position, e: Execution)
    requires ValidExecution(e)
    ensures var t := Apply(p, e).1; t.Some? ==> t.value.key == KeyOf(e)
  {
  }

  /** The state and the trades of a key are what replaying only that key's fills gives. */
  lemma {:induction false} KeysAreIndependent(fills: seq<Execution>, k: Key)
    requires AllValid(fills)
    ensures AllValid(KeyFills(fills, k))
    ensures var l, own := Replay(fills), KeyFills(fills, k);
            && (k in l.states <==> own != [])
            && StateOf(l, k) == PositionAfter(own)
            && KeyTrades(l.closed, k) == TradesAfter(own)
  {
    hide Apply;
    KeyFillsValid(fills, k);
    if fills != [] {
      var u, e := Init(fills), Last(fills);
      assert e in fills;
      KeysAreIndependent(u, k);
      var l := Replay(u);
      var t := Apply(StateOf(l, KeyOf(e)), e).1;
      TradeHasKey(StateOf(l, KeyOf(e)), e);
      if t.Some? { assert Init(l.closed + [t.value]) == l.closed; }
      if KeyOf(e) == k {
        assert KeyFills(fills, k) == KeyFills(u, k) + [e];
        assert Init(KeyFills(fills, k)) == KeyFills(u, k);
      } else {
        assert KeyFills(fills, k) == KeyFills(u, k);
      }
    }
  }

  // ---------------------------------------------------------------- the open lot

  /** The entry fills behind the open position: everything added since the last flat or flip. */
  function Lot(fills: seq<Execution>): seq<Execution>
    requires AllValid(fills)
  {
    if fills == [] then []
    else
      var u, e := Init(fills), Last(fills);
      assert e in fills;
      var p := PositionAfter(u);
      var left := p.quantity + SignedFill(e);
      if SameDirection(p, e) then (if p.quantity == 0.0 then [e] else Lot(u) + [e])
      else if left == 0.0 then []
      else if (p.quantity > 0.0 && left > 0.0) || (p.quantity < 0.0 && left < 0.0) then Lot(u)
      else [e]
  }

  ghost predicate AllKnown(lot: seq<Execution>) {
    forall e | e in lot :: e.slippage.Some?
  }

  ghost predicate PricesWithin(lot: seq<Execution>, lo: real, hi: real) {
    forall e | e in lot :: lo <= e.price <= hi
  }

  lemma KnownAppend(lot: seq<Execution>, e: Execution)
    ensures AllKnown(lot + [e]) <==> AllKnown(lot) && e.slippage.Some?
    ensures AllKnown([e]) <==> e.slippage.Some?
  {
    if AllKnown(lot + [e]) {
      assert e in lot + [e];
      assert forall x | x in lot :: x in lot + [e];
    }
    assert e in [e];
  }

  /**
   What the state says about its open lot: it is flat exactly when the lot is empty, its slippage
   is known exactly when every entry's is, and it was opened by the lot's first fill.
   */
  lemma {:induction false} StateDescribesLot(fills: seq<Execution>)
    requires AllValid(fills)
    ensures var p, lot := PositionAfter(fills), Lot(fills);
            && Coherent(p)
            && (p.quantity == 0.0 <==> lot == [])
            && (p.slippageKnown <==> AllKnown(lot))
            && (lot != [] ==> p.openedAt == Some(lot[0].filledAt))
  {
    hide AllKnown, ValidExecution, Coherent;
    if fills == [] {
      NothingIsKnown();
    } else {
      var u, e := Init(fills), Last(fills);
      assert e in fills;
      StateDescribesLot(u);
      LotStep(PositionAfter(u), Lot(u), e);
    }
  }

  lemma NothingIsKnown()
    ensures AllKnown([]) && Coherent(FLAT)
  {
  }

  /** One fill's effect on the lot and on what the state says about it. */
  lemma LotStep(p: Position, lot: seq<Execution>, e: Execution)
    requires ValidExecution(e) && Coherent(p)
    requires (p.quantity == 0.0 <==> lot == []) && (p.slippageKnown <==> AllKnown(lot))
    requires lot != [] ==> p.openedAt == Some(lot[0].filledAt)
    ensures var q := Apply(p, e).0;
            var left := p.quantity + SignedFill(e);
            var next := if SameDirection(p, e) then (if p.quantity == 0.0 then [e] else lot + [e])
                        else if left == 0.0 then []
                        else if (p.quantity > 0.0 && left > 0.0) || (p.quantity < 0.0 && left < 0.0) then lot
                        else [e];
            && Coherent(q)
            && (q.quantity == 0.0 <==> next == [])
            && (q.slippageKnown <==> AllKnown(next))
            && (next != [] ==> q.openedAt == Some(next[0].filledAt))
  {
    ApplyKeepsCoherent(p, e);
    KnownAppend(lot, e);
    BasisStep(p, e);
    hide AllKnown, Coherent, ValidExecution;
  }

  /** An open average entry lies between the lowest and the highest entry price since the last flat or flip. */
  lemma {:induction false} EntryPriceBetween(fills: seq<Execution>, lo: real, hi: real)
    requires AllValid(fills) && Lot(fills) != [] && PricesWithin(Lot(fills), lo, hi)
    ensures lo <= PositionAfter(fills).averageEntry <= hi
  {
    var u, e := Init(fills), Last(fills);
    assert e in fills;
    StateDescribesLot(u);
    var p, lot := PositionAfter(u), Lot(u);
    if SameDirection(p, e) {
      assert e in Lot(fills);
      if p.quantity != 0.0 {
        assert forall x | x in lot :: x in Lot(fills);
        EntryPriceBetween(u, lo, hi);
      }
      AddPriceBetween(p, e, lo, hi);
    } else if p.quantity + SignedFill(e) != 0.0 && (p.quantity > 0.0 <==> p.quantity + SignedFill(e) > 0.0) {
      EntryPriceBetween(u, lo, hi);
    } else {
      assert e in Lot(fills);
    }
  }

  lemma AddPriceBetween(p: Position, e: Execution, lo: real, hi: real)
    requires Coherent(p) && ValidExecution(e) && SameDirection(p, e)
    requires lo <= e.price <= hi && (p.quantity != 0.0 ==> lo <= p.averageEntry <= hi)
    ensures lo <= Add(p, e).averageEntry <= hi
  {
    AverageBetween(p.averageEntry, Abs(p.quantity), e.price, Abs(SignedFill(e)), lo, hi);
  }

  /** A closed trade's slippage is known exactly when its exit and every entry behind it are. */
  lemma TradeSlippageKnown(before: seq<Execution>, e: Execution)
    requires AllValid(before) && ValidExecution(e)
    ensures var t := Apply(PositionAfter(before), e).1;
            t.Some? ==> (t.value.slippage.Some? <==>
                           e.slippage.Some? && AllKnown(Lot(before)))
  {
    StateDescribesLot(before);
  }

  /** Every entry behind an open position is on the position's own side. */
  lemma {:induction false} LotIsOneSided(fills: seq<Execution>)
    requires AllValid(fills)
    ensures forall e | e in Lot(fills) :: SignedFill(e) > 0.0 <==> PositionAfter(fills).quantity > 0.0
  {
    if fills != [] {
      var u, e := Init(fills), Last(fills);
      assert e in fills;
      LotIsOneSided(u);
      StateDescribesLot(u);
      BasisStep(PositionAfter(u), e);
    }
  }

  /** A closed trade reports the lot it closed and the fill that closed it. */
  lemma TradeDescribesLot(before: seq<Execution>, e: Execution, lo: real, hi: real)
    requires AllValid(before) && ValidExecution(e) && Apply(PositionAfter(before), e).1.Some?
    requires PricesWithin(Lot(before), lo, hi)
    ensures var p, t, lot := PositionAfter(before), Apply(PositionAfter(before), e).1.value, Lot(before);
            && lot != [] && t.openedAt == lot[0].filledAt && lo <= t.entryPrice == p.averageEntry <= hi
            && (t.side == "LONG" <==> lot[0].side == "BUY") && (t.side == "SHORT" <==> lot[0].side == "SELL")
            && t.closedAt == e.filledAt && t.exitPrice == e.price && t.exitFillId == e.fillId && t.key == KeyOf(e)
            && t.side != (if e.side == "BUY" then "LONG" else "SHORT")
            && 0.0 < t.quantity == Min(Abs(p.quantity), e.quantity) && t.netPnl == t.grossPnl - t.fees
            && t.fees == Share(p.entryFees, t.quantity, Abs(p.quantity)) + Share(e.fee, t.quantity, e.quantity)
            && (t.slippage.Some? <==> AllKnown(lot) && e.slippage.Some?)
            && (t.slippage.Some? ==>
                  t.slippage.value == Share(p.entrySlippage, t.quantity, Abs(p.quantity))
                                      + Share(e.slippage.value, t.quantity, e.quantity))
            && t.grossPnl == (if t.side == "LONG" then Gain(t.quantity, t.exitPrice, t.entryPrice)
                              else Gain(t.quantity, t.entryPrice, t.exitPrice))
            && (t.slippage.Some? <==> t.grossBeforeCosts.Some?)
            && (t.slippage.Some? ==> t.grossBeforeCosts.value == t.grossPnl + t.slippage.value)
  {
    hide Gain, Share, Lot, PositionAfter;
    StateDescribesLot(before);
    LotIsOneSided(before);
    LotIsValid(before);
    EntryPriceBetween(before, lo, hi);
    var lot := Lot(before);
    assert lot[0] in lot;
  }

  lemma {:induction false} LotIsValid(fills: seq<Execution>)
    requires AllValid(fills)
    ensures AllValid(Lot(fills))
  {
    if fills != [] {
      assert Last(fills) in fills;
      LotIsValid(Init(fills));
    }
  }

  // ---------------------------------------------------------------- time

  ghost predicate InTimeOrder(fills: seq<Execution>) {
    forall i, j | 0 <= i < j < |fills| :: fills[i].filledAt <= fills[j].filledAt
  }

  ghost predicate OpenedBy(l: Ledger, now: int) {
    forall k | k in l.states && l.states[k].openedAt.Some? :: l.states[k].openedAt.value <= now
  }

  /** Trades are listed in the order in which they closed, and none closes before it opened. */
  ghost predicate Timely(trades: seq<ClosedTrade>) {
    && (forall t | t in trades :: t.openedAt <= t.closedAt)
    && (forall i, j | 0 <= i < j < |trades| :: trades[i].closedAt <= trades[j].closedAt)
  }

  lemma {:induction false} TradesAreTimely(fills: seq<Execution>)
    requires AllValid(fills) && InTimeOrder(fills)
    ensures Timely(Replay(fills).closed)
    ensures fills != [] ==> OpenedBy(Replay(fills), Last(fills).filledAt)
    ensures fills != [] ==> forall t | t in Replay(fills).closed :: t.closedAt <= Last(fills).filledAt
  {
    if fills != [] {
      var u, e := Init(fills), Last(fills);
      assert e in fills;
      TradesAreTimely(u);
      var l := Replay(u);
      assert OpenedBy(l, e.filledAt) by {
        if u != [] { assert Last(u) == fills[|fills| - 2]; }
      }
      assert forall t | t in l.closed :: t.closedAt <= e.filledAt by {
        if u != [] { assert Last(u) == fills[|fills| - 2]; }
      }
      TimelyStep(StateOf(l, KeyOf(e)), e);
      hide Apply;
    }
  }

  lemma TimelyStep(p: Position, e: Execution)
    requires ValidExecution(e) && (p.openedAt.Some? ==> p.openedAt.value <= e.filledAt)
    ensures var (q, t) := Apply(p, e);
            && (q.openedAt.Some? ==> q.openedAt.value <= e.filledAt)
            && (t.Some? ==> t.value.openedAt <= t.value.closedAt == e.filledAt)
  {
  }

  // ---------------------------------------------------------------- interleaving

  /** Two histories that agree key by key. */
  ghost predicate SamePerKey(a: seq<Execution>, b: seq<Execution>) {
    forall k :: KeyFills(a, k) == KeyFills(b, k)
  }

  lemma SamePerKeyPermutes(a: seq<Execution>, b: seq<Execution>)
    requires SamePerKey(a, b)
    ensures multiset(a) == multiset(b)
  {
    forall e ensures multiset(a)[e] == multiset(b)[e] {
      SelectCount(a, HasKey(KeyOf(e)), e);
      SelectCount(b, HasKey(KeyOf(e)), e);
      assert KeyFills(a, KeyOf(e)) == KeyFills(b, KeyOf(e));
    }
  }

  lemma SameStatesPerKey(a: seq<Execution>, b: seq<Execution>)
    requires AllValid(a) && AllValid(b) && SamePerKey(a, b)
    ensures Replay(a).states == Replay(b).states
    ensures forall k :: KeyTrades(Replay(a).closed, k) == KeyTrades(Replay(b).closed, k)
  {
    forall k
      ensures k in Replay(a).states <==> k in Replay(b).states
      ensures StateOf(Replay(a), k) == StateOf(Replay(b), k)
      ensures KeyTrades(Replay(a).closed, k) == KeyTrades(Replay(b).closed, k)
    {
      KeysAreIndependent(a, k);
      KeysAreIndependent(b, k);
      assert KeyFills(a, k) == KeyFills(b, k);
    }
    assert Replay(a).states.Keys == Replay(b).states.Keys;
    forall k | k in Replay(a).states ensures Replay(a).states[k] == Replay(b).states[k] {
      assert StateOf(Replay(a), k) == StateOf(Replay(b), k);
    }
  }

  lemma SameTradesPermute(a: seq<ClosedTrade>, b: seq<ClosedTrade>)
    requires forall k :: KeyTrades(a, k) == KeyTrades(b, k)
    ensures multiset(a) == multiset(b)
  {
    forall t ensures multiset(a)[t] == multiset(b)[t] {
      SelectCount(a, IsTradeOf(t.key), t);
      SelectCount(b, IsTradeOf(t.key), t);
      assert KeyTrades(a, t.key) == KeyTrades(b, t.key);
    }
  }

  lemma SameKeyLists(l: Ledger, m: Ledger)
    requires WellKept(l) && WellKept(m) && l.states == m.states
    ensures multiset(l.keys) == multiset(m.keys)
  {
    forall k ensures k in l.keys <==> k in m.keys {
      assert k in l.keys <==> k in l.states;
      assert k in m.keys <==> k in m.states;
    }
    SameItemsPermute(l.keys, m.keys);
  }

  /** How keys interleave changes no state, no set of trades, no total over fills, states or trades. */
  lemma InterleavingIsIrrelevant(
    a: seq<Execution>, b: seq<Execution>,
    onFill: Execution -> real, onState: (Key, Position) -> real, onTrade: ClosedTrade -> real)
    requires AllValid(a) && AllValid(b) && SamePerKey(a, b)
    ensures var l, m := Replay(a), Replay(b);
            && l.states == m.states && multiset(l.closed) == multiset(m.closed) && l.realized == m.realized
            && Sum(a, onFill) == Sum(b, onFill)
            && Total(l.keys, l.states, onState) == Total(m.keys, m.states, onState)
            && Sum(l.closed, onTrade) == Sum(m.closed, onTrade)
  {
    var l, m := Replay(a), Replay(b);
    SamePerKeyPermutes(a, b);
    SameStatesPerKey(a, b);
    SameTradesPermute(l.closed, m.closed);
    ReplayKeeps(a);
    ReplayKeeps(b);
    SameKeyLists(l, m);
    SumPermutes(a, b, onFill);
    TotalPermutes(l.keys, m.keys, l.states, onState);
    SumPermutes(l.closed, m.closed, onTrade);
    SumPermutes(l.closed, m.closed, TradeGross);
    RealizedIsGross(a);
    RealizedIsGross(b);
  }
}
