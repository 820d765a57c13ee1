/**
 `calculate_trading_metrics`: the fill loop over mutable position states, the mark-to-market
 loop over open positions, and the figures reported.  The reported totals are stated against
 the executions as given, in whatever order and interleaving they arrive.
 */
module Trading {
  import opened Wrappers
  import opened Sequences
  import opened Reals
  import opened Sums
  import opened Ordering
  import opened KeyOrder
  import opened Metrics
  import opened Positions
  import opened Ledgers
  import opened Adapters
  import opened Drawdown

  // ---------------------------------------------------------------- the mutable state of one key

  class PositionState {
    var quantity: real
    var averageEntry: real
    var entryFees: real
    var entrySlippage: real
    var slippageKnown: bool
    var openedAt: Option<int>

    function View(): Position
      reads this
    {
      Position(quantity, averageEntry, entryFees, entrySlippage, slippageKnown, openedAt)
    }

    constructor ()
      ensures View() == FLAT
    {
      quantity, averageEntry, entryFees, entrySlippage := 0.0, 0.0, 0.0, 0.0;
      slippageKnown, openedAt := true, None;
    }

    /** One round of the fill loop. */
    method Book(e: Execution) returns (trade: Option<ClosedTrade>)
      requires ValidExecution(e)
      modifies this
      ensures (View(), trade) == Apply(old(View()), e)
      ensures Moves(old(View()), e, View(), trade)
    {
      ApplyMoves(View(), e);
      hide Average, Gain, Share, Moves;
      var signedFill := if e.side == "BUY" then e.quantity else -e.quantity;
      var oldQuantity, held := quantity, Abs(quantity);
      if oldQuantity == 0.0 || (oldQuantity > 0.0 && signedFill > 0.0) || (oldQuantity < 0.0 && signedFill < 0.0) {
        averageEntry := Average(averageEntry, held, e.price, Abs(signedFill));
        quantity := oldQuantity + signedFill;
        entryFees := entryFees + e.fee;
        if e.slippage.None? {
          slippageKnown := false;
        } else {
          entrySlippage := entrySlippage + e.slippage.value;
        }
        if oldQuantity == 0.0 { openedAt := Some(e.filledAt); }
        return None;
      }
      ghost var before := View();
      assert !SameDirection(before, e);
      var closing := Min(held, Abs(signedFill));
      var entryFee, exitFee := Share(entryFees, closing, held), Share(e.fee, closing, e.quantity);
      var gross :=
        if oldQuantity > 0.0 then Gain(closing, e.price, averageEntry) else Gain(closing, averageEntry, e.price);
      var ofEntry := Share(entrySlippage, closing, held);
      var slippage :=
        if slippageKnown && e.slippage.Some? then Some(ofEntry + Share(e.slippage.value, closing, e.quantity)) else None;
      trade := Some(ClosedTrade(
        (e.systemId, e.symbol), if oldQuantity > 0.0 then "LONG" else "SHORT", closing, averageEntry, e.price,
        if openedAt.Some? then openedAt.value else e.filledAt, e.filledAt, gross, entryFee + exitFee, slippage,
        if slippage.Some? then Some(gross + slippage.value) else None, gross - (entryFee + exitFee), e.fillId));
      assert trade == Some(Close(before, e));
      entryFees := entryFees - entryFee;
      if slippageKnown { entrySlippage := entrySlippage - ofEntry; }
      var left := oldQuantity + signedFill;
      if left == 0.0 {
        quantity, averageEntry, entryFees, entrySlippage := 0.0, 0.0, 0.0, 0.0;
        slippageKnown, openedAt := true, None;
      } else if (oldQuantity > 0.0 && left > 0.0) || (oldQuantity < 0.0 && left < 0.0) {
        quantity := left;
      } else {
        quantity := left;
        averageEntry := e.price;
        entryFees := Share(e.fee, Abs(left), e.quantity);
        if e.slippage.None? {
          entrySlippage, slippageKnown := 0.0, false;
        } else {
          entrySlippage, slippageKnown := Share(e.slippage.value, Abs(left), e.quantity), true;
        }
        openedAt := Some(e.filledAt);
      }
    }
  }

  /** The dictionary of states holds one distinct object per key, each showing the ledger's position. */
  ghost predicate Shows(states: map<Key, PositionState>, l: Ledger)
    reads states.Values
  {
    && states.Keys == l.states.Keys
    && (forall k | k in states :: states[k].View() == l.states[k])
    && (forall j, k | j in states && k in states && j != k :: states[j] != states[k])
  }

  lemma ReplayStep(ordered: seq<Execution>, i: nat)
    requires AllValid(ordered) && i < |ordered|
    ensures AllValid(ordered[..i]) && AllValid(ordered[..i + 1]) && ValidExecution(ordered[i])
    ensures Replay(ordered[..i + 1]) == Post(Replay(ordered[..i]), ordered[i])
  {
    assert Init(ordered[..i + 1]) == ordered[..i];
  }

  /** The fill loop. */
  method ReplayFills(ordered: seq<Execution>)
    returns (keys: seq<Key>, states: map<Key, PositionState>, closed: seq<ClosedTrade>, realized: real)
    requires AllValid(ordered)
    ensures var l := Replay(ordered);
            keys == l.keys && closed == l.closed && realized == l.realized && Shows(states, l)
  {
    hide Apply, Replay, Post, Shows, AllValid, ValidExecution;
    keys, states, closed, realized := [], map[], [], 0.0;
    NothingReplayed();
    assert ordered[..0] == [];
    ghost var l := EMPTY;
    for i := 0 to |ordered|
      invariant AllValid(ordered[..i]) && l == Replay(ordered[..i])
      invariant forall k | k in states :: fresh(states[k])
      invariant Shows(states, l) && keys == l.keys && closed == l.closed && realized == l.realized
    {
      ReplayStep(ordered, i);
      var e := ordered[i];
      var key := (e.systemId, e.symbol);
      PostParts(l, e);
      ShowsKeys(states, l);
      if key !in states { keys := keys + [key]; }
      var trade;
      states, trade := BookFill(states, key, e, l);
      if trade.Some? {
        closed := closed + [trade.value];
        realized := realized + trade.value.grossPnl;
      }
      l := Post(l, e);
    }
    assert ordered[..|ordered|] == ordered;
  }

  lemma PostParts(l: Ledger, e: Execution)
    requires ValidExecution(e)
    ensures var k, m, t := KeyOf(e), Post(l, e), Apply(StateOf(l, KeyOf(e)), e).1;
            && m.keys == (if k in l.states then l.keys else l.keys + [k])
            && m.closed == (if t.Some? then l.closed + [t.value] else l.closed)
            && m.realized == l.realized + (if t.Some? then t.value.grossPnl else 0.0)
  {
    hide Apply;
  }

  lemma NothingReplayed()
    ensures AllValid([]) && Replay([]) == EMPTY && Shows(map[], EMPTY)
  {
  }

  lemma ShowsKeys(states: map<Key, PositionState>, l: Ledger)
    requires Shows(states, l)
    ensures states.Keys == l.states.Keys
  {
  }

  /** `states.setdefault(key, ...)` and the booking of one fill on the state found. */
  method BookFill(states: map<Key, PositionState>, key: Key, e: Execution, ghost l: Ledger)
    returns (after: map<Key, PositionState>, trade: Option<ClosedTrade>)
    requires ValidExecution(e) && key == KeyOf(e) && Shows(states, l)
    modifies states.Values
    ensures Shows(after, Post(l, e)) && trade == Apply(StateOf(l, key), e).1
    ensures forall k | k in after :: (k in states && after[k] == states[k]) || fresh(after[k])
  {
    hide Apply;
    after := states;
    if key !in states {
      var flat := new PositionState();
      after := states[key := flat];
    }
    assert after[key].View() == StateOf(l, key);
    trade := after[key].Book(e);
    forall k | k in after ensures after[k].View() == Post(l, e).states[k] {
      if k != key { assert after[k] != after[key]; }
    }
  }

  // ---------------------------------------------------------------- open positions, in reported order

  datatype OpenPosition = OpenPosition(
    key: Key, quantity: real, averageEntry: real, entryFees: real, entrySlippage: Option<real>)

  function RowOf(k: Key, p: Position): OpenPosition {
    OpenPosition(k, p.quantity, p.averageEntry, p.entryFees, if p.slippageKnown then Some(p.entrySlippage) else None)
  }

  /** The open positions among the keys, in key order. */
  function Rows(keys: seq<Key>, states: map<Key, Position>): seq<OpenPosition> {
    if keys == [] then []
    else
      var k := Last(keys);
      Rows(Init(keys), states) + if k in states && states[k].quantity != 0.0 then [RowOf(k, states[k])] else []
  }

  function RowFees(r: OpenPosition): real { r.entryFees }

  function RowPnl(marks: map<string, real>): OpenPosition -> real {
    (r: OpenPosition) => Gain(r.quantity, MarkAt(marks, r.key.1), r.averageEntry)
  }

  function Value(quantity: real, mark: real): real { quantity * mark }

  function RowExposure(marks: map<string, real>): OpenPosition -> real {
    (r: OpenPosition) => Abs(Value(r.quantity, MarkAt(marks, r.key.1)))
  }

  lemma {:induction false} RowsTotal(
    keys: seq<Key>, states: map<Key, Position>, onRow: OpenPosition -> real, onState: (Key, Position) -> real)
    requires forall k | k in keys :: k in states && Coherent(states[k]) && onState(k, FLAT) == 0.0
    requires forall k | k in keys :: onRow(RowOf(k, states[k])) == onState(k, states[k])
    ensures Sum(Rows(keys, states), onRow) == Total(keys, states, onState)
  {
    if keys != [] {
      var k := Last(keys);
      assert k in keys;
      assert forall j | j in Init(keys) :: j in keys;
      RowsTotal(Init(keys), states, onRow, onState);
      if states[k].quantity != 0.0 {
        SumAppend(Rows(Init(keys), states), RowOf(k, states[k]), onRow);
      } else {
        assert Rows(keys, states) == Rows(Init(keys), states);
      }
    }
  }

  // ---------------------------------------------------------------- the report

  /** The part of the report that adds money up. */
  datatype Totals = Totals(
    positions: seq<OpenPosition>,
    closedTrades: seq<ClosedTrade>,
    executionRealized: real,
    feesPaid: real,
    slippageCost: Metric,
    grossBeforeCosts: Metric,
    realizedNet: real,
    unrealized: Metric,
    tradingNet: Metric,
    exposure: Metric)

  datatype TradingMetrics = TradingMetrics(
    totals: Totals,
    fillCount: nat,
    orderCount: nat,
    winning: nat,
    losing: nat,
    breakeven: nat,
    winRate: Metric,
    profitFactor: Metric,
    expectancy: Metric,
    drawdownAbs: Metric,
    drawdownPct: Metric)

  function FilledAt(e: Execution): int { e.filledAt }

  function IsWin(t: ClosedTrade): bool { t.netPnl > 0.0 }
  function IsLoss(t: ClosedTrade): bool { t.netPnl < 0.0 }
  function IsEven(t: ClosedTrade): bool { t.netPnl == 0.0 }

  predicate Marked(marks: map<string, real>, r: OpenPosition) {
    r.key.1 in marks && marks[r.key.1] > 0.0
  }

  predicate AllMarked(marks: map<string, real>, rows: seq<OpenPosition>) {
    forall i | 0 <= i < |rows| :: Marked(marks, rows[i])
  }

  predicate AllSlippageKnown(s: seq<Execution>) {
    forall e | e in s :: e.slippage.Some?
  }

  lemma AllMarkedMeans(marks: map<string, real>, rows: seq<OpenPosition>)
    ensures AllMarked(marks, rows) <==> forall r | r in rows :: r.key.1 in marks && marks[r.key.1] > 0.0
  {
    if forall r | r in rows :: r.key.1 in marks && marks[r.key.1] > 0.0 {
      forall i | 0 <= i < |rows| ensures Marked(marks, rows[i]) {
        assert rows[i] in rows;
      }
    }
  }

  /** The symbols of the open positions without a usable mark. */
  function Unmarked(marks: map<string, real>, rows: seq<OpenPosition>): multiset<string> {
    if rows == [] then multiset{}
    else Unmarked(marks, Init(rows)) + if Marked(marks, Last(rows)) then multiset{} else multiset{Last(rows).key.1}
  }

  lemma {:induction false} UnmarkedEmpty(marks: map<string, real>, rows: seq<OpenPosition>)
    ensures Unmarked(marks, rows) == multiset{} <==> AllMarked(marks, rows)
  {
    if rows != [] {
      UnmarkedEmpty(marks, Init(rows));
      assert forall i | 0 <= i < |Init(rows)| :: Init(rows)[i] == rows[i];
      assert Marked(marks, Last(rows)) || Last(rows).key.1 in Unmarked(marks, rows);
    }
  }

  lemma {:induction false} WinsAndLosses(trades: seq<ClosedTrade>)
    ensures |Select(trades, IsWin)| + |Select(trades, IsLoss)| + |Select(trades, IsEven)| == |trades|
    ensures Sum(trades, TradeNet) == Sum(Select(trades, IsWin), TradeNet) + Sum(Select(trades, IsLoss), TradeNet)
  {
    if trades != [] {
      WinsAndLosses(Init(trades));
      SumSelectStep(trades, IsWin, TradeNet);
      SumSelectStep(trades, IsLoss, TradeNet);
    }
  }

  /** What one more row adds. */
  lemma MarkStep(rows: seq<OpenPosition>, i: nat, marks: map<string, real>)
    requires i < |rows|
    ensures var r, u, t := rows[i], rows[..i], rows[..i + 1];
            && (AllMarked(marks, t) <==> AllMarked(marks, u) && Marked(marks, r))
            && Unmarked(marks, t) == Unmarked(marks, u) + (if Marked(marks, r) then multiset{} else multiset{r.key.1})
            && Sum(t, RowPnl(marks)) == Sum(u, RowPnl(marks)) + RowPnl(marks)(r)
            && Sum(t, RowExposure(marks)) == Sum(u, RowExposure(marks)) + RowExposure(marks)(r)
  {
    hide AllMarked, Gain, Value;
    var r, u := rows[i], rows[..i];
    assert rows[..i + 1] == u + [r];
    assert Init(u + [r]) == u;
    AllMarkedStep(marks, u, r);
    SumAppend(u, r, RowPnl(marks));
    SumAppend(u, r, RowExposure(marks));
  }

  /** At a usable mark the exposure of a position is its size times the mark. */
  lemma ExposureIsSize(r: OpenPosition, marks: map<string, real>)
    requires Marked(marks, r)
    ensures RowExposure(marks)(r) == (if r.quantity >= 0.0 then r.quantity else -r.quantity) * marks[r.key.1] >= 0.0
  {
    Scale(0.0, Abs(r.quantity), marks[r.key.1]);
    EitherSignOf(r.quantity, marks[r.key.1]);
  }

  lemma EitherSignOf(quantity: real, price: real)
    ensures Value(-quantity, price) == -Value(quantity, price)
    ensures price > 0.0 ==> (Value(quantity, price) >= 0.0 <==> quantity >= 0.0)
  {
    if price > 0.0 && quantity > 0.0 { StrictScale(quantity, price); }
    if price > 0.0 && quantity < 0.0 { StrictScale(-quantity, price); }
  }

  /** The missing marks are named once for every open position that lacks one. */
  lemma {:induction false} UnmarkedCounts(marks: map<string, real>, rows: seq<OpenPosition>, symbol: string)
    ensures Unmarked(marks, rows)[symbol] == |Select(rows, LacksMark(marks, symbol))|
  {
    if rows != [] { UnmarkedCounts(marks, Init(rows), symbol); }
  }

  function LacksMark(marks: map<string, real>, symbol: string): OpenPosition -> bool {
    (r: OpenPosition) => r.key.1 == symbol && !(symbol in marks && marks[symbol] > 0.0)
  }

  /** The loop over open positions. */
  method MarkPositions(rows: seq<OpenPosition>, marks: map<string, real>)
    returns (unrealized: real, exposure: real, missing: multiset<string>)
    ensures missing == Unmarked(marks, rows)
    ensures AllMarked(marks, rows) ==>
              unrealized == Sum(rows, RowPnl(marks)) && exposure == Sum(rows, RowExposure(marks))
  {
    NothingMarked(marks);
    hide AllMarked, Unmarked, Sum, Gain, Value;
    unrealized, exposure, missing := 0.0, 0.0, multiset{};
    assert rows[..0] == [];
    for i := 0 to |rows|
      invariant missing == Unmarked(marks, rows[..i])
      invariant AllMarked(marks, rows[..i]) ==>
                  unrealized == Sum(rows[..i], RowPnl(marks)) && exposure == Sum(rows[..i], RowExposure(marks))
    {
      var r := rows[i];
      MarkStep(rows, i, marks);
      if r.key.1 !in marks || marks[r.key.1] <= 0.0 {
        missing := missing + multiset{r.key.1};
      } else {
        var mark := marks[r.key.1];
        EitherSide(r.quantity, mark, r.averageEntry);
        unrealized := unrealized
          + if r.quantity > 0.0 then Gain(r.quantity, mark, r.averageEntry)
            else Gain(Abs(r.quantity), r.averageEntry, mark);
        exposure := exposure + Abs(Value(r.quantity, mark));
      }
    }
    assert rows[..|rows|] == rows;
  }

  lemma NothingMarked(marks: map<string, real>)
    ensures Unmarked(marks, []) == multiset{}
    ensures Sum([], RowPnl(marks)) == 0.0 && Sum([], RowExposure(marks)) == 0.0
  {
  }

  lemma AllMarkedStep(marks: map<string, real>, rows: seq<OpenPosition>, r: OpenPosition)
    ensures AllMarked(marks, rows + [r]) <==> AllMarked(marks, rows) && Marked(marks, r)
  {
    if AllMarked(marks, rows + [r]) {
      assert (rows + [r])[|rows|] == r;
      forall i | 0 <= i < |rows| ensures Marked(marks, rows[i]) {
        assert rows[i] == (rows + [r])[i];
      }
    }
  }

  lemma EitherSide(quantity: real, mark: real, entry: real)
    ensures quantity <= 0.0 ==> Gain(Abs(quantity), entry, mark) == Gain(quantity, mark, entry)
  {
  }

  /** What the open positions are worth, and the fees they carry, in terms of all executions. */
  lemma OpenPositionTotals(executions: seq<Execution>, marks: map<string, real>)
    requires AllValid(executions)
    ensures var ordered := SortBy(executions, FilledAt);
            && AllValid(ordered) && multiset(ordered) == multiset(executions)
            && Sum(ordered, Fee) == Sum(executions, Fee) && Sum(ordered, Slippage) == Sum(executions, Slippage)
            && var l := Replay(ordered);
               var rows := Rows(SortKeys(l.keys), l.states);
               && WellKept(l) && (forall k | k in SortKeys(l.keys) :: k in l.states)
               && l.realized + Sum(rows, RowPnl(marks)) == Sum(executions, Flow(marks))
               && Sum(l.closed, TradeNet) - Sum(rows, RowFees) == l.realized - Sum(executions, Fee)
               && Sum(l.closed, TradeFees) + Sum(rows, RowFees) == Sum(executions, Fee)
  {
    var ordered := SortBy(executions, FilledAt);
    SortBySpec(executions, FilledAt);
    forall e | e in ordered ensures ValidExecution(e) {
      assert e in multiset(ordered);
    }
    var l := Replay(ordered);
    var keys := SortKeys(l.keys);
    ReplayKeeps(ordered);
    SortKeysPermutes(l.keys);
    forall k | k in keys ensures k in l.states && Coherent(l.states[k]) {
      assert k in multiset(l.keys);
    }
    RowsOfLedger(keys, l.states, marks);
    TotalPermutes(keys, l.keys, l.states, OpenPnl(marks));
    TotalPermutes(keys, l.keys, l.states, EntryFees);
    MarkToMarket(ordered, marks);
    NetIdentity(ordered);
    FeesConserved(ordered);
    SumPermutes(ordered, executions, Flow(marks));
    SumPermutes(ordered, executions, Fee);
    SumPermutes(ordered, executions, Slippage);
  }

  lemma RowsOfLedger(keys: seq<Key>, states: map<Key, Position>, marks: map<string, real>)
    requires forall k | k in keys :: k in states && Coherent(states[k])
    ensures Sum(Rows(keys, states), RowPnl(marks)) == Total(keys, states, OpenPnl(marks))
    ensures Sum(Rows(keys, states), RowFees) == Total(keys, states, EntryFees)
  {
    forall k | k in keys ensures OpenPnl(marks)(k, FLAT) == 0.0 {
      FlatGainsNothing(MarkAt(marks, k.1));
    }
    RowsTotal(keys, states, RowPnl(marks), OpenPnl(marks));
    RowsTotal(keys, states, RowFees, EntryFees);
  }

  function FilledAtTime(t: int): Execution -> bool {
    (e: Execution) => e.filledAt == t
  }

  /** The same fills, earlier ones first, fills of one instant in the order given. */
  ghost predicate TimeOrdered(executions: seq<Execution>, ordered: seq<Execution>) {
    && multiset(ordered) == multiset(executions)
    && (forall i, j | 0 <= i < j < |ordered| :: ordered[i].filledAt <= ordered[j].filledAt)
    && (forall t: int :: Select(ordered, FilledAtTime(t)) == Select(executions, FilledAtTime(t)))
  }

  lemma SameInstant(s: seq<Execution>, t: int)
    ensures Select(s, FilledAtTime(t)) == Select(s, WithKey(FilledAt, t))
  {
    SelectAgrees(s, FilledAtTime(t), WithKey(FilledAt, t));
  }

  /** What `sorted` gives is in time order, and there is only one such order. */
  lemma TimeOrderExactly(executions: seq<Execution>, ordered: seq<Execution>)
    ensures TimeOrdered(executions, ordered) <==> ordered == SortBy(executions, FilledAt)
  {
    hide Select, SortBy;
    var sorted := SortBy(executions, FilledAt);
    SortBySpec(executions, FilledAt);
    forall t: int ensures Select(sorted, FilledAtTime(t)) == Select(executions, FilledAtTime(t)) {
      SortByIsStable(executions, FilledAt, t);
      SameInstant(sorted, t);
      SameInstant(executions, t);
    }
    if TimeOrdered(executions, ordered) {
      forall t: int ensures Select(ordered, WithKey(FilledAt, t)) == Select(sorted, WithKey(FilledAt, t)) {
        SameInstant(ordered, t);
        SameInstant(sorted, t);
      }
      assert |multiset(ordered)| == |ordered|;
      StableOrderIsUnique(ordered, sorted, FilledAt);
    }
  }

  /** Fills already in time order are replayed as they are. */
  lemma InOrderAlready(executions: seq<Execution>)
    requires InTimeOrder(executions)
    ensures TimeOrdered(executions, executions)
  {
  }

  /** Positions, trades and realised profit are those of replaying these fills in this order. */
  ghost predicate Books(ordered: seq<Execution>, t: Totals) {
    && AllValid(ordered)
    && var l := Replay(ordered);
       && t.closedTrades == l.closed && t.executionRealized == l.realized
       && t.positions == Rows(SortKeys(l.keys), l.states)
  }

  /** The open positions listed: every key with an open net position once, in key order, with what its own fills left. */
  ghost predicate ListsOpen(ordered: seq<Execution>, rows: seq<OpenPosition>)
    requires AllValid(ordered)
  {
    && (forall i, j | 0 <= i < j < |rows| :: KeyLess(rows[i].key, rows[j].key))
    && (forall r | r in rows :: ReportsPosition(ordered, r))
    && (forall k | NetOf(ordered, k).quantity != 0.0 :: exists r | r in rows :: r.key == k)
  }

  ghost function NetOf(ordered: seq<Execution>, k: Key): Position
    requires AllValid(ordered)
  {
    KeyFillsValid(ordered, k);
    PositionAfter(KeyFills(ordered, k))
  }

  ghost predicate ReportsPosition(ordered: seq<Execution>, r: OpenPosition)
    requires AllValid(ordered)
  {
    var p := NetOf(ordered, r.key);
    && r.quantity == p.quantity != 0.0
    && r.averageEntry == p.averageEntry && r.entryFees == p.entryFees
    && (if p.slippageKnown then r.entrySlippage == Some(p.entrySlippage) else r.entrySlippage == None)
  }

  lemma {:induction false} RowsHold(keys: seq<Key>, states: map<Key, Position>, r: OpenPosition)
    ensures r in Rows(keys, states) <==>
              r.key in keys && r.key in states && states[r.key].quantity != 0.0 && r == RowOf(r.key, states[r.key])
  {
    if keys != [] {
      assert keys == Init(keys) + [Last(keys)];
      RowsHold(Init(keys), states, r);
    }
  }

  lemma {:induction false} RowsInOrder(keys: seq<Key>, states: map<Key, Position>)
    requires Strict(keys, KeyLess)
    ensures forall i, j | 0 <= i < j < |Rows(keys, states)| ::
              KeyLess(Rows(keys, states)[i].key, Rows(keys, states)[j].key)
  {
    hide KeyLess;
    if keys != [] {
      var u, k := Init(keys), Last(keys);
      RowsInOrder(u, states);
      forall i | 0 <= i < |Rows(u, states)| ensures KeyLess(Rows(u, states)[i].key, k) {
        RowsHold(u, states, Rows(u, states)[i]);
      }
    }
  }

  lemma OpenPositionsListed(ordered: seq<Execution>)
    requires AllValid(ordered)
    ensures var l := Replay(ordered); ListsOpen(ordered, Rows(SortKeys(l.keys), l.states))
  {
    hide KeyLess, SortKeys, Replay, Rows, KeyFills, PositionAfter, AllValid;
    var l := Replay(ordered);
    var keys := SortKeys(l.keys);
    var rows := Rows(keys, l.states);
    ReplayKeeps(ordered);
    SortKeysInOrder(l.keys);
    RowsInOrder(keys, l.states);
    forall r | r in rows ensures ReportsPosition(ordered, r) {
      RowsHold(keys, l.states, r);
      KeysAreIndependent(ordered, r.key);
    }
    forall k | NetOf(ordered, k).quantity != 0.0 ensures exists r | r in rows :: r.key == k {
      KeysAreIndependent(ordered, k);
      assert k in l.keys && k in multiset(keys);
      RowsHold(keys, l.states, RowOf(k, l.states[k]));
    }
  }

  /** The totals book the fills in time order, and no trade closes before it opens. */
  ghost predicate FromLedger(executions: seq<Execution>, t: Totals) {
    && Timely(t.closedTrades)
    && exists ordered :: TimeOrdered(executions, ordered) && Books(ordered, t) && ListsOpen(ordered, t.positions)
  }

  lemma SortedBooks(executions: seq<Execution>, t: Totals)
    requires FromLedger(executions, t)
    ensures Books(SortBy(executions, FilledAt), t)
  {
    hide TimeOrdered, ListsOpen;
    var ordered :| TimeOrdered(executions, ordered) && Books(ordered, t) && ListsOpen(ordered, t.positions);
    TimeOrderExactly(executions, ordered);
  }

  lemma BooksOfSorted(executions: seq<Execution>, t: Totals)
    requires Books(SortBy(executions, FilledAt), t)
    ensures FromLedger(executions, t)
  {
    var ordered := SortBy(executions, FilledAt);
    TimeOrderExactly(executions, ordered);
    hide SortBy, Replay, Rows, SortKeys, Select, ListsOpen;
    assert InTimeOrder(ordered);
    TradesAreTimely(ordered);
    OpenPositionsListed(ordered);
  }

  /** What the totals mean, against the executions as given: no order and no interleaving is involved. */
  ghost predicate AddsUp(executions: seq<Execution>, marks: map<string, real>, t: Totals) {
    && t.feesPaid == Sum(executions, Fee)
    && t.feesPaid == Sum(t.closedTrades, TradeFees) + Sum(t.positions, RowFees)
    && t.realizedNet == t.executionRealized - t.feesPaid
    && t.realizedNet == Sum(t.closedTrades, TradeNet) - Sum(t.positions, RowFees)
    && t.slippageCost == (if AllSlippageKnown(executions) then Available(Sum(executions, Slippage))
                          else Unavailable(SlippageNotReconstructible))
    && (AllMarked(marks, t.positions) <==> forall r | r in t.positions :: r.key.1 in marks && marks[r.key.1] > 0.0)
    && if AllMarked(marks, t.positions) then
         && t.tradingNet == Available(Sum(executions, Flow(marks)) - Sum(executions, Fee))
         && t.unrealized == Available(Sum(t.positions, RowPnl(marks)))
         && t.exposure == Available(Sum(t.positions, RowExposure(marks)))
         && t.grossBeforeCosts == (if AllSlippageKnown(executions)
                                   then Available(Sum(executions, Flow(marks)) + Sum(executions, Slippage))
                                   else Unavailable(GrossPnlRequiresMarksAndSlippage))
       else
         && t.tradingNet == Unavailable(UnrealizedPnlUnavailable)
         && t.unrealized == t.exposure == Unavailable(MissingMarks(Unmarked(marks, t.positions)))
         && t.grossBeforeCosts == Unavailable(GrossPnlRequiresMarksAndSlippage)
  }

  method TradingTotals(executions: seq<Execution>, marks: map<string, real>) returns (t: Totals)
    requires AllValid(executions)
    ensures FromLedger(executions, t) && AddsUp(executions, marks, t)
  {
    hide Sum, Replay, Rows, SortKeys, SortBy, WellKept, AllMarked, AddsUp, Assemble, Flow;
    var ordered := SortBy(executions, FilledAt);
    OpenPositionTotals(executions, marks);
    var keys, states, closed, realized := ReplayFills(ordered);
    var feesPaid := Sum(ordered, Fee);
    SameItems(ordered, executions);
    var known := forall e | e in ordered :: e.slippage.Some?;
    var slippage := Sum(ordered, Slippage);
    var rows := ReadPositions(SortKeys(keys), states, Replay(ordered));
    var unrealized, exposure, missing := MarkPositions(rows, marks);
    AssembleAddsUp(executions, marks, rows, closed, realized, feesPaid, slippage, known, unrealized, exposure);
    t := Assemble(rows, closed, realized, feesPaid, slippage, known, unrealized, exposure, missing);
    BooksOfSorted(executions, t);
  }

  /** The figures derived from the loop results. */
  function Assemble(
    rows: seq<OpenPosition>, closed: seq<ClosedTrade>, realized: real, feesPaid: real, slippage: real, known: bool,
    unrealized: real, exposure: real, missing: multiset<string>): (t: Totals)
    ensures t.positions == rows && t.closedTrades == closed && t.executionRealized == realized
  {
    var net, marked := realized + unrealized - feesPaid, missing == multiset{};
    Totals(
      rows, closed, realized, feesPaid,
      if known then Available(slippage) else Unavailable(SlippageNotReconstructible),
      if marked && known then Available(net + feesPaid + slippage) else Unavailable(GrossPnlRequiresMarksAndSlippage),
      realized - feesPaid,
      if marked then Available(unrealized) else Unavailable(MissingMarks(missing)),
      if marked then Available(net) else Unavailable(UnrealizedPnlUnavailable),
      if marked then Available(exposure) else Unavailable(MissingMarks(missing)))
  }

  lemma AssembleAddsUp(
    executions: seq<Execution>, marks: map<string, real>, rows: seq<OpenPosition>, closed: seq<ClosedTrade>,
    realized: real, feesPaid: real, slippage: real, known: bool, unrealized: real, exposure: real)
    requires feesPaid == Sum(executions, Fee) && slippage == Sum(executions, Slippage)
    requires known <==> AllSlippageKnown(executions)
    requires realized + Sum(rows, RowPnl(marks)) == Sum(executions, Flow(marks))
    requires Sum(closed, TradeNet) - Sum(rows, RowFees) == realized - feesPaid
    requires Sum(closed, TradeFees) + Sum(rows, RowFees) == feesPaid
    requires AllMarked(marks, rows) ==> unrealized == Sum(rows, RowPnl(marks)) && exposure == Sum(rows, RowExposure(marks))
    ensures AddsUp(
              executions, marks,
              Assemble(rows, closed, realized, feesPaid, slippage, known, unrealized, exposure, Unmarked(marks, rows)))
  {
    hide Sum, AllMarked, AllSlippageKnown, Unmarked;
    UnmarkedEmpty(marks, rows);
    AllMarkedMeans(marks, rows);
  }

  /** Winnings over losses; unbounded without losses, undefined without either. */
  ghost predicate WinsOverLosses(winning: nat, won: real, losing: nat, lost: real, factor: Metric) {
    if losing > 0 then lost < 0.0 && factor.Available? && factor.value * -lost == won
    else factor == if winning > 0 then Unbounded(NoLosingTrades) else Unavailable(NoProfitOrLoss)
  }

  /** Counts and ratios of the closed trades. */
  ghost predicate CountsTrades(trades: seq<ClosedTrade>, m: TradingMetrics) {
    && m.winning == |Select(trades, IsWin)| && m.losing == |Select(trades, IsLoss)|
    && m.winning + m.losing + m.breakeven == |trades|
    && (trades == [] ==> m.winRate == m.expectancy == m.profitFactor == Unavailable(NoClosedTrades))
    && (trades != [] ==>
          && m.winRate.Available? && m.winRate.value * |trades| as real == m.winning as real
          && m.expectancy.Available? && m.expectancy.value * |trades| as real == Sum(trades, TradeNet)
          && WinsOverLosses(
               m.winning, Sum(Select(trades, IsWin), TradeNet), m.losing, Sum(Select(trades, IsLoss), TradeNet),
               m.profitFactor))
  }

  /** What the whole report means. */
  ghost predicate Reports(
    executions: seq<Execution>, marks: map<string, real>, points: seq<EquityPoint>, m: TradingMetrics)
  {
    && FromLedger(executions, m.totals) && AddsUp(executions, marks, m.totals)
    && m.fillCount == |executions| && m.orderCount == |set e | e in executions :: e.orderId|
    && CountsTrades(m.totals.closedTrades, m)
    && Draws(points, m.drawdownAbs, m.drawdownPct)
  }

  method CalculateTradingMetrics(
    executions: seq<Execution>, marks: map<string, real>, points: seq<EquityPoint>)
    returns (m: TradingMetrics)
    requires AllValid(executions)
    ensures Reports(executions, marks, points, m)
  {
    hide Sum, FromLedger, AddsUp, Select, Draws;
    var totals := TradingTotals(executions, marks);
    var closed := totals.closedTrades;
    var wins, losses, evens := Select(closed, IsWin), Select(closed, IsLoss), Select(closed, IsEven);
    WinsAndLosses(closed);
    var winRate, expectancy, profitFactor := TradeStatistics(closed, wins, losses);
    var drawdownAbs, drawdownPct := MaxDrawdown(points);
    m := TradingMetrics(
      totals, |executions|, |set e | e in executions :: e.orderId|, |wins|, |losses|, |evens|,
      winRate, profitFactor, expectancy, drawdownAbs, drawdownPct);
  }

  lemma SameItems(a: seq<Execution>, b: seq<Execution>)
    requires multiset(a) == multiset(b)
    ensures |a| == |b|
    ensures forall e :: e in a <==> e in b
    ensures (set e | e in a :: e.orderId) == (set e | e in b :: e.orderId)
  {
    assert |multiset(a)| == |multiset(b)|;
    forall e ensures e in a <==> e in b {
      assert e in multiset(a) <==> e in multiset(b);
    }
  }

  /** Reading the states in key order and keeping the open ones. */
  method ReadPositions(keys: seq<Key>, states: map<Key, PositionState>, ghost l: Ledger) returns (rows: seq<OpenPosition>)
    requires Shows(states, l) && WellKept(l) && forall k | k in keys :: k in states
    ensures rows == Rows(keys, l.states)
  {
    rows := [];
    for i := 0 to |keys|
      invariant rows == Rows(keys[..i], l.states)
    {
      assert Init(keys[..i + 1]) == keys[..i];
      assert keys[i] in keys;
      var p := states[keys[i]].View();
      if p.quantity != 0.0 { rows := rows + [RowOf(keys[i], p)]; }
    }
    assert keys[..|keys|] == keys;
  }

  method TradeStatistics(closed: seq<ClosedTrade>, wins: seq<ClosedTrade>, losses: seq<ClosedTrade>)
    returns (winRate: Metric, expectancy: Metric, profitFactor: Metric)
    requires wins == Select(closed, IsWin) && losses == Select(closed, IsLoss)
    ensures closed == [] ==> winRate == expectancy == profitFactor == Unavailable(NoClosedTrades)
    ensures closed != [] ==>
              && winRate.Available? && winRate.value * |closed| as real == |wins| as real
              && expectancy.Available? && expectancy.value * |closed| as real == Sum(closed, TradeNet)
              && WinsOverLosses(|wins|, Sum(wins, TradeNet), |losses|, Sum(losses, TradeNet), profitFactor)
  {
    hide Select;
    if closed == [] {
      return Unavailable(NoClosedTrades), Unavailable(NoClosedTrades), Unavailable(NoClosedTrades);
    }
    SignOfWins(closed);
    var count := |closed| as real;
    winRate := Available(|wins| as real / count);
    expectancy := Available(Sum(closed, TradeNet) / count);
    Quotient(|wins| as real, count);
    Quotient(Sum(closed, TradeNet), count);
    var profit, loss := Sum(wins, TradeNet), Abs(Sum(losses, TradeNet));
    if loss == 0.0 && profit > 0.0 {
      profitFactor := Unbounded(NoLosingTrades);
    } else if loss == 0.0 {
      profitFactor := Unavailable(NoProfitOrLoss);
    } else {
      Quotient(profit, loss);
      profitFactor := Available(profit / loss);
    }
  }

  lemma {:induction false} SignOfWins(trades: seq<ClosedTrade>)
    ensures Sum(Select(trades, IsWin), TradeNet) >= 0.0 >= Sum(Select(trades, IsLoss), TradeNet)
    ensures Select(trades, IsWin) != [] ==> Sum(Select(trades, IsWin), TradeNet) > 0.0
    ensures Select(trades, IsLoss) != [] ==> Sum(Select(trades, IsLoss), TradeNet) < 0.0
  {
    if trades != [] {
      SignOfWins(Init(trades));
      SumSelectStep(trades, IsWin, TradeNet);
      SumSelectStep(trades, IsLoss, TradeNet);
    }
  }

  // ---------------------------------------------------------------- interleaving of systems and symbols

  /** Sorting by time keeps each key's own fills in step. */
  lemma SortedPerKey(a: seq<Execution>, b: seq<Execution>)
    requires SamePerKey(a, b)
    ensures SamePerKey(SortBy(a, FilledAt), SortBy(b, FilledAt))
  {
    forall k ensures KeyFills(SortBy(a, FilledAt), k) == KeyFills(SortBy(b, FilledAt), k) {
      SortBySelect(a, FilledAt, HasKey(k));
      SortBySelect(b, FilledAt, HasKey(k));
      assert KeyFills(a, k) == KeyFills(b, k);
    }
  }

  /**
   Executions whose keys are interleaved differently give the same totals, except that the closed
   trades may be listed in another order (each key's own trades stay in theirs).
   */
  lemma TotalsIgnoreInterleaving(
    a: seq<Execution>, b: seq<Execution>, marks: map<string, real>, t: Totals, u: Totals)
    requires AllValid(a) && AllValid(b) && SamePerKey(a, b)
    requires FromLedger(a, t) && AddsUp(a, marks, t)
    requires FromLedger(b, u) && AddsUp(b, marks, u)
    ensures u == t.(closedTrades := u.closedTrades)
    ensures forall k :: KeyTrades(t.closedTrades, k) == KeyTrades(u.closedTrades, k)
  {
    hide Sum, Replay, SortBy, Rows, SortKeys, AllMarked, Unmarked, Total, WellKept, Select, KeyTrades, TimeOrdered,
      Timely;
    var x, y := SortBy(a, FilledAt), SortBy(b, FilledAt);
    SortedBooks(a, t);
    SortedBooks(b, u);
    SortedPerKey(a, b);
    InterleavingIsIrrelevant(x, y, Fee, EntryFees, TradeFees);
    SameStatesPerKey(x, y);
    SamePerKeyPermutes(a, b);
    SumPermutes(a, b, Fee);
    SumPermutes(a, b, Slippage);
    SumPermutes(a, b, Flow(marks));
    SameItems(a, b);
    ReplayKeeps(x);
    ReplayKeeps(y);
    SameKeyLists(Replay(x), Replay(y));
    SortKeysCanonical(Replay(x).keys, Replay(y).keys);
    assert AllSlippageKnown(a) <==> AllSlippageKnown(b);
  }

  lemma SelectPermutes(a: seq<ClosedTrade>, b: seq<ClosedTrade>, keep: ClosedTrade -> bool)
    requires multiset(a) == multiset(b)
    ensures multiset(Select(a, keep)) == multiset(Select(b, keep))
    ensures |Select(a, keep)| == |Select(b, keep)|
  {
    var x, y := Select(a, keep), Select(b, keep);
    forall t ensures multiset(x)[t] == multiset(y)[t] {
      SelectKeeps(a, keep, t);
      SelectKeeps(b, keep, t);
      if keep(t) {
        SelectCount(a, keep, t);
        SelectCount(b, keep, t);
      }
    }
    assert multiset(x) == multiset(y);
    assert |multiset(x)| == |x| && |multiset(y)| == |y|;
  }

  lemma StatisticsIgnoreOrder(a: seq<ClosedTrade>, b: seq<ClosedTrade>, m: TradingMetrics, u: TradingMetrics)
    requires multiset(a) == multiset(b) && CountsTrades(a, m) && CountsTrades(b, u)
    ensures m.winning == u.winning && m.losing == u.losing && m.breakeven == u.breakeven
    ensures m.winRate == u.winRate && m.expectancy == u.expectancy && m.profitFactor == u.profitFactor
  {
    hide Sum, Select;
    assert |multiset(a)| == |multiset(b)|;
    SelectPermutes(a, b, IsWin);
    SelectPermutes(a, b, IsLoss);
    SumPermutes(a, b, TradeNet);
    SumPermutes(Select(a, IsWin), Select(b, IsWin), TradeNet);
    SumPermutes(Select(a, IsLoss), Select(b, IsLoss), TradeNet);
    if a != [] {
      SameQuotient(m.winRate.value, u.winRate.value, |a| as real);
      SameQuotient(m.expectancy.value, u.expectancy.value, |a| as real);
      if m.losing > 0 {
        SameQuotient(m.profitFactor.value, u.profitFactor.value, -Sum(Select(a, IsLoss), TradeNet));
      }
    }
  }

  lemma SameQuotient(x: real, y: real, b: real)
    requires b != 0.0 && x * b == y * b
    ensures x == y
  {
    assert x == x * b / b && y == y * b / b;
  }

  lemma DrawdownIsUnique(points: seq<EquityPoint>, m: TradingMetrics, u: TradingMetrics)
    requires Draws(points, m.drawdownAbs, m.drawdownPct) && Draws(points, u.drawdownAbs, u.drawdownPct)
    ensures m.drawdownAbs == u.drawdownAbs && m.drawdownPct == u.drawdownPct
  {
    hide CurveOf, Curve, Peak, RelativeDrop;
    if |points| >= 2 {
      var es :| CurveOf(points, es) && DrawsCurve(es, m.drawdownAbs, m.drawdownPct);
      var fs :| CurveOf(points, fs) && DrawsCurve(fs, u.drawdownAbs, u.drawdownPct);
      CurveExactly(points, es);
      CurveExactly(points, fs);
    }
  }

  /** The same holds of the whole report: counts, ratios and drawdown included. */
  lemma ReportIgnoresInterleaving(
    a: seq<Execution>, b: seq<Execution>, marks: map<string, real>, points: seq<EquityPoint>,
    m: TradingMetrics, u: TradingMetrics)
    requires AllValid(a) && AllValid(b) && SamePerKey(a, b)
    requires Reports(a, marks, points, m) && Reports(b, marks, points, u)
    ensures u == m.(totals := m.totals.(closedTrades := u.totals.closedTrades))
    ensures forall k :: KeyTrades(m.totals.closedTrades, k) == KeyTrades(u.totals.closedTrades, k)
  {
    hide FromLedger, AddsUp, CountsTrades, Draws, KeyTrades, AllValid, SamePerKey;
    TotalsIgnoreInterleaving(a, b, marks, m.totals, u.totals);
    SameTradesPermute(m.totals.closedTrades, u.totals.closedTrades);
    StatisticsIgnoreOrder(m.totals.closedTrades, u.totals.closedTrades, m, u);
    DrawdownIsUnique(points, m, u);
    SamePerKeyPermutes(a, b);
    SameItems(a, b);
  }

  // ---------------------------------------------------------------- profit before costs

  /**
   On records made by the adapter, reported profit before costs is the profit of the same fills at
   their pre-slippage reference marks, and before fees.
   */
  lemma GrossIsProfitAtReferenceMarks(
    orders: map<string, PaperOrder>, fills: seq<PaperFill>, bps: real, marks: map<string, real>, t: Totals)
    requires bps >= 0.0 && RecordsOf(orders, fills, Some(bps)).Ok?
    requires AddsUp(RecordsOf(orders, fills, Some(bps)).value, marks, t) && AllMarked(marks, t.positions)
    ensures t.grossBeforeCosts
            == Available(Sum(RecordsOf(orders, fills, Some(bps)).value, ReferenceFlow(marks, bps)))
  {
    hide Sum, RecordsOf, AllMarked, Flow, ReferenceFlow;
    ProfitBeforeCosts(orders, fills, bps, marks);
  }

  /** What one fill would have been worth at the mark the broker filled it at. */
  function FlowFrom(marks: map<string, real>, filledAt: Execution -> real): Execution -> real {
    (e: Execution) => Gain(SignedFill(e), MarkAt(marks, e.symbol), filledAt(e))
  }

  /** When the broker's formula made the fill prices, that is profit at the marks it filled at. */
  lemma GrossIsProfitAtBrokerMarks(
    orders: map<string, PaperOrder>, fills: seq<PaperFill>, bps: real, marks: map<string, real>, t: Totals,
    filledAt: Execution -> real)
    requires bps >= 0.0 && RecordsOf(orders, fills, Some(bps)).Ok?
    requires AddsUp(RecordsOf(orders, fills, Some(bps)).value, marks, t) && AllMarked(marks, t.positions)
    requires forall e | e in RecordsOf(orders, fills, Some(bps)).value :: FilledAtMark(e, filledAt(e), bps)
    ensures t.grossBeforeCosts
            == Available(Sum(RecordsOf(orders, fills, Some(bps)).value, FlowFrom(marks, filledAt)))
  {
    hide Sum, RecordsOf, AllMarked, Flow, Gain, ReferencePrice, FilledAtMark, AddsUp, ValidExecution;
    var records := RecordsOf(orders, fills, Some(bps)).value;
    GrossIsProfitAtReferenceMarks(orders, fills, bps, marks, t);
    ProfitBeforeCosts(orders, fills, bps, marks);
    forall e | e in records ensures ReferenceFlow(marks, bps)(e) == FlowFrom(marks, filledAt)(e) {
      ReferenceIsBrokerMark(e, filledAt(e), bps);
    }
    SumsAgree(records, ReferenceFlow(marks, bps), FlowFrom(marks, filledAt));
  }
}
