/**
 The paper broker's own books (app/trading/paper/broker.py): cash, fees, realised profit and
 positions, updated fill by fill.  The evaluation never sees these books; it rebuilds everything
 from the list of fills.  Here the two are proved to agree.
 */
module PaperBroker {
  import opened Wrappers
  import opened Sequences
  import opened Reals
  import opened Sums
  import opened Ordering
  import opened KeyOrder
  import opened Positions
  import opened Ledgers
  import opened Metrics
  import opened Trading

  datatype BrokerPosition = BrokerPosition(quantity: real, averageEntry: real, realizedPnl: real)

  const NO_POSITION := BrokerPosition(0.0, 0.0, 0.0)

  /** Signed cost of one fill, and its signed worth at the marks. */
  function Cost(e: Execution): real { Value(SignedFill(e), e.price) }

  function Worth(marks: map<string, real>): Execution -> real {
    (e: Execution) => Value(SignedFill(e), MarkAt(marks, e.symbol))
  }

  function StateWorth(marks: map<string, real>): (Key, Position) -> real {
    (k: Key, p: Position) => Value(p.quantity, MarkAt(marks, k.1))
  }

  function SymbolWorth(marks: map<string, real>): (string, BrokerPosition) -> real {
    (s: string, p: BrokerPosition) => Value(p.quantity, MarkAt(marks, s))
  }

  lemma ValueAdds(a: real, b: real, mark: real)
    ensures Value(a + b, mark) == Value(a, mark) + Value(b, mark)
    ensures Value(0.0, mark) == 0.0
  {
  }

  lemma WorthStep(l: Ledger, e: Execution, marks: map<string, real>)
    requires WellKept(l) && ValidExecution(e)
    ensures var m := Post(l, e);
            Total(m.keys, m.states, StateWorth(marks)) == Total(l.keys, l.states, StateWorth(marks)) + Worth(marks)(e)
  {
    var p := StateOf(l, KeyOf(e));
    hide Apply, Value, Total;
    BasisStep(p, e);
    ValueAdds(p.quantity, SignedFill(e), MarkAt(marks, e.symbol));
    PostTotal(l, e, StateWorth(marks));
  }

  /** The open positions are worth what all signed fills together are worth. */
  lemma {:induction false} InventoryWorth(fills: seq<Execution>, marks: map<string, real>)
    requires AllValid(fills)
    ensures var l := Replay(fills); Total(l.keys, l.states, StateWorth(marks)) == Sum(fills, Worth(marks))
  {
    hide Post, Worth, StateWorth, WellKept, ValidExecution;
    if fills != [] {
      assert Last(fills) in fills;
      InventoryWorth(Init(fills), marks);
      ReplayKeeps(Init(fills));
      WorthStep(Replay(Init(fills)), Last(fills), marks);
    }
  }

  lemma {:induction false} FlowIsWorthLessCost(fills: seq<Execution>, marks: map<string, real>)
    ensures Sum(fills, Flow(marks)) == Sum(fills, Worth(marks)) - Sum(fills, Cost)
  {
    if fills != [] { FlowIsWorthLessCost(Init(fills), marks); }
  }

  function KeysOf(systemId: string, symbols: seq<string>): seq<Key> {
    seq(|symbols|, i requires 0 <= i < |symbols| => (systemId, symbols[i]))
  }

  datatype AccountState = AccountState(equity: real, realizedPnl: real, unrealizedPnl: real, feesPaid: real)

  function SymbolPnl(marks: map<string, real>): (string, BrokerPosition) -> real {
    (s: string, p: BrokerPosition) => Gain(p.quantity, MarkAt(marks, s), p.averageEntry)
  }

  lemma NothingHeld(mark: real, entry: real)
    ensures Value(0.0, mark) == 0.0 && Gain(0.0, mark, entry) == 0.0
  {
  }

  lemma {:induction false} SameTotal(
    systemId: string, symbols: seq<string>, positions: map<string, BrokerPosition>, states: map<Key, Position>,
    f: (string, BrokerPosition) -> real, g: (Key, Position) -> real)
    requires forall s | s in symbols ::
               s in positions && (systemId, s) in states && f(s, positions[s]) == g((systemId, s), states[(systemId, s)])
    ensures Total(symbols, positions, f) == Total(KeysOf(systemId, symbols), states, g)
  {
    if symbols != [] {
      assert Last(symbols) in symbols && forall s | s in Init(symbols) :: s in symbols;
      SameTotal(systemId, Init(symbols), positions, states, f, g);
      assert Init(KeysOf(systemId, symbols)) == KeysOf(systemId, Init(symbols));
    }
  }

  lemma ReplayAppend(history: seq<Execution>, e: Execution)
    requires AllValid(history) && ValidExecution(e)
    ensures AllValid(history + [e]) && Replay(history + [e]) == Post(Replay(history), e)
  {
    assert Init(history + [e]) == history;
  }

  /** The arithmetic of `_apply_position_fill`: what is left, its average entry, and what was realised. */
  method PositionFill(p: BrokerPosition, e: Execution, signedFill: real, ghost state: Position)
    returns (left: real, average: real, delta: real)
    requires ValidExecution(e) && signedFill == SignedFill(e)
    requires p.quantity == state.quantity && p.averageEntry == state.averageEntry
    ensures var (q, t) := Apply(state, e);
            left == q.quantity && average == q.averageEntry && delta == Realized(t)
  {
    hide Average, Gain, Share;
    var oldQuantity := p.quantity;
    left, average, delta := oldQuantity + signedFill, 0.0, 0.0;
    if oldQuantity == 0.0 || (oldQuantity > 0.0 && signedFill > 0.0) || (oldQuantity < 0.0 && signedFill < 0.0) {
      average := Average(p.averageEntry, Abs(oldQuantity), e.price, Abs(signedFill));
    } else {
      var closing := Min(Abs(oldQuantity), Abs(signedFill));
      delta := if oldQuantity > 0.0 then Gain(closing, e.price, p.averageEntry)
               else Gain(closing, p.averageEntry, e.price);
      if left == 0.0 {
        average := 0.0;
      } else if (oldQuantity > 0.0 && left > 0.0) || (oldQuantity < 0.0 && left < 0.0) {
        average := p.averageEntry;
      } else {
        average := e.price;
      }
    }
  }

  /** The positions of one system are the ledger's, symbol by symbol and in the same order. */
  ghost predicate Agrees(systemId: string, symbols: seq<string>, positions: map<string, BrokerPosition>, l: Ledger) {
    && l.keys == KeysOf(systemId, symbols)
    && (forall s :: s in positions <==> (systemId, s) in l.states)
    && (forall s :: s in positions <==> s in symbols)
    && (forall s | s in positions ::
          && positions[s].quantity == l.states[(systemId, s)].quantity
          && positions[s].averageEntry == l.states[(systemId, s)].averageEntry
          && positions[s].realizedPnl == Sum(KeyTrades(l.closed, (systemId, s)), TradeGross))
  }

  lemma StateAgrees(
    systemId: string, symbols: seq<string>, positions: map<string, BrokerPosition>, l: Ledger, e: Execution)
    requires Agrees(systemId, symbols, positions, l) && e.systemId == systemId
    ensures var p, state := if e.symbol in positions then positions[e.symbol] else NO_POSITION, StateOf(l, KeyOf(e));
            && p.quantity == state.quantity && p.averageEntry == state.averageEntry
            && (e.symbol in positions <==> KeyOf(e) in l.states)
            && (e.symbol in positions ==> p.realizedPnl == Sum(KeyTrades(l.closed, KeyOf(e)), TradeGross))
  {
  }

  /** What a fill realises is added to its own symbol. */
  lemma RealizedPerKey(l: Ledger, e: Execution, k: Key)
    requires ValidExecution(e)
    ensures Sum(KeyTrades(Post(l, e).closed, k), TradeGross)
            == Sum(KeyTrades(l.closed, k), TradeGross)
               + if k == KeyOf(e) then Realized(Apply(StateOf(l, k), e).1) else 0.0
  {
    TradeHasKey(StateOf(l, KeyOf(e)), e);
    var t := Apply(StateOf(l, KeyOf(e)), e).1;
    if t.Some? {
      SumSelectStep(l.closed + [t.value], IsTradeOf(k), TradeGross);
      assert Init(l.closed + [t.value]) == l.closed;
    }
    hide Apply;
  }

  /** A symbol never filled has realised nothing. */
  lemma NothingRealized(fills: seq<Execution>, k: Key)
    requires AllValid(fills) && k !in Replay(fills).states
    ensures KeyTrades(Replay(fills).closed, k) == []
  {
    KeysAreIndependent(fills, k);
  }

  lemma AgreesStep(
    systemId: string, symbols: seq<string>, positions: map<string, BrokerPosition>, l: Ledger, e: Execution,
    q: BrokerPosition)
    requires Agrees(systemId, symbols, positions, l) && ValidExecution(e) && e.systemId == systemId
    requires var (after, _) := Apply(StateOf(l, KeyOf(e)), e);
             q.quantity == after.quantity && q.averageEntry == after.averageEntry
    requires q.realizedPnl == Sum(KeyTrades(Post(l, e).closed, KeyOf(e)), TradeGross)
    ensures Agrees(
              systemId, if e.symbol in positions then symbols else symbols + [e.symbol],
              positions[e.symbol := q], Post(l, e))
  {
    hide Apply, Sum, KeyTrades;
    forall s | s in positions && s != e.symbol
      ensures Sum(KeyTrades(Post(l, e).closed, (systemId, s)), TradeGross)
              == Sum(KeyTrades(l.closed, (systemId, s)), TradeGross)
    {
      RealizedPerKey(l, e, (systemId, s));
    }
    if e.symbol !in positions {
      assert KeysOf(systemId, symbols + [e.symbol]) == KeysOf(systemId, symbols) + [KeyOf(e)];
    }
  }

  class PaperAccount {
    const systemId: string
    const initialBalance: real
    var cash: real
    var feesPaid: real
    var realized: real
    var symbols: seq<string>
    var positions: map<string, BrokerPosition>

    /** Every fill so far, as the evaluation will see it. */
    ghost var history: seq<Execution>

    ghost predicate CashBooks()
      reads this
    {
      && AllValid(history) && (forall e | e in history :: e.systemId == systemId)
      && cash == initialBalance - Sum(history, Cost) - Sum(history, Fee)
      && feesPaid == Sum(history, Fee)
    }

    /** The broker's positions are the evaluation's, symbol by symbol and in the same order. */
    ghost predicate PositionBooks()
      requires AllValid(history)
      reads `realized, `symbols, `positions, `history
    {
      realized == Replay(history).realized && Agrees(systemId, symbols, positions, Replay(history))
    }

    ghost predicate Valid()
      reads this
    {
      CashBooks() && PositionBooks()
    }

    constructor (systemId: string, initialBalance: real)
      ensures Valid() && this.systemId == systemId && this.initialBalance == initialBalance && history == []
    {
      this.systemId, this.initialBalance := systemId, initialBalance;
      cash, feesPaid, realized := initialBalance, 0.0, 0.0;
      symbols, positions, history := [], map[], [];
    }

    /** `_apply_full_fill`: one fill of `e.quantity` at `e.price`, for the fee `e` carries. */
    method ApplyFullFill(e: Execution)
      requires Valid() && ValidExecution(e) && e.systemId == systemId
      modifies this
      ensures Valid() && history == old(history) + [e] && feesPaid == old(feesPaid) + e.fee
      ensures cash == old(cash) - e.fee - (if e.side == "BUY" then e.quantity * e.price else -(e.quantity * e.price))
    {
      hide Apply, Replay, PositionBooks;
      var notional := Value(e.quantity, e.price);
      var signedFill;
      if e.side == "BUY" {
        cash := cash - (notional + e.fee);
        signedFill := e.quantity;
      } else {
        cash := cash + (notional - e.fee);
        signedFill := -e.quantity;
      }
      feesPaid := feesPaid + e.fee;
      SumAppend(history, e, Cost);
      SumAppend(history, e, Fee);
      EitherSign(e.quantity, e.price);
      ApplyPositionFill(e, signedFill);
    }

    /** `_apply_position_fill`. */
    method ApplyPositionFill(e: Execution, signedFill: real)
      requires AllValid(history) && PositionBooks() && ValidExecution(e) && e.systemId == systemId
      requires signedFill == SignedFill(e)
      modifies this`realized, this`symbols, this`positions, this`history
      ensures history == old(history) + [e]
      ensures AllValid(history) && PositionBooks()
    {
      hide Apply, Realized, Agrees, ValidExecution, Replay;
      var p := if e.symbol in positions then positions[e.symbol] else NO_POSITION;
      ghost var l := Replay(history);
      StateAgrees(systemId, symbols, positions, l, e);
      var left, average, delta := PositionFill(p, e, signedFill, StateOf(l, KeyOf(e)));
      var q := BrokerPosition(left, average, p.realizedPnl + delta);
      RealizedPerKey(l, e, KeyOf(e));
      if e.symbol !in positions { NothingRealized(history, KeyOf(e)); }
      AgreesStep(systemId, symbols, positions, l, e, q);
      ReplayAppend(history, e);
      if e.symbol !in positions { symbols := symbols + [e.symbol]; }
      positions := positions[e.symbol := q];
      realized := realized + delta;
      history := history + [e];
    }

    /** `get_account_state`: fails on the first open position whose symbol has no mark. */
    method GetAccountState(marks: map<string, real>) returns (r: Result<AccountState, string>)
      requires Valid()
      ensures r.Ok? <==> forall s | s in positions :: positions[s].quantity == 0.0 || s in marks
      ensures r.Ok? ==>
                && r.value.equity == initialBalance + Sum(history, Flow(marks)) - Sum(history, Fee)
                && r.value.realizedPnl == Replay(history).realized && r.value.feesPaid == Sum(history, Fee)
                && r.value.equity - initialBalance
                   == r.value.realizedPnl + r.value.unrealizedPnl - r.value.feesPaid
    {
      hide Value, Gain, Replay, KeysOf, Flow;
      var unrealized, worth := 0.0, 0.0;
      for i := 0 to |symbols|
        invariant forall s | s in symbols[..i] :: positions[s].quantity == 0.0 || s in marks
        invariant unrealized == Total(symbols[..i], positions, SymbolPnl(marks))
        invariant worth == Total(symbols[..i], positions, SymbolWorth(marks))
      {
        var symbol := symbols[i];
        var p := positions[symbol];
        assert symbols[..i + 1] == symbols[..i] + [symbol];
        SumAppend(symbols[..i], symbol, EntryOf(positions, SymbolPnl(marks)));
        SumAppend(symbols[..i], symbol, EntryOf(positions, SymbolWorth(marks)));
        NothingHeld(MarkAt(marks, symbol), p.averageEntry);
        if p.quantity != 0.0 {
          if symbol !in marks { return Err(symbol); }
          unrealized := unrealized + Gain(p.quantity, marks[symbol], p.averageEntry);
          worth := worth + Value(p.quantity, marks[symbol]);
        }
      }
      assert symbols[..|symbols|] == symbols;
      BooksAgree(marks, unrealized, worth);
      return Ok(AccountState(cash + worth, realized, unrealized, feesPaid));
    }

    lemma BooksAgree(marks: map<string, real>, unrealized: real, worth: real)
      requires Valid()
      requires unrealized == Total(symbols, positions, SymbolPnl(marks))
      requires worth == Total(symbols, positions, SymbolWorth(marks))
      ensures worth - Sum(history, Cost) == Sum(history, Flow(marks)) == realized + unrealized
    {
      var l := Replay(history);
      SameTotal(systemId, symbols, positions, l.states, SymbolPnl(marks), OpenPnl(marks));
      SameTotal(systemId, symbols, positions, l.states, SymbolWorth(marks), StateWorth(marks));
      InventoryWorth(history, marks);
      FlowIsWorthLessCost(history, marks);
      MarkToMarket(history, marks);
    }
  }

  lemma EitherSign(quantity: real, price: real)
    ensures Value(-quantity, price) == -Value(quantity, price)
  {
  }

  lemma {:induction false} RowIsOpen(keys: seq<Key>, states: map<Key, Position>, r: OpenPosition)
    requires r in Rows(keys, states)
    ensures r.key in states && states[r.key].quantity != 0.0
  {
    if r in Rows(Init(keys), states) { RowIsOpen(Init(keys), states, r); }
  }

  lemma BooksAsGiven(history: seq<Execution>, t: Totals)
    requires InTimeOrder(history) && FromLedger(history, t)
    ensures Books(history, t)
  {
    InOrderAlready(history);
    hide TimeOrdered, Books;
    TimeOrderExactly(history, history);
    SortedBooks(history, t);
  }

  /**
   When the broker's fills are in time order and its open symbols are marked, the evaluation
   reports from the fills alone what the broker has on its own books.
   */
  lemma EvaluationAgreesWithBroker(account: PaperAccount, marks: map<string, real>, state: AccountState, t: Totals)
    requires account.Valid()
    requires forall i, j | 0 <= i < j < |account.history| :: account.history[i].filledAt <= account.history[j].filledAt
    requires forall s | s in account.positions ::
               account.positions[s].quantity == 0.0 || (s in marks && marks[s] > 0.0)
    requires state.equity == account.initialBalance + Sum(account.history, Flow(marks)) - Sum(account.history, Fee)
    requires FromLedger(account.history, t) && AddsUp(account.history, marks, t)
    ensures t.executionRealized == account.realized && t.feesPaid == account.feesPaid
    ensures t.tradingNet == Available(state.equity - account.initialBalance)
  {
    hide Sum, SortBy, Replay, Rows, SortKeys, Marked, Flow, Unmarked, TimeOrdered, Timely;
    BooksAsGiven(account.history, t);
    forall i | 0 <= i < |t.positions| ensures Marked(marks, t.positions[i]) {
      OpenRowIsMarked(account, marks, t.positions[i]);
    }
  }

  lemma OpenRowIsMarked(account: PaperAccount, marks: map<string, real>, r: OpenPosition)
    requires account.Valid()
    requires forall s | s in account.positions ::
               account.positions[s].quantity == 0.0 || (s in marks && marks[s] > 0.0)
    requires var l := Replay(account.history); r in Rows(SortKeys(l.keys), l.states)
    ensures Marked(marks, r)
  {
    hide Sum, Replay, Rows, SortKeys;
    var l := Replay(account.history);
    ReplayKeeps(account.history);
    RowIsOpen(SortKeys(l.keys), l.states, r);
    assert r.key in l.keys;
    var j :| 0 <= j < |account.symbols| && KeysOf(account.systemId, account.symbols)[j] == r.key;
    assert account.symbols[j] in account.symbols;
  }
}
