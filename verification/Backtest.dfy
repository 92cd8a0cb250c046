/** The backtest engine (core/src/backtest/engine.c) with its cost model
    (core/src/backtest/cost_model.c), over real numbers: bar by bar it asks the signal
    source, trades all-in or all-out, and takes a snapshot. */
module Backtest {
  import opened Wrappers

  datatype Side = Buy | Sell
  datatype Signal = SignalBuy | SignalSell | SignalHold | SignalClose

  datatype CostModel = CostModel(commissionRate: real, taxRate: real, slippageRate: real)
  datatype TradeCost = TradeCost(commission: real, tax: real, slippage: real, total: real)

  datatype State = State(cash: real, qty: int, avgPrice: real, prevValue: real)
  datatype Trade = Trade(date: int, side: Side, price: real, quantity: int, cost: TradeCost, pnl: real)
  datatype Snapshot = Snapshot(date: int, close: real, cash: real, qty: int,
                               positionValue: real, portfolioValue: real, dailyReturnPct: real)

  /** The source hands the signal function the whole price array and the count of bars
      seen so far. */
  type SignalFn = (int, seq<real>, nat, int) -> Signal

  // ----- the code ---------------------------------------------------------

  function Cost(m: CostModel, side: Side, price: real, quantity: int): TradeCost {
    var notional := price * quantity as real;
    var commission := notional * m.commissionRate;
    var tax := if side == Sell then notional * m.taxRate else 0.0;
    var slippage := notional * m.slippageRate;
    TradeCost(commission, tax, slippage, commission + tax + slippage)
  }

  function EffectivePrice(m: CostModel, price: real): real {
    price + Cost(m, Buy, price, 1).total
  }

  function Outlay(m: CostModel, price: real, quantity: int): real {
    price * quantity as real + Cost(m, Buy, price, quantity).total
  }

  /** The share count of `open_position`, 0 when no trade is taken. */
  function BuyQuantity(m: CostModel, cash: real, price: real): int {
    var effective := EffectivePrice(m, price);
    if effective <= 0.0 then 0
    else
      var quantity := (cash / effective).Floor;
      if quantity <= 0 then 0
      else if Outlay(m, price, quantity) > cash then quantity - 1
      else quantity
  }

  function Open(m: CostModel, st: State, date: int, price: real): (State, Option<Trade>) {
    var quantity := BuyQuantity(m, st.cash, price);
    if quantity <= 0 then (st, None)
    else (st.(cash := st.cash - Outlay(m, price, quantity), avgPrice := price, qty := quantity),
          Some(Trade(date, Buy, price, quantity, Cost(m, Buy, price, quantity), 0.0)))
  }

  function Close(m: CostModel, st: State, date: int, price: real): (State, Trade) {
    var cost := Cost(m, Sell, price, st.qty);
    var pnl := (price - st.avgPrice) * st.qty as real - cost.total;
    (st.(cash := st.cash + (price * st.qty as real - cost.total), qty := 0, avgPrice := 0.0),
     Trade(date, Sell, price, st.qty, cost, pnl))
  }

  function Worth(st: State, price: real): real {
    st.cash + st.qty as real * price
  }

  function ReturnPct(prev: real, value: real): real {
    if prev > 0.0 then (value - prev) / prev * 100.0 else 0.0
  }

  function TakeSnapshot(st: State, date: int, close: real): (State, Snapshot) {
    var value := Worth(st, close);
    (st.(prevValue := value),
     Snapshot(date, close, st.cash, st.qty, st.qty as real * close, value, ReturnPct(st.prevValue, value)))
  }

  function Act(m: CostModel, st: State, signal: Signal, date: int, price: real): (State, Option<Trade>) {
    if signal == SignalBuy && st.qty == 0 then Open(m, st, date, price)
    else if (signal == SignalSell || signal == SignalClose) && st.qty > 0 then
      var (st1, trade) := Close(m, st, date, price);
      (st1, Some(trade))
    else (st, None)
  }

  datatype Sim = Sim(st: State, trades: seq<Trade>, snapshots: seq<Snapshot>)

  function Begin(capital: int): Sim {
    Sim(State(capital as real, 0, 0.0, capital as real), [], [])
  }

  function Bar(m: CostModel, s: Sim, signal: Signal, date: int, price: real): Sim {
    var (st1, trade) := Act(m, s.st, signal, date, price);
    var (st2, snapshot) := TakeSnapshot(st1, date, price);
    Sim(st2, if trade.Some? then s.trades + [trade.value] else s.trades, s.snapshots + [snapshot])
  }

  /** The first `k` bars of `alpha_backtest_run`. */
  function Simulate(m: CostModel, capital: int, prices: seq<real>, dates: seq<int>, f: SignalFn, k: nat): (s: Sim)
    requires k <= |prices| == |dates|
  {
    if k == 0 then Begin(capital)
    else
      var s := Simulate(m, capital, prices, dates, f, k - 1);
      Bar(m, s, f(dates[k - 1], prices, k, s.st.qty), dates[k - 1], prices[k - 1])
  }

  // ----- accounting -------------------------------------------------------

  function RealisedPnl(trades: seq<Trade>): real {
    if trades == [] then 0.0
    else RealisedPnl(trades[..|trades| - 1]) +
         (if trades[|trades| - 1].side == Sell then trades[|trades| - 1].pnl else 0.0)
  }

  function BuyCosts(trades: seq<Trade>): real {
    if trades == [] then 0.0
    else BuyCosts(trades[..|trades| - 1]) +
         (if trades[|trades| - 1].side == Buy then trades[|trades| - 1].cost.total else 0.0)
  }

  lemma LedgerStep(trades: seq<Trade>, t: Trade)
    ensures RealisedPnl(trades + [t]) == RealisedPnl(trades) + (if t.side == Sell then t.pnl else 0.0)
    ensures BuyCosts(trades + [t]) == BuyCosts(trades) + (if t.side == Buy then t.cost.total else 0.0)
  {
    assert (trades + [t])[..|trades|] == trades;
  }

  /** The cash is what the ledger says: capital, plus realised pnl, minus buying costs,
      minus what the open position was bought for. */
  ghost predicate Balanced(s: Sim, capital: int) {
    s.st.cash == capital as real + RealisedPnl(s.trades) - BuyCosts(s.trades) - s.st.qty as real * s.st.avgPrice
  }

  lemma ActKeepsBalance(m: CostModel, s: Sim, capital: int, signal: Signal, date: int, price: real)
    requires Balanced(s, capital)
    ensures Balanced(Bar(m, s, signal, date, price), capital)
  {
    hide Cost, BuyQuantity, RealisedPnl, BuyCosts;
    var (st1, trade) := Act(m, s.st, signal, date, price);
    if trade.Some? {
      LedgerStep(s.trades, trade.value);
    }
  }

  /** At every bar the portfolio is worth the capital, plus all realised pnl, minus all
      buying costs, plus the unrealised gain of the open position. No assumption on
      prices, rates or signals is needed. */
  lemma {:induction false} AccountingIdentity(m: CostModel, capital: int, prices: seq<real>,
                                              dates: seq<int>, f: SignalFn, k: nat)
    requires k <= |prices| == |dates|
    ensures var s := Simulate(m, capital, prices, dates, f, k);
            && Balanced(s, capital) && |s.snapshots| == k
            && (k > 0 ==> s.snapshots[k - 1].portfolioValue ==
                          capital as real + RealisedPnl(s.trades) - BuyCosts(s.trades) +
                          s.st.qty as real * (prices[k - 1] - s.st.avgPrice))
  {
    hide Act, RealisedPnl, BuyCosts;
    if k > 0 {
      AccountingIdentity(m, capital, prices, dates, f, k - 1);
      var s := Simulate(m, capital, prices, dates, f, k - 1);
      ActKeepsBalance(m, s, capital, f(dates[k - 1], prices, k, s.st.qty), dates[k - 1], prices[k - 1]);
    } else {
      assert RealisedPnl([]) == 0.0 && BuyCosts([]) == 0.0 by { EmptyLedger(); }
    }
  }

  lemma EmptyLedger()
    ensures RealisedPnl([]) == 0.0 && BuyCosts([]) == 0.0
  {
  }

  // ----- affordability ----------------------------------------------------

  predicate ValidCosts(m: CostModel) {
    m.commissionRate >= 0.0 && m.taxRate >= 0.0 && m.slippageRate >= 0.0
  }

  function SellRate(m: CostModel): real {
    m.commissionRate + m.taxRate + m.slippageRate
  }

  function BuyRate(m: CostModel): real {
    m.commissionRate + m.slippageRate
  }

  lemma OutlayScales(m: CostModel, price: real, quantity: int)
    ensures Outlay(m, price, quantity) == quantity as real * EffectivePrice(m, price)
    ensures EffectivePrice(m, price) == price * (1.0 + BuyRate(m))
  {
    var q := quantity as real;
    assert price * q * m.commissionRate == q * (price * m.commissionRate);
    assert price * q * m.slippageRate == q * (price * m.slippageRate);
  }

  lemma EffectivePositive(m: CostModel, price: real)
    requires ValidCosts(m) && price > 0.0
    ensures EffectivePrice(m, price) > 0.0
  {
    hide EffectivePrice;
    OutlayScales(m, price, 1);
  }

  lemma FloorQuotient(cash: real, effective: real)
    requires effective > 0.0
    ensures var n := (cash / effective).Floor; n as real * effective <= cash < (n + 1) as real * effective
  {
    var q := cash / effective;
    assert q * effective == cash;
    Between(q, q.Floor, effective, cash);
  }

  lemma Between(q: real, n: int, effective: real, cash: real)
    requires effective > 0.0 && q * effective == cash && n as real <= q < n as real + 1.0
    ensures n as real * effective <= cash < (n + 1) as real * effective
  {
    var d, below := q - n as real, n as real * effective;
    assert 0.0 <= d < 1.0;
    ScaleOrder(0.0, d, effective);
    ScaleOrder(d, 1.0, effective);
    assert 0.0 <= d * effective < effective;
    assert d * effective == q * effective - below;
    assert below <= cash < below + effective;
    assert (n + 1) as real == n as real + 1.0;
    assert (n + 1) as real * effective == below + effective;
  }

  lemma ScaleOrder(a: real, b: real, c: real)
    requires c > 0.0
    ensures a <= b ==> a * c <= b * c
    ensures a < b ==> a * c < b * c
  {
  }

  /** Every purchase takes the largest affordable number of shares, and none is made only
      when not even one is affordable; the source's guard against rounding never acts. */
  lemma LargestAffordable(m: CostModel, cash: real, price: real)
    requires ValidCosts(m) && price > 0.0 && cash >= 0.0
    ensures var q := BuyQuantity(m, cash, price);
            q >= 0 && Outlay(m, price, q) <= cash < Outlay(m, price, q + 1)
    ensures BuyQuantity(m, cash, price) == (cash / EffectivePrice(m, price)).Floor
  {
    hide EffectivePrice, Outlay, BuyQuantity;
    EffectivePositive(m, price);
    FillsCash(m, cash, price);
  }

  lemma FillsCash(m: CostModel, cash: real, price: real)
    requires EffectivePrice(m, price) > 0.0 && cash >= 0.0
    ensures var q := BuyQuantity(m, cash, price);
            q >= 0 && Outlay(m, price, q) <= cash < Outlay(m, price, q + 1)
    ensures BuyQuantity(m, cash, price) == (cash / EffectivePrice(m, price)).Floor
  {
    hide EffectivePrice, Outlay;
    var effective := EffectivePrice(m, price);
    FloorQuotient(cash, effective);
    var n := (cash / effective).Floor;
    FloorNonNegative(cash, effective);
    OutlayScales(m, price, n);
    OutlayScales(m, price, n + 1);
  }

  lemma FloorNonNegative(cash: real, effective: real)
    requires effective > 0.0 && cash >= 0.0
    ensures (cash / effective).Floor >= 0
  {
    assert cash / effective >= 0.0;
  }

  lemma Proceeds(m: CostModel, price: real, qty: int)
    ensures price * qty as real - Cost(m, Sell, price, qty).total == price * qty as real * (1.0 - SellRate(m))
  {
  }

  /** Cash is never negative, and positive when no position is open; the portfolio is
      worth something. */
  ghost predicate Solvent(s: Sim) {
    && s.st.cash >= 0.0 && s.st.qty >= 0
    && (s.st.qty == 0 ==> s.st.cash > 0.0)
    && s.st.prevValue > 0.0
  }

  ghost predicate ValidMarket(m: CostModel, capital: int, prices: seq<real>) {
    ValidCosts(m) && SellRate(m) < 1.0 && capital > 0 && forall i :: 0 <= i < |prices| ==> prices[i] > 0.0
  }

  lemma OpenKeepsSolvent(m: CostModel, st: State, date: int, price: real)
    requires ValidCosts(m) && price > 0.0 && st.cash > 0.0 && st.qty == 0
    ensures var st1 := Open(m, st, date, price).0; st1.cash >= 0.0 && st1.qty >= 0 && (st1.qty == 0 ==> st1.cash > 0.0)
  {
    hide Cost, EffectivePrice, Outlay, BuyQuantity;
    LargestAffordable(m, st.cash, price);
  }

  lemma CloseKeepsSolvent(m: CostModel, st: State, date: int, price: real)
    requires SellRate(m) < 1.0 && price > 0.0 && st.cash >= 0.0 && st.qty > 0
    ensures Close(m, st, date, price).0.cash > 0.0
  {
    hide Cost;
    Proceeds(m, price, st.qty);
    Product(price, st.qty as real);
    Product(price * st.qty as real, 1.0 - SellRate(m));
    assert price * st.qty as real - Cost(m, Sell, price, st.qty).total > 0.0;
  }

  lemma Product(a: real, b: real)
    requires a > 0.0 && b > 0.0
    ensures a * b > 0.0
  {
  }

  lemma BarKeepsSolvent(m: CostModel, s: Sim, signal: Signal, date: int, price: real)
    requires ValidCosts(m) && SellRate(m) < 1.0 && price > 0.0 && Solvent(s)
    ensures Solvent(Bar(m, s, signal, date, price))
  {
    hide Open, Close;
    var (st1, trade) := Act(m, s.st, signal, date, price);
    if s.st.qty == 0 {
      OpenKeepsSolvent(m, s.st, date, price);
      OpenKeepsRest(m, s.st, date, price);
    } else {
      CloseKeepsSolvent(m, s.st, date, price);
      CloseKeepsRest(m, s.st, date, price);
    }
    if st1.qty > 0 { Product(st1.qty as real, price); }
  }

  lemma OpenKeepsRest(m: CostModel, st: State, date: int, price: real)
    ensures Open(m, st, date, price).0.prevValue == st.prevValue
  {
  }

  lemma CloseKeepsRest(m: CostModel, st: State, date: int, price: real)
    ensures Close(m, st, date, price).0.prevValue == st.prevValue && Close(m, st, date, price).0.qty == 0
  {
  }

  /** In every run cash is never negative and the portfolio value is positive. */
  lemma {:induction false} AlwaysSolvent(m: CostModel, capital: int, prices: seq<real>,
                                         dates: seq<int>, f: SignalFn, k: nat)
    requires k <= |prices| == |dates| && ValidMarket(m, capital, prices)
    ensures Solvent(Simulate(m, capital, prices, dates, f, k))
  {
    hide Bar;
    if k > 0 {
      AlwaysSolvent(m, capital, prices, dates, f, k - 1);
      var s := Simulate(m, capital, prices, dates, f, k - 1);
      BarKeepsSolvent(m, s, f(dates[k - 1], prices, k, s.st.qty), dates[k - 1], prices[k - 1]);
    }
  }

  // ----- exactly when cash stays non-negative ------------------------------

  lemma {:induction false} CashNonNegative(m: CostModel, capital: int, prices: seq<real>,
                                           dates: seq<int>, f: SignalFn, k: nat)
    requires ValidCosts(m) && SellRate(m) <= 1.0 && capital > 0
    requires k <= |prices| == |dates| && forall i :: 0 <= i < |prices| ==> prices[i] > 0.0
    ensures var st := Simulate(m, capital, prices, dates, f, k).st; st.cash >= 0.0 && st.qty >= 0
  {
    hide Act, Simulate;
    StartState(m, capital, prices, dates, f);
    if k > 0 {
      CashNonNegative(m, capital, prices, dates, f, k - 1);
      var st := Simulate(m, capital, prices, dates, f, k - 1).st;
      ActKeepsCash(m, st, f(dates[k - 1], prices, k, st.qty), dates[k - 1], prices[k - 1]);
      LastBar(m, capital, prices, dates, f, k);
    }
  }

  lemma ActKeepsCash(m: CostModel, st: State, signal: Signal, date: int, price: real)
    requires ValidCosts(m) && SellRate(m) <= 1.0 && price > 0.0 && st.cash >= 0.0 && st.qty >= 0
    ensures var st1 := Act(m, st, signal, date, price).0; st1.cash >= 0.0 && st1.qty >= 0
  {
    hide Cost, Outlay, BuyQuantity;
    LargestAffordable(m, st.cash, price);
    ProceedsNonNegative(m, price, st.qty);
  }

  lemma LastBar(m: CostModel, capital: int, prices: seq<real>, dates: seq<int>, f: SignalFn, k: nat)
    requires 0 < k <= |prices| == |dates|
    ensures var st := Simulate(m, capital, prices, dates, f, k - 1).st;
            var st1 := Act(m, st, f(dates[k - 1], prices, k, st.qty), dates[k - 1], prices[k - 1]).0;
            var now := Simulate(m, capital, prices, dates, f, k).st;
            now.cash == st1.cash && now.qty == st1.qty
  {
    hide Act;
  }

  lemma ProceedsNonNegative(m: CostModel, price: real, qty: int)
    requires SellRate(m) <= 1.0 && price > 0.0 && qty >= 0
    ensures price * qty as real - Cost(m, Sell, price, qty).total >= 0.0
  {
    hide Cost;
    Proceeds(m, price, qty);
    var notional := price * qty as real;
    assert notional >= 0.0;
    assert notional * (1.0 - SellRate(m)) >= 0.0;
  }

  /** Buy on the first bar, sell on the second. */
  function BuyThenSell(date: int, prices: seq<real>, n: nat, position: int): Signal {
    if n == 1 then SignalBuy else SignalSell
  }

  /** With a total selling rate above 1 a round trip of the whole capital ends overdrawn. */
  lemma Overdraft(m: CostModel)
    requires ValidCosts(m) && SellRate(m) > 1.0
    ensures var p := 1.0 / (1.0 + BuyRate(m));
            p > 0.0 && Simulate(m, 1, [p, p], [0, 1], BuyThenSell, 2).st.cash < 0.0
  {
    hide Cost, Outlay, BuyQuantity, Simulate, EffectivePrice;
    var p := 1.0 / (1.0 + BuyRate(m));
    Product(p, 1.0 + BuyRate(m));
    OutlayScales(m, p, 1);
    OutlayScales(m, p, 2);
    assert EffectivePrice(m, p) == 1.0;
    LargestAffordable(m, 1.0, p);
    assert BuyQuantity(m, 1.0, p) == 1;
    StartState(m, 1, [p, p], [0, 1], BuyThenSell);
    LastBar(m, 1, [p, p], [0, 1], BuyThenSell, 1);
    LastBar(m, 1, [p, p], [0, 1], BuyThenSell, 2);
    Proceeds(m, p, 1);
    Product(p, SellRate(m) - 1.0);
  }

  lemma StartState(m: CostModel, capital: int, prices: seq<real>, dates: seq<int>, f: SignalFn)
    requires |prices| == |dates|
    ensures Simulate(m, capital, prices, dates, f, 0).st == State(capital as real, 0, 0.0, capital as real)
  {
  }

  /** Cash stays non-negative in all runs, on all positive prices and for all signals,
      exactly when the total selling rate is at most 1. */
  lemma CashNonNegativeExactly(m: CostModel)
    requires ValidCosts(m)
    ensures SellRate(m) <= 1.0 <==>
            forall capital: int, prices: seq<real>, dates: seq<int>, f: SignalFn, k: nat ::
              capital > 0 && k <= |prices| == |dates| && (forall i :: 0 <= i < |prices| ==> prices[i] > 0.0) ==>
              Simulate(m, capital, prices, dates, f, k).st.cash >= 0.0
  {
    hide Simulate;
    if SellRate(m) <= 1.0 {
      forall capital: int, prices: seq<real>, dates: seq<int>, f: SignalFn, k: nat |
          capital > 0 && k <= |prices| == |dates| && (forall i :: 0 <= i < |prices| ==> prices[i] > 0.0)
        ensures Simulate(m, capital, prices, dates, f, k).st.cash >= 0.0
      {
        CashNonNegative(m, capital, prices, dates, f, k);
      }
    } else {
      Overdraft(m);
      var p := 1.0 / (1.0 + BuyRate(m));
      assert Simulate(m, 1, [p, p], [0, 1], BuyThenSell, 2).st.cash < 0.0;
    }
  }

  // ----- returns compound -------------------------------------------------

  function Growth(snapshots: seq<Snapshot>): real {
    if snapshots == [] then 1.0
    else Growth(snapshots[..|snapshots| - 1]) * (1.0 + snapshots[|snapshots| - 1].dailyReturnPct / 100.0)
  }

  lemma ReturnFactor(prev: real, value: real)
    requires prev > 0.0
    ensures prev * (1.0 + ((value - prev) / prev * 100.0) / 100.0) == value
  {
    var d := (value - prev) / prev;
    assert d * prev == value - prev;
    assert d * 100.0 / 100.0 == d;
  }

  lemma OneMoreReturn(snapshots: seq<Snapshot>, snapshot: Snapshot, capital: real, prev: real, value: real)
    requires prev > 0.0 && prev == capital * Growth(snapshots)
    requires snapshot.dailyReturnPct == ReturnPct(prev, value)
    ensures value == capital * Growth(snapshots + [snapshot])
  {
    ReturnFactor(prev, value);
    assert (snapshots + [snapshot])[..|snapshots|] == snapshots;
    var g, factor := Growth(snapshots), 1.0 + snapshot.dailyReturnPct / 100.0;
    assert capital * g * factor == capital * (g * factor);
  }

  /** The daily returns compound to the final value over the capital. */
  lemma {:induction false} ReturnsCompound(m: CostModel, capital: int, prices: seq<real>,
                                           dates: seq<int>, f: SignalFn, k: nat)
    requires k <= |prices| == |dates| && ValidMarket(m, capital, prices)
    ensures var s := Simulate(m, capital, prices, dates, f, k);
            && s.st.prevValue == capital as real * Growth(s.snapshots) && |s.snapshots| == k
            && (k > 0 ==> s.snapshots[k - 1].portfolioValue == s.st.prevValue)
  {
    hide Act, Worth, ValidMarket, ReturnPct;
    if k > 0 {
      ReturnsCompound(m, capital, prices, dates, f, k - 1);
      AlwaysSolvent(m, capital, prices, dates, f, k - 1);
      var s0 := Simulate(m, capital, prices, dates, f, k - 1);
      var s := Simulate(m, capital, prices, dates, f, k);
      ActKeepsPrev(m, s0.st, f(dates[k - 1], prices, k, s0.st.qty), dates[k - 1], prices[k - 1]);
      hide Growth;
      OneMoreReturn(s0.snapshots, s.snapshots[k - 1], capital as real, s0.st.prevValue, s.st.prevValue);
    }
  }

  lemma ActKeepsPrev(m: CostModel, st: State, signal: Signal, date: int, price: real)
    ensures Act(m, st, signal, date, price).0.prevValue == st.prevValue
  {
  }

  // ----- alternation ------------------------------------------------------

  /** BUY, SELL, BUY, SELL, ...: each SELL of the quantity just bought and not before it. */
  ghost predicate Alternates(trades: seq<Trade>) {
    && (forall i :: 0 <= i < |trades| ==> trades[i].side == (if i % 2 == 0 then Buy else Sell))
    && (forall i :: 0 <= i < |trades| ==> trades[i].quantity > 0)
    && (forall i :: 0 < i < |trades| && trades[i].side == Sell ==> trades[i].quantity == trades[i - 1].quantity)
  }

  ghost predicate OpenMatches(s: Sim) {
    && Alternates(s.trades) && s.st.qty >= 0
    && (s.st.qty > 0 <==> |s.trades| % 2 == 1)
    && (s.st.qty > 0 ==> s.trades[|s.trades| - 1].quantity == s.st.qty)
  }

  lemma BarKeepsAlternation(m: CostModel, s: Sim, signal: Signal, date: int, price: real)
    requires OpenMatches(s)
    ensures OpenMatches(Bar(m, s, signal, date, price))
  {
    hide Cost, BuyQuantity, Outlay, TakeSnapshot, Alternates;
    var (st1, trade) := Act(m, s.st, signal, date, price);
    SnapshotKeepsQty(st1, date, price);
    if trade.Some? {
      OneMoreTrade(s.trades, trade.value);
    }
  }

  lemma SnapshotKeepsQty(st: State, date: int, price: real)
    ensures TakeSnapshot(st, date, price).0.qty == st.qty
  {
  }

  lemma OneMoreTrade(trades: seq<Trade>, t: Trade)
    requires Alternates(trades) && t.quantity > 0
    requires t.side == (if |trades| % 2 == 0 then Buy else Sell)
    requires t.side == Sell ==> t.quantity == trades[|trades| - 1].quantity
    ensures Alternates(trades + [t])
  {
  }

  /** Trades alternate with matching quantities, at most one a bar, for any prices, rates
      and signals. */
  lemma {:induction false} TradesAlternate(m: CostModel, capital: int, prices: seq<real>,
                                           dates: seq<int>, f: SignalFn, k: nat)
    requires k <= |prices| == |dates|
    ensures var s := Simulate(m, capital, prices, dates, f, k);
            OpenMatches(s) && |s.trades| <= k
  {
    hide Act, OpenMatches;
    if k > 0 {
      TradesAlternate(m, capital, prices, dates, f, k - 1);
      var s := Simulate(m, capital, prices, dates, f, k - 1);
      BarKeepsAlternation(m, s, f(dates[k - 1], prices, k, s.st.qty), dates[k - 1], prices[k - 1]);
    } else {
      NothingTraded(capital);
    }
  }

  lemma NothingTraded(capital: int)
    ensures OpenMatches(Begin(capital))
  {
  }

  // ----- no look-ahead ----------------------------------------------------

  /** The signal depends only on the first `n` of the prices it is handed. */
  ghost predicate Causal(f: SignalFn) {
    forall date, prices, prices', n: nat, position ::
      n <= |prices| && n <= |prices'| && prices[..n] == prices'[..n] ==>
      f(date, prices, n, position) == f(date, prices', n, position)
  }

  /** A run on the first k bars is the beginning of any longer run: same state after bar k,
      same snapshots, and its trades are a prefix of the longer run's. */
  lemma {:induction false} NoLookAhead(m: CostModel, capital: int, prices: seq<real>,
                                       dates: seq<int>, f: SignalFn, k: nat, n: nat)
    requires k <= n <= |prices| == |dates| && Causal(f)
    ensures var short := Simulate(m, capital, prices[..k], dates[..k], f, k);
            var long := Simulate(m, capital, prices, dates, f, n);
            && short == Simulate(m, capital, prices, dates, f, k)
            && |short.snapshots| == k && |long.snapshots| == n
            && short.snapshots == long.snapshots[..k] && short.trades <= long.trades
  {
    SamePrefix(m, capital, prices, prices[..k], dates, dates[..k], f, k, k);
    Extends(m, capital, prices, dates, f, k, n);
  }

  lemma {:induction false} SamePrefix(m: CostModel, capital: int, prices: seq<real>, prices': seq<real>,
                                      dates: seq<int>, dates': seq<int>, f: SignalFn, k: nat, n: nat)
    requires k <= n <= |prices| == |dates| && n <= |prices'| == |dates'| && Causal(f)
    requires prices[..n] == prices'[..n] && dates[..n] == dates'[..n]
    ensures Simulate(m, capital, prices, dates, f, k) == Simulate(m, capital, prices', dates', f, k)
  {
    hide Bar, Causal;
    if k > 0 {
      SamePrefix(m, capital, prices, prices', dates, dates', f, k - 1, n);
      SameSignal(f, prices, prices', k, n);
      assert dates[k - 1] == dates[..n][k - 1] && dates'[k - 1] == dates'[..n][k - 1];
    }
  }

  lemma SameSignal(f: SignalFn, prices: seq<real>, prices': seq<real>, k: nat, n: nat)
    requires 0 < k <= n <= |prices| && n <= |prices'| && Causal(f) && prices[..n] == prices'[..n]
    ensures prices[k - 1] == prices'[k - 1]
    ensures forall date, position :: f(date, prices, k, position) == f(date, prices', k, position)
  {
    assert prices[..k] == prices[..n][..k] && prices'[..k] == prices'[..n][..k];
    assert prices[k - 1] == prices[..n][k - 1] && prices'[k - 1] == prices'[..n][k - 1];
  }

  lemma {:induction false} Extends(m: CostModel, capital: int, prices: seq<real>,
                                   dates: seq<int>, f: SignalFn, k: nat, n: nat)
    requires k <= n <= |prices| == |dates|
    ensures var a, b := Simulate(m, capital, prices, dates, f, k), Simulate(m, capital, prices, dates, f, n);
            |a.snapshots| == k && |b.snapshots| == n && a.snapshots == b.snapshots[..k] && a.trades <= b.trades
  {
    hide Act;
    if n == 0 {
    } else if k < n {
      Extends(m, capital, prices, dates, f, k, n - 1);
      var b0, b := Simulate(m, capital, prices, dates, f, n - 1), Simulate(m, capital, prices, dates, f, n);
      assert b.snapshots[..k] == b0.snapshots[..k];
    } else {
      Extends(m, capital, prices, dates, f, k - 1, n - 1);
    }
  }

  // ----- which bars trade, and what they record ---------------------------

  /** What one share takes from the cash, costs included. */
  function UnitCost(m: CostModel, price: real): real {
    price * (1.0 + m.commissionRate + m.slippageRate)
  }

  predicate Buys(m: CostModel, signal: Signal, st: State, price: real) {
    signal == SignalBuy && st.qty == 0 && 0.0 < UnitCost(m, price) <= st.cash
  }

  predicate Sells(signal: Signal, st: State) {
    (signal == SignalSell || signal == SignalClose) && st.qty > 0
  }

  /** Each part of the cost is the notional times its own rate; selling alone is taxed. */
  predicate CostIs(c: TradeCost, m: CostModel, side: Side, notional: real) {
    c.commission == notional * m.commissionRate && c.slippage == notional * m.slippageRate &&
    c.tax == (if side == Sell then notional * m.taxRate else 0.0) && c.total == c.commission + c.tax + c.slippage
  }

  /** The cash pays for this many shares and not for one more. */
  predicate Fits(m: CostModel, cash: real, price: real, quantity: int) {
    quantity as real * UnitCost(m, price) <= cash < (quantity + 1) as real * UnitCost(m, price)
  }

  /** A purchase: all the shares that the cash pays for, at this bar. */
  predicate IsPurchase(t: Trade, m: CostModel, before: State, after: State, date: int, price: real) {
    && t.side == Buy && t.date == date && t.price == price && t.pnl == 0.0
    && t.quantity >= 1 && Fits(m, before.cash, price, t.quantity)
    && CostIs(t.cost, m, Buy, price * t.quantity as real)
    && after.qty == t.quantity && after.avgPrice == price
    && after.cash == before.cash - price * t.quantity as real - t.cost.total
  }

  /** A sale: the whole position, at this bar. */
  predicate IsSale(t: Trade, m: CostModel, before: State, after: State, date: int, price: real) {
    && t.side == Sell && t.date == date && t.price == price && t.quantity == before.qty
    && CostIs(t.cost, m, Sell, price * before.qty as real)
    && t.pnl == (price - before.avgPrice) * before.qty as real - t.cost.total
    && after.qty == 0 && after.avgPrice == 0.0
    && after.cash == before.cash + price * before.qty as real - t.cost.total
  }

  lemma UnitCostIs(m: CostModel, price: real)
    ensures EffectivePrice(m, price) == UnitCost(m, price)
  {
    hide EffectivePrice;
    OutlayScales(m, price, 1);
  }

  /** A purchase is made exactly when one share has a positive cost and is affordable. */
  lemma AffordsExactly(m: CostModel, cash: real, price: real)
    ensures var q := BuyQuantity(m, cash, price);
            && (q > 0 <==> 0.0 < UnitCost(m, price) <= cash)
            && (q > 0 ==> Fits(m, cash, price, q))
  {
    hide Outlay, EffectivePrice, UnitCost, BuyQuantity;
    UnitCostIs(m, price);
    if EffectivePrice(m, price) <= 0.0 || cash < 0.0 {
      NothingBought(m, cash, price);
    } else {
      FillsCash(m, cash, price);
      var q := BuyQuantity(m, cash, price);
      OutlayScales(m, price, q);
      OutlayScales(m, price, q + 1);
      Multiples(q, UnitCost(m, price), cash);
    }
  }

  lemma Multiples(q: int, unit: real, cash: real)
    requires q >= 0 && unit > 0.0 && q as real * unit <= cash < (q + 1) as real * unit
    ensures q > 0 <==> unit <= cash
  {
    if q > 0 { ScaleAtLeast(1.0, q as real, unit); }
  }

  lemma ScaleAtLeast(a: real, b: real, c: real)
    requires c > 0.0 && a <= b
    ensures a * c <= b * c
  {
  }

  lemma NothingBought(m: CostModel, cash: real, price: real)
    requires EffectivePrice(m, price) <= 0.0 || cash < 0.0
    ensures BuyQuantity(m, cash, price) <= 0
  {
    hide EffectivePrice, Outlay;
    if EffectivePrice(m, price) > 0.0 {
      var q := cash / EffectivePrice(m, price);
      assert q * EffectivePrice(m, price) == cash;
      assert q < 0.0;
    }
  }

  lemma CostExactly(m: CostModel, side: Side, price: real, quantity: int)
    ensures CostIs(Cost(m, side, price, quantity), m, side, price * quantity as real)
  {
  }

  lemma OpenExactly(m: CostModel, st: State, date: int, price: real)
    ensures var (after, trade) := Open(m, st, date, price);
            && (trade.Some? <==> 0.0 < UnitCost(m, price) <= st.cash)
            && (trade.None? ==> after == st)
            && (trade.Some? ==> IsPurchase(trade.value, m, st, after, date, price))
            && after.prevValue == st.prevValue
  {
    hide BuyQuantity, UnitCost, Cost, Outlay, CostIs, IsPurchase, Fits;
    AffordsExactly(m, st.cash, price);
    var (after, trade) := Open(m, st, date, price);
    if trade.Some? { PurchaseIs(trade.value, m, st, after, date, price); }
  }

  lemma PurchaseIs(t: Trade, m: CostModel, before: State, after: State, date: int, price: real)
    requires t.side == Buy && t.date == date && t.price == price && t.pnl == 0.0 && t.quantity >= 1
    requires t.cost == Cost(m, Buy, price, t.quantity) && Fits(m, before.cash, price, t.quantity)
    requires after.qty == t.quantity && after.avgPrice == price
    requires after.cash == before.cash - Outlay(m, price, t.quantity)
    ensures IsPurchase(t, m, before, after, date, price)
  {
    hide Fits;
    CostExactly(m, Buy, price, t.quantity);
  }

  lemma CloseExactly(m: CostModel, st: State, date: int, price: real)
    ensures var (after, trade) := Close(m, st, date, price);
            IsSale(trade, m, st, after, date, price) && after.prevValue == st.prevValue
  {
    CostExactly(m, Sell, price, st.qty);
  }

  /** One bar of the engine. */
  lemma ActExactly(m: CostModel, st: State, signal: Signal, date: int, price: real)
    ensures var (after, trade) := Act(m, st, signal, date, price);
            && (trade.Some? <==> Buys(m, signal, st, price) || Sells(signal, st))
            && (trade.None? ==> after == st)
            && (Buys(m, signal, st, price) ==> IsPurchase(trade.value, m, st, after, date, price))
            && (Sells(signal, st) ==> IsSale(trade.value, m, st, after, date, price))
            && after.prevValue == st.prevValue
  {
    hide Open, Close, UnitCost, IsPurchase, IsSale;
    OpenExactly(m, st, date, price);
    CloseExactly(m, st, date, price);
  }

  /** What a bar adds to a run. */
  lemma BarParts(m: CostModel, capital: int, prices: seq<real>, dates: seq<int>, f: SignalFn, k: nat)
    requires 0 < k <= |prices| == |dates|
    ensures var before, now := Simulate(m, capital, prices, dates, f, k - 1), Simulate(m, capital, prices, dates, f, k);
            var date, price := dates[k - 1], prices[k - 1];
            var (st, trade) := Act(m, before.st, f(date, prices, k, before.st.qty), date, price);
            && now.st == st.(prevValue := st.cash + st.qty as real * price)
            && now.trades == (if trade.Some? then before.trades + [trade.value] else before.trades)
            && now.snapshots == before.snapshots +
                 [Snapshot(date, price, st.cash, st.qty, st.qty as real * price, st.cash + st.qty as real * price,
                           ReturnPct(st.prevValue, st.cash + st.qty as real * price))]
  {
    hide Act, ReturnPct;
  }

  /** In every run, bar k records a trade exactly when the signal is BUY with no position open and
      one share affordable, or SELL or CLOSE with a position open; the trade is the purchase or
      the sale of that bar, and otherwise nothing changes. */
  lemma BarTradesExactly(m: CostModel, capital: int, prices: seq<real>, dates: seq<int>, f: SignalFn, k: nat)
    requires 0 < k <= |prices| == |dates|
    ensures var before, now := Simulate(m, capital, prices, dates, f, k - 1), Simulate(m, capital, prices, dates, f, k);
            var date, price := dates[k - 1], prices[k - 1];
            var signal := f(date, prices, k, before.st.qty);
            var n := |before.trades|;
            if Buys(m, signal, before.st, price) || Sells(signal, before.st) then
              && |now.trades| == n + 1 && now.trades[..n] == before.trades
              && (Buys(m, signal, before.st, price) ==> IsPurchase(now.trades[n], m, before.st, now.st, date, price))
              && (Sells(signal, before.st) ==> IsSale(now.trades[n], m, before.st, now.st, date, price))
            else
              && now.trades == before.trades && now.st.cash == before.st.cash
              && now.st.qty == before.st.qty && now.st.avgPrice == before.st.avgPrice
  {
    hide Simulate, Act, Buys, Sells, ReturnPct, UnitCost, Fits;
    var before := Simulate(m, capital, prices, dates, f, k - 1);
    BarParts(m, capital, prices, dates, f, k);
    var signal := f(dates[k - 1], prices, k, before.st.qty);
    ActExactly(m, before.st, signal, dates[k - 1], prices[k - 1]);
    if !Buys(m, signal, before.st, prices[k - 1]) && !Sells(signal, before.st) {
      assert Act(m, before.st, signal, dates[k - 1], prices[k - 1]).0 == before.st;
    }
  }

  /** Snapshot k is taken of the state after bar k, with that bar's date and price, and its return
      leads from the value before to the value now. */
  lemma BarSnapshotExactly(m: CostModel, capital: int, prices: seq<real>, dates: seq<int>, f: SignalFn, k: nat)
    requires 0 < k <= |prices| == |dates|
    ensures var before, now := Simulate(m, capital, prices, dates, f, k - 1), Simulate(m, capital, prices, dates, f, k);
            var n := |before.snapshots|;
            && |now.snapshots| == n + 1 && now.snapshots[..n] == before.snapshots
            && var shot := now.snapshots[n];
               && shot.date == dates[k - 1] && shot.close == prices[k - 1]
               && shot.cash == now.st.cash && shot.qty == now.st.qty
               && shot.positionValue == shot.qty as real * shot.close
               && shot.portfolioValue == shot.cash + shot.positionValue == now.st.prevValue
               && (if before.st.prevValue > 0.0
                   then before.st.prevValue * (1.0 + shot.dailyReturnPct / 100.0) == shot.portfolioValue
                   else shot.dailyReturnPct == 0.0)
  {
    hide Simulate, Act, ReturnPct;
    var before, now := Simulate(m, capital, prices, dates, f, k - 1), Simulate(m, capital, prices, dates, f, k);
    BarParts(m, capital, prices, dates, f, k);
    ActKeepsPrevValue(m, before.st, f(dates[k - 1], prices, k, before.st.qty), dates[k - 1], prices[k - 1]);
    ReturnLeads(before.st.prevValue, now.st.prevValue);
  }

  lemma ReturnLeads(prev: real, value: real)
    ensures if prev > 0.0 then prev * (1.0 + ReturnPct(prev, value) / 100.0) == value else ReturnPct(prev, value) == 0.0
  {
    if prev > 0.0 { ReturnFactor(prev, value); }
  }

  lemma ActKeepsPrevValue(m: CostModel, st: State, signal: Signal, date: int, price: real)
    ensures Act(m, st, signal, date, price).0.prevValue == st.prevValue
  {
  }

  /** A run starts with the capital in cash, no position, and nothing recorded. */
  lemma RunStartsExactly(m: CostModel, capital: int, prices: seq<real>, dates: seq<int>, f: SignalFn)
    requires |prices| == |dates|
    ensures var s := Simulate(m, capital, prices, dates, f, 0);
            s.st == State(capital as real, 0, 0.0, capital as real) && s.trades == [] && s.snapshots == []
  {
  }
}
