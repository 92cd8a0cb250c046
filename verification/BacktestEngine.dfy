/** The mutable engine of core/src/backtest/engine.c: state fields updated in place and
    result buffers of one slot a bar, filled in a loop. Each method is proved to be the
    function of the same meaning in `Backtest`. */
module BacktestEngine {
  import opened Wrappers
  import opened Backtest

  datatype Config = Config(trainEnd: int, testStart: int, initialCapital: int)
  datatype RunResult = InvalidArg | OutOfMemory | Done(trades: seq<Trade>, snapshots: seq<Snapshot>)

  class Engine {
    var cash: real
    var positionQty: int
    var avgBuyPrice: real
    var prevPortfolioValue: real

    ghost function View(): State
      reads this
    {
      State(cash, positionQty, avgBuyPrice, prevPortfolioValue)
    }

    constructor (capital: int)
      ensures View() == Begin(capital).st
    {
      cash, positionQty, avgBuyPrice, prevPortfolioValue := capital as real, 0, 0.0, capital as real;
    }

    method OpenPosition(m: CostModel, date: int, price: real) returns (trade: Option<Trade>)
      modifies this
      ensures (View(), trade) == Open(m, old(View()), date, price)
    {
      hide Cost;
      ghost var st := View();
      var unit := Cost(m, Buy, price, 1);
      var effective := price + unit.total;
      assert effective == EffectivePrice(m, price);
      if effective <= 0.0 {
        return None;
      }
      var quantity := (cash / effective).Floor;
      if quantity <= 0 {
        return None;
      }
      var c := Cost(m, Buy, price, quantity);
      var totalOutlay := price * quantity as real + c.total;
      assert totalOutlay == Outlay(m, price, quantity);
      if totalOutlay > cash {
        quantity := quantity - 1;
        if quantity <= 0 {
          return None;
        }
        c := Cost(m, Buy, price, quantity);
      }
      assert quantity == BuyQuantity(m, st.cash, price);
      totalOutlay := price * quantity as real + c.total;
      assert totalOutlay == Outlay(m, price, quantity);
      hide Outlay, BuyQuantity;
      cash := cash - totalOutlay;
      avgBuyPrice := price;
      positionQty := quantity;
      return Some(Trade(date, Buy, price, quantity, c, 0.0));
    }

    method ClosePosition(m: CostModel, date: int, price: real) returns (trade: Trade)
      modifies this
      ensures (View(), trade) == Close(m, old(View()), date, price)
    {
      hide Cost;
      var qty := positionQty;
      var c := Cost(m, Sell, price, qty);
      var pnl := (price - avgBuyPrice) * qty as real - c.total;
      cash := cash + (price * qty as real - c.total);
      positionQty := 0;
      avgBuyPrice := 0.0;
      return Trade(date, Sell, price, qty, c, pnl);
    }

    method Snap(date: int, close: real) returns (snapshot: Snapshot)
      modifies this
      ensures (View(), snapshot) == TakeSnapshot(old(View()), date, close)
    {
      ghost var st := View();
      var positionValue := positionQty as real * close;
      var portfolioValue := cash + positionValue;
      assert positionValue == st.qty as real * close && portfolioValue == Worth(st, close);
      var ret := if prevPortfolioValue > 0.0
                 then (portfolioValue - prevPortfolioValue) / prevPortfolioValue * 100.0 else 0.0;
      assert ret == ReturnPct(st.prevValue, portfolioValue);
      hide ReturnPct, Worth;
      prevPortfolioValue := portfolioValue;
      return Snapshot(date, close, cash, positionQty, positionValue, portfolioValue, ret);
    }
  }

  /** One bar: the trade taken, if any, and the snapshot. */
  method OneBar(engine: Engine, m: CostModel, signal: Signal, date: int, price: real)
      returns (trade: Option<Trade>, snapshot: Snapshot)
    modifies engine
    ensures var (st1, t) := Act(m, old(engine.View()), signal, date, price);
            trade == t && (engine.View(), snapshot) == TakeSnapshot(st1, date, price)
  {
    hide Open, Close, TakeSnapshot;
    trade := None;
    if signal == SignalBuy && engine.positionQty == 0 {
      trade := engine.OpenPosition(m, date, price);
    } else if (signal == SignalSell || signal == SignalClose) && engine.positionQty > 0 {
      var t := engine.ClosePosition(m, date, price);
      trade := Some(t);
    }
    snapshot := engine.Snap(date, price);
  }

  /** `alpha_backtest_run` up to the metrics. The trade buffer has one slot a bar, which is
      always enough. */
  method BacktestRun(config: Config, prices: seq<real>, dates: seq<int>, f: SignalFn, m: CostModel, memoryOk: bool)
      returns (result: RunResult)
    requires |prices| == |dates|
    ensures result.InvalidArg? <==> config.trainEnd >= config.testStart
    ensures result.OutOfMemory? <==> config.trainEnd < config.testStart && prices != [] && !memoryOk
    ensures result.Done? ==>
              var s := Simulate(m, config.initialCapital, prices, dates, f, |prices|);
              result == Done(s.trades, s.snapshots)
  {
    hide Act, TakeSnapshot;
    if config.trainEnd >= config.testStart {
      return InvalidArg;
    }
    var n := |prices|;
    if n > 0 && !memoryOk {
      return OutOfMemory;
    }
    var trades := new Trade[n];
    var snapshots := new Snapshot[n];
    var engine := new Engine(config.initialCapital);
    var tradeCount := 0;
    var i := 0;
    while i < n
      invariant 0 <= tradeCount <= i <= n
      invariant Sim(engine.View(), trades[..tradeCount], snapshots[..i]) ==
                Simulate(m, config.initialCapital, prices, dates, f, i)
    {
      ghost var before := Simulate(m, config.initialCapital, prices, dates, f, i);
      var signal := f(dates[i], prices, i + 1, engine.positionQty);
      var trade, snapshot := OneBar(engine, m, signal, dates[i], prices[i]);
      if trade.Some? {
        trades[tradeCount] := trade.value;
        tradeCount := tradeCount + 1;
        assert trades[..tradeCount] == before.trades + [trade.value];
      }
      snapshots[i] := snapshot;
      assert snapshots[..i + 1] == before.snapshots + [snapshot];
      i := i + 1;
    }
    result := Done(trades[..tradeCount], snapshots[..n]);
  }
}
