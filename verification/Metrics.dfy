/** Backtest metrics that are loops (core/src/backtest/metrics.c): one-pass maximum
    drawdown, and average holding time by first-in-first-out matching of trades. Values
    are before the final rounding to decimals. */
module Metrics {
  import opened Backtest

  // ----- maximum drawdown -------------------------------------------------

  /** Percent change from one value to a later one. */
  function Drop(from: real, to: real): real
    requires from != 0.0
  {
    (to - from) / from * 100.0
  }

  /** Shares of one amount: the larger divisor has the smaller quotient. */
  lemma QuotientOrder(a: real, low: real, b: real, high: real, v: real)
    requires 0.0 < low <= high && v > 0.0 && a * low == v && b * high == v
    ensures 0.0 < b <= a && (low < high ==> b < a)
  {
    assert !(b <= 0.0) by { ScaleOrder(b, 0.0, high); }
    var x := b * low;
    assert x <= v && (low < high ==> x < v) by { ScaleOrder(low, high, b); }
    assert !(a < b) by { ScaleOrder(a, b, low); }
  }

  lemma DropIsQuotient(from: real, to: real) returns (q: real)
    requires from > 0.0
    ensures q * from == to && Drop(from, to) == (q - 1.0) * 100.0
  {
    var d := (to - from) / from;
    assert d * from == to - from;
    q := d + 1.0;
    assert q * from == to;
  }

  /** Against a higher peak a value that is not negative has fallen further. */
  lemma DropOrder(low: real, high: real, v: real)
    requires 0.0 < low <= high && v >= 0.0
    ensures -100.0 <= Drop(high, v) <= Drop(low, v) && (v > 0.0 ==> Drop(high, v) > -100.0)
  {
    hide Drop;
    var a := DropIsQuotient(low, v);
    var b := DropIsQuotient(high, v);
    if v > 0.0 {
      QuotientOrder(a, low, b, high, v);
    } else {
      ZeroQuotient(a, low);
      ZeroQuotient(b, high);
    }
  }

  lemma ZeroQuotient(a: real, low: real)
    requires low > 0.0 && a * low == 0.0
    ensures a == 0.0
  {
  }

  /** A negative value has fallen further from the lower of two peaks. */
  lemma DropReversed(low: real, high: real, v: real)
    requires 0.0 < low < high && v < 0.0
    ensures Drop(low, v) < Drop(high, v)
  {
    hide Drop;
    var a := DropIsQuotient(low, v);
    var b := DropIsQuotient(high, v);
    assert (-a) * low == -v && (-b) * high == -v;
    QuotientOrder(-a, low, -b, high, -v);
  }

  /** The largest value up to bar j. */
  function Peak(snapshots: seq<Snapshot>, j: nat): (peak: real)
    requires j < |snapshots|
    ensures peak >= snapshots[j].portfolioValue && peak >= snapshots[0].portfolioValue
  {
    var value := snapshots[j].portfolioValue;
    if j == 0 then value
    else if value > Peak(snapshots, j - 1) then value else Peak(snapshots, j - 1)
  }

  lemma {:induction false} PeakIsLargest(snapshots: seq<Snapshot>, j: nat)
    requires j < |snapshots|
    ensures forall i :: 0 <= i <= j ==> snapshots[i].portfolioValue <= Peak(snapshots, j)
    ensures exists i :: 0 <= i <= j && snapshots[i].portfolioValue == Peak(snapshots, j)
  {
    if j > 0 { PeakIsLargest(snapshots, j - 1); }
  }

  /** The code never divides by zero. */
  ghost predicate NoZeroPeak(snapshots: seq<Snapshot>) {
    forall j :: 0 <= j < |snapshots| ==> Peak(snapshots, j) != 0.0
  }

  /** The fall at bar j from the highest value so far. */
  function FallAt(snapshots: seq<Snapshot>, j: nat): real
    requires j < |snapshots| && Peak(snapshots, j) != 0.0
  {
    Drop(Peak(snapshots, j), snapshots[j].portfolioValue)
  }

  predicate StartsPositive(snapshots: seq<Snapshot>) {
    snapshots != [] && snapshots[0].portfolioValue > 0.0
  }

  lemma PeaksPositive(snapshots: seq<Snapshot>)
    requires StartsPositive(snapshots)
    ensures NoZeroPeak(snapshots) && forall j :: 0 <= j < |snapshots| ==> Peak(snapshots, j) > 0.0
  {
  }

  ghost predicate NonNegative(snapshots: seq<Snapshot>) {
    forall i :: 0 <= i < |snapshots| ==> snapshots[i].portfolioValue >= 0.0
  }

  ghost predicate AllPositive(snapshots: seq<Snapshot>) {
    forall i :: 0 <= i < |snapshots| ==> snapshots[i].portfolioValue > 0.0
  }

  /** A fall is taken from a positive value to itself or a later one. */
  predicate IsFall(snapshots: seq<Snapshot>, i: int, j: int) {
    0 <= i <= j < |snapshots| && snapshots[i].portfolioValue > 0.0
  }

  function Fall(snapshots: seq<Snapshot>, i: int, j: int): real
    requires IsFall(snapshots, i, j)
  {
    Drop(snapshots[i].portfolioValue, snapshots[j].portfolioValue)
  }

  /** The worst of all falls. */
  ghost predicate IsWorstFall(snapshots: seq<Snapshot>, mdd: real) {
    (exists i, j :: IsFall(snapshots, i, j) && mdd == Fall(snapshots, i, j)) &&
    (forall i, j :: IsFall(snapshots, i, j) ==> mdd <= Fall(snapshots, i, j))
  }

  /** Some fall from the peak is at least as bad as every fall: what makes one pass enough. */
  ghost predicate PeaksSuffice(snapshots: seq<Snapshot>) {
    StartsPositive(snapshots) && NoZeroPeak(snapshots) &&
    forall i, j :: IsFall(snapshots, i, j) ==>
      exists k :: 0 <= k < |snapshots| && FallAt(snapshots, k) <= Fall(snapshots, i, j)
  }

  lemma PeakFallIsFall(snapshots: seq<Snapshot>, k: nat) returns (i: nat)
    requires StartsPositive(snapshots) && NoZeroPeak(snapshots) && k < |snapshots|
    ensures IsFall(snapshots, i, k) && Fall(snapshots, i, k) == FallAt(snapshots, k)
  {
    hide Drop, Peak;
    PeakIsLargest(snapshots, k);
    i :| 0 <= i <= k && snapshots[i].portfolioValue == Peak(snapshots, k);
  }

  /** At one bar: the fall from the peak is the worst fall to this bar exactly when the bar is
      not negative, or all positive values so far are the peak. */
  lemma WorstAtBarExactly(snapshots: seq<Snapshot>, j: nat)
    requires StartsPositive(snapshots) && NoZeroPeak(snapshots) && j < |snapshots|
    ensures (forall i :: IsFall(snapshots, i, j) ==> FallAt(snapshots, j) <= Fall(snapshots, i, j)) <==>
            snapshots[j].portfolioValue >= 0.0 ||
            forall i :: IsFall(snapshots, i, j) ==> snapshots[i].portfolioValue == Peak(snapshots, j)
  {
    hide Drop, Peak;
    PeakIsLargest(snapshots, j);
    var peak, v := Peak(snapshots, j), snapshots[j].portfolioValue;
    forall i | IsFall(snapshots, i, j)
      ensures v >= 0.0 ==> FallAt(snapshots, j) <= Fall(snapshots, i, j)
      ensures v < 0.0 ==> (FallAt(snapshots, j) <= Fall(snapshots, i, j) <==> snapshots[i].portfolioValue == peak)
    {
      var low := snapshots[i].portfolioValue;
      if v >= 0.0 {
        DropOrder(low, peak, v);
      } else if low < peak {
        DropReversed(low, peak, v);
      }
    }
  }

  /** So values that are not negative are enough, and no fall exceeds 100 %. */
  lemma NonNegativeSuffices(snapshots: seq<Snapshot>)
    requires StartsPositive(snapshots) && NonNegative(snapshots)
    ensures PeaksSuffice(snapshots)
    ensures forall j :: 0 <= j < |snapshots| ==> FallAt(snapshots, j) >= -100.0
    ensures AllPositive(snapshots) ==> forall j :: 0 <= j < |snapshots| ==> FallAt(snapshots, j) > -100.0
  {
    PeaksPositive(snapshots);
    hide Drop, Peak, FallAt;
    forall i, j | IsFall(snapshots, i, j)
      ensures FallAt(snapshots, j) <= Fall(snapshots, i, j)
    {
      WorstAtBarExactly(snapshots, j);
    }
    forall j | 0 <= j < |snapshots|
      ensures FallAt(snapshots, j) >= -100.0 && (AllPositive(snapshots) ==> FallAt(snapshots, j) > -100.0)
    {
      FallBound(snapshots, j);
    }
  }

  lemma FallBound(snapshots: seq<Snapshot>, j: nat)
    requires j < |snapshots| && Peak(snapshots, j) > 0.0 && snapshots[j].portfolioValue >= 0.0
    ensures FallAt(snapshots, j) >= -100.0 && (snapshots[j].portfolioValue > 0.0 ==> FallAt(snapshots, j) > -100.0)
  {
    hide Drop, Peak;
    DropOrder(Peak(snapshots, j), Peak(snapshots, j), snapshots[j].portfolioValue);
  }

  /** The worst fall from a peak is the worst of all falls exactly when peaks suffice. */
  lemma WorstFallExactly(snapshots: seq<Snapshot>, mdd: real, worst: nat)
    requires StartsPositive(snapshots) && NoZeroPeak(snapshots)
    requires worst < |snapshots| && mdd == FallAt(snapshots, worst)
    requires forall j :: 0 <= j < |snapshots| ==> mdd <= FallAt(snapshots, j)
    ensures IsWorstFall(snapshots, mdd) <==> PeaksSuffice(snapshots)
  {
    hide Drop, Peak, Fall, FallAt;
    var i := PeakFallIsFall(snapshots, worst);
    if IsWorstFall(snapshots, mdd) {
      forall i, j | IsFall(snapshots, i, j)
        ensures FallAt(snapshots, worst) <= Fall(snapshots, i, j)
      {
      }
    }
  }

  /** One pass with a running peak: the worst fall from the highest value so far. */
  method MaxDrawdown(snapshots: seq<Snapshot>) returns (mdd: real)
    requires |snapshots| > 0 && NoZeroPeak(snapshots)
    ensures mdd <= 0.0 && exists j :: 0 <= j < |snapshots| && mdd == FallAt(snapshots, j)
    ensures forall j :: 0 <= j < |snapshots| ==> mdd <= FallAt(snapshots, j)
    ensures StartsPositive(snapshots) ==> (IsWorstFall(snapshots, mdd) <==> PeaksSuffice(snapshots))
    ensures StartsPositive(snapshots) && NonNegative(snapshots) ==> IsWorstFall(snapshots, mdd) && mdd >= -100.0
    ensures AllPositive(snapshots) ==> mdd > -100.0
  {
    hide Drop, Peak;
    var peak := snapshots[0].portfolioValue;
    mdd := 0.0;
    ghost var worst := 0;
    FirstFall(snapshots);
    var k := 0;
    while k < |snapshots|
      invariant 0 <= k <= |snapshots|
      invariant peak == Peak(snapshots, if k == 0 then 0 else k - 1)
      invariant 0 <= worst < |snapshots| && mdd == FallAt(snapshots, worst) && mdd <= 0.0
      invariant forall j :: 0 <= j < k ==> mdd <= FallAt(snapshots, j)
    {
      var value := snapshots[k].portfolioValue;
      PeakStep(snapshots, k);
      if value > peak {
        peak := value;
      }
      var dd := ((value - peak) / peak) * 100.0;
      assert dd == FallAt(snapshots, k) by { DropUnfold(peak, value); }
      if dd < mdd {
        mdd := dd;
        worst := k;
      }
      k := k + 1;
    }
    if StartsPositive(snapshots) { DrawdownMeans(snapshots, mdd, worst); }
  }

  lemma DrawdownMeans(snapshots: seq<Snapshot>, mdd: real, worst: nat)
    requires StartsPositive(snapshots) && NoZeroPeak(snapshots)
    requires worst < |snapshots| && mdd == FallAt(snapshots, worst)
    requires forall j :: 0 <= j < |snapshots| ==> mdd <= FallAt(snapshots, j)
    ensures IsWorstFall(snapshots, mdd) <==> PeaksSuffice(snapshots)
    ensures NonNegative(snapshots) ==> IsWorstFall(snapshots, mdd) && mdd >= -100.0
    ensures AllPositive(snapshots) ==> mdd > -100.0
  {
    hide FallAt, IsWorstFall, PeaksSuffice;
    WorstFallExactly(snapshots, mdd, worst);
    if NonNegative(snapshots) { NonNegativeSuffices(snapshots); }
  }

  lemma FirstFall(snapshots: seq<Snapshot>)
    requires |snapshots| > 0 && Peak(snapshots, 0) != 0.0
    ensures Peak(snapshots, 0) == snapshots[0].portfolioValue && FallAt(snapshots, 0) == 0.0
  {
  }

  lemma PeakStep(snapshots: seq<Snapshot>, k: nat)
    requires k < |snapshots|
    ensures var before, value := Peak(snapshots, if k == 0 then 0 else k - 1), snapshots[k].portfolioValue;
            Peak(snapshots, k) == if value > before then value else before
  {
  }

  lemma DropUnfold(from: real, to: real)
    requires from != 0.0
    ensures Drop(from, to) == ((to - from) / from) * 100.0
  {
  }

  // ----- drawdown of the engine's runs ------------------------------------

  /** The last snapshot values the state after the last bar. */
  lemma LastSnapshot(m: CostModel, capital: int, prices: seq<real>, dates: seq<int>, f: SignalFn, k: nat)
    requires 0 < k <= |prices| == |dates|
    ensures var before, now := Simulate(m, capital, prices, dates, f, k - 1), Simulate(m, capital, prices, dates, f, k);
            && |now.snapshots| == |before.snapshots| + 1 && now.snapshots[..|before.snapshots|] == before.snapshots
            && now.snapshots[|before.snapshots|].portfolioValue == now.st.cash + now.st.qty as real * prices[k - 1]
  {
    hide Act;
  }

  lemma {:induction false} FirstValuePositive(m: CostModel, capital: int, prices: seq<real>,
                                              dates: seq<int>, f: SignalFn, k: nat)
    requires ValidCosts(m) && capital > 0 && 0 < k <= |prices| == |dates|
    requires forall i :: 0 <= i < |prices| ==> prices[i] > 0.0
    ensures StartsPositive(Simulate(m, capital, prices, dates, f, k).snapshots)
  {
    hide Simulate, Act;
    LastSnapshot(m, capital, prices, dates, f, k);
    if k == 1 {
      StartState(m, capital, prices, dates, f);
      LastBar(m, capital, prices, dates, f, 1);
      FirstAct(m, capital, f(dates[0], prices, 1, 0), dates[0], prices[0]);
      NoSnapshots(m, capital, prices, dates, f);
    } else {
      FirstValuePositive(m, capital, prices, dates, f, k - 1);
    }
  }

  lemma NoSnapshots(m: CostModel, capital: int, prices: seq<real>, dates: seq<int>, f: SignalFn)
    requires |prices| == |dates|
    ensures Simulate(m, capital, prices, dates, f, 0).snapshots == []
  {
  }

  lemma FirstAct(m: CostModel, capital: int, signal: Signal, date: int, price: real)
    requires ValidCosts(m) && capital > 0 && price > 0.0
    ensures var st := Act(m, State(capital as real, 0, 0.0, capital as real), signal, date, price).0;
            st.cash + st.qty as real * price > 0.0
  {
    hide Cost, Outlay, BuyQuantity;
    LargestAffordable(m, capital as real, price);
    var q := BuyQuantity(m, capital as real, price);
    if q > 0 { Product(q as real, price); }
  }

  lemma {:induction false} ValuesNonNegative(m: CostModel, capital: int, prices: seq<real>,
                                             dates: seq<int>, f: SignalFn, k: nat)
    requires ValidCosts(m) && SellRate(m) <= 1.0 && capital > 0
    requires k <= |prices| == |dates| && forall i :: 0 <= i < |prices| ==> prices[i] > 0.0
    ensures NonNegative(Simulate(m, capital, prices, dates, f, k).snapshots)
  {
    hide Simulate;
    if k == 0 {
      NoSnapshots(m, capital, prices, dates, f);
    } else {
      ValuesNonNegative(m, capital, prices, dates, f, k - 1);
      CashNonNegative(m, capital, prices, dates, f, k);
      LastSnapshot(m, capital, prices, dates, f, k);
      var st := Simulate(m, capital, prices, dates, f, k).st;
      assert st.qty as real * prices[k - 1] >= 0.0;
      var n := |Simulate(m, capital, prices, dates, f, k - 1).snapshots|;
      var now := Simulate(m, capital, prices, dates, f, k).snapshots;
      forall i | 0 <= i < |now|
        ensures now[i].portfolioValue >= 0.0
      {
        if i < n { assert now[i] == now[..n][i]; }
      }
    }
  }

  /** Buy on the first bar, hold on the second, sell on the third. */
  function BuyHoldSell(date: int, prices: seq<real>, n: nat, position: int): Signal {
    if n == 1 then SignalBuy else if n == 3 then SignalSell else SignalHold
  }

  /** The price at which one share takes all of a capital of 1. */
  function FullPrice(m: CostModel): real
    requires ValidCosts(m)
  {
    1.0 / (1.0 + BuyRate(m))
  }

  lemma FullPriceBuysOne(m: CostModel)
    requires ValidCosts(m)
    ensures FullPrice(m) > 0.0 && BuyQuantity(m, 1.0, FullPrice(m)) == 1 && Outlay(m, FullPrice(m), 1) == 1.0
  {
    hide Cost, Outlay, BuyQuantity, EffectivePrice;
    var p := FullPrice(m);
    Product(p, 1.0 + BuyRate(m));
    OutlayScales(m, p, 1);
    OutlayScales(m, p, 2);
    assert EffectivePrice(m, p) == 1.0;
    LargestAffordable(m, 1.0, p);
  }

  /** The values of a share bought with everything, doubled and sold. */
  lemma ThreeValues(m: CostModel, prices: seq<real>, dates: seq<int>)
    requires ValidCosts(m) && |dates| == 3 && prices == [FullPrice(m), 2.0 * FullPrice(m), 2.0 * FullPrice(m)]
    ensures var s := Simulate(m, 1, prices, dates, BuyHoldSell, 3).snapshots;
            |s| == 3 && s[0].portfolioValue == FullPrice(m) && s[1].portfolioValue == 2.0 * FullPrice(m) &&
            s[2].portfolioValue == 2.0 * FullPrice(m) * (1.0 - SellRate(m))
  {
    hide Cost, Outlay, BuyQuantity, Simulate, EffectivePrice, FullPrice;
    FullPriceBuysOne(m);
    StartState(m, 1, prices, dates, BuyHoldSell);
    NoSnapshots(m, 1, prices, dates, BuyHoldSell);
    LastBar(m, 1, prices, dates, BuyHoldSell, 1);
    LastSnapshot(m, 1, prices, dates, BuyHoldSell, 1);
    LastBar(m, 1, prices, dates, BuyHoldSell, 2);
    LastSnapshot(m, 1, prices, dates, BuyHoldSell, 2);
    LastBar(m, 1, prices, dates, BuyHoldSell, 3);
    LastSnapshot(m, 1, prices, dates, BuyHoldSell, 3);
    Proceeds(m, 2.0 * FullPrice(m), 1);
    var s1 := Simulate(m, 1, prices, dates, BuyHoldSell, 1).snapshots;
    var s2 := Simulate(m, 1, prices, dates, BuyHoldSell, 2).snapshots;
    var s3 := Simulate(m, 1, prices, dates, BuyHoldSell, 3).snapshots;
    assert s2[..1] == s1 && s3[..2] == s2;
    assert s2[0] == s1[0] && s3[0] == s2[0] && s3[1] == s2[1];
  }

  /** From p over 2p to 2p(1 - r), with r above 1, the fall from the first bar is worse than
      every fall from a peak. */
  lemma DoubledThenOverdrawn(s: seq<Snapshot>, p: real, r: real)
    requires |s| == 3 && p > 0.0 && r > 1.0
    requires s[0].portfolioValue == p && s[1].portfolioValue == 2.0 * p
    requires s[2].portfolioValue == 2.0 * p * (1.0 - r)
    ensures !PeaksSuffice(s)
  {
    assert Peak(s, 1) == 2.0 * p;
    Product(p, r - 1.0);
    assert Peak(s, 2) == 2.0 * p;
    hide Peak, Drop;
    DropsFrom(p, r);
    assert IsFall(s, 0, 2) && Fall(s, 0, 2) == 100.0 * (1.0 - 2.0 * r);
    assert FallAt(s, 2) == -100.0 * r;
    assert FallAt(s, 0) == 0.0 && FallAt(s, 1) == 0.0;
  }

  lemma DropsFrom(p: real, r: real)
    requires p > 0.0
    ensures Drop(p, p) == 0.0 && Drop(2.0 * p, 2.0 * p) == 0.0
    ensures Drop(p, 2.0 * p * (1.0 - r)) == 100.0 * (1.0 - 2.0 * r)
    ensures Drop(2.0 * p, 2.0 * p * (1.0 - r)) == -100.0 * r
  {
    hide Drop;
    DropOf(p, p, 0.0);
    DropOf(2.0 * p, 2.0 * p, 0.0);
    DropOf(p, 2.0 * p * (1.0 - r), 1.0 - 2.0 * r);
    DropOf(2.0 * p, 2.0 * p * (1.0 - r), -r);
  }

  lemma DropOf(from: real, to: real, d: real)
    requires from > 0.0 && to - from == d * from
    ensures Drop(from, to) == d * 100.0
  {
    Cancel(d, from);
  }

  lemma Cancel(d: real, from: real)
    requires from > 0.0
    ensures d * from / from == d
  {
  }

  /** For the engine's runs, on all positive prices and for all signals, the one-pass drawdown
      is the worst of all falls exactly when the total selling rate is at most 1. */
  lemma DrawdownIsWorstExactly(m: CostModel)
    requires ValidCosts(m)
    ensures SellRate(m) <= 1.0 <==>
            forall capital: int, prices: seq<real>, dates: seq<int>, f: SignalFn, k: nat ::
              capital > 0 && 0 < k <= |prices| == |dates| && (forall i :: 0 <= i < |prices| ==> prices[i] > 0.0) ==>
              PeaksSuffice(Simulate(m, capital, prices, dates, f, k).snapshots)
  {
    hide Simulate, PeaksSuffice;
    if SellRate(m) <= 1.0 {
      forall capital: int, prices: seq<real>, dates: seq<int>, f: SignalFn, k: nat |
          capital > 0 && 0 < k <= |prices| == |dates| && (forall i :: 0 <= i < |prices| ==> prices[i] > 0.0)
        ensures PeaksSuffice(Simulate(m, capital, prices, dates, f, k).snapshots)
      {
        FirstValuePositive(m, capital, prices, dates, f, k);
        ValuesNonNegative(m, capital, prices, dates, f, k);
        NonNegativeSuffices(Simulate(m, capital, prices, dates, f, k).snapshots);
      }
    } else {
      OverdrawnRun(m);
      var p := FullPrice(m);
      assert !PeaksSuffice(Simulate(m, 1, [p, 2.0 * p, 2.0 * p], [0, 1, 2], BuyHoldSell, 3).snapshots);
    }
  }

  /** A run in which it is not. */
  lemma OverdrawnRun(m: CostModel)
    requires ValidCosts(m) && SellRate(m) > 1.0
    ensures var p := FullPrice(m);
            p > 0.0 && !PeaksSuffice(Simulate(m, 1, [p, 2.0 * p, 2.0 * p], [0, 1, 2], BuyHoldSell, 3).snapshots)
  {
    hide Simulate, PeaksSuffice, FullPrice;
    var p := FullPrice(m);
    FullPriceBuysOne(m);
    ThreeValues(m, [p, 2.0 * p, 2.0 * p], [0, 1, 2]);
    DoubledThenOverdrawn(Simulate(m, 1, [p, 2.0 * p, 2.0 * p], [0, 1, 2], BuyHoldSell, 3).snapshots, p, SellRate(m));
  }

  /** The engine only produces positive portfolio values. */
  lemma {:induction false} EngineSnapshotsPositive(m: CostModel, capital: int, prices: seq<real>,
                                                   dates: seq<int>, f: SignalFn, k: nat)
    requires k <= |prices| == |dates| && ValidMarket(m, capital, prices)
    ensures AllPositive(Simulate(m, capital, prices, dates, f, k).snapshots)
  {
    hide Act, Worth, ReturnPct, Solvent;
    if k > 0 {
      EngineSnapshotsPositive(m, capital, prices, dates, f, k - 1);
      AlwaysSolvent(m, capital, prices, dates, f, k);
      LastValue(m, capital, prices, dates, f, k);
    }
  }

  lemma LastValue(m: CostModel, capital: int, prices: seq<real>, dates: seq<int>, f: SignalFn, k: nat)
    requires 0 < k <= |prices| == |dates| && Solvent(Simulate(m, capital, prices, dates, f, k))
    ensures var s := Simulate(m, capital, prices, dates, f, k);
            |s.snapshots| > 0 && s.snapshots[|s.snapshots| - 1].portfolioValue > 0.0
  {
    hide Act;
  }

  // ----- holding time -----------------------------------------------------

  /** Dates of the open buys, oldest first, and the matched pairs so far. */
  datatype Fifo = Fifo(queue: seq<int>, total: int, matched: nat)

  function Held(buyDate: int, sellDate: int): int {
    if sellDate - buyDate > 0 then sellDate - buyDate else 0
  }

  function Match(trades: seq<Trade>): Fifo {
    if trades == [] then Fifo([], 0, 0)
    else
      var f, t := Match(trades[..|trades| - 1]), trades[|trades| - 1];
      if t.side == Buy then f.(queue := f.queue + [t.date])
      else if f.queue == [] then f
      else Fifo(f.queue[1..], f.total + Held(f.queue[0], t.date), f.matched + 1)
  }

  function Mean(total: int, count: nat): real {
    if count == 0 then 0.0 else total as real / count as real
  }

  method AvgHoldingDays(trades: seq<Trade>, buyQueue: array<int>) returns (avg: real)
    requires buyQueue.Length >= |trades|
    modifies buyQueue
    ensures avg == Mean(Match(trades).total, Match(trades).matched)
  {
    var head, tail, total, matched := 0, 0, 0, 0;
    var i := 0;
    while i < |trades|
      invariant 0 <= head <= tail <= i <= |trades| && matched >= 0
      invariant Match(trades[..i]) == Fifo(buyQueue[head..tail], total, matched)
    {
      assert trades[..i + 1][..i] == trades[..i];
      if trades[i].side == Buy {
        ghost var before := buyQueue[head..tail];
        buyQueue[tail] := trades[i].date;
        tail := tail + 1;
        assert buyQueue[head..tail] == before + [trades[i].date];
      } else if head < tail {
        var holding := trades[i].date - buyQueue[head];
        total := total + (if holding > 0 then holding else 0);
        head := head + 1;
        matched := matched + 1;
      }
      i := i + 1;
    }
    assert trades[..i] == trades;
    avg := if matched != 0 then total as real / matched as real else 0.0;
  }

  /** Days held over the first `n` round trips: trade 2i bought, trade 2i + 1 sold. */
  function RoundTripDays(trades: seq<Trade>, n: nat): int
    requires 2 * n <= |trades|
  {
    if n == 0 then 0 else RoundTripDays(trades, n - 1) + Held(trades[2 * n - 2].date, trades[2 * n - 1].date)
  }

  lemma {:induction false} RoundTripPrefix(trades: seq<Trade>, k: nat, n: nat)
    requires 2 * n <= k <= |trades|
    ensures RoundTripDays(trades[..k], n) == RoundTripDays(trades, n)
  {
    if n > 0 { RoundTripPrefix(trades, k, n - 1); }
  }

  lemma {:induction false} MatchAlternating(trades: seq<Trade>)
    requires forall i :: 0 <= i < |trades| ==> trades[i].side == (if i % 2 == 0 then Buy else Sell)
    ensures var n := |trades| / 2;
            Match(trades) == Fifo(if |trades| % 2 == 1 then [trades[|trades| - 1].date] else [],
                                  RoundTripDays(trades, n), n)
  {
    hide Held, RoundTripDays;
    if trades == [] {
      assert RoundTripDays(trades, 0) == 0 by { NoRoundTrips(trades); }
    } else {
      var k := |trades| - 1;
      MatchAlternating(trades[..k]);
      RoundTripPrefix(trades, k, k / 2);
      hide Match;
      var before := Match(trades[..k]);
      MatchNext(trades, before);
      if k % 2 == 1 {
        LastRoundTrip(trades);
        assert before.queue[1..] == [];
      } else {
        assert before.queue + [trades[k].date] == [trades[k].date];
      }
    }
  }

  lemma MatchNext(trades: seq<Trade>, f: Fifo)
    requires trades != [] && f == Match(trades[..|trades| - 1])
    ensures var t := trades[|trades| - 1];
            && (t.side == Buy ==> Match(trades) == f.(queue := f.queue + [t.date]))
            && (t.side == Sell && f.queue != [] ==>
                  Match(trades) == Fifo(f.queue[1..], f.total + Held(f.queue[0], t.date), f.matched + 1))
  {
  }

  lemma NoRoundTrips(trades: seq<Trade>)
    ensures RoundTripDays(trades, 0) == 0
  {
  }

  lemma LastRoundTrip(trades: seq<Trade>)
    requires |trades| > 0 && |trades| % 2 == 0
    ensures var n := |trades| / 2;
            RoundTripDays(trades, n) ==
            RoundTripDays(trades, n - 1) + Held(trades[|trades| - 2].date, trades[|trades| - 1].date)
  {
  }

  /** On the engine's trades every SELL is matched with its own BUY, so the average is the
      mean length of the completed round trips. */
  lemma HoldingIsRoundTripMean(m: CostModel, capital: int, prices: seq<real>, dates: seq<int>, f: SignalFn, k: nat)
    requires k <= |prices| == |dates|
    ensures var trades := Simulate(m, capital, prices, dates, f, k).trades;
            var n := |trades| / 2;
            Match(trades).matched == n && Match(trades).total == RoundTripDays(trades, n) &&
            (forall i :: 0 <= i < n ==> trades[2 * i].side == Buy && trades[2 * i + 1].side == Sell &&
                                        trades[2 * i + 1].quantity == trades[2 * i].quantity)
  {
    hide Simulate, Match, RoundTripDays;
    TradesAlternate(m, capital, prices, dates, f, k);
    MatchAlternating(Simulate(m, capital, prices, dates, f, k).trades);
  }

  ghost predicate Ascending(dates: seq<int>) {
    forall i, j :: 0 <= i <= j < |dates| ==> dates[i] <= dates[j]
  }

  /** A run over ascending dates records its trades in that order. */
  lemma {:induction false} TradesAscend(m: CostModel, capital: int, prices: seq<real>,
                                        dates: seq<int>, f: SignalFn, k: nat)
    requires k <= |prices| == |dates| && Ascending(dates)
    ensures var trades := Simulate(m, capital, prices, dates, f, k).trades;
            && (forall i :: 0 <= i < |trades| ==> k > 0 && trades[i].date <= dates[k - 1])
            && (forall i, j :: 0 <= i <= j < |trades| ==> trades[i].date <= trades[j].date)
  {
    hide Simulate, Buys, Sells, CostIs, Fits;
    if k == 0 {
      RunStartsExactly(m, capital, prices, dates, f);
    } else {
      TradesAscend(m, capital, prices, dates, f, k - 1);
      BarTradesExactly(m, capital, prices, dates, f, k);
      var before, now := Simulate(m, capital, prices, dates, f, k - 1), Simulate(m, capital, prices, dates, f, k);
      assert |now.trades| > |before.trades| ==> forall i :: 0 <= i < |before.trades| ==>
          now.trades[i] == now.trades[..|before.trades|][i];
    }
  }

  /** Calendar days from each of the first n purchases to its sale. */
  function TripGaps(trades: seq<Trade>, n: nat): int
    requires 2 * n <= |trades|
  {
    if n == 0 then 0 else TripGaps(trades, n - 1) + (trades[2 * n - 1].date - trades[2 * n - 2].date)
  }

  /** A sale dated before its purchase counts as no days at all. */
  lemma {:induction false} TripDays(trades: seq<Trade>, n: nat)
    requires 2 * n <= |trades|
    ensures RoundTripDays(trades, n) >= 0 && RoundTripDays(trades, n) >= TripGaps(trades, n)
    ensures (forall i :: 0 <= i < n ==> trades[2 * i].date <= trades[2 * i + 1].date) ==>
              RoundTripDays(trades, n) == TripGaps(trades, n)
    ensures (forall i :: 0 <= i < n ==> trades[2 * i].date >= trades[2 * i + 1].date) ==>
              RoundTripDays(trades, n) == 0
  {
    if n > 0 {
      TripDays(trades, n - 1);
      assert trades[2 * (n - 1)] == trades[2 * n - 2] && trades[2 * (n - 1) + 1] == trades[2 * n - 1];
    }
  }

  lemma MeanTimesCount(total: int, count: nat)
    ensures count == 0 ==> Mean(total, count) == 0.0
    ensures count > 0 ==> Mean(total, count) * count as real == total as real
  {
  }

  /** So on a run over ascending dates, the average times the number of completed round trips
      is the sum of the days from purchase to sale. */
  lemma AverageOfRun(m: CostModel, capital: int, prices: seq<real>, dates: seq<int>, f: SignalFn, k: nat)
    requires k <= |prices| == |dates| && Ascending(dates)
    ensures var trades := Simulate(m, capital, prices, dates, f, k).trades;
            var avg, n := Mean(Match(trades).total, Match(trades).matched), |trades| / 2;
            if n == 0 then avg == 0.0 else avg * n as real == TripGaps(trades, n) as real
  {
    hide Simulate, Match, RoundTripDays, Mean, TripGaps;
    var trades := Simulate(m, capital, prices, dates, f, k).trades;
    TradesAscend(m, capital, prices, dates, f, k);
    HoldingIsRoundTripMean(m, capital, prices, dates, f, k);
    TripDays(trades, |trades| / 2);
    MeanTimesCount(Match(trades).total, Match(trades).matched);
  }
}
