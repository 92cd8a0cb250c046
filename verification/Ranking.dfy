/** Selection kernels that stand in for a stable sort: the screener's repeated maximum
    (core/src/indicators/screener.c) and the drawdown gate's two-pointer minimum
    (core/src/risk/gates.c). The reference is the sort of the Python originals
    (tools/generate_golden_decisions.py): stable, on the candidates that qualify. */
module Ranking {

  /** A candidate: whether it qualifies, and its score (higher ranks first). */
  datatype Scored = Scored(passes: bool, score: real)

  /** Higher score first; equal scores keep the input order. */
  predicate Before(c: seq<Scored>, i: int, j: int)
    requires 0 <= i < |c| && 0 <= j < |c|
  {
    c[i].score > c[j].score || (c[i].score == c[j].score && i < j)
  }

  // ----- the reference: stable insertion sort -----------------------------

  predicate Within(ranked: seq<int>, n: int) {
    forall k :: 0 <= k < |ranked| ==> 0 <= ranked[k] < n
  }

  /** Put candidate `i` after every listed candidate whose score is not lower. */
  function Insert(c: seq<Scored>, ranked: seq<int>, i: int): (r: seq<int>)
    requires 0 <= i < |c| && Within(ranked, |c|)
    ensures |r| == |ranked| + 1 && Within(r, |c|) && (Within(ranked, i) ==> Within(r, i + 1))
    ensures forall x :: x in r <==> x == i || x in ranked
  {
    if ranked == [] || c[ranked[0]].score < c[i].score then [i] + ranked
    else [ranked[0]] + Insert(c, ranked[1..], i)
  }

  /** The qualifying candidates among the first `n`, sorted stably by descending score. */
  function StableSort(c: seq<Scored>, n: nat): (ranked: seq<int>)
    requires n <= |c|
    ensures |ranked| <= n && Within(ranked, n)
  {
    if n == 0 then []
    else if c[n - 1].passes then Insert(c, StableSort(c, n - 1), n - 1)
    else StableSort(c, n - 1)
  }

  /** `ranked` lists exactly the qualifying candidates below `n`, each before all that
      follow it; so each once. */
  ghost predicate IsRanking(c: seq<Scored>, n: nat, ranked: seq<int>)
    requires n <= |c|
  {
    && (forall i :: i in ranked <==> 0 <= i < n && c[i].passes)
    && Ordered(c, ranked)
  }

  ghost predicate Ordered(c: seq<Scored>, ranked: seq<int>) {
    && Within(ranked, |c|)
    && (forall a, b :: 0 <= a < b < |ranked| ==> Before(c, ranked[a], ranked[b]))
  }

  lemma ConsOrdered(c: seq<Scored>, first: int, rest: seq<int>)
    requires 0 <= first < |c| && Ordered(c, rest)
    requires forall k :: 0 <= k < |rest| ==> Before(c, first, rest[k])
    ensures Ordered(c, [first] + rest)
  {
    var r := [first] + rest;
    assert forall k :: 0 < k < |r| ==> r[k] == rest[k - 1];
  }

  lemma {:induction false} InsertOrdered(c: seq<Scored>, ranked: seq<int>, i: int)
    requires 0 <= i < |c| && Ordered(c, ranked) && Within(ranked, i)
    ensures Ordered(c, Insert(c, ranked, i))
    decreases |ranked|
  {
    if ranked == [] || c[ranked[0]].score < c[i].score {
      forall k | 0 <= k < |ranked| ensures Before(c, i, ranked[k]) {
        assert k > 0 ==> Before(c, ranked[0], ranked[k]);
      }
      ConsOrdered(c, i, ranked);
    } else {
      var rest := Insert(c, ranked[1..], i);
      InsertOrdered(c, ranked[1..], i);
      assert ranked[0] in ranked;
      forall k | 0 <= k < |rest| ensures Before(c, ranked[0], rest[k]) {
        assert rest[k] in rest;
        if rest[k] != i {
          var q :| 0 <= q < |ranked[1..]| && ranked[1..][q] == rest[k];
          assert Before(c, ranked[0], ranked[q + 1]);
        }
      }
      ConsOrdered(c, ranked[0], rest);
    }
  }

  /** The stable sort is a ranking. */
  lemma {:induction false} StableSortRanks(c: seq<Scored>, n: nat)
    requires n <= |c|
    ensures IsRanking(c, n, StableSort(c, n))
  {
    hide Ordered, Insert;
    if n == 0 {
      NothingOrdered(c);
    } else {
      StableSortRanks(c, n - 1);
      if c[n - 1].passes {
        var before := StableSort(c, n - 1);
        InsertOrdered(c, before, n - 1);
        assert StableSort(c, n) == Insert(c, before, n - 1);
      }
    }
  }

  lemma NothingOrdered(c: seq<Scored>)
    ensures Ordered(c, [])
  {
  }

  lemma NotListedBefore(c: seq<Scored>, ranked: seq<int>, k: nat)
    requires Ordered(c, ranked) && k < |ranked|
    ensures ranked[k] !in ranked[..k]
  {
    forall q | 0 <= q < k ensures ranked[..k][q] != ranked[k] {
      assert Before(c, ranked[q], ranked[k]);
    }
  }

  lemma FindFrom(ranked: seq<int>, k: nat, x: int) returns (p: nat)
    requires k <= |ranked| && x in ranked && x !in ranked[..k]
    ensures k <= p < |ranked| && ranked[p] == x
  {
    assert ranked == ranked[..k] + ranked[k..];
    var q :| 0 <= q < |ranked[k..]| && ranked[k..][q] == x;
    p := k + q;
  }

  /** Whoever is before all qualifying candidates not yet listed comes next. */
  lemma NextRanked(c: seq<Scored>, n: nat, ranked: seq<int>, k: nat, best: int)
    requires n <= |c| && IsRanking(c, n, ranked) && k <= |ranked|
    requires 0 <= best < n && c[best].passes && best !in ranked[..k]
    requires forall i :: 0 <= i < n && c[i].passes && i !in ranked[..k] && i != best ==> Before(c, best, i)
    ensures k < |ranked| && ranked[k] == best
  {
    var p := FindFrom(ranked, k, best);
    NotListedBefore(c, ranked, k);
    assert ranked[k] in ranked;
  }

  /** When every qualifying candidate is listed the ranking is complete. */
  lemma AllRanked(c: seq<Scored>, n: nat, ranked: seq<int>, k: nat)
    requires n <= |c| && IsRanking(c, n, ranked) && k <= |ranked|
    requires forall i :: 0 <= i < n && c[i].passes ==> i in ranked[..k]
    ensures k == |ranked|
  {
    assert k < |ranked| ==> ranked[k] in ranked;
    if k < |ranked| { NotListedBefore(c, ranked, k); }
  }

  /** A list is the stable sort exactly when it is a ranking. */
  lemma {:induction false} RankingIsStableSort(c: seq<Scored>, ranked: seq<int>, k: nat)
    requires IsRanking(c, |c|, ranked) && k <= |ranked|
    ensures k <= |StableSort(c, |c|)| && ranked[..k] == StableSort(c, |c|)[..k]
    ensures k == |ranked| ==> ranked == StableSort(c, |c|)
  {
    hide StableSort;
    var sorted := StableSort(c, |c|);
    StableSortRanks(c, |c|);
    if k > 0 {
      RankingIsStableSort(c, ranked, k - 1);
      NotListedBefore(c, ranked, k - 1);
      assert ranked[k - 1] in ranked;
      ComesNext(c, ranked, k - 1);
      NextRanked(c, |c|, sorted, k - 1, ranked[k - 1]);
      assert ranked[..k] == ranked[..k - 1] + [ranked[k - 1]];
      assert sorted[..k] == sorted[..k - 1] + [sorted[k - 1]];
    }
    if k == |ranked| {
      assert ranked[..k] == ranked;
      AllRanked(c, |c|, sorted, k);
      assert sorted[..k] == sorted;
    }
  }

  lemma ComesNext(c: seq<Scored>, ranked: seq<int>, k: nat)
    requires IsRanking(c, |c|, ranked) && k < |ranked|
    ensures forall i :: 0 <= i < |c| && c[i].passes && i !in ranked[..k] && i != ranked[k] ==> Before(c, ranked[k], i)
  {
    forall i | 0 <= i < |c| && c[i].passes && i !in ranked[..k] && i != ranked[k] ensures Before(c, ranked[k], i) {
      assert i in ranked;
      var p := FindFrom(ranked, k, i);
    }
  }

  // ----- the screener -----------------------------------------------------

  /** Repeated maximum: fills the buffer with the first `cap` of the stable sort. */
  method ScreenerSelect(candidates: seq<Scored>, cap: nat, outIndices: array<int>) returns (selected: nat)
    requires outIndices.Length >= cap || outIndices.Length >= |candidates|
    modifies outIndices
    ensures var ranked := StableSort(candidates, |candidates|);
            selected == (if |ranked| < cap then |ranked| else cap) && selected <= outIndices.Length &&
            outIndices[..selected] == ranked[..selected]
  {
    hide StableSort;
    ghost var ranked := StableSort(candidates, |candidates|);
    StableSortRanks(candidates, |candidates|);
    selected := 0;
    while selected < cap
      invariant 0 <= selected <= cap && selected <= |ranked| && selected <= outIndices.Length
      invariant outIndices[..selected] == ranked[..selected]
    {
      var best := BestUnlisted(candidates, outIndices, selected);
      if best < 0 {
        AllRanked(candidates, |candidates|, ranked, selected);
        break;
      }
      NextRanked(candidates, |candidates|, ranked, selected, best);
      outIndices[selected] := best;
      selected := selected + 1;
      assert ranked[..selected] == ranked[..selected - 1] + [best];
    }
  }

  /** The inner loops: the first best qualifying candidate that is not in the buffer yet. */
  method BestUnlisted(candidates: seq<Scored>, outIndices: array<int>, selected: nat) returns (best: int)
    requires selected <= outIndices.Length
    ensures -1 <= best < |candidates|
    ensures best < 0 ==> forall i :: 0 <= i < |candidates| && candidates[i].passes ==> i in outIndices[..selected]
    ensures best >= 0 ==> candidates[best].passes && best !in outIndices[..selected]
    ensures best >= 0 ==>
              forall i :: 0 <= i < |candidates| && candidates[i].passes && i !in outIndices[..selected] && i != best ==>
                            Before(candidates, best, i)
  {
    best := -1;
    var i := 0;
    while i < |candidates|
      invariant 0 <= i <= |candidates| && -1 <= best < i
      invariant best < 0 ==> forall j :: 0 <= j < i && candidates[j].passes ==> j in outIndices[..selected]
      invariant best >= 0 ==> candidates[best].passes && best !in outIndices[..selected]
      invariant best >= 0 ==>
                  forall j :: 0 <= j < i && candidates[j].passes && j !in outIndices[..selected] && j != best ==>
                                Before(candidates, best, j)
    {
      if candidates[i].passes {
        var already := false;
        var k := 0;
        while k < selected
          invariant 0 <= k <= selected && !already
          invariant i !in outIndices[..k]
        {
          if outIndices[k] == i {
            already := true;
            break;
          }
          k := k + 1;
        }
        if !already && (best < 0 || candidates[i].score > candidates[best].score) {
          best := i;
        }
      }
      i := i + 1;
    }
  }

  // ----- the portfolio drawdown gate --------------------------------------

  datatype Held = Held(quantity: int, avgFill: real, current: real)

  predicate Qualifies(p: Held) {
    p.quantity > 0 && p.avgFill > 0.0 && p.current > 0.0
  }

  function PnlPct(p: Held): real
    requires p.avgFill > 0.0
  {
    (p.current - p.avgFill) / p.avgFill * 100.0
  }

  /** Weakest first: the score to rank by is the negated pnl. */
  function Weakness(positions: seq<Held>): (c: seq<Scored>)
    ensures |c| == |positions|
    ensures forall i :: 0 <= i < |c| ==>
              c[i] == (if Qualifies(positions[i]) then Scored(true, -PnlPct(positions[i])) else Scored(false, 0.0))
  {
    if positions == [] then []
    else
      var last := positions[|positions| - 1];
      Weakness(positions[..|positions| - 1]) +
      [if Qualifies(last) then Scored(true, -PnlPct(last)) else Scored(false, 0.0)]
  }

  /** `first` is before all other qualifying candidates below `n`, and `second` before all
      but `first`; -1 stands for none. */
  ghost predicate TopTwo(c: seq<Scored>, n: nat, first: int, second: int)
    requires n <= |c|
  {
    && -1 <= first < n && -1 <= second < n
    && (first < 0 ==> second < 0 && forall i :: 0 <= i < n ==> !c[i].passes)
    && (first >= 0 ==> c[first].passes && forall i :: 0 <= i < n && c[i].passes && i != first ==> Before(c, first, i))
    && (first >= 0 && second < 0 ==> forall i :: 0 <= i < n && i != first ==> !c[i].passes)
    && (second >= 0 ==> second != first && c[second].passes &&
                        forall i :: 0 <= i < n && c[i].passes && i != first && i != second ==> Before(c, second, i))
  }

  function Picks(first: int, second: int): seq<int> {
    (if first >= 0 then [first] else []) + (if second >= 0 then [second] else [])
  }

  function Take(s: seq<int>, n: nat): seq<int> {
    if |s| <= n then s else s[..n]
  }

  lemma TopTwoIsPrefix(c: seq<Scored>, first: int, second: int)
    requires TopTwo(c, |c|, first, second)
    ensures Picks(first, second) == Take(StableSort(c, |c|), 2)
  {
    hide StableSort;
    var ranked := StableSort(c, |c|);
    StableSortRanks(c, |c|);
    if first < 0 {
      AllRanked(c, |c|, ranked, 0);
    } else {
      assert ranked[..0] == [];
      NextRanked(c, |c|, ranked, 0, first);
      assert ranked[..1] == [first];
      if second < 0 {
        AllRanked(c, |c|, ranked, 1);
      } else {
        NextRanked(c, |c|, ranked, 1, second);
      }
    }
  }

  // What the picks mean, in prices.

  /** A position the gate may sell. */
  predicate Sellable(p: Held) {
    p.quantity > 0 && p.avgFill > 0.0 && p.current > 0.0
  }

  /** Position i has lost more than j, or as much and stands earlier: the ratios of current to
      fill price, compared by cross products. */
  predicate LostMore(positions: seq<Held>, i: int, j: int)
    requires 0 <= i < |positions| && 0 <= j < |positions|
  {
    var x, y := positions[i].current * positions[j].avgFill, positions[j].current * positions[i].avgFill;
    x < y || (x == y && i < j)
  }

  /** The first picks are the biggest losers among the sellable positions, in order, and all of
      them when there are fewer than two. */
  ghost predicate AreWeakest(positions: seq<Held>, picks: seq<int>) {
    && |picks| <= 2
    && (forall k :: 0 <= k < |picks| ==> 0 <= picks[k] < |positions| && Sellable(positions[picks[k]]))
    && (|picks| == 2 ==> picks[0] != picks[1])
    && (|picks| < 2 ==> forall j :: 0 <= j < |positions| && Sellable(positions[j]) ==> j in picks)
    && (|picks| >= 1 ==> forall j :: 0 <= j < |positions| && Sellable(positions[j]) && j != picks[0] ==>
                           LostMore(positions, picks[0], j))
    && (|picks| == 2 ==> forall j :: 0 <= j < |positions| && Sellable(positions[j]) && j !in picks ==>
                           LostMore(positions, picks[1], j))
  }

  /** The percentage is the one that leads from the fill price to the current price. */
  lemma PnlRecovers(p: Held)
    requires p.avgFill > 0.0
    ensures p.avgFill * (1.0 + PnlPct(p) / 100.0) == p.current
  {
    PercentRecovers(p.avgFill, p.current);
  }

  lemma PercentRecovers(from: real, to: real)
    requires from > 0.0
    ensures from * (1.0 + ((to - from) / from * 100.0) / 100.0) == to
  {
    var d := (to - from) / from;
    assert d * from == to - from;
    assert d * 100.0 / 100.0 == d;
  }

  lemma ScaleBoth(a: real, b: real, c: real)
    requires c > 0.0
    ensures a < b <==> a * c < b * c
    ensures a == b <==> a * c == b * c
  {
  }

  /** Less pnl is a smaller ratio. */
  lemma PnlOrder(p: Held, q: Held)
    requires p.avgFill > 0.0 && q.avgFill > 0.0
    ensures PnlPct(p) < PnlPct(q) <==> p.current * q.avgFill < q.current * p.avgFill
    ensures PnlPct(p) == PnlPct(q) <==> p.current * q.avgFill == q.current * p.avgFill
  {
    var r, s := 1.0 + PnlPct(p) / 100.0, 1.0 + PnlPct(q) / 100.0;
    PnlRecovers(p);
    PnlRecovers(q);
    hide PnlPct;
    var area := p.avgFill * q.avgFill;
    assert area > 0.0;
    ScaleBoth(r, s, area);
    assert r * area == p.current * q.avgFill && s * area == q.current * p.avgFill by {
      Regroup(r, p.avgFill, q.avgFill);
      Regroup(s, q.avgFill, p.avgFill);
    }
  }

  lemma Regroup(r: real, a: real, b: real)
    ensures r * (a * b) == (a * r) * b && r * (b * a) == (a * r) * b
  {
  }

  lemma {:induction false} BeforeLostMore(positions: seq<Held>, i: int, j: int)
    requires 0 <= i < |positions| && 0 <= j < |positions| && Sellable(positions[i]) && Sellable(positions[j])
    requires Before(Weakness(positions), i, j)
    ensures LostMore(positions, i, j)
  {
    hide PnlPct, Weakness;
    PnlOrder(positions[i], positions[j]);
  }

  lemma {:induction false} TopTwoAreWeakest(positions: seq<Held>, first: int, second: int)
    requires TopTwo(Weakness(positions), |positions|, first, second)
    ensures AreWeakest(positions, Picks(first, second))
  {
    hide PnlPct, Weakness, LostMore, Before;
    var picks := Picks(first, second);
    forall j | first >= 0 && 0 <= j < |positions| && Sellable(positions[j]) && j != first
      ensures LostMore(positions, first, j)
    {
      BeforeLostMore(positions, first, j);
    }
    forall j | second >= 0 && 0 <= j < |positions| && Sellable(positions[j]) && j != first && j != second
      ensures LostMore(positions, second, j)
    {
      BeforeLostMore(positions, second, j);
    }
  }

  method CheckPortfolioDrawdown(positions: seq<Held>, currentEquity: real, baselineEquity: real, limitPct: int,
                                outIndices: array<int>)
      returns (selected: nat, ddKnown: bool, ddPct: real)
    requires outIndices.Length >= 2
    modifies outIndices
    ensures ddKnown <==> currentEquity > 0.0 && baselineEquity > 0.0
    ensures ddKnown ==> baselineEquity * (1.0 + ddPct / 100.0) == currentEquity
    ensures selected <= 2
    ensures if ddKnown && ddPct <= -(limitPct as real) then AreWeakest(positions, outIndices[..selected])
            else selected == 0
    ensures outIndices[..selected] ==
            if ddKnown && ddPct <= -(limitPct as real)
            then Take(StableSort(Weakness(positions), |positions|), 2) else []
  {
    hide StableSort, AreWeakest;
    if currentEquity <= 0.0 || baselineEquity <= 0.0 {
      return 0, false, 0.0;
    }
    ddPct := (currentEquity - baselineEquity) / baselineEquity * 100.0;
    PercentRecovers(baselineEquity, currentEquity);
    if ddPct > -(limitPct as real) {
      return 0, true, ddPct;
    }
    var first, second := WeakestTwo(positions);
    selected := 0;
    if first >= 0 {
      outIndices[selected] := first;
      selected := selected + 1;
    }
    if second >= 0 {
      outIndices[selected] := second;
      selected := selected + 1;
    }
    TopTwoIsPrefix(Weakness(positions), first, second);
    TopTwoAreWeakest(positions, first, second);
    assert outIndices[..selected] == Picks(first, second);
    return selected, true, ddPct;
  }

  /** The scan: two running minima. */
  method WeakestTwo(positions: seq<Held>) returns (first: int, second: int)
    ensures TopTwo(Weakness(positions), |positions|, first, second)
    ensures AreWeakest(positions, Picks(first, second))
  {
    hide PnlPct, Weakness, AreWeakest;
    ghost var c := Weakness(positions);
    first, second := -1, -1;
    var firstPnl, secondPnl := 0.0, 0.0;
    var i := 0;
    while i < |positions|
      invariant 0 <= i <= |positions|
      invariant TopTwo(c, i, first, second)
      invariant first >= 0 ==> c[first].score == -firstPnl
      invariant second >= 0 ==> c[second].score == -secondPnl
    {
      if Qualifies(positions[i]) {
        var pnl := PnlPct(positions[i]);
        if first < 0 || pnl < firstPnl {
          second, secondPnl := first, firstPnl;
          first, firstPnl := i, pnl;
        } else if second < 0 || pnl < secondPnl {
          second, secondPnl := i, pnl;
        }
      }
      i := i + 1;
    }
    TopTwoAreWeakest(positions, first, second);
  }
}
