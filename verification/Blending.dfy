/** Signal blending (blending.c) over exact reals. How the result is rounded is a parameter. */
module Blending {
  datatype Signal = Buy | Sell | Hold | Close

  datatype Input = Input(signal: Signal, confidence: real, weight: real)

  datatype Blend = Blend(signal: Signal, confidence: real, score: real, conflict: bool)

  const THRESHOLD := 0.15

  function Clamp01(x: real): (r: real)
    ensures 0.0 <= r <= 1.0 && (0.0 <= x <= 1.0 ==> r == x)
    ensures (x <= 0.0 ==> r == 0.0) && (x >= 1.0 ==> r == 1.0)
  {
    if x < 0.0 then 0.0 else if x > 1.0 then 1.0 else x
  }

  function Score(s: Signal): real {
    match s
    case Buy => 1.0
    case Sell => -1.0
    case _ => 0.0
  }

  function Raw(x: Input): real {
    if x.weight > 0.0 then x.weight else 0.0
  }

  function Sum(xs: seq<Input>, f: Input -> real): real {
    if xs == [] then 0.0 else Sum(xs[..|xs| - 1], f) + f(xs[|xs| - 1])
  }

  function Total(xs: seq<Input>): real {
    Sum(xs, Raw)
  }

  /** The normalised weight of one input: its share of the total, or an equal share when no
      weight is positive. */
  function Share(total: real, count: nat, x: Input): real
    requires count > 0
  {
    if total > 0.0 then Raw(x) / total else 1.0 / count as real
  }

  function Weighted(confidence: real, weight: real): real {
    confidence * weight
  }

  function Term(score: real, weight: real, confidence: real): real {
    score * weight * confidence
  }

  function Confidence(total: real, count: nat, x: Input): real
    requires count > 0
  {
    Weighted(Clamp01(x.confidence), Share(total, count, x))
  }

  function Signed(total: real, count: nat, x: Input): real
    requires count > 0
  {
    Term(Score(x.signal), Share(total, count, x), Clamp01(x.confidence))
  }

  function Shares(total: real, count: nat): Input -> real
    requires count > 0
  {
    x => Share(total, count, x)
  }

  function Confidences(total: real, count: nat): Input -> real
    requires count > 0
  {
    x => Confidence(total, count, x)
  }

  function SignedScores(total: real, count: nat): Input -> real
    requires count > 0
  {
    x => Signed(total, count, x)
  }

  function Decide(score: real): Signal {
    if score > THRESHOLD then Buy else if score < -THRESHOLD then Sell else Hold
  }

  ghost predicate Has(xs: seq<Input>, s: Signal) {
    exists i :: 0 <= i < |xs| && xs[i].signal == s
  }

  ghost function Blended(xs: seq<Input>): Blend {
    if xs == [] then Blend(Hold, 0.0, 0.0, false)
    else
      var total, count := Total(xs), |xs|;
      var score := Sum(xs, SignedScores(total, count));
      Blend(Decide(score), Sum(xs, Confidences(total, count)), score, Has(xs, Buy) && Has(xs, Sell))
  }

  /** What the function hands out: confidence to 4 places, score to 6. The decision is made
      on the unrounded score. */
  ghost function Output(xs: seq<Input>, round: (real, nat) -> real): Blend {
    var b := Blended(xs);
    if xs == [] then b else b.(confidence := round(b.confidence, 4), score := round(b.score, 6))
  }

  // ----- sums -------------------------------------------------------------

  lemma {:induction false} SumScaled(xs: seq<Input>, f: Input -> real, ys: seq<Input>, g: Input -> real, k: real)
    requires |xs| == |ys| && forall i :: 0 <= i < |xs| ==> g(ys[i]) == k * f(xs[i])
    ensures Sum(ys, g) == k * Sum(xs, f)
  {
    if xs != [] {
      var n := |xs| - 1;
      SumScaled(xs[..n], f, ys[..n], g, k);
      Distribute(k, Sum(xs[..n], f), f(xs[n]));
    }
  }

  lemma Distribute(k: real, a: real, b: real)
    ensures k * (a + b) == k * a + k * b
  {
  }

  lemma {:induction false} SumSame(xs: seq<Input>, f: Input -> real, ys: seq<Input>, g: Input -> real)
    requires |xs| == |ys| && forall i :: 0 <= i < |xs| ==> g(ys[i]) == f(xs[i])
    ensures Sum(ys, g) == Sum(xs, f)
  {
    if xs != [] { SumSame(xs[..|xs| - 1], f, ys[..|xs| - 1], g); }
  }

  lemma {:induction false} SumNegated(xs: seq<Input>, f: Input -> real, ys: seq<Input>, g: Input -> real)
    requires |xs| == |ys| && forall i :: 0 <= i < |xs| ==> g(ys[i]) == -f(xs[i])
    ensures Sum(ys, g) == -Sum(xs, f)
  {
    if xs != [] { SumNegated(xs[..|xs| - 1], f, ys[..|xs| - 1], g); }
  }

  lemma {:induction false} SumBound(xs: seq<Input>, f: Input -> real, g: Input -> real)
    requires forall x :: -g(x) <= f(x) <= g(x)
    ensures -Sum(xs, g) <= Sum(xs, f) <= Sum(xs, g)
  {
    if xs != [] { SumBound(xs[..|xs| - 1], f, g); }
  }

  lemma {:induction false} SumWithout(xs: seq<Input>, f: Input -> real, p: nat)
    requires p < |xs|
    ensures Sum(xs, f) == Sum(xs[..p] + xs[p + 1..], f) + f(xs[p])
  {
    var n := |xs| - 1;
    if p < n {
      SumWithout(xs[..n], f, p);
      var rest := xs[..p] + xs[p + 1..];
      assert rest[..n - 1] == xs[..n][..p] + xs[..n][p + 1..];
    } else {
      assert xs[..p] + xs[p + 1..] == xs[..n];
    }
  }

  lemma {:induction false} SumPermuted(xs: seq<Input>, ys: seq<Input>, f: Input -> real)
    requires multiset(xs) == multiset(ys)
    ensures Sum(xs, f) == Sum(ys, f) && |xs| == |ys|
  {
    assert |multiset(xs)| == |xs| && |multiset(ys)| == |ys|;
    if xs != [] {
      var n := |xs| - 1;
      assert xs[n] in multiset(ys);
      var p :| 0 <= p < |ys| && ys[p] == xs[n];
      var rest := ys[..p] + ys[p + 1..];
      MultisetWithout(ys, p);
      MultisetWithout(xs, n);
      assert xs[..n] + xs[n + 1..] == xs[..n];
      SumPermuted(xs[..n], rest, f);
      SumWithout(ys, f, p);
    }
  }

  lemma MultisetWithout(xs: seq<Input>, p: nat)
    requires p < |xs|
    ensures multiset(xs[..p] + xs[p + 1..]) == multiset(xs) - multiset{xs[p]}
  {
    assert xs == xs[..p] + [xs[p]] + xs[p + 1..];
  }

  // ----- what the blend means ---------------------------------------------

  lemma {:induction false} TotalNonNegative(xs: seq<Input>)
    ensures Total(xs) >= 0.0
  {
    if xs != [] { TotalNonNegative(xs[..|xs| - 1]); }
  }

  lemma {:induction false} EqualShares(xs: seq<Input>, count: nat, share: real)
    requires count > 0 && share == 1.0 / count as real
    ensures Sum(xs, Shares(0.0, count)) == share * |xs| as real
  {
    if xs != [] {
      EqualShares(xs[..|xs| - 1], count, share);
      Distribute(share, (|xs| - 1) as real, 1.0);
    }
  }

  lemma Inverse(t: real)
    requires t > 0.0
    ensures (1.0 / t) * t == 1.0
  {
  }

  /** Normalised weights always sum to one. */
  lemma WeightsSumToOne(xs: seq<Input>)
    requires xs != []
    ensures Sum(xs, Shares(Total(xs), |xs|)) == 1.0
  {
    hide Sum;
    var total, count := Total(xs), |xs|;
    TotalNonNegative(xs);
    if total > 0.0 {
      forall i | 0 <= i < count
        ensures Shares(total, count)(xs[i]) == (1.0 / total) * Raw(xs[i])
      {
        Quotient(Raw(xs[i]), total);
      }
      SumScaled(xs, Raw, xs, Shares(total, count), 1.0 / total);
      Inverse(total);
    } else {
      EqualShares(xs, count, 1.0 / count as real);
      Inverse(count as real);
    }
  }

  lemma Quotient(a: real, t: real)
    requires t > 0.0
    ensures a / t == (1.0 / t) * a
    ensures a >= 0.0 ==> a / t >= 0.0
  {
  }

  lemma ShareNonNegative(total: real, count: nat, x: Input)
    requires count > 0
    ensures Share(total, count, x) >= 0.0
  {
    if total > 0.0 { Quotient(Raw(x), total); }
  }

  lemma Products(s: real, w: real, c: real)
    requires w >= 0.0 && 0.0 <= c <= 1.0 && (s == 1.0 || s == -1.0 || s == 0.0)
    ensures -Weighted(c, w) <= Term(s, w, c) <= Weighted(c, w) <= w && Weighted(c, w) >= 0.0
  {
  }

  lemma ScoreIsUnit(s: Signal)
    ensures Score(s) == 1.0 || Score(s) == -1.0 || Score(s) == 0.0
  {
  }

  lemma TermBounds(total: real, count: nat, x: Input)
    requires count > 0
    ensures -Confidence(total, count, x) <= Signed(total, count, x) <= Confidence(total, count, x)
    ensures -Share(total, count, x) <= Confidence(total, count, x) <= Share(total, count, x)
  {
    hide Share, Score, Clamp01, Weighted, Term;
    ShareNonNegative(total, count, x);
    ScoreIsUnit(x.signal);
    Products(Score(x.signal), Share(total, count, x), Clamp01(x.confidence));
  }

  /** The score never exceeds the confidence, which stays in [0, 1]: the final clamp of the
      confidence changes nothing. */
  lemma ScoreWithinConfidence(xs: seq<Input>)
    ensures -Blended(xs).confidence <= Blended(xs).score <= Blended(xs).confidence <= 1.0
    ensures Clamp01(Blended(xs).confidence) == Blended(xs).confidence
  {
    hide Sum, Share, Signed, Confidence, Total;
    if xs != [] {
      var total, count := Total(xs), |xs|;
      var share, confidence, signed := Shares(total, count), Confidences(total, count), SignedScores(total, count);
      forall x
        ensures -confidence(x) <= signed(x) <= confidence(x) && -share(x) <= confidence(x) <= share(x)
      {
        TermBounds(total, count, x);
      }
      SumBound(xs, signed, confidence);
      SumBound(xs, confidence, share);
      WeightsSumToOne(xs);
    }
  }

  /** One input's vote, before it is divided by the sum of the weights or by the count. */
  function Vote(weighted: bool, x: Input): real {
    (if weighted then Raw(x) else 1.0) * Clamp01(x.confidence)
  }

  function Votes(weighted: bool): Input -> real {
    x => Vote(weighted, x)
  }

  function VotesFor(weighted: bool, s: Signal): Input -> real {
    (x: Input) => if x.signal == s then Vote(weighted, x) else 0.0
  }

  function NetVotes(weighted: bool): Input -> real {
    x => VotesFor(weighted, Buy)(x) - VotesFor(weighted, Sell)(x)
  }

  lemma NetVote(weighted: bool, x: Input)
    ensures NetVotes(weighted)(x) ==
            match x.signal case Buy => Vote(weighted, x) case Sell => -Vote(weighted, x) case _ => 0.0
    ensures Votes(weighted)(x) == Vote(weighted, x)
  {
    hide Vote;
    assert NetVotes(weighted)(x) == VotesFor(weighted, Buy)(x) - VotesFor(weighted, Sell)(x);
  }

  lemma {:induction false} SumDifference(xs: seq<Input>, weighted: bool)
    ensures Sum(xs, NetVotes(weighted)) == Sum(xs, VotesFor(weighted, Buy)) - Sum(xs, VotesFor(weighted, Sell))
  {
    if xs != [] { SumDifference(xs[..|xs| - 1], weighted); }
  }

  function Divisor(xs: seq<Input>): real {
    if Total(xs) > 0.0 then Total(xs) else |xs| as real
  }

  lemma ShareOfDivisor(total: real, count: nat, x: Input)
    requires count > 0
    ensures (if total > 0.0 then total else count as real) * Share(total, count, x) ==
            (if total > 0.0 then Raw(x) else 1.0)
  {
  }

  lemma Regroup(d: real, s: real, w: real, c: real, vote: real, signed: real)
    requires vote == d * w * c && signed == Term(s, w, c)
    ensures s == 1.0 ==> d * signed == vote
    ensures s == -1.0 ==> d * signed == -vote
    ensures s == 0.0 ==> d * signed == 0.0
  {
    assert d * (w * c) == vote;
    assert s == 1.0 ==> signed == w * c;
    assert s == -1.0 ==> signed == -(w * c);
    assert s == 0.0 ==> signed == 0.0;
  }

  lemma VoteParts(total: real, count: nat, x: Input)
    requires count > 0
    ensures var d := if total > 0.0 then total else count as real;
            && d * Signed(total, count, x) == NetVotes(total > 0.0)(x)
            && d * Confidence(total, count, x) == Votes(total > 0.0)(x)
  {
    hide Share, Raw, Clamp01, Term, Votes, VotesFor, NetVotes;
    ShareOfDivisor(total, count, x);
    var d, w, c := if total > 0.0 then total else count as real, Share(total, count, x), Clamp01(x.confidence);
    NetVote(total > 0.0, x);
    var vote := Vote(total > 0.0, x);
    assert vote == d * w * c;
    Regroup(d, Score(x.signal), w, c, vote, Signed(total, count, x));
    assert 1.0 * w * c == w * c == c * w;
    Regroup(d, 1.0, w, c, vote, Term(1.0, w, c));
    ConfidenceIsTerm(total, count, x);
  }

  lemma ConfidenceIsTerm(total: real, count: nat, x: Input)
    requires count > 0
    ensures Confidence(total, count, x) == Term(1.0, Share(total, count, x), Clamp01(x.confidence))
    ensures x.signal == Buy ==> Signed(total, count, x) == Confidence(total, count, x)
  {
    hide Share, Clamp01;
  }

  /** The score is the weighted mean of the confidences of the BUY inputs less that of the SELL
      inputs, the confidence that of all; where no weight is positive the inputs weigh the
      same. BUY and SELL are decided beyond 0.15. */
  lemma BlendIsWeightedMean(xs: seq<Input>)
    requires xs != []
    ensures var b, d, weighted := Blended(xs), Divisor(xs), Total(xs) > 0.0;
            && d > 0.0
            && d * b.score == Sum(xs, VotesFor(weighted, Buy)) - Sum(xs, VotesFor(weighted, Sell))
            && d * b.confidence == Sum(xs, Votes(weighted))
            && (b.signal == Buy <==> b.score > 0.15) && (b.signal == Sell <==> b.score < -0.15)
            && (b.signal == Buy || b.signal == Sell || b.signal == Hold)
  {
    hide Sum, Total, Signed, Confidence, NetVotes, Votes;
    var total, count, d := Total(xs), |xs|, Divisor(xs);
    var signed, sure := SignedScores(total, count), Confidences(total, count);
    var net, votes := NetVotes(total > 0.0), Votes(total > 0.0);
    forall i | 0 <= i < count
      ensures net(xs[i]) == d * signed(xs[i]) && votes(xs[i]) == d * sure(xs[i])
    {
      VoteParts(total, count, xs[i]);
    }
    SumScaled(xs, signed, xs, net, d);
    SumScaled(xs, sure, xs, votes, d);
    SumDifference(xs, total > 0.0);
  }

  /** Where all inputs say BUY the score is the confidence. */
  lemma UnanimousBuy(xs: seq<Input>)
    requires forall i :: 0 <= i < |xs| ==> xs[i].signal == Buy
    ensures Blended(xs).score == Blended(xs).confidence
    ensures Blended(xs).signal == Buy <==> Blended(xs).confidence > 0.15
  {
    hide Sum, Total, Signed, Confidence;
    if xs != [] {
      var total, count := Total(xs), |xs|;
      forall i | 0 <= i < count
        ensures Signed(total, count, xs[i]) == Confidence(total, count, xs[i])
      {
        ConfidenceIsTerm(total, count, xs[i]);
      }
      SumSame(xs, Confidences(total, count), xs, SignedScores(total, count));
    }
  }

  /** The order of the inputs does not matter. */
  lemma OrderIrrelevant(xs: seq<Input>, ys: seq<Input>)
    requires multiset(xs) == multiset(ys)
    ensures Blended(xs) == Blended(ys)
  {
    hide Sum;
    SumPermuted(xs, ys, Raw);
    SameSignals(xs, ys);
    SameSignals(ys, xs);
    if xs != [] {
      SumPermuted(xs, ys, SignedScores(Total(xs), |xs|));
      SumPermuted(xs, ys, Confidences(Total(xs), |xs|));
    }
  }

  lemma SameSignals(xs: seq<Input>, ys: seq<Input>)
    requires multiset(xs) == multiset(ys)
    ensures forall s :: Has(xs, s) ==> Has(ys, s)
  {
    forall s | Has(xs, s)
      ensures Has(ys, s)
    {
      var i :| 0 <= i < |xs| && xs[i].signal == s;
      assert xs[i] in multiset(ys);
      var j :| 0 <= j < |ys| && ys[j] == xs[i];
      assert ys[j].signal == s;
    }
  }

  function Scaled(xs: seq<Input>, k: real): (ys: seq<Input>)
    ensures |ys| == |xs| && forall i :: 0 <= i < |xs| ==> ys[i] == xs[i].(weight := k * xs[i].weight)
  {
    seq(|xs|, i requires 0 <= i < |xs| => xs[i].(weight := k * xs[i].weight))
  }

  /** Only the proportions of the weights matter. */
  lemma ScaleIrrelevant(xs: seq<Input>, k: real)
    requires k > 0.0
    ensures Blended(Scaled(xs, k)) == Blended(xs)
  {
    hide Sum, Scaled, Raw, Share, Confidence, Signed;
    var ys := Scaled(xs, k);
    SignalsStay(xs, ys);
    if xs != [] {
      var total, count := Total(xs), |xs|;
      forall i | 0 <= i < count
        ensures Share(Total(ys), count, ys[i]) == Share(total, count, xs[i])
      {
        ScaledShare(xs, k, i);
      }
      forall i | 0 <= i < count
        ensures Signed(Total(ys), count, ys[i]) == Signed(total, count, xs[i])
        ensures Confidence(Total(ys), count, ys[i]) == Confidence(total, count, xs[i])
      {
        SameTerms(total, Total(ys), count, xs[i], ys[i]);
      }
      hide Total;
      SumSame(xs, SignedScores(total, count), ys, SignedScores(Total(ys), count));
      SumSame(xs, Confidences(total, count), ys, Confidences(Total(ys), count));
    }
  }

  lemma SameTerms(t: real, u: real, count: nat, x: Input, y: Input)
    requires count > 0 && Share(u, count, y) == Share(t, count, x)
    requires x.signal == y.signal && x.confidence == y.confidence
    ensures Signed(u, count, y) == Signed(t, count, x) && Confidence(u, count, y) == Confidence(t, count, x)
  {
    hide Share;
  }

  lemma ScaledTotal(xs: seq<Input>, k: real)
    requires k > 0.0
    ensures Total(Scaled(xs, k)) == k * Total(xs)
  {
    hide Sum, Scaled, Raw;
    RawScales(xs, k);
    SumScaled(xs, Raw, Scaled(xs, k), Raw, k);
  }

  lemma ScaledShare(xs: seq<Input>, k: real, i: nat)
    requires k > 0.0 && i < |xs|
    ensures Share(Total(Scaled(xs, k)), |xs|, Scaled(xs, k)[i]) == Share(Total(xs), |xs|, xs[i])
  {
    hide Sum, Scaled, Raw, Total;
    var x, y, total := xs[i], Scaled(xs, k)[i], Total(xs);
    ScaledTotal(xs, k);
    RawScales(xs, k);
    TotalNonNegative(xs);
    if total > 0.0 {
      Cancels(Raw(x), total, k);
    } else {
      assert k * total == 0.0;
    }
  }

  lemma RawScales(xs: seq<Input>, k: real)
    requires k > 0.0
    ensures forall i :: 0 <= i < |xs| ==> Raw(Scaled(xs, k)[i]) == k * Raw(xs[i])
  {
    forall i | 0 <= i < |xs|
      ensures Raw(Scaled(xs, k)[i]) == k * Raw(xs[i])
    {
      var w := xs[i].weight;
      assert w > 0.0 ==> k * w > 0.0;
      assert w < 0.0 ==> k * w < 0.0;
    }
  }

  lemma Cancels(a: real, t: real, k: real)
    requires t > 0.0 && k > 0.0
    ensures k * t > 0.0 && (k * a) / (k * t) == a / t
  {
    var q := a / t;
    assert q * t == a;
    assert q * (k * t) == k * a;
  }

  lemma SignalsStay(xs: seq<Input>, ys: seq<Input>)
    requires |xs| == |ys| && forall i :: 0 <= i < |xs| ==> xs[i].signal == ys[i].signal
    ensures forall s :: Has(xs, s) == Has(ys, s)
  {
    forall s
      ensures Has(xs, s) == Has(ys, s)
    {
      if Has(xs, s) {
        var i :| 0 <= i < |xs| && xs[i].signal == s;
        assert ys[i].signal == s;
      }
    }
  }

  function Opposite(s: Signal): Signal {
    match s
    case Buy => Sell
    case Sell => Buy
    case _ => s
  }

  function Mirrored(xs: seq<Input>): (ys: seq<Input>)
    ensures |ys| == |xs| && forall i :: 0 <= i < |xs| ==> ys[i] == xs[i].(signal := Opposite(xs[i].signal))
  {
    seq(|xs|, i requires 0 <= i < |xs| => xs[i].(signal := Opposite(xs[i].signal)))
  }

  /** Exchanging BUY and SELL negates the score and mirrors the decision, nothing else. */
  lemma MirrorNegates(xs: seq<Input>)
    ensures Blended(Mirrored(xs)) ==
            Blend(Opposite(Blended(xs).signal), Blended(xs).confidence, -Blended(xs).score, Blended(xs).conflict)
  {
    hide Sum, Mirrored, Share, Signed, Confidence, Score;
    var ys := Mirrored(xs);
    if xs != [] {
      SumSame(xs, Raw, ys, Raw);
      var total, count := Total(xs), |xs|;
      forall i | 0 <= i < count
        ensures Signed(total, count, ys[i]) == -Signed(total, count, xs[i])
        ensures Confidence(total, count, ys[i]) == Confidence(total, count, xs[i])
      {
        MirrorTerms(total, count, xs[i]);
      }
      hide Total;
      SumNegated(xs, SignedScores(total, count), ys, SignedScores(total, count));
      SumSame(xs, Confidences(total, count), ys, Confidences(total, count));
      MirrorSignals(xs, ys);
      MirrorSignals(ys, xs);
    }
  }

  /** The same for the rounded output, when rounding treats both signs alike. */
  lemma OutputMirrors(xs: seq<Input>, round: (real, nat) -> real)
    requires forall x, n :: round(-x, n) == -round(x, n)
    ensures Output(Mirrored(xs), round) ==
            Blend(Opposite(Output(xs, round).signal), Output(xs, round).confidence,
                  -Output(xs, round).score, Output(xs, round).conflict)
  {
    hide Blended, Mirrored;
    MirrorNegates(xs);
    if xs == [] { NothingToBlend(); }
  }

  lemma NothingToBlend()
    ensures Blended([]) == Blend(Hold, 0.0, 0.0, false)
  {
  }

  lemma MirrorTerms(total: real, count: nat, x: Input)
    requires count > 0
    ensures var y := x.(signal := Opposite(x.signal));
            Signed(total, count, y) == -Signed(total, count, x) &&
            Confidence(total, count, y) == Confidence(total, count, x)
  {
    var y := x.(signal := Opposite(x.signal));
    assert Share(total, count, y) == Share(total, count, x);
    hide Share;
    Negate(Score(x.signal), Share(total, count, x), Clamp01(x.confidence));
  }

  lemma Negate(s: real, w: real, c: real)
    ensures Term(-s, w, c) == -Term(s, w, c)
  {
    assert (-s) * w == -(s * w);
  }

  lemma MirrorSignals(xs: seq<Input>, ys: seq<Input>)
    requires |xs| == |ys| && forall i :: 0 <= i < |xs| ==> ys[i].signal == Opposite(xs[i].signal)
    ensures forall s :: Has(xs, s) ==> Has(ys, Opposite(s))
  {
    forall s | Has(xs, s)
      ensures Has(ys, Opposite(s))
    {
      var i :| 0 <= i < |xs| && xs[i].signal == s;
      assert ys[i].signal == Opposite(s);
    }
  }

  // ----- the two loops ----------------------------------------------------

  /** `alpha_blend_signals`: weights first, then scores. */
  method BlendSignals(inputs: seq<Input>, round: (real, nat) -> real) returns (result: Blend)
    ensures result == Output(inputs, round)
    ensures inputs == [] ==> result == Blend(Hold, 0.0, 0.0, false)
    ensures inputs != [] ==>
              result.confidence == round(Blended(inputs).confidence, 4) &&
              result.score == round(Blended(inputs).score, 6)
  {
    hide Sum, Has;
    if |inputs| == 0 { return Blend(Hold, 0.0, 0.0, false); }
    var count := |inputs|;
    var total := 0.0;
    SumStarts(inputs);
    for i := 0 to count
      invariant total == Sum(inputs[..i], Raw)
    {
      total := total + (if inputs[i].weight > 0.0 then inputs[i].weight else 0.0);
      SumNext(inputs, Raw, i);
    }
    assert inputs[..count] == inputs;
    TotalNonNegative(inputs);
    var factor := if total > 0.0 then total else 1.0;
    var equal := if total <= 0.0 then 1.0 / count as real else 0.0;
    var score, confidence, buy, sell := 0.0, 0.0, false, false;
    ghost var signed, sure := SignedScores(total, count), Confidences(total, count);
    for i := 0 to count
      invariant score == Sum(inputs[..i], signed) && confidence == Sum(inputs[..i], sure)
      invariant buy == Has(inputs[..i], Buy) && sell == Has(inputs[..i], Sell)
    {
      var x := inputs[i];
      var c := Clamp01(x.confidence);
      var raw := if x.weight > 0.0 then x.weight else 0.0;
      var weight := if total > 0.0 then raw / factor else equal;
      assert weight == Share(total, count, x);
      score := score + Score(x.signal) * weight * c;
      confidence := confidence + c * weight;
      buy := buy || x.signal == Buy;
      sell := sell || x.signal == Sell;
      SumNext(inputs, signed, i);
      SumNext(inputs, sure, i);
      HasNext(inputs, i);
    }
    ScoreWithinConfidence(inputs);
    result := Blend(Decide(score), round(Clamp01(confidence), 4), round(score, 6), buy && sell);
  }

  lemma SumStarts(xs: seq<Input>)
    ensures xs[..0] == [] && forall f :: Sum(xs[..0], f) == 0.0
    ensures !Has(xs[..0], Buy) && !Has(xs[..0], Sell)
  {
  }

  lemma SumNext(xs: seq<Input>, f: Input -> real, i: nat)
    requires i < |xs|
    ensures Sum(xs[..i + 1], f) == Sum(xs[..i], f) + f(xs[i])
  {
    assert xs[..i + 1][..i] == xs[..i];
  }

  lemma HasNext(xs: seq<Input>, i: nat)
    requires i < |xs|
    ensures forall s :: Has(xs[..i + 1], s) <==> Has(xs[..i], s) || xs[i].signal == s
  {
    forall s
      ensures Has(xs[..i + 1], s) <==> Has(xs[..i], s) || xs[i].signal == s
    {
      assert xs[..i + 1][i] == xs[i];
      if Has(xs[..i], s) {
        var j :| 0 <= j < i && xs[..i][j].signal == s;
        assert xs[..i + 1][j].signal == s;
      }
      if Has(xs[..i + 1], s) {
        var j :| 0 <= j <= i && xs[..i + 1][j].signal == s;
        assert j < i ==> xs[..i][j].signal == s;
      }
    }
  }

  /** `alpha_blend_ab`: absent legs are left out. */
  function Legs(a: seq<Input>, b: seq<Input>, ratio: real): seq<Input>
    requires |a| <= 1 && |b| <= 1
  {
    (if a == [] then [] else [a[0].(weight := 1.0 - Clamp01(ratio))]) +
    (if b == [] then [] else [b[0].(weight := Clamp01(ratio))])
  }

  /** Two legs interpolate by the ratio; one leg alone decides whatever the ratio, even zero. */
  lemma TwoLegsInterpolate(a: Input, b: Input, ratio: real)
    ensures Blended(Legs([a], [b], ratio)).score ==
            (1.0 - Clamp01(ratio)) * (Score(a.signal) * Clamp01(a.confidence)) +
            Clamp01(ratio) * (Score(b.signal) * Clamp01(b.confidence))
    ensures Blended(Legs([a], [], ratio)).score == Score(a.signal) * Clamp01(a.confidence)
    ensures Blended(Legs([], [b], ratio)).score == Score(b.signal) * Clamp01(b.confidence)
  {
    hide Sum, Score, Clamp01, Blended;
    var r := Clamp01(ratio);
    var x, y := a.(weight := 1.0 - r), b.(weight := r);
    assert [x] + [y] == [x, y] && [x] + [] == [x] && [] + [y] == [y];
    TwoLegs(x, y);
    OneLeg(x);
    OneLeg(y);
  }

  lemma TwoLegs(x: Input, y: Input)
    requires x.weight >= 0.0 && y.weight >= 0.0 && x.weight + y.weight == 1.0
    ensures Blended([x, y]).score ==
            x.weight * (Score(x.signal) * Clamp01(x.confidence)) + y.weight * (Score(y.signal) * Clamp01(y.confidence))
  {
    hide Sum, Score, Clamp01;
    SumTwo(x, y, Raw);
    SumTwo(x, y, SignedScores(1.0, 2));
    Associate(Score(x.signal), x.weight, Clamp01(x.confidence));
    Associate(Score(y.signal), y.weight, Clamp01(y.confidence));
  }

  lemma Associate(s: real, w: real, c: real)
    ensures s * w * c == w * (s * c) && w / 1.0 == w
  {
  }

  lemma SumTwo(x: Input, y: Input, f: Input -> real)
    ensures Sum([x, y], f) == f(x) + f(y)
  {
    hide Sum;
    SumStarts([x, y]);
    SumNext([x, y], f, 0);
    SumNext([x, y], f, 1);
    assert [x, y][..2] == [x, y];
  }

  lemma OneLeg(x: Input)
    ensures Blended([x]).score == Score(x.signal) * Clamp01(x.confidence)
  {
    hide Sum, Share, Score, Clamp01, Total;
    var total := Total([x]);
    SumOne(x, Shares(total, 1));
    WeightsSumToOne([x]);
    SumOne(x, SignedScores(total, 1));
  }

  lemma SumOne(x: Input, f: Input -> real)
    ensures Sum([x], f) == f(x)
  {
    hide Sum;
    SumStarts([x]);
    SumNext([x], f, 0);
    assert [x][..1] == [x];
  }
}
