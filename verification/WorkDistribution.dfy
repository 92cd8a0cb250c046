/** Work distribution and completion tokens of the benchmark adapters
    (bench/adapters/python_driver.py, edge/driver-bench/src/main.rs,
    core/apps/c_driver_adapter.c) against the orchestrator's expected list
    (bench/run_driver_mvp2.py): any interleaving of the workers, sorted, is that list. */
module WorkDistribution {
  import opened DecimalText
  import opened Quotients

  // ----- text order -------------------------------------------------------

  /** Code-point order of strings. */
  ghost predicate LexLe(s: string, t: string) {
    s <= t || exists k :: Smaller(s, t, k)
  }

  /** The strings first differ at `k`, where `s` has the smaller character. */
  predicate Smaller(s: string, t: string, k: int) {
    0 <= k < |s| && k < |t| && s[k] < t[k] && forall i :: 0 <= i < k ==> s[i] == t[i]
  }

  lemma LexAntisymmetric(s: string, t: string)
    requires LexLe(s, t) && LexLe(t, s)
    ensures s == t
  {
    if k :| Smaller(s, t, k) {
      NotSmallerBack(s, t, k);
    } else if k :| Smaller(t, s, k) {
      NotSmallerBack(t, s, k);
    }
  }

  lemma NotSmallerBack(s: string, t: string, k: int)
    requires Smaller(s, t, k)
    ensures !LexLe(t, s)
  {
    assert forall j :: Smaller(t, s, j) ==> j == k;
  }

  lemma PrefixCancels(p: string, s: string, t: string)
    ensures LexLe(p + s, p + t) <==> LexLe(s, t)
  {
    if s <= t {
      assert (p + t)[..|p + s|] == p + t[..|s|];
    }
    if p + s <= p + t {
      assert t[..|s|] == (p + t)[|p|..|p + s|] == s;
    }
    forall k | Smaller(s, t, k) ensures Smaller(p + s, p + t, |p| + k) {
    }
    forall k | Smaller(p + s, p + t, k) ensures Smaller(s, t, k - |p|) {
      assert forall i :: 0 <= i < |s| ==> s[i] == (p + s)[|p| + i];
      assert forall i :: 0 <= i < |t| ==> t[i] == (p + t)[|p| + i];
    }
  }

  /** A difference inside the prefixes decides, whatever follows. */
  lemma SmallerExtends(s: string, t: string, k: int, x: string, y: string)
    requires Smaller(s, t, k)
    ensures Smaller(s + x, t + y, k)
  {
  }

  /** Digit strings of one width are ordered as their numbers. */
  lemma {:induction false} FixedWidthOrder(s: string, t: string) returns (k: int)
    requires AllDigits(s) && AllDigits(t) && |s| == |t| && Decimal(s) < Decimal(t)
    ensures Smaller(s, t, k)
  {
    var n := |s| - 1;
    if Decimal(s[..n]) < Decimal(t[..n]) {
      k := FixedWidthOrder(s[..n], t[..n]);
      SmallerExtends(s[..n], t[..n], k, s[n..], t[n..]);
      assert s == s[..n] + s[n..] && t == t[..n] + t[n..];
    } else {
      DecimalInjective(s[..n], t[..n]);
      k := n;
    }
  }

  // ----- tokens -----------------------------------------------------------

  /** `{iteration:06d}:{id}` */
  function Token(iteration: nat, id: string): string {
    Padded(iteration, 6) + (":" + id)
  }

  /** One iteration: every operation once. */
  function Row(iteration: nat, ids: seq<string>): (row: seq<string>)
    ensures |row| == |ids| && forall i :: 0 <= i < |ids| ==> row[i] == Token(iteration, ids[i])
  {
    if ids == [] then [] else Row(iteration, ids[..|ids| - 1]) + [Token(iteration, ids[|ids| - 1])]
  }

  /** The tokens of iterations first .. first + count - 1, in order. */
  function Range(first: nat, count: nat, ids: seq<string>): (r: seq<string>)
    ensures |r| == count * |ids|
  {
    if count == 0 then [] else Range(first, count - 1, ids) + Row(first + count - 1, ids)
  }

  /** The orchestrator's list. */
  function Expected(repeat: nat, ids: seq<string>): seq<string> {
    Range(0, repeat, ids)
  }

  function TokenAt(first: nat, ids: seq<string>, i: nat): string
    requires |ids| > 0
  {
    Token(first + i / |ids|, ids[i % |ids|])
  }

  lemma {:induction false} RangeAt(first: nat, count: nat, ids: seq<string>, i: nat)
    requires |ids| > 0 && i < count * |ids|
    ensures i < |Range(first, count, ids)|
    ensures Range(first, count, ids)[i] == TokenAt(first, ids, i)
  {
    hide Token;
    var n := |ids|;
    if i < (count - 1) * n {
      RangeAt(first, count - 1, ids, i);
    } else {
      QuotientUnique(i, n, count - 1, i - (count - 1) * n);
    }
  }

  // ----- when the expected list is sorted ---------------------------------

  ghost predicate LexSorted(tokens: seq<string>) {
    forall i, j :: 0 <= i < j < |tokens| ==> LexLe(tokens[i], tokens[j])
  }

  lemma EarlierIteration(a: nat, b: nat, x: string, y: string)
    requires a < b < 1_000_000
    ensures LexLe(Token(a, x), Token(b, y))
  {
    hide Digits, Decimal, ZeroFill;
    assert Pow10(3) == 1000 && Pow10(6) == 1_000_000;
    DigitCount(a, 6);
    DigitCount(b, 6);
    PaddedRoundTrip(a, 6);
    PaddedRoundTrip(b, 6);
    var k := FixedWidthOrder(Padded(a, 6), Padded(b, 6));
    SmallerExtends(Padded(a, 6), Padded(b, 6), k, ":" + x, ":" + y);
  }

  lemma SameIteration(a: nat, x: string, y: string)
    ensures LexLe(Token(a, x), Token(a, y)) <==> LexLe(x, y)
  {
    PrefixCancels(Padded(a, 6), ":" + x, ":" + y);
    PrefixCancels(":", x, y);
  }

  lemma TokensInOrder(repeat: nat, ids: seq<string>, i: nat, j: nat)
    requires repeat <= 1_000_000 && LexSorted(ids) && ids != [] && i < j < repeat * |ids|
    ensures LexLe(TokenAt(0, ids, i), TokenAt(0, ids, j))
  {
    hide Token, LexLe;
    Places(i, j, |ids|, repeat);
    var a, b, p, q := i / |ids|, j / |ids|, i % |ids|, j % |ids|;
    if a < b {
      EarlierIteration(a, b, ids[p], ids[q]);
    } else {
      SameIteration(a, ids[p], ids[q]);
    }
  }

  lemma ExpectedIsSorted(repeat: nat, ids: seq<string>)
    requires repeat <= 1_000_000 && LexSorted(ids)
    ensures LexSorted(Expected(repeat, ids))
  {
    hide Range, TokenAt, LexLe;
    var all := Expected(repeat, ids);
    forall i, j | 0 <= i < j < |all|
      ensures LexLe(all[i], all[j])
    {
      assert ids != [];
      RangeAt(0, repeat, ids, i);
      RangeAt(0, repeat, ids, j);
      TokensInOrder(repeat, ids, i, j);
    }
  }

  lemma Places(i: nat, j: nat, n: nat, repeat: nat)
    requires n > 0 && i < j < repeat * n
    ensures i / n <= j / n < repeat && (i / n == j / n ==> i % n < j % n)
  {
    assert i == n * (i / n) + i % n && j == n * (j / n) + j % n;
    var d := j / n - i / n;
    assert n * d == j - i - (j % n - i % n);
    ProductBeyond(n, d);
    var e := repeat - j / n;
    assert n * e == repeat * n - j + j % n;
    ProductBeyond(n, e);
  }

  lemma {:induction false} FirstOfRow(repeat: nat, ids: seq<string>, iteration: nat, k: nat)
    requires iteration < repeat && k < |ids|
    ensures iteration * |ids| + k < |Expected(repeat, ids)|
    ensures Expected(repeat, ids)[iteration * |ids| + k] == Token(iteration, ids[k])
  {
    hide Range, Token;
    var n := |ids|;
    QuotientUnique(iteration * n + k, n, iteration, k);
    var e := repeat - iteration;
    assert n * e == repeat * n - iteration * n;
    ProductBeyond(n, e);
    RangeAt(0, repeat, ids, iteration * n + k);
  }

  lemma SixAndSevenDigits()
    ensures Padded(100_001, 6) == "100001" && Padded(1_000_000, 6) == "1000000"
  {
    assert Digits(1) == "1" && Digits(10) == Digits(1) + "0" && Digits(100) == Digits(10) + "0";
    assert Digits(1000) == Digits(100) + "0" && Digits(10000) == Digits(1000) + "0";
    assert Digits(100_000) == Digits(10000) + "0" && Digits(1_000_000) == Digits(100_000) + "0";
    assert Digits(100_001) == Digits(10000) + "1";
  }

  /** Past a million iterations seven digits sort before six. */
  lemma SevenDigitsSortEarlier(x: string, y: string)
    ensures !LexLe(Token(100_001, x), Token(1_000_000, y))
  {
    hide Padded;
    SixAndSevenDigits();
    NotSmallerBack(Token(1_000_000, y), Token(100_001, x), 5);
  }

  /** The orchestrator's list is in text order exactly when the operation ids are and the
      iteration number fits its six digits (or there is nothing to list). */
  lemma ExpectedSortedExactly(repeat: nat, ids: seq<string>)
    ensures LexSorted(Expected(repeat, ids)) <==>
            repeat == 0 || ids == [] || (repeat <= 1_000_000 && LexSorted(ids))
  {
    hide Range, Token, LexLe;
    if repeat == 0 || ids == [] {
      assert |Expected(repeat, ids)| == 0 by { assert repeat * |ids| == 0; }
    } else if repeat > 1_000_000 {
      FirstOfRow(repeat, ids, 100_001, 0);
      FirstOfRow(repeat, ids, 1_000_000, 0);
      SevenDigitsSortEarlier(ids[0], ids[0]);
      var n := |ids|;
      assert 100_001 * n < 1_000_000 * n;
    } else if LexSorted(ids) {
      ExpectedIsSorted(repeat, ids);
    } else {
      var a, b :| 0 <= a < b < |ids| && !LexLe(ids[a], ids[b]);
      FirstOfRow(repeat, ids, 0, a);
      FirstOfRow(repeat, ids, 0, b);
      SameIteration(0, ids[a], ids[b]);
    }
  }

  // ----- shares -----------------------------------------------------------

  /** `distribute`: how many iterations worker i gets. */
  function Share(total: nat, workers: nat, i: nat): nat
    requires workers > 0
  {
    total / workers + (if i < total % workers then 1 else 0)
  }

  /** Where worker i starts: the sum of the shares before it. */
  function Start(total: nat, workers: nat, i: nat): nat
    requires workers > 0
  {
    if i == 0 then 0 else Start(total, workers, i - 1) + Share(total, workers, i - 1)
  }

  lemma {:induction false} StartClosed(total: nat, workers: nat, i: nat)
    requires workers > 0
    ensures Start(total, workers, i) == i * (total / workers) + (if i < total % workers then i else total % workers)
  {
    if i > 0 {
      StartClosed(total, workers, i - 1);
      assert i * (total / workers) == (i - 1) * (total / workers) + total / workers;
    }
  }

  /** The ranges follow each other, cover 0 .. total - 1 exactly, and differ in size by at
      most one. */
  lemma SharesPartition(total: nat, workers: nat)
    requires workers > 0
    ensures Start(total, workers, 0) == 0 && Start(total, workers, workers) == total
    ensures forall i, j :: 0 <= i < workers && 0 <= j < workers ==>
              -1 <= Share(total, workers, i) - Share(total, workers, j) <= 1
  {
    StartClosed(total, workers, workers);
    assert total == workers * (total / workers) + total % workers;
  }

  // ----- failed operations ------------------------------------------------

  /** How many operations an iteration reports. The first one that raises ends its iteration:
      the Python worker has then reported those before it, the Rust worker none. */
  type Reported = nat -> nat

  function RowOf(iteration: nat, ids: seq<string>, reported: Reported): seq<string> {
    Row(iteration, if reported(iteration) < |ids| then ids[..reported(iteration)] else ids)
  }

  /** What a worker reports for iterations first .. first + count - 1. */
  function Kept(first: nat, count: nat, ids: seq<string>, reported: Reported): seq<string> {
    if count == 0 then [] else Kept(first, count - 1, ids, reported) + RowOf(first + count - 1, ids, reported)
  }

  ghost predicate AllSucceed(repeat: nat, ids: seq<string>, reported: Reported) {
    forall i :: 0 <= i < repeat ==> reported(i) >= |ids|
  }

  lemma {:induction false} KeptSplit(first: nat, a: nat, b: nat, ids: seq<string>, reported: Reported)
    ensures Kept(first, a + b, ids, reported) == Kept(first, a, ids, reported) + Kept(first + a, b, ids, reported)
  {
    hide RowOf;
    if b > 0 {
      KeptSplit(first, a, b - 1, ids, reported);
    }
  }

  /** Everything is reported exactly when nothing fails. */
  lemma {:induction false} KeptIsAllExactly(repeat: nat, ids: seq<string>, reported: Reported)
    ensures |Kept(0, repeat, ids, reported)| <= repeat * |ids|
    ensures |Kept(0, repeat, ids, reported)| == repeat * |ids| <==> AllSucceed(repeat, ids, reported)
    ensures AllSucceed(repeat, ids, reported) ==> Kept(0, repeat, ids, reported) == Expected(repeat, ids)
  {
    hide Row;
    if repeat > 0 {
      KeptIsAllExactly(repeat - 1, ids, reported);
      assert repeat * |ids| == (repeat - 1) * |ids| + |ids|;
    }
  }

  // ----- interleavings ----------------------------------------------------

  function WorkerTokens(total: nat, workers: nat, ids: seq<string>, reported: Reported, n: nat)
      : (lists: seq<seq<string>>)
    requires workers > 0
    ensures |lists| == n
  {
    if n == 0 then []
    else WorkerTokens(total, workers, ids, reported, n - 1) +
         [Kept(Start(total, workers, n - 1), Share(total, workers, n - 1), ids, reported)]
  }

  /** `out` is what the workers append when they are scheduled in this order until all
      are done. */
  predicate Interleaves(lists: seq<seq<string>>, schedule: seq<nat>, out: seq<string>)
    decreases |schedule|
  {
    if schedule == [] then out == [] && forall w :: 0 <= w < |lists| ==> lists[w] == []
    else
      var w := schedule[0];
      w < |lists| && lists[w] != [] && out != [] && out[0] == lists[w][0] &&
      Interleaves(lists[w := lists[w][1..]], schedule[1..], out[1..])
  }

  function Together(lists: seq<seq<string>>): multiset<string> {
    if lists == [] then multiset{} else Together(lists[..|lists| - 1]) + multiset(lists[|lists| - 1])
  }

  lemma {:induction false} TakeOne(lists: seq<seq<string>>, w: nat)
    requires w < |lists| && lists[w] != []
    ensures Together(lists) == Together(lists[w := lists[w][1..]]) + multiset{lists[w][0]}
  {
    var last := |lists| - 1;
    var shorter := lists[w := lists[w][1..]];
    assert lists[w] == [lists[w][0]] + lists[w][1..];
    if w == last {
      assert shorter[..last] == lists[..last];
    } else {
      TakeOne(lists[..last], w);
      assert shorter[..last] == lists[..last][w := lists[..last][w][1..]];
    }
  }

  lemma {:induction false} NothingTogether(lists: seq<seq<string>>)
    requires forall w :: 0 <= w < |lists| ==> lists[w] == []
    ensures Together(lists) == multiset{}
  {
    if lists != [] { NothingTogether(lists[..|lists| - 1]); }
  }

  lemma {:induction false} InterleavingKeeps(lists: seq<seq<string>>, schedule: seq<nat>, out: seq<string>)
    requires Interleaves(lists, schedule, out)
    ensures multiset(out) == Together(lists)
    decreases |schedule|
  {
    if schedule == [] {
      NothingTogether(lists);
    } else {
      var w := schedule[0];
      InterleavingKeeps(lists[w := lists[w][1..]], schedule[1..], out[1..]);
      TakeOne(lists, w);
      assert out == [out[0]] + out[1..];
    }
  }

  lemma {:induction false} WorkersTogether(total: nat, workers: nat, ids: seq<string>, reported: Reported, n: nat)
    requires workers > 0
    ensures Together(WorkerTokens(total, workers, ids, reported, n)) ==
            multiset(Kept(0, Start(total, workers, n), ids, reported))
  {
    hide Kept, Share;
    if n == 0 {
      assert Kept(0, 0, ids, reported) == [] by { NothingKept(ids, reported); }
    } else {
      WorkersTogether(total, workers, ids, reported, n - 1);
      var first, count := Start(total, workers, n - 1), Share(total, workers, n - 1);
      KeptSplit(0, first, count, ids, reported);
      var lists := WorkerTokens(total, workers, ids, reported, n);
      assert lists[..n - 1] == WorkerTokens(total, workers, ids, reported, n - 1);
    }
  }

  lemma NothingKept(ids: seq<string>, reported: Reported)
    ensures Kept(0, 0, ids, reported) == []
  {
  }

  // ----- the sorted completions -------------------------------------------

  lemma DropFirst(a: seq<string>)
    requires a != []
    ensures multiset(a[1..]) == multiset(a) - multiset{a[0]}
  {
    assert a == [a[0]] + a[1..];
  }

  /** Sorting has one result. */
  lemma {:induction false} SortedUnique(a: seq<string>, b: seq<string>)
    requires LexSorted(a) && LexSorted(b) && multiset(a) == multiset(b)
    ensures a == b
  {
    hide LexLe;
    if a == [] {
      assert |multiset(b)| == |b|;
    } else {
      assert |multiset(a)| == |a| && |multiset(b)| == |b|;
      assert a[0] in multiset(b) && b[0] in multiset(a);
      var p :| 0 <= p < |b| && b[p] == a[0];
      var q :| 0 <= q < |a| && a[q] == b[0];
      if p > 0 && q > 0 {
        LexAntisymmetric(a[0], b[0]);
      }
      assert a[0] == b[0];
      DropFirst(a);
      DropFirst(b);
      SortedUnique(a[1..], b[1..]);
    }
  }

  /** For any number of workers, any interleaving and any failures, the sorted completions
      are the orchestrator's expected list exactly when no operation failed and that list is
      in text order: ids ascending and at most a million iterations. */
  lemma CompletionsMatch(repeat: nat, workers: nat, ids: seq<string>, reported: Reported,
                         schedule: seq<nat>, out: seq<string>, sorted: seq<string>)
    requires workers > 0 && Interleaves(WorkerTokens(repeat, workers, ids, reported, workers), schedule, out)
    requires LexSorted(sorted) && multiset(sorted) == multiset(out)
    ensures sorted == Expected(repeat, ids) <==>
            repeat == 0 || ids == [] ||
            (AllSucceed(repeat, ids, reported) && repeat <= 1_000_000 && LexSorted(ids))
    ensures AllSucceed(repeat, ids, reported) ==> multiset(sorted) == multiset(Expected(repeat, ids))
  {
    hide Range, Kept, LexSorted, Interleaves, WorkerTokens, Together;
    InterleavingKeeps(WorkerTokens(repeat, workers, ids, reported, workers), schedule, out);
    WorkersTogether(repeat, workers, ids, reported, workers);
    SharesPartition(repeat, workers);
    KeptIsAllExactly(repeat, ids, reported);
    ExpectedSortedExactly(repeat, ids);
    var kept, expected := Kept(0, repeat, ids, reported), Expected(repeat, ids);
    assert |multiset(sorted)| == |sorted| && |multiset(kept)| == |kept|;
    if repeat == 0 || ids == [] {
      assert |expected| == 0 by { assert repeat * |ids| == 0; }
    } else if AllSucceed(repeat, ids, reported) && LexSorted(expected) {
      SortedUnique(sorted, expected);
    }
  }

  // ----- the list the C adapter prints ------------------------------------

  function CIds(prefix: char): (ids: seq<string>)
    ensures ids == [[prefix] + "001", [prefix] + "002", [prefix] + "003"]
  {
    assert ZeroFill("1", 3) == "001" && ZeroFill("2", 3) == "002" && ZeroFill("3", 3) == "003";
    [[prefix] + Padded(1, 3), [prefix] + Padded(2, 3), [prefix] + Padded(3, 3)]
  }

  /** `emit` numbers the tokens by index: iteration i / 3, operation i % 3 + 1. */
  method CTokens(total: nat, prefix: char) returns (tokens: seq<string>)
    ensures |tokens| == total && tokens <= Expected((total + 2) / 3, CIds(prefix))
    ensures total % 3 == 0 ==> tokens == Expected(total / 3, CIds(prefix))
  {
    hide Range, Padded;
    tokens := [];
    var i := 0;
    ghost var expected := Expected((total + 2) / 3, CIds(prefix));
    while i < total
      invariant 0 <= i <= total <= |expected| && tokens == expected[..i]
    {
      RangeAt(0, (total + 2) / 3, CIds(prefix), i);
      tokens := tokens + [Padded(i / 3, 6) + (":" + ([prefix] + Padded(i % 3 + 1, 3)))];
      assert expected[..i + 1] == expected[..i] + [expected[i]];
      i := i + 1;
    }
    assert total % 3 == 0 ==> |expected| == total && (total + 2) / 3 == total / 3;
  }
}
