/** The benchmark adapter's PostgreSQL driver loop (core/apps/c_driver_adapter.c): one
    operation in flight at a time, over a client of pipeline depth 1.

    Every operation shares the adapter's single token, and a callback reads the token
    through its pointer when it fires; that the token then still belongs to the completed
    operation is part of what is proved. */
module PgAdapter {
  import opened PgPipeline

  const OP_COUNT: nat := 3

  datatype Adapter = Adapter(total: nat, submitted: nat, completed: nat, inflight: bool, failed: bool,
                             tokenIndex: nat, tokenStarted: int, latency: seq<int>)

  function Begin(total: nat): Adapter {
    Adapter(total, 0, 0, false, false, 0, 0, seq(total, _ => 0))
  }

  /** What the environment decides about one submission. */
  datatype SubmitIn = SubmitIn(startedNs: int, argsOk: bool, verdict: Verdict, sendOk: bool, flush: int,
                               flushedTo: nat, watchOk: bool)
  /** One readiness callback: the service event, the watch update, and the reply's content and end time. */
  datatype ReadyIn = ReadyIn(event: Event, watchOk: bool, matches: bool, endedNs: int)
  datatype LoopIn = LoopIn(submit: SubmitIn, ready: seq<ReadyIn>, runtimeOk: bool, late: bool)

  function RequestOf(index: nat): Request {
    Request(if index % OP_COUNT < 2 then Position else Exposure, index)
  }

  function SubmitEvent(a: Adapter, inp: SubmitIn): Event {
    SendEvent(RequestOf(a.submitted), inp.verdict, inp.sendOk, inp.flush, inp.flushedTo)
  }

  function SubmitOne(w: World, a: Adapter, inp: SubmitIn): (World, Adapter, Rc) {
    var a1 := a.(tokenIndex := a.submitted, tokenStarted := inp.startedNs);
    if !inp.argsOk then (w, a1, RcInvalidArg)
    else
      var (w1, rc) := Step(w, SubmitEvent(a, inp));
      if rc != RcOk then (w1, a1, rc)
      else (w1, a1.(submitted := a.submitted + 1, inflight := true), if inp.watchOk then RcOk else RcIo)
  }

  /** `pg_reply` and `finish_operation` for one completion. */
  function Finish(a: Adapter, completion: Completion, inp: ReadyIn): (r: Adapter)
    requires |a.latency| == a.total
    ensures |r.latency| == r.total == a.total && r.submitted == a.submitted
  {
    var ok := completion.status == StatusOk && (a.tokenIndex % OP_COUNT < 2 || inp.matches);
    var a1 := a.(completed := a.completed + 1, inflight := false);
    if !ok || inp.endedNs <= a.tokenStarted || a.tokenIndex >= a.total
    then a1.(failed := true)
    else a1.(latency := a.latency[a.tokenIndex := inp.endedNs - a.tokenStarted])
  }

  function FinishAll(a: Adapter, completions: seq<Completion>, inp: ReadyIn): (r: Adapter)
    requires |a.latency| == a.total
    ensures |r.latency| == r.total == a.total && r.submitted == a.submitted
  {
    if completions == [] then a
    else Finish(FinishAll(a, completions[..|completions| - 1], inp), completions[|completions| - 1], inp)
  }

  /** The callbacks made between two logs. */
  function NewCompletions(before: seq<Completion>, after: seq<Completion>): seq<Completion> {
    if |before| <= |after| then after[|before|..] else []
  }

  function OnReady(w: World, a: Adapter, inp: ReadyIn): (r: (World, Adapter))
    requires |a.latency| == a.total
    ensures |r.1.latency| == r.1.total
  {
    var (w1, rc) := Step(w, inp.event);
    var a1 := FinishAll(a, NewCompletions(w.client.log, w1.client.log), inp);
    (w1, if rc != RcOk || !inp.watchOk then a1.(failed := true) else a1)
  }

  function OnReadyAll(w: World, a: Adapter, ins: seq<ReadyIn>): (r: (World, Adapter))
    requires |a.latency| == a.total
    ensures |r.1.latency| == r.1.total
    decreases |ins|
  {
    if ins == [] then (w, a)
    else
      var (w1, a1) := OnReady(w, a, ins[0]);
      OnReadyAll(w1, a1, ins[1..])
  }

  predicate Submits(w: World, a: Adapter) {
    !a.inflight && IsIdle(w.client)
  }

  /** One pass of the loop in `drive`. */
  function LoopBody(w: World, a: Adapter, inp: LoopIn): (r: (World, Adapter))
    requires |a.latency| == a.total
    ensures |r.1.latency| == r.1.total
  {
    var (w1, a1, rc) := if Submits(w, a) then SubmitOne(w, a, inp.submit) else (w, a, RcOk);
    if rc != RcOk then (w1, a1.(failed := true))
    else
      var (w2, a2) := OnReadyAll(w1, a1, inp.ready);
      (w2, if !inp.runtimeOk || inp.late then a2.(failed := true) else a2)
  }

  predicate Goes(a: Adapter) {
    !a.failed && a.completed < a.total
  }

  /** `drive`, for as many passes as the environment grants. */
  function Drive(w: World, a: Adapter, ins: seq<LoopIn>): (r: (World, Adapter))
    requires |a.latency| == a.total
    ensures |r.1.latency| == r.1.total
    decreases |ins|
  {
    if ins == [] || !Goes(a) then (w, a)
    else
      var (w1, a1) := LoopBody(w, a, ins[0]);
      Drive(w1, a1, ins[1..])
  }

  // ----- the libpq contract along the loop --------------------------------

  predicate LegalReady(w: World, a: Adapter, ins: seq<ReadyIn>)
    requires |a.latency| == a.total
    decreases |ins|
  {
    ins == [] ||
    (ins[0].event.ServiceEvent? && Legal(w, ins[0].event) &&
     var (w1, a1) := OnReady(w, a, ins[0]); LegalReady(w1, a1, ins[1..]))
  }

  predicate LegalBody(w: World, a: Adapter, inp: LoopIn)
    requires |a.latency| == a.total
  {
    (Submits(w, a) && inp.submit.argsOk ==> Legal(w, SubmitEvent(a, inp.submit))) &&
    var (w1, a1, rc) := if Submits(w, a) then SubmitOne(w, a, inp.submit) else (w, a, RcOk);
    rc == RcOk ==> LegalReady(w1, a1, inp.ready)
  }

  predicate LegalDrive(w: World, a: Adapter, ins: seq<LoopIn>)
    requires |a.latency| == a.total
    decreases |ins|
  {
    ins == [] || !Goes(a) ||
    (LegalBody(w, a, ins[0]) && var (w1, a1) := LoopBody(w, a, ins[0]); LegalDrive(w1, a1, ins[1..]))
  }

  // ----- what every pass keeps --------------------------------------------

  /** Requests carry their index; at most one is outstanding; the shared token is its token. */
  predicate Coupled(w: World, a: Adapter) {
    && Inv(w) && w.client.capacity == 1
    && |w.client.log| == a.completed
    && a.submitted == a.completed + |w.client.queue|
    && a.inflight == (w.client.queue != [])
    && (w.client.queue != [] ==> w.client.queue[0] == RequestOf(a.completed) && a.tokenIndex == a.completed)
    && (forall i :: 0 <= i < a.completed ==> w.client.log[i].request == RequestOf(i))
    && a.submitted <= a.total == |a.latency|
    && (!a.failed ==> w.client.phase == Ready)
    && (!a.failed ==> forall i :: 0 <= i < a.completed ==> a.latency[i] > 0 && w.client.log[i].status == StatusOk)
  }

  lemma SubmitKeeps(w: World, a: Adapter, inp: SubmitIn)
    requires Coupled(w, a) && Submits(w, a) && Goes(a)
    requires inp.argsOk ==> Legal(w, SubmitEvent(a, inp))
    ensures var (w1, a1, rc) := SubmitOne(w, a, inp);
            Coupled(w1, a1) && rc != RcRange && (rc == RcInvalidArg ==> !inp.argsOk)
  {
    hide Inv;
    if inp.argsOk {
      SendKeepsInv(w, SubmitEvent(a, inp));
    }
  }

  /** One callback: it belongs to the operation whose token is in the adapter. */
  lemma FinishKeeps(w: World, a: Adapter, w1: World, completion: Completion, inp: ReadyIn)
    requires Coupled(w, a) && Inv(w1) && w1.client.capacity == 1 && w.client.queue != []
    requires w1.client.log == w.client.log + [completion] && w1.client.queue == []
    requires completion.request == w.client.queue[0]
    ensures var a1 := Finish(a, completion, inp);
            Coupled(w1, a1.(failed := true)) && (w1.client.phase == Ready || a.failed ==> Coupled(w1, a1))
  {
    hide Inv;
    assert |w.client.queue| == 1 by { QueueBound(w); }
  }

  lemma ReadyKeeps(w: World, a: Adapter, inp: ReadyIn)
    requires Coupled(w, a) && inp.event.ServiceEvent? && Legal(w, inp.event)
    ensures Coupled(OnReady(w, a, inp).0, OnReady(w, a, inp).1)
  {
    hide Inv, Service, Legal, SentAfter, Finish;
    var e := inp.event;
    var (w1, rc) := Step(w, e);
    ServiceKeepsInv(w, e);
    var called := ServiceCallsFromFront(w.client, e.readable, e.writable, e.env);
    RunKeepsCapacityOnce(w, e);
    ReadyUnlessError(w, e);
    QueueBound(w);
    assert NewCompletions(w.client.log, w1.client.log) == called;
    if called == [] {
      assert w1.client.queue == w.client.queue && w1.client.log == w.client.log;
    } else {
      assert called[..0] == [] && called == [called[0]];
      assert FinishAll(a, called, inp) == Finish(a, called[0], inp);
      FinishKeeps(w, a, w1, called[0], inp);
    }
  }

  lemma QueueBound(w: World)
    requires Inv(w) && w.client.capacity == 1
    ensures |w.client.queue| <= 1
  {
  }

  lemma RunKeepsCapacityOnce(w: World, e: Event)
    ensures Step(w, e).0.client.capacity == w.client.capacity
  {
    RunKeepsCapacity(w, [e]);
    assert [e][1..] == [];
    assert Run(Step(w, e).0, []) == Step(w, e).0;
  }

  lemma ReadyUnlessError(w: World, e: Event)
    requires Inv(w) && Legal(w, e)
    ensures w.client.phase == Ready && Step(w, e).1 == RcOk ==> Step(w, e).0.client.phase == Ready
  {
    if w.client.phase == Ready { StaysReady(w, e); }
  }

  lemma {:induction false} AllReadyKeep(w: World, a: Adapter, ins: seq<ReadyIn>)
    requires Coupled(w, a) && LegalReady(w, a, ins)
    ensures Coupled(OnReadyAll(w, a, ins).0, OnReadyAll(w, a, ins).1)
    decreases |ins|
  {
    hide OnReady, Legal, Inv;
    if ins != [] {
      ReadyKeeps(w, a, ins[0]);
      var (w1, a1) := OnReady(w, a, ins[0]);
      AllReadyKeep(w1, a1, ins[1..]);
    }
  }

  lemma BodyKeeps(w: World, a: Adapter, inp: LoopIn)
    requires Coupled(w, a) && Goes(a) && LegalBody(w, a, inp)
    ensures Coupled(LoopBody(w, a, inp).0, LoopBody(w, a, inp).1)
  {
    hide SubmitOne, OnReadyAll, LegalReady, Legal, Inv;
    if Submits(w, a) { SubmitKeeps(w, a, inp.submit); }
    var (w1, a1, rc) := if Submits(w, a) then SubmitOne(w, a, inp.submit) else (w, a, RcOk);
    if rc == RcOk { AllReadyKeep(w1, a1, inp.ready); }
  }

  lemma {:induction false} DriveKeeps(w: World, a: Adapter, ins: seq<LoopIn>)
    requires Coupled(w, a) && LegalDrive(w, a, ins)
    ensures Coupled(Drive(w, a, ins).0, Drive(w, a, ins).1)
    decreases |ins|
  {
    hide LoopBody, LegalBody, Inv;
    if ins != [] && Goes(a) {
      BodyKeeps(w, a, ins[0]);
      var (w1, a1) := LoopBody(w, a, ins[0]);
      DriveKeeps(w1, a1, ins[1..]);
    }
  }

  /** The adapter starts its loop on a connected, idle client of depth 1. */
  predicate Connected(w: World) {
    w == Start(1).(client := Start(1).client.(phase := Ready, poll := PollOk))
  }

  /** In every run of the loop: submitted - completed is 1 while an operation is in flight
      and 0 otherwise, the callbacks so far are those of operations 0, 1, 2, ... in order,
      and the loop ends without failure only with all operations completed, each once,
      successful, with a positive latency in its own slot. */
  lemma DriveCompletesInOrder(w: World, total: nat, ins: seq<LoopIn>)
    requires Connected(w) && LegalDrive(w, Begin(total), ins)
    ensures var (w', a) := Drive(w, Begin(total), ins);
            && a.submitted - a.completed == (if a.inflight then 1 else 0)
            && |w'.client.log| == a.completed <= a.submitted <= total
            && (forall i :: 0 <= i < a.completed ==>
                  w'.client.log[i].request == Request(if i % 3 == 2 then Exposure else Position, i))
            && (!a.failed && !Goes(a) ==>
                  a.completed == total && |a.latency| == total &&
                  forall i :: 0 <= i < total ==> a.latency[i] > 0 && w'.client.log[i].status == StatusOk)
  {
    hide Drive, LegalDrive, Inv;
    assert Coupled(w, Begin(total)) by { StartCoupled(w, total); }
    DriveKeeps(w, Begin(total), ins);
    var (w', a) := Drive(w, Begin(total), ins);
    QueueBound(w');
    DriveKeepsTotal(w, Begin(total), ins);
  }

  lemma StartCoupled(w: World, total: nat)
    requires Connected(w)
    ensures Coupled(w, Begin(total))
  {
  }

  lemma {:induction false} ReadyKeepsTotal(w: World, a: Adapter, ins: seq<ReadyIn>)
    requires |a.latency| == a.total
    ensures OnReadyAll(w, a, ins).1.total == a.total
    decreases |ins|
  {
    hide Step;
    if ins != [] {
      var (w1, a1) := OnReady(w, a, ins[0]);
      ReadyKeepsTotal(w1, a1, ins[1..]);
    }
  }

  lemma {:induction false} DriveKeepsTotal(w: World, a: Adapter, ins: seq<LoopIn>)
    requires |a.latency| == a.total
    ensures Drive(w, a, ins).1.total == a.total
    decreases |ins|
  {
    hide Step, OnReadyAll;
    if ins != [] && Goes(a) {
      var (w1, a1, rc) := if Submits(w, a) then SubmitOne(w, a, ins[0].submit) else (w, a, RcOk);
      ReadyKeepsTotal(w1, a1, ins[0].ready);
      var (w2, a2) := LoopBody(w, a, ins[0]);
      DriveKeepsTotal(w2, a2, ins[1..]);
    }
  }

  /** In no run of the loop does a pass have its submission refused for a full queue or an
      outstanding Sync. */
  lemma NeverRefused(w: World, total: nat, ins: seq<LoopIn>, inp: LoopIn)
    requires Connected(w) && LegalDrive(w, Begin(total), ins)
    requires var (w', a) := Drive(w, Begin(total), ins); Goes(a) && LegalBody(w', a, inp)
    ensures var (w', a) := Drive(w, Begin(total), ins);
            Submits(w', a) ==> SubmitOne(w', a, inp.submit).2 != RcRange
  {
    hide LegalReady, LegalDrive, Drive, SubmitOne, Inv;
    StartCoupled(w, total);
    DriveKeeps(w, Begin(total), ins);
    var (w', a) := Drive(w, Begin(total), ins);
    if Submits(w', a) { SubmitKeeps(w', a, inp.submit); }
  }

  // ----- the loop can succeed ---------------------------------------------

  lemma {:induction false} NotAborting(sent: seq<Cmd>, n: nat)
    requires n <= |sent|
    requires forall k :: 0 <= k < |Outcomes(sent, n)| ==> Outcomes(sent, n)[k].status == StatusOk
    ensures !Aborting(sent, n)
  {
    if n > 0 && sent[n - 1].Query? {
      var before := Outcomes(sent, n - 1);
      forall k | 0 <= k < |before|
        ensures before[k].status == StatusOk
      {
        assert Outcomes(sent, n)[k] == before[k];
      }
      NotAborting(sent, n - 1);
      assert Outcomes(sent, n)[|before|].status == ItemStatus(Reply(sent, n - 1));
    }
  }

  /** The server has not already decided to fail the operation in flight. */
  predicate Promising(w: World) {
    w.client.queue != [] ==> w.pos < |w.sent| && w.sent[w.pos] == Query(w.client.queue[0], Rows(true))
  }

  /** When all replies are in, the operation in flight has succeeded. */
  lemma PromisedOutcome(w: World, a: Adapter, w2: World)
    requires Coupled(w, a) && !a.failed && Promising(w) && w.client.queue != []
    requires Inv(w2) && w2.pos == |w2.sent| && (w2.sent == w.sent || w2.sent == w.sent + [Sync])
    ensures |w2.client.log| > a.completed && w2.client.log[a.completed].status == StatusOk
  {
    hide Outcomes, Aborting, Outstanding;
    NotAborting(w.sent, w.pos);
    if w2.sent != w.sent {
      AbortingPrefix(w.sent, [Sync], w.pos);
      OutcomesPrefix(w.sent, [Sync], w.pos);
    }
    OutcomeOf(w2.sent, w2.pos, w.pos);
  }

  /** The readiness callbacks in which everything goes out and every reply comes in. */
  function Prompt(w: World, a: Adapter): seq<ReadyIn> {
    var end := a.tokenStarted + 1;
    var w1 := Step(w, FlushEvent(w)).0;
    if w1.pos <= |w1.sent| then
      [ReadyIn(FlushEvent(w), true, true, end), ReadyIn(ReadEvent(w1), true, true, end)]
    else []
  }

  lemma QuietReady(w: World, a: Adapter)
    requires Coupled(w, a) && !a.failed
    ensures var inp := ReadyIn(FlushEvent(w), true, true, a.tokenStarted + 1);
            OnReady(w, a, inp) == (Step(w, FlushEvent(w)).0, a)
  {
    hide Inv, Legal, Step;
    FlushStep(w);
    var w1 := Step(w, FlushEvent(w)).0;
    assert NewCompletions(w.client.log, w1.client.log) == [];
  }

  lemma AnsweredReady(w: World, a: Adapter)
    requires Coupled(w, a) && !a.failed && Promising(w) && Flushed(w) && w.pos <= |w.sent|
    ensures var inp := ReadyIn(ReadEvent(w), true, true, a.tokenStarted + 1);
            var (w1, a1) := OnReady(w, a, inp);
            && w1 == Step(w, ReadEvent(w)).0 && Legal(w, ReadEvent(w))
            && Coupled(w1, a1) && !a1.failed && IsIdle(w1.client) && a1.total == a.total
            && a1.completed == a1.submitted == a.submitted
  {
    hide Inv, Legal, Conforms, Drain, Replies, SentAfter;
    var e := ReadEvent(w);
    var inp := ReadyIn(e, true, true, a.tokenStarted + 1);
    ReadStep(w);
    var w1 := Step(w, e).0;
    var called := ServiceCallsFromFront(w.client, e.readable, e.writable, e.env);
    ReadyKeeps(w, a, inp);
    QueueBound(w);
    hide Step, Service, ReadEvent;
    assert NewCompletions(w.client.log, w1.client.log) == called;
    if called != [] {
      PromisedOutcome(w, a, w1);
      assert called[..0] == [] && called == [called[0]];
      assert FinishAll(a, called, inp) == Finish(a, called[0], inp);
    }
  }

  /** The two callbacks complete the operation in flight, if there is one, and leave the
      client idle. */
  lemma PromptCompletes(w: World, a: Adapter)
    requires Coupled(w, a) && !a.failed && Promising(w)
    ensures LegalReady(w, a, Prompt(w, a))
    ensures var (w1, a1) := OnReadyAll(w, a, Prompt(w, a));
            && Coupled(w1, a1) && !a1.failed && IsIdle(w1.client) && a1.total == a.total
            && a1.completed == a1.submitted == a.submitted
  {
    hide Inv, Legal, Step, OnReady, IsIdle, FlushEvent, ReadEvent;
    FlushStep(w);
    var w1 := Step(w, FlushEvent(w)).0;
    assert w1.pos <= |w1.sent| by { Bounds(w1); }
    QuietReady(w, a);
    assert FlushEvent(w).ServiceEvent? && ReadEvent(w1).ServiceEvent? by { AreServices(w, w1); }
    ReadyKeeps(w, a, ReadyIn(FlushEvent(w), true, true, a.tokenStarted + 1));
    AnsweredReady(w1, a);
    var first, second := Prompt(w, a)[0], Prompt(w, a)[1];
    assert [first, second][1..] == [second] && [second][1..] == [];
    var (w2, a2) := OnReady(w1, a, second);
    assert LegalReady(w2, a2, []) && OnReadyAll(w2, a2, []) == (w2, a2);
    assert LegalReady(w1, a, [second]) && OnReadyAll(w1, a, [second]) == (w2, a2);
  }

  lemma AreServices(w: World, w1: World)
    requires w1.pos <= |w1.sent|
    ensures FlushEvent(w).ServiceEvent? && ReadEvent(w1).ServiceEvent?
  {
  }

  /** A submission that goes through, for an operation that the server will answer. */
  function GoodSubmit(w: World): SubmitIn {
    SubmitIn(0, true, Rows(true), true, 0, |w.sent| + 1, true)
  }

  lemma SubmitGoesThrough(w: World, a: Adapter)
    requires Coupled(w, a) && Submits(w, a) && Goes(a)
    ensures Legal(w, SubmitEvent(a, GoodSubmit(w)))
    ensures var (w1, a1, rc) := SubmitOne(w, a, GoodSubmit(w));
            && rc == RcOk && Coupled(w1, a1) && !a1.failed && Promising(w1) && a1.total == a.total
            && a1.submitted == a.submitted + 1
  {
    hide Outcomes;
    SubmitKeeps(w, a, GoodSubmit(w));
  }

  /** One pass that gets on: it completes the next operation, or at least reaches idle. */
  lemma GoodPass(w: World, a: Adapter) returns (inp: LoopIn)
    requires Coupled(w, a) && Goes(a) && Promising(w)
    ensures LegalBody(w, a, inp)
    ensures var (w1, a1) := LoopBody(w, a, inp);
            && Coupled(w1, a1) && !a1.failed && IsIdle(w1.client) && Promising(w1) && a1.total == a.total
            && a1.completed == (if IsIdle(w.client) then a.completed + 1 else a.submitted)
  {
    hide Inv, Legal, SubmitOne, OnReadyAll, LegalReady, Prompt;
    var w1, a1 := w, a;
    if Submits(w, a) {
      SubmitGoesThrough(w, a);
      var (w', a', rc) := SubmitOne(w, a, GoodSubmit(w));
      w1, a1 := w', a';
    }
    PromptCompletes(w1, a1);
    inp := LoopIn(GoodSubmit(w), Prompt(w1, a1), true, false);
  }

  /** From every state of the loop in which neither the adapter nor the server has failed an
      operation, there is a legal way on that ends with all operations completed. */
  lemma {:induction false} CanComplete(w: World, a: Adapter) returns (ins: seq<LoopIn>)
    requires Coupled(w, a) && !a.failed && Promising(w)
    ensures LegalDrive(w, a, ins)
    ensures var (w', a') := Drive(w, a, ins); !a'.failed && a'.completed == a'.total == a.total
    decreases a.total - a.completed, if IsIdle(w.client) then 0 else 1
  {
    hide Inv, LegalBody, LoopBody, IsIdle;
    ins := [];
    if Goes(a) {
      var inp := GoodPass(w, a);
      var (w1, a1) := LoopBody(w, a, inp);
      var rest := CanComplete(w1, a1);
      ins := [inp] + rest;
      assert ins[1..] == rest;
    }
  }

  lemma {:induction false} ReadySentGrows(w: World, a: Adapter, ins: seq<ReadyIn>)
    requires |a.latency| == a.total
    ensures w.sent <= OnReadyAll(w, a, ins).0.sent
    decreases |ins|
  {
    hide Service, Send;
    if ins != [] {
      var (w1, a1) := OnReady(w, a, ins[0]);
      ReadySentGrows(w1, a1, ins[1..]);
    }
  }

  lemma {:induction false} DriveSentGrows(w: World, a: Adapter, ins: seq<LoopIn>)
    requires |a.latency| == a.total
    ensures w.sent <= Drive(w, a, ins).0.sent
    decreases |ins|
  {
    hide Service, Send, OnReadyAll;
    if ins != [] && Goes(a) {
      var (w1, a1, rc) := if Submits(w, a) then SubmitOne(w, a, ins[0].submit) else (w, a, RcOk);
      ReadySentGrows(w1, a1, ins[0].ready);
      var (w2, a2) := LoopBody(w, a, ins[0]);
      DriveSentGrows(w2, a2, ins[1..]);
    }
  }

  lemma {:induction false} OutcomesGrow(sent: seq<Cmd>, m: nat, n: nat)
    requires m <= n <= |sent|
    ensures |Outcomes(sent, m)| <= |Outcomes(sent, n)|
  {
    if m < n { OutcomesGrow(sent, m, n - 1); }
  }

  /** An operation that the server fails shows up as such in every later log. */
  lemma DoomedOutcome(w: World, a: Adapter, w': World, a': Adapter)
    requires Coupled(w, a) && !Promising(w) && Coupled(w', a') && w.sent <= w'.sent
    ensures a'.failed || a'.completed <= a.completed
  {
    hide Outcomes, Aborting;
    var more := w'.sent[|w.sent|..];
    assert w'.sent == w.sent + more;
    OutcomesPrefix(w.sent, more, w.pos);
    if w'.pos <= w.pos {
      OutcomesGrow(w'.sent, w'.pos, w.pos);
    } else {
      OutcomeOf(w'.sent, w'.pos, w.pos);
    }
  }

  /** The loop can complete all operations exactly when the server has not already decided to
      fail the one in flight. */
  lemma CompletesExactly(w: World, a: Adapter)
    requires Coupled(w, a) && !a.failed
    ensures Promising(w) <==>
            exists ins :: LegalDrive(w, a, ins) && !Drive(w, a, ins).1.failed && Drive(w, a, ins).1.completed == a.total
  {
    hide Inv, Drive, LegalDrive;
    if Promising(w) {
      var ins := CanComplete(w, a);
      assert LegalDrive(w, a, ins) && !Drive(w, a, ins).1.failed && Drive(w, a, ins).1.completed == a.total;
    } else {
      forall ins | LegalDrive(w, a, ins)
        ensures Drive(w, a, ins).1.failed || Drive(w, a, ins).1.completed < a.total
      {
        DriveKeeps(w, a, ins);
        DriveSentGrows(w, a, ins);
        DoomedOutcome(w, a, Drive(w, a, ins).0, Drive(w, a, ins).1);
      }
    }
  }

  /** So from every new connection, some run of the loop completes any number of operations. */
  lemma SomeRunSucceeds(w: World, total: nat) returns (ins: seq<LoopIn>)
    requires Connected(w)
    ensures LegalDrive(w, Begin(total), ins)
    ensures var a := Drive(w, Begin(total), ins).1; !a.failed && a.completed == total
  {
    StartCoupled(w, total);
    hide Inv, Drive, LegalDrive, Coupled;
    ins := CanComplete(w, Begin(total));
  }

  // ----- what success says about every operation --------------------------

  /** The readiness callbacks in which an operation completed. */
  function Ended(w: World, a: Adapter, ins: seq<ReadyIn>): seq<ReadyIn>
    requires |a.latency| == a.total
    decreases |ins|
  {
    if ins == [] then []
    else
      var (w1, a1) := OnReady(w, a, ins[0]);
      (if a1.completed > a.completed then [ins[0]] else []) + Ended(w1, a1, ins[1..])
  }

  /** The start times of the submissions in a run of the loop, in order. */
  function StartTimes(w: World, a: Adapter, ins: seq<LoopIn>): seq<int>
    requires |a.latency| == a.total
    decreases |ins|
  {
    if ins == [] || !Goes(a) then []
    else
      var (w1, a1) := LoopBody(w, a, ins[0]);
      (if a1.submitted > a.submitted then [ins[0].submit.startedNs] else []) + StartTimes(w1, a1, ins[1..])
  }

  /** The callbacks in which operations completed in a run of the loop, in order. */
  function Endings(w: World, a: Adapter, ins: seq<LoopIn>): seq<ReadyIn>
    requires |a.latency| == a.total
    decreases |ins|
  {
    if ins == [] || !Goes(a) then []
    else
      var (ws, as_, rc) := if Submits(w, a) then SubmitOne(w, a, ins[0].submit) else (w, a, RcOk);
      var (w1, a1) := LoopBody(w, a, ins[0]);
      (if rc == RcOk then Ended(ws, as_, ins[0].ready) else []) + Endings(w1, a1, ins[1..])
  }

  /** No pass of the run was late, failed in the event loop, or failed to update its watch. */
  predicate OnTime(w: World, a: Adapter, ins: seq<LoopIn>)
    requires |a.latency| == a.total
    decreases |ins|
  {
    ins == [] || !Goes(a) ||
    (ins[0].runtimeOk && !ins[0].late && (Submits(w, a) ==> ins[0].submit.watchOk) &&
     (forall j :: 0 <= j < |ins[0].ready| ==> ins[0].ready[j].watchOk) &&
     var (w1, a1) := LoopBody(w, a, ins[0]); OnTime(w1, a1, ins[1..]))
  }

  /** A good ending of operation i: its reply matched where that is checked, and it took time. */
  predicate GoodEnd(i: nat, started: int, end: ReadyIn) {
    end.endedNs > started && (i % 3 == 2 ==> end.matches)
  }

  lemma OneReady(w: World, a: Adapter, inp: ReadyIn)
    requires Coupled(w, a) && inp.event.ServiceEvent? && Legal(w, inp.event) && !OnReady(w, a, inp).1.failed
    ensures var (w1, a1) := OnReady(w, a, inp);
            && !a.failed && inp.watchOk && Coupled(w1, a1) && a1.total == a.total && a1.submitted == a.submitted
            && a1.tokenStarted == a.tokenStarted && a1.tokenIndex == a.tokenIndex
            && (a1.completed == a.completed ==> a1 == a)
            && (a1.completed != a.completed ==>
                  a.inflight && a1.completed == a.completed + 1 && GoodEnd(a.completed, a.tokenStarted, inp) &&
                  a1.latency == a.latency[a.completed := inp.endedNs - a.tokenStarted])
  {
    hide Inv, Service, Legal, SentAfter;
    var e := inp.event;
    var (w1, rc) := Step(w, e);
    ReadyKeeps(w, a, inp);
    var called := ServiceCallsFromFront(w.client, e.readable, e.writable, e.env);
    QueueBound(w);
    assert NewCompletions(w.client.log, w1.client.log) == called;
    if called != [] {
      assert called[..0] == [] && called == [called[0]];
      assert FinishAll(a, called, inp) == Finish(a, called[0], inp);
    }
  }

  lemma {:induction false} ReadyFailedStays(w: World, a: Adapter, ins: seq<ReadyIn>)
    requires |a.latency| == a.total && a.failed
    ensures OnReadyAll(w, a, ins).1.failed
    decreases |ins|
  {
    hide Step;
    if ins != [] {
      var (w1, a1) := OnReady(w, a, ins[0]);
      FinishAllKeepsFailed(a, NewCompletions(w.client.log, w1.client.log), ins[0]);
      ReadyFailedStays(w1, a1, ins[1..]);
    }
  }

  lemma {:induction false} FinishAllKeepsFailed(a: Adapter, completions: seq<Completion>, inp: ReadyIn)
    requires |a.latency| == a.total && a.failed
    ensures FinishAll(a, completions, inp).failed
  {
    if completions != [] { FinishAllKeepsFailed(a, completions[..|completions| - 1], inp); }
  }

  /** A sequence of callbacks that ends unfailed completes the operation in flight at most once. */
  lemma {:induction false} ReadyTimes(w: World, a: Adapter, ins: seq<ReadyIn>)
    requires Coupled(w, a) && LegalReady(w, a, ins) && !OnReadyAll(w, a, ins).1.failed
    ensures forall j :: 0 <= j < |ins| ==> ins[j].watchOk
    ensures var (w1, a1) := OnReadyAll(w, a, ins);
            var ended := Ended(w, a, ins);
            && !a.failed && Coupled(w1, a1) && a1.total == a.total && a1.submitted == a.submitted
            && a1.tokenStarted == a.tokenStarted
            && a1.completed == a.completed + |ended|
            && (ended == [] ==> a1.latency == a.latency)
            && (ended != [] ==> a.inflight && |ended| == 1 && GoodEnd(a.completed, a.tokenStarted, ended[0]) &&
                                a1.latency == a.latency[a.completed := ended[0].endedNs - a.tokenStarted])
    decreases |ins|
  {
    hide OnReady, Legal, Coupled, GoodEnd;
    assert |a.latency| == a.total by { LatencySize(w, a); }
    if ins != [] {
      var (w1, a1) := OnReady(w, a, ins[0]);
      if a1.failed { ReadyFailedStays(w1, a1, ins[1..]); }
      OneReady(w, a, ins[0]);
      ReadyTimes(w1, a1, ins[1..]);
      InFlight(w, a);
      InFlight(w1, a1);
    }
  }

  lemma LatencySize(w: World, a: Adapter)
    requires Coupled(w, a)
    ensures |a.latency| == a.total
  {
  }

  lemma InFlight(w: World, a: Adapter)
    requires Coupled(w, a)
    ensures a.inflight <==> a.submitted == a.completed + 1
    ensures !a.inflight <==> a.submitted == a.completed
    ensures a.submitted <= a.total
  {
    QueueBound(w);
  }

  /** The operation that a pass starts, if it does, and the one it completes. */
  lemma PassTimes(w: World, a: Adapter, inp: LoopIn)
    requires Coupled(w, a) && Goes(a) && LegalBody(w, a, inp) && !LoopBody(w, a, inp).1.failed
    ensures (Submits(w, a) ==> inp.submit.watchOk) && forall j :: 0 <= j < |inp.ready| ==> inp.ready[j].watchOk
    ensures var (w1, a1) := LoopBody(w, a, inp);
            var (ws, as_, rc) := if Submits(w, a) then SubmitOne(w, a, inp.submit) else (w, a, RcOk);
            var started := if Submits(w, a) then inp.submit.startedNs else a.tokenStarted;
            && inp.runtimeOk && !inp.late && rc == RcOk && Coupled(w1, a1) && a1.total == a.total
            && |as_.latency| == as_.total && a1.tokenStarted == started
            && a1.submitted == a.submitted + (if Submits(w, a) then 1 else 0)
            && var ended := Ended(ws, as_, inp.ready);
               && a1.completed == a.completed + |ended|
               && (ended == [] ==> a1.latency == a.latency)
               && (ended != [] ==> |ended| == 1 && a1.submitted > a.completed &&
                                   GoodEnd(a.completed, started, ended[0]) &&
                                   a1.latency == a.latency[a.completed := ended[0].endedNs - started])
  {
    hide Inv, Legal, LegalReady, OnReadyAll, Ended, GoodEnd;
    BodyKeeps(w, a, inp);
    if Submits(w, a) { SubmitKeeps(w, a, inp.submit); }
    var (ws, as_, rc) := if Submits(w, a) then SubmitOne(w, a, inp.submit) else (w, a, RcOk);
    assert rc == RcOk;
    ReadyTimes(ws, as_, inp.ready);
    InFlight(ws, as_);
  }

  lemma {:induction false} DriveFailedStays(w: World, a: Adapter, ins: seq<LoopIn>)
    requires |a.latency| == a.total && a.failed
    ensures Drive(w, a, ins).1.failed
  {
  }

  /** Start times of the operations not yet completed, the one in flight first. */
  function OpenStarts(w: World, a: Adapter, ins: seq<LoopIn>): seq<int>
    requires |a.latency| == a.total
  {
    (if a.inflight then [a.tokenStarted] else []) + StartTimes(w, a, ins)
  }

  ghost predicate Timed(first: nat, starts: seq<int>, ends: seq<ReadyIn>, latency: seq<int>) {
    |ends| <= |starts| && first + |ends| <= |latency| &&
    forall i :: 0 <= i < |ends| ==>
      GoodEnd(first + i, starts[i], ends[i]) && latency[first + i] == ends[i].endedNs - starts[i]
  }

  lemma TimedShift(first: nat, starts: seq<int>, ends: seq<ReadyIn>, latency: seq<int>)
    requires starts != [] && ends != [] && first < |latency|
    requires GoodEnd(first, starts[0], ends[0]) && latency[first] == ends[0].endedNs - starts[0]
    requires Timed(first + 1, starts[1..], ends[1..], latency)
    ensures Timed(first, starts, ends, latency)
  {
    hide GoodEnd;
    forall i | 0 <= i < |ends|
      ensures GoodEnd(first + i, starts[i], ends[i]) && latency[first + i] == ends[i].endedNs - starts[i]
    {
      if i > 0 {
        assert starts[1..][i - 1] == starts[i] && ends[1..][i - 1] == ends[i];
      }
    }
  }

  lemma {:induction false} DriveTimes(w: World, a: Adapter, ins: seq<LoopIn>)
    requires Coupled(w, a) && LegalDrive(w, a, ins) && !Drive(w, a, ins).1.failed
    ensures var (w', a') := Drive(w, a, ins);
            && !a.failed && OnTime(w, a, ins) && a'.total == a.total
            && a'.completed == a.completed + |Endings(w, a, ins)|
            && Timed(a.completed, OpenStarts(w, a, ins), Endings(w, a, ins), a'.latency)
            && forall i :: 0 <= i < a.completed ==> a'.latency[i] == a.latency[i]
    decreases |ins|
  {
    hide LoopBody, LegalBody, Coupled, GoodEnd, SubmitOne, Submits, Timed;
    assert |a.latency| == a.total by { LatencySize(w, a); }
    InFlight(w, a);
    if ins == [] || !Goes(a) {
      if a.failed { DriveFailedStays(w, a, ins); }
      NothingTimed(a.completed, OpenStarts(w, a, ins), a.latency);
    } else {
      var (w1, a1) := LoopBody(w, a, ins[0]);
      if a1.failed { DriveFailedStays(w1, a1, ins[1..]); }
      PassTimes(w, a, ins[0]);
      DriveTimes(w1, a1, ins[1..]);
      InFlight(w1, a1);
      NextTimes(w, a, ins);
    }
  }

  lemma NothingTimed(first: nat, starts: seq<int>, latency: seq<int>)
    requires first <= |latency|
    ensures Timed(first, starts, [], latency)
  {
  }

  /** The times of the whole run from those of its rest. */
  lemma NextTimes(w: World, a: Adapter, ins: seq<LoopIn>)
    requires Coupled(w, a) && ins != [] && Goes(a) && LegalBody(w, a, ins[0]) && !LoopBody(w, a, ins[0]).1.failed
    requires var (w1, a1) := LoopBody(w, a, ins[0]);
             var a' := Drive(w, a, ins).1;
             && Timed(a1.completed, OpenStarts(w1, a1, ins[1..]), Endings(w1, a1, ins[1..]), a'.latency)
             && |a'.latency| == a.total && a1.completed <= |a1.latency|
             && forall i :: 0 <= i < a1.completed && i < |a'.latency| ==> a'.latency[i] == a1.latency[i]
    ensures Timed(a.completed, OpenStarts(w, a, ins), Endings(w, a, ins), Drive(w, a, ins).1.latency)
  {
    hide LoopBody, LegalBody, Coupled, GoodEnd, SubmitOne, Drive, Ended, Submits, Timed, OpenStarts, Endings;
    assert |a.latency| == a.total by { LatencySize(w, a); }
    PassTimes(w, a, ins[0]);
    var (w1, a1) := LoopBody(w, a, ins[0]);
    var (ws, as_, rc) := if Submits(w, a) then SubmitOne(w, a, ins[0].submit) else (w, a, RcOk);
    var ended := Ended(ws, as_, ins[0].ready);
    StartsStep(w, a, ins);
    EndsStep(w, a, ins);
    if ended != [] {
      var starts, ends := OpenStarts(w, a, ins), Endings(w, a, ins);
      assert ends[0] == ended[0] && ends[1..] == Endings(w1, a1, ins[1..]);
      TimedShift(a.completed, starts, ends, Drive(w, a, ins).1.latency);
    } else {
      assert Endings(w, a, ins) == Endings(w1, a1, ins[1..]);
    }
  }

  lemma EndsStep(w: World, a: Adapter, ins: seq<LoopIn>)
    requires Coupled(w, a) && ins != [] && Goes(a) && LegalBody(w, a, ins[0]) && !LoopBody(w, a, ins[0]).1.failed
    ensures var (w1, a1) := LoopBody(w, a, ins[0]);
            var (ws, as_, rc) := if Submits(w, a) then SubmitOne(w, a, ins[0].submit) else (w, a, RcOk);
            Endings(w, a, ins) == Ended(ws, as_, ins[0].ready) + Endings(w1, a1, ins[1..])
  {
    hide LoopBody, LegalBody, Coupled, GoodEnd, SubmitOne, Ended, Submits;
    assert |a.latency| == a.total by { LatencySize(w, a); }
    PassTimes(w, a, ins[0]);
  }

  /** A pass that completes nothing leaves the open starts; one that completes an operation
      takes the first of them, which is its start. */
  lemma StartsStep(w: World, a: Adapter, ins: seq<LoopIn>)
    requires Coupled(w, a) && ins != [] && Goes(a) && LegalBody(w, a, ins[0]) && !LoopBody(w, a, ins[0]).1.failed
    ensures var (w1, a1) := LoopBody(w, a, ins[0]);
            var starts, rest := OpenStarts(w, a, ins), OpenStarts(w1, a1, ins[1..]);
            if a1.completed == a.completed then starts == rest
            else starts == [if Submits(w, a) then ins[0].submit.startedNs else a.tokenStarted] + rest
  {
    hide LoopBody, LegalBody, Coupled, GoodEnd, SubmitOne, Ended;
    assert |a.latency| == a.total by { LatencySize(w, a); }
    PassTimes(w, a, ins[0]);
    var (w1, a1) := LoopBody(w, a, ins[0]);
    InFlight(w, a);
    InFlight(w1, a1);
  }

  /** When the loop has completed all operations without failure, no pass was late, and for every
      operation i its latency slot holds its own end minus its own start, which is positive, and
      every exposure reply matched. */
  lemma SuccessMeans(w: World, total: nat, ins: seq<LoopIn>)
    requires Connected(w) && LegalDrive(w, Begin(total), ins)
    requires var a := Drive(w, Begin(total), ins).1; !a.failed && !Goes(a)
    ensures OnTime(w, Begin(total), ins)
    ensures var a := Drive(w, Begin(total), ins).1;
            var starts, ends := StartTimes(w, Begin(total), ins), Endings(w, Begin(total), ins);
            |ends| == total <= |starts| && |a.latency| == total &&
            forall i :: 0 <= i < total ==>
              a.latency[i] == ends[i].endedNs - starts[i] > 0 && (i % 3 == 2 ==> ends[i].matches)
  {
    hide Drive, LegalDrive, Inv, StartTimes, Endings, OnTime, Coupled, Timed;
    StartCoupled(w, total);
    DriveTimes(w, Begin(total), ins);
    DriveCompletesInOrder(w, total, ins);
    var starts := StartTimes(w, Begin(total), ins);
    assert OpenStarts(w, Begin(total), ins) == starts;
    TimedMeans(starts, Endings(w, Begin(total), ins), Drive(w, Begin(total), ins).1.latency);
  }

  lemma TimedMeans(starts: seq<int>, ends: seq<ReadyIn>, latency: seq<int>)
    requires Timed(0, starts, ends, latency)
    ensures |ends| <= |starts| && |ends| <= |latency|
    ensures forall i :: 0 <= i < |ends| ==>
              latency[i] == ends[i].endedNs - starts[i] > 0 && (i % 3 == 2 ==> ends[i].matches)
  {
    forall i | 0 <= i < |ends|
      ensures latency[i] == ends[i].endedNs - starts[i] > 0 && (i % 3 == 2 ==> ends[i].matches)
    {
      assert GoodEnd(0 + i, starts[i], ends[i]);
    }
  }
}
