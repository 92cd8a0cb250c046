/** The readiness-driven PostgreSQL client (core/platform/db/postgres.c) against a
    pipeline-mode server.

    The client is the C struct on values: its ring buffer appears as the queue of
    requests (`PgClient` has the ring itself). The server answers the commands it was
    sent, in order: one reply a query, "aborted" after the first failure until the next
    Sync, and a sync marker for each Sync. When output is flushed, when replies arrive
    and where libpq inserts its NULL boundaries is open. */
module PgPipeline {

  datatype Kind = Position | Exposure
  datatype Request = Request(kind: Kind, userData: int)
  datatype Status = StatusOk | StatusErrDb
  /** One invocation of a request's callback. */
  datatype Completion = Completion(request: Request, status: Status)

  datatype Phase = Connecting | Ready | Failed
  datatype Poll = PollReading | PollWriting | PollOk | PollFailed
  datatype Rc = RcOk | RcInvalidArg | RcRange | RcIo | RcDb

  datatype Client = Client(phase: Phase, poll: Poll, flushPending: bool, syncSent: bool,
                           queue: seq<Request>, capacity: nat, log: seq<Completion>)

  /** What one PQgetResult call returns. `Row` carries whether the row parses. */
  datatype Item = Row(parses: bool) | Fatal | Aborted | SyncMark | Boundary

  // ----- the client -------------------------------------------------------

  predicate WantsRead(c: Client) {
    (c.phase == Connecting && c.poll == PollReading) || (c.phase == Ready && (c.queue != [] || c.syncSent))
  }

  predicate WantsWrite(c: Client) {
    || (c.phase == Connecting && c.poll == PollWriting)
    || (c.phase == Ready && (c.flushPending || (c.queue != [] && !c.syncSent)))
  }

  predicate IsIdle(c: Client) {
    c.queue == [] && !c.syncSent && !c.flushPending
  }

  /** `send_request`; a nonzero flush result leaves output pending. */
  function Send(c: Client, request: Request, sendOk: bool, flush: int): (Client, Rc) {
    if c.phase != Ready then (c, RcInvalidArg)
    else if |c.queue| == c.capacity || c.syncSent then (c, RcRange)
    else if !sendOk then (c, RcDb)
    else (c.(queue := c.queue + [request], flushPending := flush != 0), RcOk)
  }

  function ItemStatus(item: Item): Status {
    if item == Row(true) then StatusOk else StatusErrDb
  }

  /** `complete_head`: dequeue first, then call back. */
  function CompleteHead(c: Client, status: Status): Client
    requires c.queue != []
  {
    c.(queue := c.queue[1..], log := c.log + [Completion(c.queue[0], status)])
  }

  /** `drain_results` over what PQgetResult returns until libpq is busy. */
  function Drain(c: Client, items: seq<Item>): (Client, Rc)
    decreases |items|
  {
    if items == [] then (c, RcOk)
    else if items[0] == Boundary then
      if c.queue != [] || c.syncSent then Drain(c, items[1..]) else (c, RcOk)
    else if items[0] == SyncMark then Drain(c.(syncSent := false), items[1..])
    else if c.queue == [] then (c.(phase := Failed), RcDb)
    else Drain(CompleteHead(c, ItemStatus(items[0])), items[1..])
  }

  /** What the libpq calls of one `alpha_pg_service` return. */
  datatype Env = Env(poll: Poll, enterOk: bool, syncOk: bool, flush: int, consumeOk: bool, items: seq<Item>)

  function ServiceConnect(c: Client, readable: bool, writable: bool, env: Env): (Client, Rc) {
    if !((c.poll == PollReading && readable) || (c.poll == PollWriting && writable)) then (c, RcOk)
    else if env.poll == PollFailed || (env.poll == PollOk && !env.enterOk) then
      (c.(poll := env.poll, phase := Failed), RcDb)
    else (c.(poll := env.poll, phase := if env.poll == PollOk then Ready else Connecting), RcOk)
  }

  predicate SendsSync(c: Client, writable: bool) {
    c.phase == Ready && writable && c.queue != [] && !c.syncSent
  }

  function Service(c: Client, readable: bool, writable: bool, env: Env): (Client, Rc) {
    if c.phase == Failed then (c, RcInvalidArg)
    else if c.phase == Connecting then ServiceConnect(c, readable, writable, env)
    else if SendsSync(c, writable) && !env.syncOk then (c.(phase := Failed), RcDb)
    else
      var c1 := if SendsSync(c, writable) then c.(syncSent := true, flushPending := true) else c;
      if writable && c1.flushPending && env.flush < 0 then (c1, RcDb)
      else
        var c2 := if writable && c1.flushPending then c1.(flushPending := env.flush != 0) else c1;
        if !readable then (c2, RcOk)
        else if !env.consumeOk then (c2, RcDb)
        else Drain(c2, env.items)
  }

  // ----- the server -------------------------------------------------------

  datatype Verdict = Rows(parses: bool) | Error
  datatype Cmd = Query(request: Request, verdict: Verdict) | Sync

  /** An earlier query of the same batch has failed. */
  predicate Aborting(sent: seq<Cmd>, i: nat)
    requires i <= |sent|
  {
    i > 0 && sent[i - 1].Query? && (sent[i - 1].verdict == Error || Aborting(sent, i - 1))
  }

  function Reply(sent: seq<Cmd>, i: nat): Item
    requires i < |sent|
  {
    if sent[i].Sync? then SyncMark
    else if Aborting(sent, i) then Aborted
    else if sent[i].verdict == Error then Fatal
    else Row(sent[i].verdict.parses)
  }

  /** These items are the replies to `n` commands from `pos` on, with NULLs anywhere. */
  predicate Conforms(sent: seq<Cmd>, pos: nat, items: seq<Item>, n: nat)
    decreases |items|
  {
    if items == [] then n == 0
    else if items[0] == Boundary then Conforms(sent, pos, items[1..], n)
    else n > 0 && pos < |sent| && items[0] == Reply(sent, pos) && Conforms(sent, pos + 1, items[1..], n - 1)
  }

  // ----- client and server together ---------------------------------------

  /** `sent`: every command given to libpq; `flushed` of them have left the client and
      `pos` of them are answered. */
  datatype World = World(client: Client, sent: seq<Cmd>, flushed: nat, pos: nat)

  datatype Event =
    | SendEvent(request: Request, verdict: Verdict, sendOk: bool, flush: int, flushedTo: nat)
    | ServiceEvent(readable: bool, writable: bool, env: Env, flushedTo: nat, answered: nat)

  /** The commands given to libpq after the event. */
  function SentAfter(w: World, e: Event): seq<Cmd> {
    match e
    case SendEvent(request, verdict, sendOk, flush, _) =>
      if Send(w.client, request, sendOk, flush).1 == RcOk then w.sent + [Query(request, verdict)] else w.sent
    case ServiceEvent(_, writable, env, _, _) =>
      if SendsSync(w.client, writable) && env.syncOk then w.sent + [Sync] else w.sent
  }

  /** The event reads results. */
  predicate Reads(c: Client, e: Event) {
    e.ServiceEvent? && e.readable && e.env.consumeOk && c.phase == Ready &&
    (SendsSync(c, e.writable) ==> e.env.syncOk) &&
    !(e.writable && (c.flushPending || SendsSync(c, e.writable)) && e.env.flush < 0)
  }

  /** What libpq guarantees: output is flushed in order and a zero flush result means all
      of it; results that are read conform to the server. */
  predicate Legal(w: World, e: Event) {
    var sent := SentAfter(w, e);
    && w.flushed <= e.flushedTo <= |sent|
    && (e.SendEvent? && e.flush == 0 && sent != w.sent ==> e.flushedTo == |sent|)
    && (e.ServiceEvent? && e.writable && e.env.flush == 0 ==> e.flushedTo == |sent|)
    && (e.ServiceEvent? ==>
          if Reads(w.client, e) then
            w.pos + e.answered <= e.flushedTo && Conforms(sent, w.pos, e.env.items, e.answered)
          else e.answered == 0)
  }

  function Step(w: World, e: Event): (World, Rc) {
    var (c, rc) := match e
      case SendEvent(request, _, sendOk, flush, _) => Send(w.client, request, sendOk, flush)
      case ServiceEvent(readable, writable, env, _, _) => Service(w.client, readable, writable, env);
    (World(c, SentAfter(w, e), e.flushedTo, w.pos + (if e.ServiceEvent? then e.answered else 0)), rc)
  }

  predicate LegalRun(w: World, events: seq<Event>)
    decreases |events|
  {
    events == [] || (Legal(w, events[0]) && LegalRun(Step(w, events[0]).0, events[1..]))
  }

  function Run(w: World, events: seq<Event>): World
    decreases |events|
  {
    if events == [] then w else Run(Step(w, events[0]).0, events[1..])
  }

  function Start(capacity: nat): World {
    World(Client(Connecting, PollWriting, false, false, [], capacity, []), [], 0, 0)
  }

  // ----- history ----------------------------------------------------------

  function Requests(cmds: seq<Cmd>): seq<Request> {
    if cmds == [] then []
    else Requests(cmds[..|cmds| - 1]) + (if cmds[|cmds| - 1].Query? then [cmds[|cmds| - 1].request] else [])
  }

  /** What must have been called back when the first `n` commands are answered. */
  function Outcomes(sent: seq<Cmd>, n: nat): (log: seq<Completion>)
    requires n <= |sent|
  {
    if n == 0 then []
    else Outcomes(sent, n - 1) +
         (if sent[n - 1].Query? then [Completion(sent[n - 1].request, ItemStatus(Reply(sent, n - 1)))] else [])
  }

  /** The unanswered commands are the queued requests in order, then the Sync if one is out. */
  predicate Outstanding(c: Client, sent: seq<Cmd>, pos: nat) {
    && pos + |c.queue| + (if c.syncSent then 1 else 0) == |sent|
    && (forall i :: pos <= i < pos + |c.queue| ==> sent[i].Query? && sent[i].request == c.queue[i - pos])
    && (c.syncSent ==> sent[|sent| - 1] == Sync)
  }

  predicate Inv(w: World) {
    && w.pos <= w.flushed <= |w.sent|
    && |w.client.queue| <= w.client.capacity
    && Outstanding(w.client, w.sent, w.pos)
    && w.client.log == Outcomes(w.sent, w.pos)
    && (w.client.phase == Ready && !w.client.flushPending ==> w.flushed == |w.sent|)
    && (w.client.phase == Connecting ==> w.sent == [] && !w.client.flushPending)
  }

  lemma {:induction false} AbortingPrefix(sent: seq<Cmd>, more: seq<Cmd>, i: nat)
    requires i <= |sent|
    ensures Aborting(sent + more, i) == Aborting(sent, i)
  {
    if i > 0 { AbortingPrefix(sent, more, i - 1); }
  }

  lemma {:induction false} OutcomesPrefix(sent: seq<Cmd>, more: seq<Cmd>, n: nat)
    requires n <= |sent|
    ensures Outcomes(sent + more, n) == Outcomes(sent, n)
  {
    if n > 0 {
      OutcomesPrefix(sent, more, n - 1);
      AbortingPrefix(sent, more, n - 1);
    }
  }

  /** Draining conforming items completes one queued request for each reply, in order,
      and never meets a result without a request. */
  lemma {:induction false} DrainConforming(c: Client, sent: seq<Cmd>, pos: nat, items: seq<Item>, n: nat)
    requires pos + n <= |sent| && Outstanding(c, sent, pos) && c.log == Outcomes(sent, pos)
    requires Conforms(sent, pos, items, n)
    ensures var (d, rc) := Drain(c, items);
            rc == RcOk && Outstanding(d, sent, pos + n) && d.log == Outcomes(sent, pos + n) &&
            d == c.(queue := d.queue, syncSent := d.syncSent, log := d.log)
    decreases |items|
  {
    hide Aborting;
    if items != [] {
      if items[0] == Boundary {
        if c.queue != [] || c.syncSent {
          DrainConforming(c, sent, pos, items[1..], n);
        } else {
          NothingLeft(sent, pos, items, n);
        }
      } else if c.queue == [] {
        DrainConforming(c.(syncSent := false), sent, pos + 1, items[1..], n - 1);
      } else {
        assert sent[pos].Query?;
        DrainConforming(CompleteHead(c, ItemStatus(items[0])), sent, pos + 1, items[1..], n - 1);
      }
    }
  }

  lemma {:induction false} NothingLeft(sent: seq<Cmd>, pos: nat, items: seq<Item>, n: nat)
    requires pos == |sent| && Conforms(sent, pos, items, n)
    ensures n == 0
    decreases |items|
  {
    if items != [] && items[0] == Boundary { NothingLeft(sent, pos, items[1..], n); }
  }

  // ----- every run --------------------------------------------------------

  lemma SendKeepsInv(w: World, e: Event)
    requires Inv(w) && e.SendEvent? && Legal(w, e)
    ensures Inv(Step(w, e).0)
  {
    hide Outcomes;
    OutcomesPrefix(w.sent, [Query(e.request, e.verdict)], w.pos);
  }

  lemma ServiceKeepsInv(w: World, e: Event)
    requires Inv(w) && e.ServiceEvent? && Legal(w, e)
    ensures var (w', rc) := Step(w, e);
            Inv(w') && (Reads(w.client, e) ==> rc == RcOk)
  {
    hide Outcomes, Conforms, Drain, Reply, ServiceConnect;
    if w.client.phase == Connecting { ConnectKeepsInv(w, e); }
    OutcomesPrefix(w.sent, [Sync], w.pos);
    if Reads(w.client, e) {
      var c := BeforeDrain(w.client, e);
      DrainConforming(c, SentAfter(w, e), w.pos, e.env.items, e.answered);
    }
  }

  lemma ConnectKeepsInv(w: World, e: Event)
    requires Inv(w) && e.ServiceEvent? && Legal(w, e) && w.client.phase == Connecting
    ensures Inv(Step(w, e).0)
  {
    hide Outcomes;
  }

  /** The client at the point where `alpha_pg_service` starts to drain. */
  function BeforeDrain(c: Client, e: Event): Client
    requires e.ServiceEvent?
  {
    var c1 := if SendsSync(c, e.writable) then c.(syncSent := true, flushPending := true) else c;
    if e.writable && c1.flushPending then c1.(flushPending := e.env.flush != 0) else c1
  }

  /** A ready client stays ready, except when PQpipelineSync itself fails; the branch for a
      result without a queued request is never taken. */
  lemma StaysReady(w: World, e: Event)
    requires Inv(w) && Legal(w, e) && w.client.phase == Ready
    ensures var (w', rc) := Step(w, e);
            if e.ServiceEvent? && SendsSync(w.client, e.writable) && !e.env.syncOk
            then w'.client.phase == Failed && rc == RcDb && w'.client.log == w.client.log
            else w'.client.phase == Ready
  {
    hide Outcomes, Conforms, Drain, Reply;
    if e.ServiceEvent? {
      OutcomesPrefix(w.sent, [Sync], w.pos);
      if Reads(w.client, e) {
        DrainConforming(BeforeDrain(w.client, e), SentAfter(w, e), w.pos, e.env.items, e.answered);
      }
    }
  }

  lemma {:induction false} RunKeepsInv(w: World, events: seq<Event>)
    requires Inv(w) && LegalRun(w, events)
    ensures Inv(Run(w, events))
    decreases |events|
  {
    hide Inv, Legal, Step;
    if events != [] {
      if events[0].SendEvent? { SendKeepsInv(w, events[0]); } else { ServiceKeepsInv(w, events[0]); }
      RunKeepsInv(Step(w, events[0]).0, events[1..]);
    }
  }

  lemma {:induction false} AcceptedInOrder(sent: seq<Cmd>, n: nat)
    requires n <= |sent|
    ensures |Outcomes(sent, n)| == |Requests(sent[..n])|
    ensures forall i :: 0 <= i < |Outcomes(sent, n)| ==> Outcomes(sent, n)[i].request == Requests(sent[..n])[i]
  {
    hide Reply, ItemStatus;
    if n > 0 {
      AcceptedInOrder(sent, n - 1);
      assert sent[..n][..n - 1] == sent[..n - 1];
    }
  }

  lemma {:induction false} RequestsSplit(sent: seq<Cmd>, n: nat, c: Client)
    requires n <= |sent| && Outstanding(c, sent, n)
    ensures Requests(sent) == Requests(sent[..n]) + c.queue
    decreases |sent|
  {
    if |sent| == n {
      assert sent[..n] == sent && c.queue == [];
    } else {
      var last := |sent| - 1;
      var shorter := if c.syncSent then c.(syncSent := false) else c.(queue := c.queue[..|c.queue| - 1]);
      if !c.syncSent {
        assert sent[last].Query?;
        assert c.queue == shorter.queue + [c.queue[|c.queue| - 1]];
      }
      assert Outstanding(shorter, sent[..last], n);
      RequestsSplit(sent[..last], n, shorter);
      assert sent[..last][..n] == sent[..n];
    }
  }

  /** In every run from the start: the callbacks are those of the accepted requests, each
      at most once and in acceptance order; the others are still queued, within capacity.
      In particular the request of every callback is the one accepted at that place. */
  lemma ExactlyOnceInOrder(capacity: nat, events: seq<Event>)
    requires LegalRun(Start(capacity), events)
    ensures var w := Run(Start(capacity), events);
            var accepted := Requests(w.sent);
            && |w.client.log| + |w.client.queue| == |accepted|
            && (forall i :: 0 <= i < |w.client.log| ==> w.client.log[i].request == accepted[i])
            && w.client.queue == accepted[|w.client.log|..]
            && |w.client.queue| <= capacity
  {
    hide Step, Legal, Outcomes, Requests;
    var w := Run(Start(capacity), events);
    StartInv(capacity);
    RunKeepsInv(Start(capacity), events);
    RunKeepsCapacity(Start(capacity), events);
    AcceptedInOrder(w.sent, w.pos);
    RequestsSplit(w.sent, w.pos, w.client);
  }

  lemma StartInv(capacity: nat)
    ensures Inv(Start(capacity))
  {
  }

  lemma {:induction false} DrainKeepsRest(c: Client, items: seq<Item>)
    ensures var d := Drain(c, items).0;
            d.capacity == c.capacity && d.flushPending == c.flushPending
    decreases |items|
  {
    if items != [] {
      DrainKeepsRest(c, items[1..]);
      DrainKeepsRest(c.(syncSent := false), items[1..]);
      if c.queue != [] { DrainKeepsRest(CompleteHead(c, ItemStatus(items[0])), items[1..]); }
    }
  }

  lemma {:induction false} RunKeepsCapacity(w: World, events: seq<Event>)
    ensures Run(w, events).client.capacity == w.client.capacity
    decreases |events|
  {
    hide Drain;
    if events != [] {
      var e := events[0];
      if e.ServiceEvent? { DrainKeepsRest(BeforeDrain(w.client, e), e.env.items); }
      RunKeepsCapacity(Step(w, e).0, events[1..]);
    }
  }

  /** The requests of `called` were taken from the front of `before`'s queue, in order. */
  predicate FromFront(before: Client, after: Client, called: seq<Completion>) {
    && |called| <= |before.queue| && after.queue == before.queue[|called|..]
    && after.log == before.log + called
    && forall i :: 0 <= i < |called| ==> called[i].request == before.queue[i]
  }

  /** Callbacks follow the queue whatever the results are. */
  lemma {:induction false} DrainCallsFromFront(c: Client, items: seq<Item>) returns (called: seq<Completion>)
    ensures FromFront(c, Drain(c, items).0, called)
    decreases |items|
  {
    called := [];
    if items != [] {
      if items[0] == Boundary {
        if c.queue != [] || c.syncSent {
          called := DrainCallsFromFront(c, items[1..]);
        }
      } else if items[0] == SyncMark {
        called := DrainCallsFromFront(c.(syncSent := false), items[1..]);
      } else if c.queue != [] {
        var status := ItemStatus(items[0]);
        var rest := DrainCallsFromFront(CompleteHead(c, status), items[1..]);
        called := [Completion(c.queue[0], status)] + rest;
        FrontStep(c, status, Drain(c, items).0, rest);
      }
    }
  }

  lemma FrontStep(c: Client, status: Status, d: Client, rest: seq<Completion>)
    requires c.queue != [] && FromFront(CompleteHead(c, status), d, rest)
    ensures FromFront(c, d, [Completion(c.queue[0], status)] + rest)
  {
    assert c.queue[1..][|rest|..] == c.queue[1 + |rest|..];
    assert c.log + [Completion(c.queue[0], status)] + rest == c.log + ([Completion(c.queue[0], status)] + rest);
  }

  lemma ServiceCallsFromFront(c: Client, readable: bool, writable: bool, env: Env) returns (called: seq<Completion>)
    ensures FromFront(c, Service(c, readable, writable, env).0, called)
  {
    hide Drain, ServiceConnect;
    var e := ServiceEvent(readable, writable, env, 0, 0);
    if Reads(c, e) {
      called := DrainCallsFromFront(BeforeDrain(c, e), env.items);
    } else {
      called := [];
      ConnectKeepsQueue(c, readable, writable, env);
    }
  }

  lemma ConnectKeepsQueue(c: Client, readable: bool, writable: bool, env: Env)
    ensures var d := ServiceConnect(c, readable, writable, env).0; d.queue == c.queue && d.log == c.log
  {
  }

  // ----- batches and recovery ---------------------------------------------

  /** Position `i` lies in the batch that starts at `from`: right after a Sync or at the
      beginning, with no Sync in between. */
  predicate InBatch(sent: seq<Cmd>, from: nat, i: nat) {
    && from <= i < |sent| && sent[i].Query?
    && (from == 0 || sent[from - 1].Sync?)
    && forall j :: from <= j < i ==> sent[j].Query?
  }

  lemma {:induction false} AbortingInBatch(sent: seq<Cmd>, from: nat, i: nat)
    requires InBatch(sent, from, i)
    ensures Aborting(sent, i) <==> exists j :: from <= j < i && sent[j].verdict == Error
  {
    if from < i {
      AbortingInBatch(sent, from, i - 1);
    }
  }

  /** The place of command `i` among the callbacks. */
  lemma {:induction false} OutcomeOf(sent: seq<Cmd>, n: nat, i: nat)
    requires i < n <= |sent| && sent[i].Query?
    ensures var k := |Outcomes(sent, i)|;
            k < |Outcomes(sent, n)| &&
            Outcomes(sent, n)[k] == Completion(sent[i].request, ItemStatus(Reply(sent, i)))
  {
    hide Reply, ItemStatus;
    if i < n - 1 { OutcomeOf(sent, n - 1, i); }
  }

  /** Recovery: within a batch a request reports success exactly when its row parses and
      no query of the batch up to and including it has failed. What happened in earlier
      batches has no influence. */
  lemma RecoveryAtSync(capacity: nat, events: seq<Event>, from: nat, i: nat)
    requires LegalRun(Start(capacity), events)
    requires var w := Run(Start(capacity), events); i < w.pos <= |w.sent| && InBatch(w.sent, from, i)
    ensures var w := Run(Start(capacity), events);
            var k := |Outcomes(w.sent, i)|;
            && k < |w.client.log| && w.client.log[k].request == w.sent[i].request
            && (w.client.log[k].status == StatusOk <==>
                  w.sent[i].verdict == Rows(true) && forall j :: from <= j < i ==> w.sent[j].verdict != Error)
  {
    hide Inv, LegalRun, Run, Outcomes;
    StartInv(capacity);
    RunKeepsInv(Start(capacity), events);
    BatchOutcome(Run(Start(capacity), events), from, i);
  }

  lemma BatchOutcome(w: World, from: nat, i: nat)
    requires Inv(w) && i < w.pos && InBatch(w.sent, from, i)
    ensures var k := |Outcomes(w.sent, i)|;
            && k < |w.client.log| && w.client.log[k].request == w.sent[i].request
            && (w.client.log[k].status == StatusOk <==>
                  w.sent[i].verdict == Rows(true) && forall j :: from <= j < i ==> w.sent[j].verdict != Error)
  {
    hide Outcomes, Outstanding;
    AbortingInBatch(w.sent, from, i);
    OutcomeOf(w.sent, w.pos, i);
  }

  /** Without parse failures a batch is a run of successes followed by a run of failures. */
  lemma SuccessThenFailure(w: World, from: nat, i: nat, j: nat)
    requires Inv(w) && i < j < w.pos && InBatch(w.sent, from, j)
    requires w.sent[i].Query? && from <= i && w.sent[i].verdict != Rows(false)
    ensures |Outcomes(w.sent, i)| < |w.client.log| && |Outcomes(w.sent, j)| < |w.client.log|
    ensures w.client.log[|Outcomes(w.sent, i)|].status == StatusErrDb ==>
            w.client.log[|Outcomes(w.sent, j)|].status == StatusErrDb
  {
    hide Outcomes, Outstanding;
    BatchOutcome(w, from, i);
    BatchOutcome(w, from, j);
  }

  /** While a Sync is out nothing is accepted, so there is never a second one. */
  lemma OneSyncOutstanding(w: World)
    requires Inv(w)
    ensures forall i, j ::
              w.pos <= i < |w.sent| && w.pos <= j < |w.sent| && w.sent[i].Sync? && w.sent[j].Sync? ==> i == j
    ensures forall e: Event :: e.SendEvent? && w.client.syncSent ==> Step(w, e).0.sent == w.sent
  {
    hide Outcomes;
    forall i | w.pos <= i < |w.sent| && w.sent[i].Sync?
      ensures i == |w.sent| - 1
    {
    }
  }

  // ----- progress ---------------------------------------------------------

  /** When libpq has nothing left to report, the client expects nothing: the NULL that
      PQgetResult then returns ends the drain loop instead of spinning in it. */
  lemma NoSpin(w: World)
    requires Inv(w) && w.pos == |w.sent|
    ensures w.client.queue == [] && !w.client.syncSent
  {
  }

  /** The last command is an unanswered query, so a Sync is still to be sent. */
  predicate NeedsSync(w: World) {
    w.pos < |w.sent| && w.sent[|w.sent| - 1].Query?
  }

  function Measure(w: World): nat
    requires Inv(w)
  {
    2 * (|w.sent| - w.pos) + (|w.sent| - w.flushed) + (if w.client.flushPending then 1 else 0) +
    (if NeedsSync(w) then 5 else 0)
  }

  /** The event moves something: a Sync goes out, output is flushed, or a reply is read. */
  predicate Advances(w: World, e: Event) {
    e.ServiceEvent? && w.client.phase == Ready &&
    ((SendsSync(w.client, e.writable) && e.env.syncOk) ||
     (e.writable && w.client.flushPending && e.env.flush == 0) || e.flushedTo > w.flushed || e.answered > 0)
  }

  /** Servicing never adds work, and every service that moves something removes some. */
  lemma ServiceDecreases(w: World, e: Event)
    requires Inv(w) && e.ServiceEvent? && Legal(w, e) && w.client.phase == Ready
    ensures var w' := Step(w, e).0;
            Inv(w') && (w'.client.phase == Ready ==>
              if Advances(w, e) then Measure(w') < Measure(w) else Measure(w') <= Measure(w))
  {
    ServiceKeepsInv(w, e);
    hide Outcomes, Conforms, Drain, Reply;
    DrainKeepsRest(BeforeDrain(w.client, e), e.env.items);
    SyncIsNeeded(w);
  }

  /** How many events of the run move something. */
  function Advancing(w: World, events: seq<Event>): nat
    decreases |events|
  {
    if events == [] then 0
    else (if Advances(w, events[0]) then 1 else 0) + Advancing(Step(w, events[0]).0, events[1..])
  }

  lemma {:induction false} FailedStays(w: World, events: seq<Event>)
    requires w.client.phase == Failed && forall i :: 0 <= i < |events| ==> events[i].ServiceEvent?
    ensures Run(w, events).client.phase == Failed
    decreases |events|
  {
    if events != [] { FailedStays(Step(w, events[0]).0, events[1..]); }
  }

  lemma ReadyAllAlong(w: World, events: seq<Event>)
    requires Inv(w) && LegalRun(w, events) && events != [] && w.client.phase == Ready
    requires forall i :: 0 <= i < |events| ==> events[i].ServiceEvent?
    requires Run(w, events).client.phase == Ready
    ensures Step(w, events[0]).0.client.phase == Ready
  {
    hide Inv, Legal, Step;
    var w1 := Step(w, events[0]).0;
    StaysReady(w, events[0]);
    if w1.client.phase == Failed { FailedStays(w1, events[1..]); }
  }

  /** Services that leave the client ready can move something only so often: the measure
      bounds their number, and it is spent exactly when the client is idle. */
  lemma {:induction false} ServicesAreBounded(w: World, events: seq<Event>)
    requires Inv(w) && LegalRun(w, events) && w.client.phase == Ready
    requires forall i :: 0 <= i < |events| ==> events[i].ServiceEvent?
    requires Run(w, events).client.phase == Ready
    ensures Inv(Run(w, events))
    ensures Advancing(w, events) + Measure(Run(w, events)) <= Measure(w)
    ensures Measure(Run(w, events)) == 0 <==> IsIdle(Run(w, events).client)
    decreases |events|
  {
    hide Inv, Legal, Step, Measure, Advances, IsIdle;
    if events == [] {
      MeasureZeroIsIdle(w);
    } else {
      ServiceDecreases(w, events[0]);
      ReadyAllAlong(w, events);
      ServicesAreBounded(Step(w, events[0]).0, events[1..]);
    }
  }

  lemma MeasureZeroIsIdle(w: World)
    requires Inv(w) && w.client.phase == Ready
    ensures Measure(w) == 0 <==> IsIdle(w.client)
  {
    hide Outcomes;
    SyncIsNeeded(w);
  }

  lemma SyncIsNeeded(w: World)
    requires Inv(w)
    ensures NeedsSync(w) <==> w.client.queue != [] && !w.client.syncSent
  {
    hide Outcomes;
  }

  function Replies(sent: seq<Cmd>, pos: nat): (items: seq<Item>)
    requires pos <= |sent|
    decreases |sent| - pos
  {
    if pos == |sent| then [] else [Reply(sent, pos)] + Replies(sent, pos + 1)
  }

  lemma {:induction false} RepliesConform(sent: seq<Cmd>, pos: nat)
    requires pos <= |sent|
    ensures Conforms(sent, pos, Replies(sent, pos), |sent| - pos)
    decreases |sent| - pos
  {
    if pos < |sent| { RepliesConform(sent, pos + 1); }
  }

  /** A service of the kind the client asks for, in which all output goes out. */
  function FlushEvent(w: World): Event {
    var writes := WantsWrite(w.client);
    var sent := if SendsSync(w.client, writes) then w.sent + [Sync] else w.sent;
    ServiceEvent(false, writes, Env(PollOk, true, true, 0, true, []), |sent|, 0)
  }

  /** A service of the kind the client asks for, in which all replies arrive. */
  function ReadEvent(w: World): Event
    requires w.pos <= |w.sent|
  {
    var awaits := WantsRead(w.client);
    ServiceEvent(awaits, false, Env(PollOk, true, true, 0, true, Replies(w.sent, w.pos)), |w.sent|,
                 if awaits then |w.sent| - w.pos else 0)
  }

  /** Only replies are missing. */
  predicate Flushed(w: World) {
    w.flushed == |w.sent| && !w.client.flushPending && (w.client.queue != [] ==> w.client.syncSent)
  }

  lemma FlushStep(w: World)
    requires Inv(w) && w.client.phase == Ready
    ensures Legal(w, FlushEvent(w))
    ensures var (w1, rc) := Step(w, FlushEvent(w));
            && rc == RcOk && Inv(w1) && w1.client.phase == Ready && Flushed(w1) && w1.pos == w.pos
            && w1.client.queue == w.client.queue && w1.client.log == w.client.log
            && (w1.sent == w.sent || w1.sent == w.sent + [Sync])
  {
    hide Outcomes, Drain, Reply, Conforms;
    ServiceKeepsInv(w, FlushEvent(w));
  }

  lemma ReadStep(w: World)
    requires Inv(w) && w.client.phase == Ready && Flushed(w)
    ensures Legal(w, ReadEvent(w))
    ensures var (w1, rc) := Step(w, ReadEvent(w));
            && rc == RcOk && Inv(w1) && w1.client.phase == Ready && IsIdle(w1.client)
            && w1.sent == w.sent && w1.pos == |w.sent|
  {
    hide Outcomes, Drain, Reply, Conforms;
    var e := ReadEvent(w);
    RepliesConform(w.sent, w.pos);
    ServiceKeepsInv(w, e);
    StaysReady(w, e);
    if Reads(w.client, e) {
      DrainConforming(w.client, w.sent, w.pos, e.env.items, e.answered);
    }
  }

  /** Never stuck: a ready client that is not idle asks for a readiness event, and with
      two services of the kind it asks for it can become idle, still ready, every accepted
      request called back. */
  lemma CanReachIdle(w: World) returns (events: seq<Event>)
    requires Inv(w) && w.client.phase == Ready && !IsIdle(w.client)
    ensures WantsRead(w.client) || WantsWrite(w.client)
    ensures |events| == 2 && LegalRun(w, events)
    ensures events[0].ServiceEvent? && events[0].writable == WantsWrite(w.client) && !events[0].readable
    ensures var w1 := Step(w, events[0]).0;
            events[1].ServiceEvent? && !events[1].writable && events[1].readable == WantsRead(w1.client)
    ensures var w' := Run(w, events);
            w'.client.phase == Ready && IsIdle(w'.client) && |w'.client.log| == |Requests(w.sent)|
  {
    hide Inv, Legal, Step, Run, LegalRun, Requests;
    FlushStep(w);
    var w1 := Step(w, FlushEvent(w)).0;
    assert w1.pos <= |w1.sent| by { Bounds(w1); }
    ReadStep(w1);
    events := [FlushEvent(w), ReadEvent(w1)];
    TwoEvents(w, events[0], events[1]);
    AllAnswered(w, Step(w1, ReadEvent(w1)).0, w1.sent);
  }

  lemma Bounds(w: World)
    requires Inv(w)
    ensures w.pos <= w.flushed <= |w.sent|
  {
  }

  lemma TwoEvents(w: World, e1: Event, e2: Event)
    requires Legal(w, e1) && Legal(Step(w, e1).0, e2)
    ensures LegalRun(w, [e1, e2]) && Run(w, [e1, e2]) == Step(Step(w, e1).0, e2).0
  {
    hide Legal, Step;
    var w1 := Step(w, e1).0;
    var w2 := Step(w1, e2).0;
    assert LegalRun(w2, []) && Run(w2, []) == w2;
    RunCons(w1, e2, []);
    RunCons(w, e1, [e2]);
    assert [e2] + [] == [e2] && [e1] + [e2] == [e1, e2];
  }

  lemma RunCons(w: World, e: Event, events: seq<Event>)
    requires Legal(w, e) && LegalRun(Step(w, e).0, events)
    ensures LegalRun(w, [e] + events) && Run(w, [e] + events) == Run(Step(w, e).0, events)
  {
    hide Legal, Step;
    assert ([e] + events)[1..] == events;
  }

  lemma AllAnswered(w: World, w2: World, sent1: seq<Cmd>)
    requires Inv(w2) && w2.sent == sent1 && w2.pos == |sent1| && (sent1 == w.sent || sent1 == w.sent + [Sync])
    ensures |w2.client.log| == |Requests(w.sent)|
  {
    AcceptedInOrder(w2.sent, w2.pos);
    assert sent1[..|sent1|] == sent1;
    if sent1 != w.sent {
      assert sent1[..|sent1| - 1] == w.sent;
    }
  }

  // ----- a parse failure in a batch ---------------------------------------

  /** A row that does not parse fails its own request only: in this run the next request of
      the batch succeeds. */
  lemma ParseFailureDoesNotAbort(capacity: nat, a: Request, b: Request) returns (events: seq<Event>)
    requires capacity >= 2
    ensures LegalRun(Start(capacity), events)
    ensures var w := Run(Start(capacity), events);
            w.client.phase == Ready && w.sent == [Query(a, Rows(false)), Query(b, Rows(true)), Sync] &&
            w.client.log == [Completion(a, StatusErrDb), Completion(b, StatusOk)]
  {
    var w := Start(capacity);
    var connect := ServiceEvent(false, true, Env(PollOk, true, true, 0, true, []), 0, 0);
    var first, second := SendEvent(a, Rows(false), true, 0, 1), SendEvent(b, Rows(true), true, 0, 2);
    var w3 := BatchOfTwo(capacity, connect, first, second);
    hide Legal, Step, Inv, Run, LegalRun, Outcomes;
    var w1 := Step(w, connect).0;
    var w2 := Step(w1, first).0;
    FlushStep(w3);
    var w4 := Step(w3, FlushEvent(w3)).0;
    assert w4.pos <= |w4.sent| by { Bounds(w4); }
    ReadStep(w4);
    var w5 := Step(w4, ReadEvent(w4)).0;
    var rest := [FlushEvent(w3), ReadEvent(w4)];
    TwoEvents(w3, rest[0], rest[1]);
    RunCons(w2, second, rest);
    RunCons(w1, first, [second] + rest);
    RunCons(w, connect, [first] + ([second] + rest));
    events := [connect] + ([first] + ([second] + rest));
    LogIsOutcomes(w5);
    TwoOutcomes(a, b, w5.sent);
  }

  lemma BatchOfTwo(capacity: nat, connect: Event, first: Event, second: Event) returns (w: World)
    requires capacity >= 2 && connect == ServiceEvent(false, true, Env(PollOk, true, true, 0, true, []), 0, 0)
    requires first.SendEvent? && first == SendEvent(first.request, first.verdict, true, 0, 1)
    requires second.SendEvent? && second == SendEvent(second.request, second.verdict, true, 0, 2)
    ensures var w1 := Step(Start(capacity), connect).0;
            var w2 := Step(w1, first).0;
            && Legal(Start(capacity), connect) && Legal(w1, first) && Legal(w2, second) && w == Step(w2, second).0
            && Inv(w) && w.client.phase == Ready && w.client.queue == [first.request, second.request]
            && !w.client.syncSent
            && w.sent == [Query(first.request, first.verdict), Query(second.request, second.verdict)]
  {
    hide Outcomes;
    StartInv(capacity);
    var w1 := Step(Start(capacity), connect).0;
    ConnectKeepsInv(Start(capacity), connect);
    var w2 := Step(w1, first).0;
    SendKeepsInv(w1, first);
    w := Step(w2, second).0;
    SendKeepsInv(w2, second);
  }

  lemma LogIsOutcomes(w: World)
    requires Inv(w) && w.pos == |w.sent|
    ensures w.client.log == Outcomes(w.sent, |w.sent|)
  {
  }

  lemma TwoOutcomes(a: Request, b: Request, sent: seq<Cmd>)
    requires sent == [Query(a, Rows(false)), Query(b, Rows(true)), Sync]
    ensures Outcomes(sent, |sent|) == [Completion(a, StatusErrDb), Completion(b, StatusOk)]
  {
    assert !Aborting(sent, 1);
    assert Outcomes(sent, 1) == [Completion(a, StatusErrDb)];
    assert Outcomes(sent, 2) == Outcomes(sent, 1) + [Completion(b, StatusOk)];
  }

  // ----- when a request is accepted, and what a service reports -----------

  /** In every run: a request is accepted exactly when the client is ready, fewer than
      `capacity` accepted requests are open, no Sync is unanswered and libpq takes the query;
      each other case has its own status, and leaves the client as it was. */
  lemma SendAcceptedExactly(capacity: nat, events: seq<Event>, request: Request, sendOk: bool, flush: int)
    requires LegalRun(Start(capacity), events)
    ensures var w := Run(Start(capacity), events);
            var (c, rc) := Send(w.client, request, sendOk, flush);
            var ready, open := w.client.phase == Ready, |Requests(w.sent)| - |w.client.log|;
            var sync := exists i :: w.pos <= i < |w.sent| && w.sent[i].Sync?;
            && (rc == RcOk <==> ready && open < capacity && !sync && sendOk)
            && (rc == RcInvalidArg <==> !ready)
            && (rc == RcRange <==> ready && (open == capacity || sync))
            && (rc == RcDb <==> ready && open < capacity && !sync && !sendOk)
            && (rc != RcOk ==> c == w.client)
            && (rc == RcOk ==> c == w.client.(queue := w.client.queue + [request], flushPending := flush != 0))
  {
    hide Run, LegalRun, Outcomes, Requests;
    var w := Run(Start(capacity), events);
    StartInv(capacity);
    RunKeepsInv(Start(capacity), events);
    RunKeepsCapacity(Start(capacity), events);
    ExactlyOnceInOrder(capacity, events);
    SyncUnanswered(w);
  }

  lemma SyncUnanswered(w: World)
    requires Inv(w)
    ensures w.client.syncSent <==> exists i :: w.pos <= i < |w.sent| && w.sent[i].Sync?
  {
    hide Outcomes;
    if w.client.syncSent {
      assert w.sent[|w.sent| - 1].Sync?;
    }
  }

  /** A ready client asks to read exactly while a command is unanswered, and to write exactly
      while output is pending or its last query still needs a Sync; idle is asking for neither. */
  lemma AsksExactly(w: World)
    requires Inv(w) && w.client.phase == Ready
    ensures WantsRead(w.client) <==> w.pos < |w.sent|
    ensures WantsWrite(w.client) <==> w.client.flushPending || NeedsSync(w)
    ensures IsIdle(w.client) <==> !WantsRead(w.client) && !WantsWrite(w.client)
  {
    hide Outcomes;
    SyncIsNeeded(w);
  }

  /** A service of a ready client reports an error exactly when a libpq call that it makes
      fails: the Sync when one is needed, the flush when output is pending, or reading. Else
      the pending output is what the flush left. */
  lemma ServiceReportsExactly(w: World, e: Event)
    requires Inv(w) && e.ServiceEvent? && Legal(w, e) && w.client.phase == Ready
    ensures var (w', rc) := Step(w, e);
            var syncs := e.writable && NeedsSync(w);
            var flushes := e.writable && (w.client.flushPending || syncs);
            && (rc == RcDb <==>
                  (syncs && !e.env.syncOk) || (flushes && e.env.flush < 0) || (e.readable && !e.env.consumeOk))
            && (rc != RcDb ==> rc == RcOk)
            && (rc == RcOk ==> w'.client.flushPending == if flushes then e.env.flush != 0 else w.client.flushPending)
            && (rc == RcOk && e.readable ==> w'.pos == w.pos + e.answered)
            && (rc == RcOk ==> w'.sent == if syncs then w.sent + [Sync] else w.sent)
  {
    ServiceKeepsInv(w, e);
    hide Outcomes, Conforms, Drain, Reply;
    DrainKeepsRest(BeforeDrain(w.client, e), e.env.items);
    SyncIsNeeded(w);
  }

  /** A failed client refuses every service; a result that belongs to no request fails it. */
  lemma FailureIsFinal(c: Client, readable: bool, writable: bool, env: Env, item: Item, rest: seq<Item>)
    ensures c.phase == Failed ==> Service(c, readable, writable, env) == (c, RcInvalidArg)
    ensures c.queue == [] && item != Boundary && item != SyncMark ==>
              Drain(c, [item] + rest) == (c.(phase := Failed), RcDb)
  {
  }

  // ----- connecting -------------------------------------------------------

  predicate IsWaiting(p: Poll) {
    p == PollReading || p == PollWriting
  }

  /** While connecting the client asks for exactly one kind of readiness. A service without it
      changes nothing; with it the client takes over libpq's answer, and is ready exactly when
      that is OK and pipeline mode was entered, failed exactly when polling or entering failed. */
  lemma ConnectStep(c: Client, readable: bool, writable: bool, env: Env)
    requires c.phase == Connecting && IsWaiting(c.poll)
    ensures WantsRead(c) != WantsWrite(c)
    ensures var (d, rc) := Service(c, readable, writable, env);
            if (readable && WantsRead(c)) || (writable && WantsWrite(c)) then
              && d == c.(poll := env.poll, phase := d.phase)
              && (d.phase == Ready <==> env.poll == PollOk && env.enterOk)
              && (d.phase == Failed <==> env.poll == PollFailed || (env.poll == PollOk && !env.enterOk))
              && rc == (if d.phase == Failed then RcDb else RcOk)
            else (d, rc) == (c, RcOk)
  {
  }

  /** These services are of the kind asked for each time, and libpq answers with these polls. */
  ghost predicate ServedAsAsked(w: World, events: seq<Event>, polls: seq<Poll>)
    requires |events| == |polls|
    decreases |events|
  {
    events == [] ||
    (events[0].ServiceEvent? && Legal(w, events[0]) && events[0].env.enterOk && events[0].env.poll == polls[0] &&
     (WantsRead(w.client) ==> events[0].readable) && (WantsWrite(w.client) ==> events[0].writable) &&
     ServedAsAsked(Step(w, events[0]).0, events[1..], polls[1..]))
  }

  ghost predicate EndsIn(polls: seq<Poll>, last: Poll) {
    polls != [] && polls[|polls| - 1] == last && forall i :: 0 <= i < |polls| - 1 ==> IsWaiting(polls[i])
  }

  /** However often libpq asks to read or to write before its OK, serving what is asked for
      leads to a ready, idle client. */
  lemma {:induction false} ServingConnects(w: World, events: seq<Event>, polls: seq<Poll>)
    requires Inv(w) && w.client.phase == Connecting && IsWaiting(w.client.poll) && IsIdle(w.client)
    requires |events| == |polls| && EndsIn(polls, PollOk) && ServedAsAsked(w, events, polls)
    ensures LegalRun(w, events)
    ensures var w' := Run(w, events); w'.client == w.client.(phase := Ready, poll := PollOk) && w'.sent == w.sent
    decreases |events|
  {
    hide Inv, Legal;
    var e := events[0];
    ConnectStep(w.client, e.readable, e.writable, e.env);
    ServiceKeepsInv(w, e);
    var w1 := Step(w, e).0;
    if |polls| == 1 {
      assert events[1..] == [];
    } else {
      ServingConnects(w1, events[1..], polls[1..]);
    }
  }

  /** From the start such services exist for every such sequence of answers. */
  lemma {:induction false} CanConnect(w: World, polls: seq<Poll>) returns (events: seq<Event>)
    requires Inv(w) && w.client.phase == Connecting && IsWaiting(w.client.poll) && IsIdle(w.client)
    requires EndsIn(polls, PollOk)
    ensures |events| == |polls| && ServedAsAsked(w, events, polls)
    decreases |polls|
  {
    var e := ServiceEvent(WantsRead(w.client), WantsWrite(w.client), Env(polls[0], true, true, 0, true, []), 0, 0);
    assert Legal(w, e);
    ServiceKeepsInv(w, e);
    ConnectStep(w.client, e.readable, e.writable, e.env);
    hide Inv, Legal;
    var w1 := Step(w, e).0;
    if |polls| == 1 {
      events := [e];
    } else {
      var rest := CanConnect(w1, polls[1..]);
      events := [e] + rest;
      assert events[1..] == rest;
    }
  }

  /** Every connection attempt: from `Start`, any answers of libpq that end in OK, served as
      asked, lead to a ready client with nothing queued. */
  lemma ConnectionSucceeds(capacity: nat, polls: seq<Poll>) returns (events: seq<Event>)
    requires EndsIn(polls, PollOk)
    ensures |events| == |polls| && ServedAsAsked(Start(capacity), events, polls)
    ensures LegalRun(Start(capacity), events)
    ensures Run(Start(capacity), events).client == Start(capacity).client.(phase := Ready, poll := PollOk)
  {
    StartInv(capacity);
    hide Inv, Legal, Step;
    events := CanConnect(Start(capacity), polls);
    ServingConnects(Start(capacity), events, polls);
  }
}
