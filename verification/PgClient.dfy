/** The client struct of core/platform/db/postgres.c in its own form: a ring buffer of
    `capacity` requests written in place, with `head` and `count`. Each method is proved
    to be the function of the same name in `PgPipeline` on the queue the ring holds. */
module PgClient {
  import opened PgPipeline

  lemma RingIndex(head: nat, i: nat, n: nat)
    requires head < n && i <= n
    ensures (head + i) % n == if head + i < n then head + i else head + i - n
  {
  }

  lemma NextSlot(head: nat, i: nat, n: nat)
    requires head < n && i + 1 <= n
    ensures (head + 1) % n < n && ((head + 1) % n + i) % n == (head + (i + 1)) % n
  {
    RingIndex(head, 1, n);
    RingIndex(head, i + 1, n);
    RingIndex((head + 1) % n, i, n);
  }

  class PgConn {
    var phase: Phase
    var poll: Poll
    var flushPending: bool
    var syncSent: bool
    const fifo: array<Request>
    var head: nat
    var count: nat
    var log: seq<Completion>  // the callbacks made so far

    ghost predicate Valid()
      reads `head, `count
    {
      head < fifo.Length && count <= fifo.Length
    }

    /** Slot of the i-th queued request. */
    function Slot(i: nat): (k: nat)
      requires head < fifo.Length && i <= fifo.Length
      reads `head
      ensures k < fifo.Length
    {
      (head + i) % fifo.Length
    }

    ghost function Queue(): (q: seq<Request>)
      requires Valid()
      reads `head, `count, fifo
      ensures |q| == count && forall i :: 0 <= i < count ==> q[i] == fifo[Slot(i)]
    {
      Slots(count)
    }

    ghost function Slots(n: nat): (q: seq<Request>)
      requires head < fifo.Length && n <= fifo.Length
      reads `head, fifo
      ensures |q| == n && forall i :: 0 <= i < n ==> q[i] == fifo[Slot(i)]
    {
      if n == 0 then [] else Slots(n - 1) + [fifo[Slot(n - 1)]]
    }

    ghost function View(): Client
      requires Valid()
      reads this, fifo
    {
      Client(phase, poll, flushPending, syncSent, Queue(), fifo.Length, log)
    }

    /** An empty ring, about to connect. */
    constructor (pipelineDepth: nat)
      requires 1 <= pipelineDepth <= 64
      ensures Valid() && fresh(fifo) && View() == Start(pipelineDepth).client
    {
      fifo := new Request[pipelineDepth](_ => Request(Position, 0));
      phase, poll, flushPending, syncSent := Connecting, PollWriting, false, false;
      head, count, log := 0, 0, [];
    }

    method SendRequest(request: Request, sendOk: bool, flush: int) returns (rc: Rc)
      requires Valid()
      modifies this, fifo
      ensures Valid() && (View(), rc) == Send(old(View()), request, sendOk, flush)
    {
      if phase != Ready {
        return RcInvalidArg;
      }
      if count == fifo.Length || syncSent {
        return RcRange;
      }
      if !sendOk {
        return RcDb;
      }
      ghost var before := Queue();
      var tail := Slot(count);
      TailIsFree();
      fifo[tail] := request;
      count := count + 1;
      flushPending := flush != 0;
      assert Queue() == before + [request];
      return RcOk;
    }

    /** The slot after the last queued request holds none of them. */
    lemma TailIsFree()
      requires Valid() && count < fifo.Length
      ensures forall i :: 0 <= i < count ==> Slot(i) != Slot(count)
    {
      RingIndex(head, count, fifo.Length);
      forall i | 0 <= i < count ensures Slot(i) != Slot(count) {
        RingIndex(head, i, fifo.Length);
      }
    }

    method CompleteHead(status: Status)
      requires Valid() && count > 0
      modifies this
      ensures Valid() && View() == PgPipeline.CompleteHead(old(View()), status)
    {
      hide Slots;
      ghost var before := Queue();
      ghost var oldHead := head;
      var request := fifo[head];
      RingIndex(head, 0, fifo.Length);
      assert before[0] == request;
      head := (head + 1) % fifo.Length;
      count := count - 1;
      forall i | 0 <= i < count ensures fifo[Slot(i)] == before[i + 1] {
        NextSlot(oldHead, i, fifo.Length);
      }
      assert Queue() == before[1..];
      log := log + [Completion(request, status)];
    }

    method DrainResults(items: seq<Item>) returns (rc: Rc)
      requires Valid()
      modifies this
      ensures Valid() && (View(), rc) == Drain(old(View()), items)
    {
      var i := 0;
      while i < |items|
        invariant 0 <= i <= |items| && Valid()
        invariant Drain(View(), items[i..]) == Drain(old(View()), items)
      {
        var item := items[i];
        assert items[i..][0] == item && items[i..][1..] == items[i + 1..];
        i := i + 1;
        if item == Boundary {
          if count > 0 || syncSent {
            continue;
          }
          return RcOk;
        }
        if item == SyncMark {
          syncSent := false;
          continue;
        }
        if count == 0 {
          phase := Failed;
          return RcDb;
        }
        CompleteHead(ItemStatus(item));
      }
      assert items[i..] == [];
      return RcOk;
    }

    method ServiceConnect(readable: bool, writable: bool, env: Env) returns (rc: Rc)
      requires Valid()
      modifies this
      ensures Valid() && (View(), rc) == PgPipeline.ServiceConnect(old(View()), readable, writable, env)
    {
      var expected := (poll == PollReading && readable) || (poll == PollWriting && writable);
      if !expected {
        return RcOk;
      }
      poll := env.poll;
      if poll == PollFailed || (poll == PollOk && !env.enterOk) {
        phase := Failed;
        return RcDb;
      }
      phase := if poll == PollOk then Ready else Connecting;
      return RcOk;
    }

    method Service(readable: bool, writable: bool, env: Env) returns (rc: Rc)
      requires Valid()
      modifies this
      ensures Valid() && (View(), rc) == PgPipeline.Service(old(View()), readable, writable, env)
    {
      hide Drain, PgPipeline.ServiceConnect, Slots, Queue;
      if phase == Failed {
        return RcInvalidArg;
      }
      if phase == Connecting {
        rc := ServiceConnect(readable, writable, env);
        return;
      }
      if writable && count > 0 && !syncSent {
        if !env.syncOk {
          phase := Failed;
          return RcDb;
        }
        syncSent := true;
        flushPending := true;
      }
      if writable && flushPending {
        if env.flush < 0 {
          return RcDb;
        }
        flushPending := env.flush != 0;
      }
      if readable {
        if !env.consumeOk {
          return RcDb;
        }
        rc := DrainResults(env.items);
        return;
      }
      return RcOk;
    }
  }

  /** What the allocator and PQconnectStart do. */
  datatype StartFate = NoMemory | NoConnection | BadConnection | Started

  /** `alpha_pg_connect_start`: a bad connection is handed out too, in the failed state. */
  method ConnectStart(pipelineDepth: nat, fate: StartFate) returns (rc: Rc, db: PgConn?)
    ensures rc == if !(1 <= pipelineDepth <= 64) then RcInvalidArg else if fate.NoMemory? then RcIo
                  else if fate.Started? then RcOk else RcDb
    ensures db != null <==> 1 <= pipelineDepth <= 64 && (fate.Started? || fate.BadConnection?)
    ensures db != null ==>
              fresh(db) && fresh(db.fifo) && db.Valid() &&
              db.View() == Start(pipelineDepth).client.(phase := if fate.Started? then Connecting else Failed)
  {
    db := null;
    if pipelineDepth < 1 || pipelineDepth > 64 { return RcInvalidArg, null; }
    if fate.NoMemory? { return RcIo, null; }
    if fate.NoConnection? { return RcDb, null; }
    db := new PgConn(pipelineDepth);
    if fate.BadConnection? {
      db.phase := Failed;
      return RcDb, db;
    }
    rc := RcOk;
  }
}
