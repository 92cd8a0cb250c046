/** The adapter struct and loop of core/apps/c_driver_adapter.c in their own form. Each
    method is proved to be the function of the same meaning in `PgAdapter`; `world` is the
    server's side, which only the specification sees. */
module PgDriver {
  import opened PgPipeline
  import opened PgClient
  import opened PgAdapter

  lemma LogGrows(c: Client, e: Event)
    requires e.ServiceEvent?
    ensures |c.log| <= |Service(c, e.readable, e.writable, e.env).0.log|
  {
    hide Service;
    var called := ServiceCallsFromFront(c, e.readable, e.writable, e.env);
  }

  class Driver {
    const conn: PgConn
    const total: nat
    const latency: array<int>
    var submitted: nat
    var completed: nat
    var inflight: bool
    var failed: bool
    var tokenIndex: nat
    var tokenStarted: int
    ghost var world: World

    ghost predicate Valid()
      reads this, conn, conn.fifo, latency
    {
      conn.Valid() && conn.View() == world.client && latency.Length == total
    }

    ghost function View(): Adapter
      reads this, latency
    {
      Adapter(total, submitted, completed, inflight, failed, tokenIndex, tokenStarted, latency[..])
    }

    constructor (connected: PgConn, operations: nat, ghost server: World)
      requires connected.Valid() && server.client == connected.View()
      ensures Valid() && conn == connected && world == server && fresh(latency) && View() == Begin(operations)
    {
      conn, total := connected, operations;
      latency := new int[operations](_ => 0);
      submitted, completed, inflight, failed, tokenIndex, tokenStarted := 0, 0, false, false, 0, 0;
      world := server;
    }

    method SubmitOne(inp: SubmitIn) returns (rc: Rc)
      requires Valid()
      modifies this, conn, conn.fifo
      ensures Valid() && (world, View(), rc) == PgAdapter.SubmitOne(old(world), old(View()), inp)
    {
      hide Send, PgConn.Queue, PgConn.Slots;
      var index := submitted;
      tokenIndex, tokenStarted := index, inp.startedNs;
      if !inp.argsOk {
        return RcInvalidArg;
      }
      ghost var e := SendEvent(RequestOf(index), inp.verdict, inp.sendOk, inp.flush, inp.flushedTo);
      rc := conn.SendRequest(RequestOf(index), inp.sendOk, inp.flush);
      world := Step(world, e).0;
      if rc == RcOk {
        submitted := submitted + 1;
        inflight := true;
        if !inp.watchOk {
          return RcIo;
        }
      }
    }

    method FinishOperation(status: Status, inp: ReadyIn)
      requires latency.Length == total
      modifies this`completed, this`inflight, this`failed, latency
      ensures forall request :: View() == Finish(old(View()), Completion(request, status), inp)
    {
      var ok := status == StatusOk;
      if ok && tokenIndex % OP_COUNT >= 2 && !inp.matches {
        ok := false;
      }
      if !ok || inp.endedNs <= tokenStarted || tokenIndex >= total {
        failed := true;
      } else {
        latency[tokenIndex] := inp.endedNs - tokenStarted;
        assert latency[..] == old(latency[..])[tokenIndex := inp.endedNs - tokenStarted];
      }
      completed := completed + 1;
      inflight := false;
    }

    /** The callbacks of the results logged from `from` on. */
    method RunCallbacks(from: nat, inp: ReadyIn)
      requires from <= |conn.log| && latency.Length == total
      modifies this`completed, this`inflight, this`failed, latency
      ensures View() == FinishAll(old(View()), conn.log[from..], inp)
    {
      hide Finish;
      var i := from;
      ghost var called := conn.log[from..];
      while i < |conn.log|
        invariant from <= i <= |conn.log|
        invariant View() == FinishAll(old(View()), called[..i - from], inp)
      {
        assert called[..i + 1 - from][..i - from] == called[..i - from];
        FinishOperation(conn.log[i].status, inp);
        i := i + 1;
      }
      assert called[..i - from] == called;
    }

    /** The readiness callback: service the client, whose results call back in order. The
        callbacks change only adapter fields, so they are replayed after the service. */
    method Ready(inp: ReadyIn)
      requires Valid() && inp.event.ServiceEvent?
      modifies this, conn, latency
      ensures Valid() && (world, View()) == OnReady(old(world), old(View()), inp)
    {
      hide PgPipeline.Service, PgConn.Queue, PgConn.Slots, FinishAll;
      var before := |conn.log|;
      var rc := conn.Service(inp.event.readable, inp.event.writable, inp.event.env);
      world := Step(world, inp.event).0;
      LogGrows(old(world).client, inp.event);
      RunCallbacks(before, inp);
      if rc != RcOk || !inp.watchOk {
        failed := true;
      }
    }

    method Drive(ins: seq<LoopIn>) returns (ok: bool)
      requires Valid()
      requires forall i, j :: 0 <= i < |ins| && 0 <= j < |ins[i].ready| ==> ins[i].ready[j].event.ServiceEvent?
      modifies this, conn, conn.fifo, latency
      ensures Valid() && (world, View()) == PgAdapter.Drive(old(world), old(View()), ins)
      ensures ok == !failed
    {
      hide PgAdapter.SubmitOne, OnReady, PgConn.Queue, PgConn.Slots;
      var k := 0;
      while k < |ins| && !failed && completed < total
        invariant 0 <= k <= |ins| && Valid()
        invariant PgAdapter.Drive(world, View(), ins[k..]) == PgAdapter.Drive(old(world), old(View()), ins)
      {
        Pass(ins[k]);
        assert ins[k..][0] == ins[k] && ins[k..][1..] == ins[k + 1..];
        k := k + 1;
      }
      ok := !failed;
    }

    method Pass(inp: LoopIn)
      requires Valid() && forall j :: 0 <= j < |inp.ready| ==> inp.ready[j].event.ServiceEvent?
      modifies this, conn, conn.fifo, latency
      ensures Valid() && (world, View()) == LoopBody(old(world), old(View()), inp)
    {
      hide PgAdapter.SubmitOne, OnReady, PgConn.Queue, PgConn.Slots;
      if !inflight && conn.count == 0 && !conn.syncSent && !conn.flushPending {
        var rc := SubmitOne(inp.submit);
        if rc != RcOk {
          failed := true;
          return;
        }
      }
      ghost var w1, a1 := world, View();
      var i := 0;
      while i < |inp.ready|
        invariant 0 <= i <= |inp.ready| && Valid()
        invariant OnReadyAll(world, View(), inp.ready[i..]) == OnReadyAll(w1, a1, inp.ready)
      {
        Ready(inp.ready[i]);
        assert inp.ready[i..][0] == inp.ready[i] && inp.ready[i..][1..] == inp.ready[i + 1..];
        i := i + 1;
      }
      assert inp.ready[i..] == [];
      if !inp.runtimeOk || inp.late {
        failed := true;
      }
    }
  }
}
