/** The HTTP client object of http_client.c: a linked list of requests changed in place.
    Every method is the step of HttpRequests on the value the object stands for. */
module HttpClient {
  import opened HttpRequests

  class Node {
    ghost const id: nat
    const kind: int
    const userData: int
    var response: Bytes
    var next: Node?

    constructor (ghost id: nat, kind: int, userData: int)
      ensures this.id == id && this.kind == kind && this.userData == userData
      ensures response == [] && next == null
    {
      this.id := id;
      this.kind := kind;
      this.userData := userData;
      response := [];
      next := null;
    }
  }

  ghost function Entry(n: Node): Request
    reads n`response
  {
    Request(n.id, n.kind, n.userData, n.response)
  }

  ghost function Entries(nodes: seq<Node>): (list: seq<Request>)
    reads nodes`response
    ensures |list| == |nodes|
    ensures forall i :: 0 <= i < |nodes| ==> list[i] == Entry(nodes[i])
  {
    if nodes == [] then [] else [Entry(nodes[0])] + Entries(nodes[1..])
  }

  ghost function At(nodes: seq<Node>, i: nat): Node? {
    if i < |nodes| then nodes[i] else null
  }

  ghost predicate Linked(nodes: seq<Node>)
    reads nodes`next
  {
    forall i :: 0 <= i < |nodes| ==> nodes[i].next == At(nodes, i + 1)
  }

  /** The nodes without the first occurrence of this one. */
  ghost function Dropped(nodes: seq<Node>, n: Node): seq<Node> {
    if nodes == [] then [] else if nodes[0] == n then nodes[1..] else [nodes[0]] + Dropped(nodes[1..], n)
  }

  ghost function Skipped(nodes: seq<Node>, k: nat): (after: seq<Node>)
    requires k < |nodes|
    ensures |after| == |nodes| - 1
    ensures forall i :: 0 <= i < |after| ==> after[i] == nodes[if i < k then i else i + 1]
  {
    nodes[..k] + nodes[k + 1..]
  }

  lemma {:induction false} DroppedAt(nodes: seq<Node>, n: Node, k: nat)
    requires k <= |nodes| && n !in nodes[..k] && (k < |nodes| ==> nodes[k] == n)
    ensures Dropped(nodes, n) == if k < |nodes| then Skipped(nodes, k) else nodes
  {
    if k > 0 {
      assert nodes[0] in nodes[..k];
      assert nodes[1..][..k - 1] == nodes[1..k];
      DroppedAt(nodes[1..], n, k - 1);
    }
  }

  lemma EntriesCons(n: Node, nodes: seq<Node>)
    ensures Entries([n] + nodes) == [Entry(n)] + Entries(nodes)
  {
    assert ([n] + nodes)[1..] == nodes;
  }

  /** Dropping a node drops its entry. */
  lemma EntriesDropped(nodes: seq<Node>, n: Node)
    requires n in nodes && Descending(Entries(nodes))
    ensures var k := Find(Entries(nodes), n.id);
            k < |nodes| && nodes[k] == n && Entries(Dropped(nodes, n)) == Without(Entries(nodes), k)
  {
    hide Find, Dropped, Entries, Without;
    var k := NodeAt(nodes, n);
    DroppedAt(nodes, n, k);
    var after, list := Dropped(nodes, n), Without(Entries(nodes), k);
    forall i | 0 <= i < |after|
      ensures Entries(after)[i] == list[i]
    {
      assert after[i] == nodes[if i < k then i else i + 1];
    }
  }

  lemma UnlinkedValue(c: Client, nodes: seq<Node>, n: Node)
    requires ListInv(c) && c.list == Entries(nodes) && n in nodes
    ensures Unlink(c, n.id) == c.(list := Entries(Dropped(nodes, n)), pending := c.pending - 1)
  {
    hide Entries, Dropped, Find;
    EntriesDropped(nodes, n);
  }

  lemma DistinctSkipped(nodes: seq<Node>, k: nat)
    requires Distinct(nodes) && k < |nodes|
    ensures Distinct(Skipped(nodes, k))
    ensures forall n :: n in Skipped(nodes, k) ==> n in nodes
  {
    hide Skipped;
  }

  /** The request's place in the list is its node's. */
  lemma NodeAt(nodes: seq<Node>, n: Node) returns (k: nat)
    requires n in nodes && Descending(Entries(nodes))
    ensures k == Find(Entries(nodes), n.id) && k < |nodes| && nodes[k] == n && n !in nodes[..k]
  {
    hide Find, Entries;
    var list := Entries(nodes);
    var j :| 0 <= j < |nodes| && nodes[j] == n;
    assert list[j].id == n.id;
    Present(list, j);
    k := Find(list, n.id);
    forall i | 0 <= i < k
      ensures nodes[i] != n
    {
      assert list[i].id != n.id;
    }
  }

  ghost predicate Distinct(nodes: seq<Node>) {
    forall i, j :: 0 <= i < j < |nodes| ==> nodes[i] != nodes[j]
  }

  // ----- libcurl's message queue ------------------------------------------

  datatype Message = Finished(request: Node, status: int, transport: int) | Other

  /** The events one message stands for. */
  ghost function One(m: Message): seq<Event> {
    if m.Other? then [] else [Done(m.request.id, m.status, m.transport), Returned]
  }

  /** The events of the first n messages. */
  ghost function Script(messages: seq<Message>, n: nat): seq<Event>
    requires n <= |messages|
  {
    if n == 0 then [] else Script(messages, n - 1) + One(messages[n - 1])
  }

  /** From the n-th message on, libcurl reports held handles as finished, each once. */
  ghost predicate Queued(messages: seq<Message>, n: nat, nodes: seq<Node>, running: seq<nat>) {
    (forall i :: n <= i < |messages| && messages[i].Finished? ==>
       messages[i].request in nodes && messages[i].request.id !in running) &&
    (forall i, j :: n <= i < j < |messages| && messages[i].Finished? && messages[j].Finished? ==>
       messages[i].request != messages[j].request)
  }

  lemma QueuedAfter(messages: seq<Message>, n: nat, nodes: seq<Node>, running: seq<nat>)
    requires n < |messages| && Queued(messages, n, nodes, running)
    ensures Queued(messages, n + 1, Left(nodes, messages[n]), running)
  {
    hide Dropped;
    if messages[n].Finished? {
      forall i | n < i < |messages| && messages[i].Finished?
        ensures messages[i].request in Dropped(nodes, messages[n].request)
      {
        OthersStay(nodes, messages[n].request, messages[i].request);
      }
    }
  }

  lemma {:induction false} OthersStay(nodes: seq<Node>, n: Node, other: Node)
    requires other in nodes && other != n
    ensures other in Dropped(nodes, n)
  {
    if nodes[0] != n && nodes[0] != other {
      OthersStay(nodes[1..], n, other);
    }
  }

  /** The nodes left after a message. */
  ghost function Left(nodes: seq<Node>, m: Message): seq<Node> {
    if m.Finished? then Dropped(nodes, m.request) else nodes
  }

  lemma {:induction false} DroppedWithin(nodes: seq<Node>, n: Node, all: seq<Node>)
    requires forall i :: 0 <= i < |nodes| ==> nodes[i] in all
    ensures forall i :: 0 <= i < |Dropped(nodes, n)| ==> Dropped(nodes, n)[i] in all
  {
    if nodes != [] && nodes[0] != n {
      DroppedWithin(nodes[1..], n, all);
    }
  }

  lemma LeftWithin(nodes: seq<Node>, m: Message, all: seq<Node>)
    requires forall i :: 0 <= i < |nodes| ==> nodes[i] in all
    ensures forall i :: 0 <= i < |Left(nodes, m)| ==> Left(nodes, m)[i] in all
  {
    if m.Finished? {
      DroppedWithin(nodes, m.request, all);
    }
  }

  lemma TwoSteps(c: Client, first: Event, second: Event, d: Client)
    requires Legal(c, first) && Legal(Step(c, first), second) && d == Step(Step(c, first), second)
    ensures Steps(c, [first, second], d)
  {
    hide Legal, Step;
    assert [first, second][1..] == [second] && [second][1..] == [];
    assert Steps(d, [], d);
    assert Steps(Step(c, first), [second], d);
  }

  lemma {:induction false} FirstUser(list: seq<Request>, userData: int, k: nat)
    requires k <= |list| && forall i :: 0 <= i < k ==> list[i].userData != userData
    requires k < |list| ==> list[k].userData == userData
    ensures FindUser(list, userData) == k
  {
    hide FindUser;
    var m := FindUser(list, userData);
  }

  class Multi {
    var requests: Node?
    var pending: int
    ghost var spine: seq<Node>
    ghost var log: seq<Result>
    ghost var accepted: seq<Post>
    ghost var running: seq<nat>

    ghost function Value(): Client
      reads this, spine`response
    {
      Client(Entries(spine), pending, log, accepted, running)
    }

    ghost predicate Chain()
      reads `requests, `spine, spine`next
    {
      requests == At(spine, 0) && Linked(spine)
    }

    ghost predicate Valid()
      reads this, spine
    {
      Chain() && ListInv(Value())
    }

    lemma NodesDiffer()
      requires ListInv(Value())
      ensures Distinct(spine)
    {
      forall i, j | 0 <= i < j < |spine|
        ensures spine[i] != spine[j]
      {
        assert Value().list[i].id != Value().list[j].id;
      }
    }

    constructor ()
      ensures Valid() && Value() == Empty() && fresh(spine)
    {
      requests, pending := null, 0;
      spine, log, accepted, running := [], [], [], [];
    }

    /** The walk of `unlink_and_free`: the cursor's link belongs to `previous`, or to the
        client when that is null. */
    method Walk(request: Node) returns (previous: Node?, current: Node?, ghost k: nat)
      requires Chain()
      ensures k <= |spine| && request !in spine[..k]
      ensures current == At(spine, k)
      ensures previous == if k == 0 then null else spine[k - 1]
      ensures current == null || current == request
    {
      previous, current, k := null, requests, 0;
      while current != null && current != request
        invariant 0 <= k <= |spine|
        invariant current == At(spine, k)
        invariant previous == if k == 0 then null else spine[k - 1]
        invariant request !in spine[..k]
        decreases |spine| - k
      {
        assert spine[k].next == At(spine, k + 1);
        previous, current := current, current.next;
        k := k + 1;
      }
    }

    /** The link that leads to the k-th node is made to skip it. */
    method Skip(previous: Node?, request: Node, ghost k: nat)
      requires Chain() && Distinct(spine) && k < |spine| && spine[k] == request
      requires previous == if k == 0 then null else spine[k - 1]
      modifies `requests, `spine, spine`next
      ensures Chain() && spine == Skipped(old(spine), k)
    {
      hide Skipped;
      ghost var nodes := spine;
      assert request.next == At(nodes, k + 1);
      if previous == null {
        requests := request.next;
      } else {
        previous.next := request.next;
      }
      spine := Skipped(nodes, k);
      forall i | 0 <= i < |spine|
        ensures spine[i].next == At(spine, i + 1)
      {
        if i < k - 1 {
          assert nodes[i].next == At(nodes, i + 1);
        } else if i >= k {
          assert nodes[i + 1].next == At(nodes, i + 2);
        }
      }
    }

    /** `unlink_and_free`: takes the request out of the list if it is there. */
    method UnlinkAndFree(request: Node)
      requires Chain() && Distinct(spine)
      modifies `requests, `pending, `spine, spine`next
      ensures Chain() && spine == Dropped(old(spine), request)
      ensures pending == old(pending) - (if request in old(spine) then 1 else 0)
    {
      hide Dropped, Distinct;
      var previous, current, k := Walk(request);
      DroppedAt(spine, request, k);
      if current == request {
        Skip(previous, request, k);
        pending := pending - 1;
      }
    }

    /** `alpha_http_post_json`. */
    method PostJson(p: Post, fate: Fate) returns (err: Error)
      requires Valid()
      modifies this, spine`next
      ensures Valid() && (Value(), err) == HttpRequests.PostJson(old(Value()), p, fate)
      ensures forall n :: n in spine ==> n in old(spine) || fresh(n)
    {
      hide ListInv, Linked, Entries;
      if !ValidPost(p) { return InvalidArg; }
      if pending >= MAX_PENDING { return Range; }
      if fate.NoRequest? { return Io; }
      err := Attempt(p, fate);
    }

    /** A post past its guards and its first allocation. */
    method Attempt(p: Post, fate: Fate) returns (err: Error)
      requires Valid() && ValidPost(p) && pending < MAX_PENDING && !fate.NoRequest?
      modifies this, spine`next
      ensures Valid() && (Value(), err) == HttpRequests.PostJson(old(Value()), p, fate)
      ensures forall n :: n in spine ==> n in old(spine) || fresh(n)
    {
      hide HttpRequests.PostJson, ValidPost, ListInv, Distinct, Linked, Entries;
      ghost var nodes, before := spine, Value();
      NodesDiffer();
      PostOutcome(before, p, fate);
      var request := new Node(|accepted|, p.kind, p.userData);
      err := Submit(request, fate);
      assert Entries(nodes) == before.list;
      if err == Ok {
        accepted := accepted + [p];
        EntriesCons(request, nodes);
        assert Value().list == [Entry(request)] + before.list;
      }
    }

    /** The part of a post that owns the new request: it links it or frees it. */
    method Submit(request: Node, fate: Fate) returns (err: Error)
      requires Chain() && Distinct(spine) && request !in spine && !fate.NoRequest?
      modifies `requests, `pending, `spine, spine`next, request`next
      ensures Chain()
      ensures err == Ok <==> fate == Added
      ensures err == Ok ==> spine == [request] + old(spine) && pending == old(pending) + 1
      ensures err != Ok ==> spine == old(spine) && pending == old(pending)
      ensures err != Ok ==> err == if fate.OptionRefused? || fate.AddRefused? then Http else Io
    {
      hide Dropped, Distinct, Linked;
      ghost var nodes := spine;
      DroppedAt(nodes, request, |nodes|);
      if fate.NoEasyOrBody? || fate.NoHeaders? || fate.NoAuthorization? {
        UnlinkAndFree(request);
        return Io;
      }
      if fate.OptionRefused? {
        UnlinkAndFree(request);
        return Http;
      }
      Link(request);
      if fate.AddRefused? {
        DroppedAt(spine, request, 0);
        UnlinkAndFree(request);
        return Http;
      }
      err := Ok;
    }

    /** The request becomes the head of the list. */
    method Link(request: Node)
      requires Chain() && Distinct(spine) && request !in spine
      modifies `requests, `pending, `spine, request`next
      ensures Chain() && spine == [request] + old(spine) && Distinct(spine)
      ensures pending == old(pending) + 1
    {
      request.next := requests;
      requests := request;
      pending := pending + 1;
      spine := [request] + spine;
    }

    /** `receive_body`. */
    method ReceiveBody(request: Node, data: Bytes, grown: bool) returns (taken: nat)
      requires Valid() && request in spine && request.id !in running
      modifies request`response
      ensures Valid() && Legal(old(Value()), Chunk(request.id, data, grown))
      ensures Value() == Step(old(Value()), Chunk(request.id, data, grown))
      ensures grown && |old(request.response)| + |data| <= 1048576 ==>
                taken == |data| && request.response == old(request.response) + data
      ensures !grown || |old(request.response)| + |data| > 1048576 ==>
                taken == 0 && request.response == old(request.response)
    {
      hide Find, Entries, Linked;
      ghost var k := NodeAt(spine, request);
      ghost var before := Value();
      NodesDiffer();
      if |data| > MAX_RESPONSE - |request.response| || !grown {
        taken := 0;
      } else {
        request.response := request.response + data;
        taken := |data|;
      }
      assert Value().list == before.list[k := Entry(request)];
      StepKeepsList(before, Chunk(request.id, data, grown));
    }

    /** The completion callback is entered with the request's own fields; the request stays
        linked until it returns. */
    method Complete(request: Node, status: int, transport: int)
      requires Valid() && request in spine && request.id !in running
      modifies `log, `running
      ensures Valid() && Legal(old(Value()), Done(request.id, status, transport))
      ensures Value() == Step(old(Value()), Done(request.id, status, transport))
      ensures running == old(running) + [request.id]
    {
      hide Find, Entries, Linked;
      ghost var k := NodeAt(spine, request);
      log := log + [Result(request.id, request.kind, request.userData, request.response, status, transport)];
      running := running + [request.id];
    }

    /** The callback has returned: the request is unlinked and freed. */
    method AfterCallback(request: Node)
      requires Valid() && request in spine
      requires running != [] && running[|running| - 1] == request.id
      modifies `requests, `pending, `spine, `running, spine`next
      ensures Valid() && Value() == Step(old(Value()), Returned)
      ensures running == old(running[..|running| - 1]) && spine == Dropped(old(spine), request)
    {
      hide Entries, Linked, Dropped, ListInv, Distinct, Unlink;
      ghost var before := Value();
      NodesDiffer();
      UnlinkedValue(before, spine, request);
      StepKeepsList(before, Returned);
      ghost var list := Entries(Dropped(spine, request));
      UnlinkAndFree(request);
      assert Entries(spine) == list;
      running := running[..|running| - 1];
    }

    /** The walk of `alpha_http_cancel`. */
    method FirstWith(userData: int) returns (request: Node?, ghost k: nat)
      requires Chain()
      ensures k <= |spine| && request == At(spine, k)
      ensures k < |spine| ==> spine[k].userData == userData
      ensures forall i :: 0 <= i < k ==> spine[i].userData != userData
    {
      request, k := requests, 0;
      while request != null && request.userData != userData
        invariant 0 <= k <= |spine| && request == At(spine, k)
        invariant forall i :: 0 <= i < k ==> spine[i].userData != userData
        decreases |spine| - k
      {
        assert spine[k].next == At(spine, k + 1);
        request := request.next;
        k := k + 1;
      }
    }

    /** `alpha_http_cancel`, up to its callback; `request` is what AfterCallback then frees. */
    method Cancel(userData: int) returns (err: Error, request: Node?)
      requires Valid()
      modifies `log, `running
      ensures Valid() && (Value(), err) == HttpRequests.Cancel(old(Value()), userData)
      ensures err == Ok ==> request != null && request in spine && running == old(running) + [request.id]
    {
      hide FindUser, Entries, ListInv, Linked;
      ghost var before := Value();
      StepKeepsList(before, Cancelling(userData));
      if userData == 0 { return InvalidArg, null; }
      ghost var k;
      request, k := FirstWith(userData);
      FirstUser(before.list, userData, k);
      if request == null { return Range, null; }
      log := log + [Result(request.id, request.kind, request.userData, request.response, 0, ABORTED_BY_CALLBACK)];
      running := running + [request.id];
      err := Ok;
    }

    /** One message, for a callback that does not call the client. */
    method Handle(m: Message)
      requires Valid()
      requires m.Finished? ==> m.request in spine && m.request.id !in running
      modifies this, spine`next
      ensures Valid() && Steps(old(Value()), One(m), Value())
      ensures running == old(running) && accepted == old(accepted) && spine == Left(old(spine), m)
    {
      hide Step, ListInv, Linked, Entries, Dropped, Find;
      if m.Finished? {
        ghost var before := Value();
        Complete(m.request, m.status, m.transport);
        AfterCallback(m.request);
        assert running == old(running);
        TwoSteps(before, Done(m.request.id, m.status, m.transport), Returned, Value());
      }
    }

    /** `drain_completions` over the messages libcurl has queued, for callbacks that do not
        call the client. */
    method DrainCompletions(messages: seq<Message>)
      requires Valid() && Queued(messages, 0, spine, running)
      modifies this, spine`next
      ensures Valid() && Steps(old(Value()), Script(messages, |messages|), Value())
      ensures running == old(running) && accepted == old(accepted)
    {
      hide Legal, Step, ListInv, Linked, Entries, Dropped, Value, One;
      ghost var before, nodes := Value(), spine;
      var i := 0;
      while i < |messages|
        invariant 0 <= i <= |messages| && Valid()
        invariant running == old(running) && accepted == old(accepted)
        invariant forall j :: 0 <= j < |spine| ==> spine[j] in nodes
        invariant Queued(messages, i, spine, running)
        invariant Steps(before, Script(messages, i), Value())
      {
        ghost var c := Value();
        QueuedAfter(messages, i, spine, running);
        LeftWithin(spine, messages[i], nodes);
        Handle(messages[i]);
        StepsAppend(before, Script(messages, i), c, One(messages[i]), Value());
        i := i + 1;
      }
    }

    /** `alpha_http_multi_destroy`: frees every pending request and calls nobody. */
    method Destroy()
      requires Chain() && Distinct(spine) && pending == |spine|
      modifies `requests, `pending, `spine, spine`next
      ensures spine == [] && requests == null && pending == 0
    {
      hide Linked, Dropped, Distinct, Skipped;
      ghost var nodes := spine;
      while requests != null
        invariant Chain() && Distinct(spine) && pending == |spine|
        invariant forall i :: 0 <= i < |spine| ==> spine[i] in nodes
        decreases |spine|
      {
        var request := requests;
        DroppedAt(spine, request, 0);
        DistinctSkipped(spine, 0);
        UnlinkAndFree(request);
      }
    }
  }

  datatype CreateFate = NoClient | NoMulti | SetoptRefused | Created

  /** `alpha_http_multi_create`. */
  method Create(callbacksGiven: bool, fate: CreateFate) returns (err: Error, client: Multi?)
    ensures err == if !callbacksGiven then InvalidArg else if fate.NoClient? then Io
                   else if fate.Created? then Ok else Http
    ensures client != null <==> err == Ok
    ensures client != null ==> fresh(client) && client.Valid() && client.Value() == Empty()
  {
    client := null;
    if !callbacksGiven { return InvalidArg, null; }
    if fate.NoClient? { return Io, null; }
    if !fate.Created? { return Http, null; }
    client := new Multi();
    err := Ok;
  }
}
