/** The pending-request list of the HTTP client (http_client.c) as a step system: posts,
    body chunks, completions and cancels, with completion callbacks that may call the
    client again before they return. */
module HttpRequests {
  const MAX_PENDING := 64
  const MAX_RESPONSE := 1024 * 1024

  type Bytes = seq<bv8>

  datatype Error = Ok | InvalidArg | Range | Io | Http

  datatype Post = Post(kind: int, url: string, timeoutMs: int, userData: int)

  /** What the allocator and libcurl do during a post. */
  datatype Fate = NoRequest | NoEasyOrBody | NoHeaders | NoAuthorization | OptionRefused | AddRefused | Added

  datatype Request = Request(id: nat, kind: int, userData: int, body: Bytes)

  datatype Result = Result(id: nat, kind: int, userData: int, body: Bytes, status: int, transport: int)

  /** `accepted` numbers the posts that returned Ok; `running` holds the requests whose
      completion callback has not returned, innermost last. */
  datatype Client = Client(list: seq<Request>, pending: int, log: seq<Result>, accepted: seq<Post>, running: seq<nat>)

  function Empty(): Client {
    Client([], 0, [], [], [])
  }

  // ----- operations -------------------------------------------------------

  /** Position of the request in the list, |list| when it is not linked. */
  function Find(list: seq<Request>, id: nat): (k: nat)
    ensures k <= |list|
    ensures k < |list| ==> list[k].id == id
    ensures forall i :: 0 <= i < k ==> list[i].id != id
  {
    if list == [] || list[0].id == id then 0 else 1 + Find(list[1..], id)
  }

  /** Position of the first request from the head with this user data. */
  function FindUser(list: seq<Request>, userData: int): (k: nat)
    ensures k <= |list|
    ensures k < |list| ==> list[k].userData == userData
    ensures forall i :: 0 <= i < k ==> list[i].userData != userData
  {
    if list == [] || list[0].userData == userData then 0 else 1 + FindUser(list[1..], userData)
  }

  /** `unlink_and_free`: removes the request if it is linked. */
  function Unlink(c: Client, id: nat): (after: Client)
    ensures after == c.(list := after.list, pending := after.pending)
    ensures c.pending - after.pending == |c.list| - |after.list|
  {
    var k := Find(c.list, id);
    if k < |c.list| then c.(list := Without(c.list, k), pending := c.pending - 1) else c
  }

  function Without(list: seq<Request>, k: nat): (after: seq<Request>)
    requires k < |list|
    ensures |after| == |list| - 1
    ensures forall i :: 0 <= i < |after| ==> after[i] == list[if i < k then i else i + 1]
  {
    list[..k] + list[k + 1..]
  }

  predicate ValidPost(p: Post) {
    p.url != "" && p.timeoutMs > 0 && 0 <= p.kind <= 2
  }

  /** `alpha_http_post_json`. */
  function PostJson(c: Client, p: Post, fate: Fate): (Client, Error) {
    if !ValidPost(p) then (c, InvalidArg)
    else if c.pending >= MAX_PENDING then (c, Range)
    else if fate.NoRequest? then (c, Io)
    else
      var request := Request(|c.accepted|, p.kind, p.userData, []);
      if fate.NoEasyOrBody? || fate.NoHeaders? || fate.NoAuthorization? then (Unlink(c, request.id), Io)
      else if fate.OptionRefused? then (Unlink(c, request.id), Http)
      else
        var linked := c.(list := [request] + c.list, pending := c.pending + 1);
        if fate.AddRefused? then (Unlink(linked, request.id), Http)
        else (linked.(accepted := c.accepted + [p]), Ok)
  }

  /** `receive_body`: the new body. */
  function Receive(body: Bytes, data: Bytes, grown: bool): Bytes {
    if |data| > MAX_RESPONSE - |body| || !grown then body else body + data
  }

  /** The completion callback is entered for the k-th request. */
  function Enter(c: Client, k: nat, status: int, transport: int): Client
    requires k < |c.list|
  {
    var r := c.list[k];
    c.(log := c.log + [Result(r.id, r.kind, r.userData, r.body, status, transport)], running := c.running + [r.id])
  }

  const ABORTED_BY_CALLBACK := 42

  /** `alpha_http_cancel`, up to its callback. */
  function Cancel(c: Client, userData: int): (Client, Error) {
    var k := FindUser(c.list, userData);
    if userData == 0 then (c, InvalidArg)
    else if k == |c.list| then (c, Range)
    else (Enter(c, k, 0, ABORTED_BY_CALLBACK), Ok)
  }

  datatype Event =
    | Posting(post: Post, fate: Fate)
    | Chunk(id: nat, data: Bytes, grown: bool)
    | Done(id: nat, status: int, transport: int)
    | Cancelling(userData: int)
    | Returned

  /** libcurl only reports on handles it holds: linked, and not yet taken out for their
      callback. A callback may return while its request is still linked; after that the
      request has been freed, and the source has no defined way to go on. */
  predicate Held(c: Client, id: nat) {
    Find(c.list, id) < |c.list| && id !in c.running
  }

  predicate Legal(c: Client, e: Event) {
    match e
    case Chunk(id, _, _) => Held(c, id)
    case Done(id, _, _) => Held(c, id)
    case Returned => c.running != [] && Find(c.list, c.running[|c.running| - 1]) < |c.list|
    case _ => true
  }

  function Step(c: Client, e: Event): Client
    requires Legal(c, e)
  {
    match e
    case Posting(p, fate) => PostJson(c, p, fate).0
    case Chunk(id, data, grown) =>
      var k := Find(c.list, id);
      c.(list := c.list[k := c.list[k].(body := Receive(c.list[k].body, data, grown))])
    case Done(id, status, transport) => Enter(c, Find(c.list, id), status, transport)
    case Cancelling(userData) => Cancel(c, userData).0
    case Returned =>
      var last := |c.running| - 1;
      Unlink(c, c.running[last]).(running := c.running[..last])
  }

  ghost predicate LegalRun(events: seq<Event>)
    decreases |events|, 0
  {
    events == [] ||
    (var n := |events| - 1; LegalRun(events[..n]) && Legal(Run(events[..n]), events[n]))
  }

  ghost function Run(events: seq<Event>): Client
    requires LegalRun(events)
    decreases |events|, 1
  {
    if events == [] then Empty()
    else
      var n := |events| - 1;
      Step(Run(events[..n]), events[n])
  }

  /** From c, these events are legal one after the other and lead to d. */
  ghost predicate Steps(c: Client, events: seq<Event>, d: Client)
    decreases |events|
  {
    if events == [] then c == d else Legal(c, events[0]) && Steps(Step(c, events[0]), events[1..], d)
  }

  // ----- the invariant ----------------------------------------------------

  /** The cancel does not pick a request whose callback is still running. */
  predicate Avoids(c: Client, e: Event) {
    e.Cancelling? ==>
      var k := FindUser(c.list, e.userData);
      e.userData == 0 || k == |c.list| || c.list[k].id !in c.running
  }

  ghost predicate AvoidingRun(events: seq<Event>)
    requires LegalRun(events)
  {
    events == [] ||
    (var n := |events| - 1; AvoidingRun(events[..n]) && Avoids(Run(events[..n]), events[n]))
  }

  /** Newest first, counted, bounded. */
  ghost predicate ListInv(c: Client) {
    c.pending == |c.list| <= MAX_PENDING &&
    (forall i :: 0 <= i < |c.list| ==> c.list[i].id < |c.accepted|) &&
    Descending(c.list)
  }

  ghost predicate Own(accepted: seq<Post>, id: nat, kind: int, userData: int, body: Bytes) {
    id < |accepted| && kind == accepted[id].kind && userData == accepted[id].userData && |body| <= MAX_RESPONSE
  }

  /** Every request and every result carries what its own post said. */
  ghost predicate OwnInv(c: Client) {
    (forall i :: 0 <= i < |c.list| ==>
       Own(c.accepted, c.list[i].id, c.list[i].kind, c.list[i].userData, c.list[i].body)) &&
    (forall i :: 0 <= i < |c.log| ==>
       Own(c.accepted, c.log[i].id, c.log[i].kind, c.log[i].userData, c.log[i].body))
  }

  ghost predicate Logged(c: Client, id: nat) {
    exists i :: 0 <= i < |c.log| && c.log[i].id == id
  }

  ghost predicate OnceEach(log: seq<Result>) {
    forall i, j :: 0 <= i < j < |log| ==> log[i].id != log[j].id
  }

  /** A request has completed exactly when it has left the list or its callback runs. */
  ghost predicate OnceInv(c: Client) {
    OnceEach(c.log) &&
    (forall i, j :: 0 <= i < j < |c.running| ==> c.running[i] != c.running[j]) &&
    (forall i :: 0 <= i < |c.running| ==> Find(c.list, c.running[i]) < |c.list|) &&
    (forall id :: 0 <= id < |c.accepted| ==>
       (Logged(c, id) <==> Find(c.list, id) == |c.list| || id in c.running)) &&
    |c.log| + |c.list| == |c.accepted| + |c.running|
  }

  // ----- every step keeps it ----------------------------------------------

  lemma Present(list: seq<Request>, i: nat)
    requires i < |list|
    ensures Find(list, list[i].id) <= i
  {
  }

  ghost predicate Descending(list: seq<Request>) {
    forall i, j :: 0 <= i < j < |list| ==> list[i].id > list[j].id
  }

  lemma WithoutKeeps(list: seq<Request>, k: nat, other: nat)
    requires Descending(list) && k < |list|
    ensures other != list[k].id ==>
              (Find(Without(list, k), other) < |list| - 1 <==> Find(list, other) < |list|)
  {
    hide Find, Without;
    var after := Without(list, k);
    var m, j := Find(after, other), Find(list, other);
    if m < |after| {
      Present(list, if m < k then m else m + 1);
    }
    if j < |list| && j != k {
      var p := if j < k then j else j - 1;
      assert after[p] == list[j];
      Present(after, p);
    }
  }

  /** Unlinking takes out that request and no other. */
  lemma UnlinkRemoves(c: Client, id: nat, other: nat)
    requires ListInv(c)
    ensures ListInv(Unlink(c, id))
    ensures |Unlink(c, id).list| == |c.list| - (if Find(c.list, id) < |c.list| then 1 else 0)
    ensures Find(Unlink(c, id).list, id) == |Unlink(c, id).list|
    ensures other != id ==>
              (Find(Unlink(c, id).list, other) < |Unlink(c, id).list| <==> Find(c.list, other) < |c.list|)
  {
    hide Find, Without;
    var k := Find(c.list, id);
    if k < |c.list| {
      WithoutKeeps(c.list, k, other);
    }
  }

  /** A post that is refused, even after linking, leaves the client as it was. */
  lemma RefusedPostChangesNothing(c: Client, p: Post, fate: Fate)
    requires ListInv(c)
    ensures PostJson(c, p, fate).1 != Ok ==> PostJson(c, p, fate).0 == c
    ensures PostJson(c, p, fate).1 == Ok <==> ValidPost(p) && c.pending < MAX_PENDING && fate == Added
  {
    hide Find;
    var request := Request(|c.accepted|, p.kind, p.userData, []);
    var list := [request] + c.list;
    Present(list, 0);
    assert Without(list, 0) == c.list;
  }

  /** The three ways a well-formed post below the limit can end. */
  lemma PostOutcome(c: Client, p: Post, fate: Fate)
    requires ListInv(c) && ValidPost(p) && c.pending < MAX_PENDING
    ensures fate == Added ==>
              PostJson(c, p, fate) ==
              (Client([Request(|c.accepted|, p.kind, p.userData, [])] + c.list, c.pending + 1, c.log,
                      c.accepted + [p], c.running), Ok)
    ensures ListInv(PostJson(c, p, fate).0)
    ensures fate == OptionRefused || fate == AddRefused ==> PostJson(c, p, fate) == (c, Http)
    ensures fate != Added && fate != OptionRefused && fate != AddRefused ==> PostJson(c, p, fate) == (c, Io)
  {
    hide Unlink;
    RefusedPostChangesNothing(c, p, fate);
  }

  lemma StepKeepsList(c: Client, e: Event)
    requires Legal(c, e) && ListInv(c)
    ensures ListInv(Step(c, e))
  {
    hide Find, FindUser, Unlink;
    match e
    case Posting(p, fate) => RefusedPostChangesNothing(c, p, fate);
    case Returned => UnlinkRemoves(c, c.running[|c.running| - 1], 0);
    case _ =>
  }

  lemma StepKeepsOwn(c: Client, e: Event)
    requires Legal(c, e) && ListInv(c) && OwnInv(c)
    ensures OwnInv(Step(c, e))
  {
    hide Find, FindUser, Without;
    if e.Posting? {
      RefusedPostChangesNothing(c, e.post, e.fate);
    }
  }

  lemma EnterKeepsOnce(c: Client, k: nat, status: int, transport: int)
    requires ListInv(c) && OnceInv(c) && k < |c.list| && c.list[k].id !in c.running
    ensures OnceInv(Enter(c, k, status, transport))
  {
    hide Find;
    var id := c.list[k].id;
    var after := Enter(c, k, status, transport);
    Present(c.list, k);
    assert !Logged(c, id);
    forall other | 0 <= other < |c.accepted|
      ensures Logged(after, other) <==> Logged(c, other) || other == id
    {
      assert after.log[|c.log|].id == id;
      if Logged(c, other) {
        var i :| 0 <= i < |c.log| && c.log[i].id == other;
        assert after.log[i].id == other;
      }
    }
  }

  lemma ReturnKeepsOnce(c: Client)
    requires ListInv(c) && OnceInv(c) && Legal(c, Returned)
    ensures OnceInv(Step(c, Returned))
  {
    hide Find, Unlink;
    var last := |c.running| - 1;
    var id := c.running[last];
    var after := Step(c, Returned);
    forall other | 0 <= other < |c.accepted|
      ensures Logged(after, other) <==> Find(after.list, other) == |after.list| || other in after.running
    {
      UnlinkRemoves(c, id, other);
      assert Logged(after, other) == Logged(c, other);
    }
    forall i | 0 <= i < last
      ensures Find(after.list, c.running[i]) < |after.list|
    {
      UnlinkRemoves(c, id, c.running[i]);
    }
    UnlinkRemoves(c, id, id);
  }

  lemma AddedKeepsOnce(c: Client, p: Post)
    requires ListInv(c) && OwnInv(c) && OnceInv(c)
    ensures var request := Request(|c.accepted|, p.kind, p.userData, []);
            OnceInv(c.(list := [request] + c.list, pending := c.pending + 1, accepted := c.accepted + [p]))
  {
    hide Own;
    var id := |c.accepted|;
    var after := c.(list := [Request(id, p.kind, p.userData, [])] + c.list, pending := c.pending + 1,
                    accepted := c.accepted + [p]);
    assert after.list[1..] == c.list;
    forall other | 0 <= other <= id
      ensures Logged(after, other) <==> Find(after.list, other) == |after.list| || other in after.running
    {
      assert Logged(after, other) == Logged(c, other);
      assert other != id ==> Find(after.list, other) == 1 + Find(c.list, other);
      assert Logged(c, other) ==> other < id by {
        if Logged(c, other) {
          var i :| 0 <= i < |c.log| && c.log[i].id == other;
          OwnId(c, i);
        }
      }
      assert other in c.running ==> other < id by {
        if other in c.running {
          var k := Find(c.list, other);
        }
      }
    }
  }

  lemma OwnId(c: Client, i: nat)
    requires OwnInv(c) && i < |c.log|
    ensures c.log[i].id < |c.accepted|
  {
  }

  lemma ChunkKeepsOnce(c: Client, e: Event)
    requires e.Chunk? && Legal(c, e) && ListInv(c) && OnceInv(c)
    ensures OnceInv(Step(c, e))
  {
    hide Find;
    var after := Step(c, e);
    forall id: nat
      ensures Find(after.list, id) == Find(c.list, id) && Logged(after, id) == Logged(c, id)
    {
      SameIds(c.list, after.list, id);
    }
  }

  lemma {:induction false} SameIds(a: seq<Request>, b: seq<Request>, id: nat)
    requires |a| == |b| && forall i :: 0 <= i < |a| ==> a[i].id == b[i].id
    ensures Find(a, id) == Find(b, id)
  {
    if a != [] && a[0].id != id {
      SameIds(a[1..], b[1..], id);
    }
  }

  lemma StepKeepsOnce(c: Client, e: Event)
    requires Legal(c, e) && Avoids(c, e) && ListInv(c) && OwnInv(c) && OnceInv(c)
    ensures OnceInv(Step(c, e))
  {
    hide Find, FindUser, Unlink, Without, ListInv, OwnInv, OnceInv, Enter;
    match e
    case Posting(p, fate) =>
      RefusedPostChangesNothing(c, p, fate);
      AddedKeepsOnce(c, p);
    case Chunk(_, _, _) => ChunkKeepsOnce(c, e);
    case Done(id, status, transport) => EnterKeepsOnce(c, Find(c.list, id), status, transport);
    case Cancelling(userData) =>
      var k := FindUser(c.list, userData);
      if userData != 0 && k < |c.list| {
        EnterKeepsOnce(c, k, 0, ABORTED_BY_CALLBACK);
      }
    case Returned => ReturnKeepsOnce(c);
  }

  // ----- whole runs -------------------------------------------------------

  /** In every defined run, re-entrant callbacks included, pending is the length of the list, at
      most 64 and newest first, and every result carries its own post's kind and user data
      and at most 1 MiB of body. */
  lemma {:induction false} RunKeepsInv(events: seq<Event>)
    requires LegalRun(events)
    ensures ListInv(Run(events)) && OwnInv(Run(events))
  {
    hide ListInv, OwnInv, Step;
    if events == [] {
      EmptyHolds();
    } else {
      var n := |events| - 1;
      RunKeepsInv(events[..n]);
      StepKeepsList(Run(events[..n]), events[n]);
      StepKeepsOwn(Run(events[..n]), events[n]);
    }
  }

  lemma EmptyHolds()
    ensures ListInv(Empty()) && OwnInv(Empty()) && OnceInv(Empty())
  {
  }

  /** When no cancel picks a request whose callback is running, completed and pending
      account for every accepted request exactly once. */
  lemma {:induction false} RunKeepsOnce(events: seq<Event>)
    requires LegalRun(events) && AvoidingRun(events)
    ensures OnceInv(Run(events))
  {
    hide ListInv, OwnInv, OnceInv, Step, Avoids;
    if events == [] {
      EmptyHolds();
    } else {
      var n := |events| - 1;
      RunKeepsOnce(events[..n]);
      RunKeepsInv(events[..n]);
      StepKeepsOnce(Run(events[..n]), events[n]);
    }
  }

  lemma LogGrows(c: Client, e: Event)
    requires Legal(c, e)
    ensures c.log <= Step(c, e).log
  {
    hide Find, FindUser, Without;
  }

  /** The cancel of a request from inside its own completion reports it twice. */
  lemma CancelInsideOwnCallback(c: Client, e: Event)
    requires OnceInv(c) && ListInv(c) && !Avoids(c, e)
    ensures !OnceEach(Step(c, e).log)
  {
    hide Find, FindUser;
    var k := FindUser(c.list, e.userData);
    var id := c.list[k].id;
    assert Logged(c, id);
    var i :| 0 <= i < |c.log| && c.log[i].id == id;
    var log := Step(c, e).log;
    assert log[i].id == log[|c.log|].id;
  }

  /** What the client object does from a reachable state continues the run. */
  lemma {:induction false} StepsContinueRun(events: seq<Event>, more: seq<Event>, d: Client)
    requires LegalRun(events) && Steps(Run(events), more, d)
    ensures LegalRun(events + more) && Run(events + more) == d
    decreases |more|
  {
    hide Step, Legal;
    if more == [] {
      assert events + more == events;
    } else {
      RunExtends(events, more[0]);
      StepsContinueRun(events + [more[0]], more[1..], d);
      assert events + [more[0]] + more[1..] == events + more;
    }
  }

  lemma {:induction false} StepsAppend(c: Client, first: seq<Event>, d: Client, second: seq<Event>, e: Client)
    requires Steps(c, first, d) && Steps(d, second, e)
    ensures Steps(c, first + second, e)
    decreases |first|
  {
    hide Step, Legal;
    if first == [] {
      assert first + second == second;
    } else {
      StepsAppend(Step(c, first[0]), first[1..], d, second, e);
      assert (first + second)[1..] == first[1..] + second;
    }
  }

  /** Such a run: post, complete, cancel from the callback. When the cancel has freed the
      request, the callback that it came from can no longer return. */
  lemma SelfCancelReportsTwice(p: Post, status: int, transport: int)
    requires ValidPost(p) && p.userData != 0
    ensures var events := [Posting(p, Added), Done(0, status, transport), Cancelling(p.userData)];
            LegalRun(events) && !OnceEach(Run(events).log)
    ensures var events := [Posting(p, Added), Done(0, status, transport), Cancelling(p.userData), Returned];
            LegalRun(events) && !Legal(Run(events), Returned)
  {
    hide Run, LegalRun;
    var a, b, e := Posting(p, Added), Done(0, status, transport), Cancelling(p.userData);
    assert [] + [a] == [a] && [a] + [b] == [a, b] && [a, b] + [e] == [a, b, e];
    RunStarts();
    RunExtends([], a);
    RunExtends([a], b);
    RunExtends([a, b], e);
    var log := Run([a, b, e]).log;
    assert log[0].id == log[1].id;
    assert [a, b, e] + [Returned] == [a, b, e, Returned];
    RunExtends([a, b, e], Returned);
  }

  lemma RunStarts()
    ensures LegalRun([]) && Run([]) == Empty()
  {
  }

  lemma RunExtends(events: seq<Event>, e: Event)
    requires LegalRun(events) && Legal(Run(events), e)
    ensures LegalRun(events + [e]) && Run(events + [e]) == Step(Run(events), e)
  {
    var all := events + [e];
    assert all[..|all| - 1] == events;
  }

  lemma NotOnceGrows(a: seq<Result>, b: seq<Result>)
    requires a <= b && !OnceEach(a)
    ensures !OnceEach(b)
  {
    var i, j :| 0 <= i < j < |a| && a[i].id == a[j].id;
    assert b[i].id == b[j].id;
  }

  /** Each accepted request completes at most once if and only if no cancel picks a request
      whose own completion callback has not returned. */
  lemma {:induction false} OnceExactly(events: seq<Event>)
    requires LegalRun(events)
    ensures OnceEach(Run(events).log) <==> AvoidingRun(events)
  {
    hide ListInv, OwnInv, Step, Avoids, OnceEach;
    if AvoidingRun(events) {
      RunKeepsOnce(events);
    } else {
      var n := |events| - 1;
      var before := Run(events[..n]);
      LogGrows(before, events[n]);
      if AvoidingRun(events[..n]) {
        RunKeepsOnce(events[..n]);
        RunKeepsInv(events[..n]);
        CancelInsideOwnCallback(before, events[n]);
      } else {
        OnceExactly(events[..n]);
        NotOnceGrows(before.log, Step(before, events[n]).log);
      }
    }
  }

  /** Once no callback is running, the accepted requests are the completed and the pending. */
  lemma Conservation(events: seq<Event>)
    requires LegalRun(events) && AvoidingRun(events) && Run(events).running == []
    ensures |Run(events).accepted| == |Run(events).log| + Run(events).pending
    ensures forall id :: 0 <= id < |Run(events).accepted| ==>
              (Logged(Run(events), id) <==> Find(Run(events).list, id) == |Run(events).list|)
  {
    RunKeepsInv(events);
    RunKeepsOnce(events);
  }

  ghost predicate Holds(c: Client, userData: int) {
    exists i :: 0 <= i < |c.list| && c.list[i].userData == userData
  }

  /** The result reports the newest pending request with this user data. */
  ghost predicate IsNewest(c: Client, userData: int, r: Result) {
    (exists i :: 0 <= i < |c.list| && c.list[i] == Request(r.id, r.kind, r.userData, r.body)) &&
    r.userData == userData &&
    forall i :: 0 <= i < |c.list| && c.list[i].userData == userData ==> c.list[i].id <= r.id
  }

  /** Cancel takes the most recently accepted pending request with that user data, and
      refuses exactly when there is none. */
  lemma CancelPicksNewest(events: seq<Event>, userData: int)
    requires LegalRun(events)
    ensures Cancel(Run(events), userData).1 == InvalidArg <==> userData == 0
    ensures Cancel(Run(events), userData).1 == Range <==> userData != 0 && !Holds(Run(events), userData)
    ensures Cancel(Run(events), userData).1 != Ok ==> Cancel(Run(events), userData).0 == Run(events)
    ensures Cancel(Run(events), userData).1 == Ok ==>
              exists r :: IsNewest(Run(events), userData, r) &&
                          Cancel(Run(events), userData).0.log == Run(events).log + [r]
  {
    hide FindUser, OwnInv;
    RunKeepsInv(events);
    var c := Run(events);
    var k := FindUser(c.list, userData);
    if userData != 0 && k < |c.list| {
      var r := Cancel(c, userData).0.log[|c.log|];
      assert IsNewest(c, userData, r);
    }
  }

  // ----- what a post answers and what a result reports ---------------------

  /** A post's answer in every defined run. */
  lemma PostAnswersExactly(events: seq<Event>, p: Post, fate: Fate)
    requires LegalRun(events)
    ensures var error := PostJson(Run(events), p, fate).1;
            var wellFormed := p.url != "" && p.timeoutMs > 0 && (p.kind == 0 || p.kind == 1 || p.kind == 2);
            var fits := |Run(events).list| < 64;
            && (error == InvalidArg <==> !wellFormed)
            && (error == Range <==> wellFormed && !fits)
            && (error == Http <==> wellFormed && fits && (fate == OptionRefused || fate == AddRefused))
            && (error == Ok <==> wellFormed && fits && fate == Added)
  {
    RunKeepsInv(events);
    hide Run, LegalRun, Find, Unlink, Descending, OwnInv;
    var c := Run(events);
    if ValidPost(p) && c.pending < MAX_PENDING { PostOutcome(c, p, fate); }
  }

  /** Results are added by completions and by cancels that find a request, in that order and by
      nothing else: a completion reports its own request with the status and the transport code
      it came with, a cancel status 0 and libcurl's code 42 for an aborted transfer. */
  lemma LogExactly(events: seq<Event>, e: Event)
    requires LegalRun(events) && Legal(Run(events), e)
    ensures LegalRun(events + [e])
    ensures var log, after := Run(events).log, Run(events + [e]).log;
            if e.Done? then
              && |after| == |log| + 1 && after[..|log|] == log
              && after[|log|].id == e.id && after[|log|].status == e.status && after[|log|].transport == e.transport
            else if e.Cancelling? && e.userData != 0 && Holds(Run(events), e.userData) then
              && |after| == |log| + 1 && after[..|log|] == log
              && after[|log|].userData == e.userData && after[|log|].status == 0 && after[|log|].transport == 42
            else after == log
  {
    RunExtends(events, e);
    hide Run, LegalRun, Find, FindUser, Without;
    var c := Run(events);
    if e.Cancelling? && Holds(c, e.userData) {
      var i :| 0 <= i < |c.list| && c.list[i].userData == e.userData;
      assert FindUser(c.list, e.userData) <= i;
    }
  }

  // ----- bodies -----------------------------------------------------------

  /** The chunks libcurl delivered for a request that were accepted, in order. */
  function Received(events: seq<Event>, id: nat): (body: Bytes)
  {
    if events == [] then []
    else
      var n := |events| - 1;
      var body := Received(events[..n], id);
      var e := events[n];
      if e.Chunk? && e.id == id && e.grown && |body| + |e.data| <= MAX_RESPONSE then body + e.data else body
  }

  ghost predicate BodiesAre(c: Client, events: seq<Event>) {
    (forall i :: 0 <= i < |c.list| ==> c.list[i].body == Received(events, c.list[i].id)) &&
    (forall i :: 0 <= i < |c.log| ==> c.log[i].body == Received(events, c.log[i].id)) &&
    (forall id :: id >= |c.accepted| ==> Received(events, id) == [])
  }

  /** A request that has been reported is in its callback or no longer linked. */
  ghost predicate ReportedInv(c: Client) {
    forall i :: 0 <= i < |c.log| ==> c.log[i].id in c.running || Find(c.list, c.log[i].id) == |c.list|
  }

  lemma ReturnKeepsReported(c: Client)
    requires ListInv(c) && ReportedInv(c) && Legal(c, Returned)
    ensures ReportedInv(Step(c, Returned))
  {
    hide Find, Unlink;
    var last := |c.running| - 1;
    var after := Step(c, Returned);
    forall i | 0 <= i < |c.log|
      ensures c.log[i].id in after.running || Find(after.list, c.log[i].id) == |after.list|
    {
      UnlinkRemoves(c, c.running[last], c.log[i].id);
      assert c.log[i].id in c.running ==> c.log[i].id in c.running[..last] || c.log[i].id == c.running[last];
    }
  }

  lemma StepKeepsReported(c: Client, e: Event)
    requires Legal(c, e) && ListInv(c) && OwnInv(c) && ReportedInv(c)
    ensures ReportedInv(Step(c, e))
  {
    hide FindUser, Unlink, ListInv, OwnInv;
    var after := Step(c, e);
    match e
    case Posting(p, fate) =>
      RefusedPostChangesNothing(c, p, fate);
      if PostJson(c, p, fate).1 == Ok {
        assert after.list[1..] == c.list;
        forall i | 0 <= i < |c.log|
          ensures after.log[i].id in after.running || Find(after.list, after.log[i].id) == |after.list|
        {
          OwnId(c, i);
        }
      }
    case Chunk(_, _, _) =>
      forall id: nat
        ensures Find(after.list, id) == Find(c.list, id)
      {
        SameIds(c.list, after.list, id);
      }
    case Returned => ReturnKeepsReported(c);
    case _ =>
  }

  lemma {:induction false} RunKeepsReported(events: seq<Event>)
    requires LegalRun(events)
    ensures ReportedInv(Run(events))
  {
    hide ListInv, OwnInv, ReportedInv, Step;
    if events == [] {
      assert ReportedInv(Empty()) by { EmptyReported(); }
    } else {
      var n := |events| - 1;
      RunKeepsReported(events[..n]);
      RunKeepsInv(events[..n]);
      StepKeepsReported(Run(events[..n]), events[n]);
    }
  }

  lemma EmptyReported()
    ensures ReportedInv(Empty())
  {
  }

  /** Nothing arrives for a request once it has completed, and nothing before it is accepted,
      so in every defined run every body, pending or reported, is the concatenation of its
      accepted chunks. */
  lemma {:induction false} BodiesAreChunks(events: seq<Event>)
    requires LegalRun(events)
    ensures BodiesAre(Run(events), events)
  {
    hide Step, ListInv, OwnInv, ReportedInv;
    if events != [] {
      var n := |events| - 1;
      BodiesAreChunks(events[..n]);
      RunKeepsInv(events[..n]);
      RunKeepsReported(events[..n]);
      BodiesStep(Run(events[..n]), events);
    }
  }

  lemma QuietStep(c: Client, e: Event)
    requires Legal(c, e) && !e.Chunk? && ListInv(c)
    ensures |c.accepted| <= |Step(c, e).accepted| && c.log <= Step(c, e).log
    ensures forall i :: 0 <= i < |Step(c, e).list| ==>
              var r := Step(c, e).list[i]; r in c.list || (r.body == [] && r.id == |c.accepted|)
    ensures forall i :: |c.log| <= i < |Step(c, e).log| ==> Reports(c.list, Step(c, e).log[i])
  {
    hide Find, FindUser, ListInv, Without;
    if e.Posting? {
      RefusedPostChangesNothing(c, e.post, e.fate);
    }
  }

  ghost predicate Reports(list: seq<Request>, r: Result) {
    exists k :: 0 <= k < |list| && list[k].id == r.id && list[k].body == r.body
  }

  lemma BodiesStep(c: Client, events: seq<Event>)
    requires events != [] && Legal(c, events[|events| - 1])
    requires ListInv(c) && OwnInv(c) && ReportedInv(c) && BodiesAre(c, events[..|events| - 1])
    ensures BodiesAre(Step(c, events[|events| - 1]), events)
  {
    hide Find, FindUser, Unlink;
    var n := |events| - 1;
    var e := events[n];
    if e.Chunk? {
      ChunkBodies(c, events);
    } else {
      hide Step;
      QuietStep(c, e);
      assert forall id: nat :: Received(events, id) == Received(events[..n], id);
    }
  }

  lemma ChunkBodies(c: Client, events: seq<Event>)
    requires events != [] && Legal(c, events[|events| - 1]) && events[|events| - 1].Chunk?
    requires ListInv(c) && OwnInv(c) && ReportedInv(c) && BodiesAre(c, events[..|events| - 1])
    ensures BodiesAre(Step(c, events[|events| - 1]), events)
  {
    hide Find;
    var n := |events| - 1;
    var e := events[n];
    assert forall id: nat :: id != e.id ==> Received(events, id) == Received(events[..n], id);
    assert forall i :: 0 <= i < |c.log| ==> c.log[i].id != e.id;
    assert Received(events, e.id) == Receive(Received(events[..n], e.id), e.data, e.grown);
  }
}
