/** The shared-memory service call: a one-slot mailbox with two flags.

    Any number of clients and one server thread. Each step is what one participant
    does between taking the lock and releasing it; the server's callback runs without
    the lock. A wait may end by a wake-up or by its timeout at any moment. */
module ServiceProtocol {
  import opened Words
  import opened Outcomes

  datatype Request = Request(id: i32, data: seq<byte>)
  datatype Response = Response(id: i32, data: seq<byte>)

  /** The flags and the two data areas of the shared memory. */
  datatype Mailbox = Mailbox(hasRequest: bool, hasResponse: bool, request: Request, response: Response)

  /** A client in a call: before its request is in the mailbox, or waiting for the answer. */
  datatype Client =
    | Idle
    | WaitingForSlot(data: seq<byte>, respSize: nat)
    | WaitingForAnswer(request: Request, respSize: nat)

  datatype Server = Ready | Executing(request: Request)

  // ----- what each critical section does to the mailbox -----

  /** A client stores its request and takes back any old answer. */
  function Submit(m: Mailbox, r: Request): Mailbox {
    m.(request := r, hasRequest := true, hasResponse := false)
  }

  /** A client whose wait failed clears both flags. */
  function Reset(m: Mailbox): Mailbox {
    m.(hasRequest := false, hasResponse := false)
  }

  /** Whether the answer in the mailbox is one a client may return. */
  predicate Answers(m: Mailbox, id: i32, respSize: nat) {
    m.response.id == id && |m.response.data| == respSize
  }

  function TakeAnswer(m: Mailbox): Mailbox {
    m.(hasResponse := false)
  }

  /** The server ends a request; a failed callback leaves no answer. */
  function Reply(m: Mailbox, id: i32, result: Option<seq<byte>>): Mailbox {
    match result
    case Some(data) => m.(response := Response(id, data), hasResponse := true, hasRequest := false)
    case None => m.(hasRequest := false)
  }

  // ----- the protocol -----

  /** `submitted`, `executed` and `answered` are history: every request put in the
      mailbox, every callback started with its request and, once it has returned,
      its result, and every call that succeeded. */
  datatype Execution = Execution(request: Request, result: Option<Option<seq<byte>>>)
  datatype Success = Success(client: nat, request: Request, answer: seq<byte>)
  datatype State = State(box: Mailbox, clients: map<nat, Client>, server: Server,
                         submitted: seq<Request>, executed: seq<Execution>, answered: seq<Success>)

  datatype Event =
    | Begin(client: nat, data: seq<byte>, respSize: nat, id: i32)
    | SlotFree(client: nat, id: i32)
    | GiveUp(client: nat)
    | Quit(client: nat)
    | Collect(client: nat)
    | ServerClears
    | ServerTakes
    | ServerReplies(result: Option<seq<byte>>)

  function ClientOf(s: State, c: nat): Client {
    if c in s.clients then s.clients[c] else Idle
  }

  predicate Enabled(s: State, e: Event) {
    match e
    case Begin(c, _, _, _) => ClientOf(s, c).Idle?
    case SlotFree(c, _) => ClientOf(s, c).WaitingForSlot? && !s.box.hasRequest
    case GiveUp(c) => !ClientOf(s, c).Idle?
    case Quit(c) => !ClientOf(s, c).Idle?
    case Collect(c) => ClientOf(s, c).WaitingForAnswer? && s.box.hasResponse
    case ServerClears => s.server.Ready?
    case ServerTakes => s.server.Ready? && s.box.hasRequest && !s.box.hasResponse
    case ServerReplies(_) => s.server.Executing?
  }

  /** The step puts a request in the mailbox. */
  predicate Posts(s: State, e: Event) {
    (e.Begin? && !s.box.hasRequest) || e.SlotFree?
  }

  /** Request ids do not coincide: a request is posted under an id never used before. */
  predicate FreshId(s: State, e: Event) {
    Posts(s, e) ==> forall r | r in s.submitted :: r.id != e.id
  }

  function SetClient(s: State, c: nat, p: Client): State {
    s.(clients := s.clients[c := p])
  }

  function Post(s: State, c: nat, r: Request, respSize: nat): State {
    SetClient(s, c, WaitingForAnswer(r, respSize)).(box := Submit(s.box, r), submitted := s.submitted + [r])
  }

  function Apply(s: State, e: Event): State
    requires Enabled(s, e)
  {
    match e
    case Begin(c, data, size, id) =>
      if s.box.hasRequest then SetClient(s, c, WaitingForSlot(data, size)) else Post(s, c, Request(id, data), size)
    case SlotFree(c, id) =>
      var p := ClientOf(s, c);
      Post(s, c, Request(id, p.data), p.respSize)
    case GiveUp(c) => SetClient(s, c, Idle).(box := Reset(s.box))
    case Quit(c) => SetClient(s, c, Idle)
    case Collect(c) =>
      var p := ClientOf(s, c);
      if Answers(s.box, p.request.id, p.respSize) then
        SetClient(s, c, Idle).(box := TakeAnswer(s.box),
                               answered := s.answered + [Success(c, p.request, s.box.response.data)])
      else SetClient(s, c, Idle)
    case ServerClears => s.(box := Reset(s.box))
    case ServerTakes =>
      s.(server := Executing(s.box.request), executed := s.executed + [Execution(s.box.request, None)])
    case ServerReplies(result) =>
      var r := s.server.request;
      s.(server := Ready, box := Reply(s.box, r.id, result),
         executed := if s.executed == [] then [] else s.executed[|s.executed| - 1 := Execution(r, Some(result))])
  }

  predicate Start(s: State) {
    && !s.box.hasRequest && !s.box.hasResponse
    && s.clients == map[] && s.server == Ready
    && s.submitted == [] && s.executed == [] && s.answered == []
  }

  // ----- the invariant -----

  ghost predicate DistinctIds(rs: seq<Request>) {
    forall i, j :: 0 <= i < j < |rs| ==> rs[i].id != rs[j].id
  }

  /** Callbacks were started for submitted requests, never twice for one. */
  ghost predicate OncePerRequest(executed: seq<Execution>, submitted: seq<Request>) {
    && (forall x | x in executed :: x.request in submitted)
    && (forall i, j :: 0 <= i < j < |executed| ==> executed[i].request.id != executed[j].request.id)
  }

  ghost predicate NotStarted(executed: seq<Execution>, id: i32) {
    forall x | x in executed :: x.request.id != id
  }

  /** The pending request still has to be executed, unless it is the one under way. */
  ghost predicate ServerInv(s: State) {
    && (s.server.Executing? ==>
          && s.executed != [] && s.executed[|s.executed| - 1] == Execution(s.server.request, None)
          && !s.box.hasResponse)
    && (s.box.hasRequest ==>
          && s.box.request in s.submitted
          && (NotStarted(s.executed, s.box.request.id)
              || (s.server.Executing? && s.box.request == s.server.request)))
  }

  /** `data` is the result of a finished execution of the request with this id. */
  ghost predicate Backed(executed: seq<Execution>, id: i32, data: seq<byte>) {
    exists x :: x in executed && x.request.id == id && x.result == Some(Some(data))
  }

  /** Clients wait for their own requests, each for a different one not yet answered. */
  ghost predicate ClientsInv(s: State) {
    && (forall c | c in s.clients && s.clients[c].WaitingForAnswer? ::
          s.clients[c].request in s.submitted
          && forall a | a in s.answered :: a.request.id != s.clients[c].request.id)
    && (forall c, d | c in s.clients && d in s.clients && c != d ::
          s.clients[c].WaitingForAnswer? && s.clients[d].WaitingForAnswer? ==>
            s.clients[c].request.id != s.clients[d].request.id)
  }

  /** The answer a call returned is what the callback made of exactly its request. */
  ghost predicate RightAnswer(executed: seq<Execution>, a: Success) {
    Execution(a.request, Some(Some(a.answer))) in executed
  }

  ghost predicate AnswersInv(s: State) {
    && (forall a | a in s.answered :: a.request in s.submitted && RightAnswer(s.executed, a))
    && (forall i, j :: 0 <= i < j < |s.answered| ==> s.answered[i].request.id != s.answered[j].request.id)
  }

  ghost predicate Inv(s: State) {
    && DistinctIds(s.submitted)
    && OncePerRequest(s.executed, s.submitted)
    && !(s.box.hasRequest && s.box.hasResponse)
    && (s.box.hasResponse ==> Backed(s.executed, s.box.response.id, s.box.response.data))
    && ServerInv(s)
    && ClientsInv(s)
    && AnswersInv(s)
  }

  lemma PostKeepsInv(s: State, c: nat, r: Request, respSize: nat)
    requires Inv(s) && forall q | q in s.submitted :: q.id != r.id
    requires !s.box.hasRequest
    ensures Inv(Post(s, c, r, respSize))
  {
    assert NotStarted(s.executed, r.id);
  }

  lemma SameIdSameRequest(rs: seq<Request>, q: Request, r: Request)
    requires DistinctIds(rs) && q in rs && r in rs && q.id == r.id
    ensures q == r
  {
  }

  lemma CollectKeepsInv(s: State, c: nat)
    requires Inv(s) && Enabled(s, Collect(c))
    ensures Inv(Apply(s, Collect(c)))
  {
    var p := ClientOf(s, c);
    if Answers(s.box, p.request.id, p.respSize) {
      var x :| x in s.executed && x.request.id == p.request.id && x.result == Some(Some(s.box.response.data));
      SameIdSameRequest(s.submitted, x.request, p.request);
      assert RightAnswer(s.executed, Success(c, p.request, s.box.response.data));
    }
  }

  lemma TakesKeepsInv(s: State)
    requires Inv(s) && Enabled(s, ServerTakes)
    ensures Inv(Apply(s, ServerTakes))
  {
    var s' := Apply(s, ServerTakes);
    forall a | a in s'.answered
      ensures RightAnswer(s'.executed, a)
    {
      assert RightAnswer(s.executed, a);
    }
  }

  lemma RepliesKeepsInv(s: State, result: Option<seq<byte>>)
    requires Inv(s) && Enabled(s, ServerReplies(result))
    ensures Inv(Apply(s, ServerReplies(result)))
  {
    var s' := Apply(s, ServerReplies(result));
    var n := |s.executed| - 1;
    forall x | x in s.executed && x.result.Some?
      ensures x in s'.executed
    {
      var i :| 0 <= i < |s.executed| && s.executed[i] == x;
      assert s'.executed[i] == x;
    }
    assert s'.executed[n] == Execution(s.server.request, Some(result));
    forall a | a in s'.answered
      ensures RightAnswer(s'.executed, a)
    {
      assert RightAnswer(s.executed, a);
    }
  }

  lemma StepKeepsInv(s: State, e: Event)
    requires Inv(s) && Enabled(s, e) && FreshId(s, e)
    ensures Inv(Apply(s, e))
  {
    match e
    case Begin(c, data, size, id) =>
      if !s.box.hasRequest {
        PostKeepsInv(s, c, Request(id, data), size);
      }
    case SlotFree(c, id) => PostKeepsInv(s, c, Request(id, ClientOf(s, c).data), ClientOf(s, c).respSize);
    case Collect(c) => CollectKeepsInv(s, c);
    case ServerTakes => TakesKeepsInv(s);
    case ServerReplies(result) => RepliesKeepsInv(s, result);
    case _ =>
  }

  // ----- runs -----

  ghost predicate Run(states: seq<State>, es: seq<Event>) {
    && |states| == |es| + 1
    && Start(states[0])
    && forall i :: 0 <= i < |es| ==> Enabled(states[i], es[i]) && states[i + 1] == Apply(states[i], es[i])
  }

  ghost predicate FreshIds(states: seq<State>, es: seq<Event>)
    requires |states| == |es| + 1
  {
    forall i :: 0 <= i < |es| ==> FreshId(states[i], es[i])
  }

  lemma {:induction false} RunKeepsInv(states: seq<State>, es: seq<Event>, i: nat)
    requires Run(states, es) && FreshIds(states, es) && i < |states|
    ensures Inv(states[i])
  {
    if i > 0 {
      RunKeepsInv(states, es, i - 1);
      StepKeepsInv(states[i - 1], es[i - 1]);
    }
  }

  /** Whatever times out, is reset, fails or comes late: a call that succeeds returns
      what the callback made of exactly its own request, and no two successes share
      one execution. */
  lemma SuccessfulCallsGetTheirAnswer(states: seq<State>, es: seq<Event>, i: nat)
    requires Run(states, es) && FreshIds(states, es) && i < |states|
    ensures forall a | a in states[i].answered :: RightAnswer(states[i].executed, a)
    ensures forall j, k :: 0 <= j < k < |states[i].answered| ==>
              states[i].answered[j].request.id != states[i].answered[k].request.id
  {
    RunKeepsInv(states, es, i);
  }

  /** The callback is started at most once for a request, only for requests that were
      submitted, and the two flags are never both up while the lock is free. */
  lemma ExecutedAtMostOnce(states: seq<State>, es: seq<Event>, i: nat)
    requires Run(states, es) && FreshIds(states, es) && i < |states|
    ensures forall x | x in states[i].executed :: x.request in states[i].submitted
    ensures forall j, k :: 0 <= j < k < |states[i].executed| ==>
              states[i].executed[j].request.id != states[i].executed[k].request.id
    ensures !(states[i].box.hasRequest && states[i].box.hasResponse)
  {
    RunKeepsInv(states, es, i);
  }

  /** One client object stamps its requests with its own counter, starting at 1. */
  ghost predicate CountsUp(states: seq<State>, es: seq<Event>)
    requires |states| == |es| + 1
  {
    forall i :: 0 <= i < |es| && Posts(states[i], es[i]) ==> es[i].id == |states[i].submitted| + 1
  }

  lemma {:induction false} CounterNumbersRequests(states: seq<State>, es: seq<Event>, i: nat)
    requires Run(states, es) && CountsUp(states, es) && i < |states|
    ensures forall k :: 0 <= k < |states[i].submitted| ==> states[i].submitted[k].id == k + 1
  {
    if i > 0 {
      CounterNumbersRequests(states, es, i - 1);
      assert states[i] == Apply(states[i - 1], es[i - 1]);
    }
  }

  /** A single client's counter keeps ids apart, until it would overflow an `int`. */
  lemma OneCounterIsFresh(states: seq<State>, es: seq<Event>)
    requires Run(states, es) && CountsUp(states, es)
    ensures FreshIds(states, es)
  {
    forall i | 0 <= i < |es|
      ensures FreshId(states[i], es[i])
    {
      CounterNumbersRequests(states, es, i);
    }
  }

  // ----- a call that nobody disturbs -----

  /** From any state in which the mailbox is free and the server ready, an idle client's call
      that nothing interferes with returns what the callback made of its request, exactly if
      that has the expected size; a failed callback leaves no answer to collect. The mailbox
      is free again afterwards, and the call executed once. */
  lemma UndisturbedCall(s: State, c: nat, data: seq<byte>, respSize: nat, id: i32, result: Option<seq<byte>>)
    returns (posted: State, taken: State, replied: State)
    requires ClientOf(s, c).Idle? && !s.box.hasRequest && s.server.Ready?
    ensures Enabled(s, Begin(c, data, respSize, id)) && posted == Apply(s, Begin(c, data, respSize, id))
    ensures Enabled(posted, ServerTakes) && taken == Apply(posted, ServerTakes)
    ensures Enabled(taken, ServerReplies(result)) && replied == Apply(taken, ServerReplies(result))
    ensures posted.submitted == s.submitted + [Request(id, data)] == replied.submitted
    ensures replied.executed == s.executed + [Execution(Request(id, data), Some(result))]
    ensures Enabled(replied, Collect(c)) <==> result.Some?
    ensures !replied.box.hasRequest && replied.server.Ready?
    ensures result.Some? ==>
              var s' := Apply(replied, Collect(c));
              && s'.answered == s.answered +
                   (if |result.value| == respSize then [Success(c, Request(id, data), result.value)] else [])
              && ClientOf(s', c).Idle? && !s'.box.hasRequest && (|result.value| == respSize ==> !s'.box.hasResponse)
  {
    posted := Apply(s, Begin(c, data, respSize, id));
    taken := Apply(posted, ServerTakes);
    replied := Apply(taken, ServerReplies(result));
    assert replied.executed == s.executed + [Execution(Request(id, data), Some(result))];
  }

  /** A client that gives up frees the mailbox for the others; one that quits or finds an
      answer that is not its own leaves it as it is. */
  lemma CallEnds(s: State, c: nat, e: Event)
    requires Enabled(s, e) && (e == GiveUp(c) || e == Quit(c) || e == Collect(c))
    ensures var s', p := Apply(s, e), ClientOf(s, c);
            && ClientOf(s', c).Idle?
            && (e.GiveUp? ==> s'.box == s.box.(hasRequest := false, hasResponse := false))
            && (e.Quit? ==> s'.box == s.box)
            && (e.Collect? ==>
                  if s.box.response.id == p.request.id && |s.box.response.data| == p.respSize then
                    s'.box == s.box.(hasResponse := false)
                    && s'.answered == s.answered + [Success(c, p.request, s.box.response.data)]
                  else s'.box == s.box && s'.answered == s.answered)
  {
  }

  // ----- ids that may coincide -----

  function IdsOf(rs: seq<Request>): (ids: seq<i32>)
    ensures |ids| == |rs| && forall k :: 0 <= k < |ids| ==> ids[k] == rs[k].id
  {
    seq(|rs|, k requires 0 <= k < |rs| => rs[k].id)
  }

  predicate Distinct(ids: seq<i32>) {
    forall i, j :: 0 <= i < j < |ids| ==> ids[i] != ids[j]
  }

  /** The requests of the run are posted under these ids, in this order. */
  ghost predicate PostsUnder(states: seq<State>, es: seq<Event>, ids: seq<i32>) {
    Run(states, es) && IdsOf(states[|es|].submitted) <= ids
  }

  /** Every call that succeeded returned the callback's result for its own request. */
  ghost predicate AllRight(s: State) {
    forall a | a in s.answered :: RightAnswer(s.executed, a)
  }

  lemma {:induction false} SubmittedGrows(states: seq<State>, es: seq<Event>, i: nat)
    requires Run(states, es) && i <= |es|
    ensures states[i].submitted <= states[|es|].submitted
    decreases |es| - i
  {
    if i < |es| {
      SubmittedGrows(states, es, i + 1);
      assert states[i + 1] == Apply(states[i], es[i]);
    }
  }

  lemma DistinctIdsAreFresh(states: seq<State>, es: seq<Event>, ids: seq<i32>)
    requires PostsUnder(states, es, ids) && Distinct(ids)
    ensures FreshIds(states, es)
  {
    forall i | 0 <= i < |es|
      ensures FreshId(states[i], es[i])
    {
      if Posts(states[i], es[i]) {
        SubmittedGrows(states, es, i + 1);
        var before, last := states[i].submitted, states[|es|].submitted;
        assert states[i + 1] == Apply(states[i], es[i]);
        assert last[|before|].id == es[i].id;
        forall r | r in before
          ensures r.id != es[i].id
        {
          var k :| 0 <= k < |before| && before[k] == r;
          assert last[k] == r;
          assert IdsOf(last)[k] == ids[k] && IdsOf(last)[|before|] == ids[|before|];
        }
      }
    }
  }

  /** A run that ends in `s`, with these ids posted so far. */
  ghost predicate Reached(s: State, ids: seq<i32>) {
    exists states, es :: Run(states, es) && states[|es|] == s && IdsOf(s.submitted) == ids
  }

  lemma ReachedNext(s: State, ids: seq<i32>, e: Event, s': State, ids': seq<i32>)
    requires Reached(s, ids) && Enabled(s, e) && s' == Apply(s, e) && IdsOf(s'.submitted) == ids'
    ensures Reached(s', ids')
  {
    var states, es :| Run(states, es) && states[|es|] == s && IdsOf(s.submitted) == ids;
    var states', es' := states + [s'], es + [e];
    assert Run(states', es') && states'[|es'|] == s';
  }

  /** Client `c` posts a request to an idle mailbox. */
  lemma PostNext(s: State, ids: seq<i32>, c: nat, data: seq<byte>, size: nat, id: i32) returns (s': State)
    requires Reached(s, ids) && !s.box.hasRequest && ClientOf(s, c).Idle?
    ensures Reached(s', ids + [id]) && s' == Post(s, c, Request(id, data), size)
  {
    s' := Apply(s, Begin(c, data, size, id));
    assert IdsOf(s'.submitted) == ids + [id];
    ReachedNext(s, ids, Begin(c, data, size, id), s', ids + [id]);
  }

  /** Client 0 posts under the next id and gives up at once. */
  lemma PostInVain(s: State, ids: seq<i32>, id: i32) returns (s': State)
    requires Reached(s, ids) && !s.box.hasRequest && ClientOf(s, 0).Idle?
    ensures Reached(s', ids + [id]) && !s'.box.hasRequest && ClientOf(s', 0).Idle?
    ensures ClientOf(s', 1) == ClientOf(s, 1)
    ensures s'.server == s.server && s'.executed == s.executed && s'.answered == s.answered
  {
    var posted := PostNext(s, ids, 0, [], 0, id);
    s' := Apply(posted, GiveUp(0));
    ReachedNext(posted, ids + [id], GiveUp(0), s', ids + [id]);
  }

  lemma {:induction false} PostAllInVain(s: State, ids: seq<i32>, n: nat, m: nat) returns (s': State)
    requires n <= m <= |ids| && Reached(s, ids[..n]) && !s.box.hasRequest && ClientOf(s, 0).Idle?
    ensures Reached(s', ids[..m]) && !s'.box.hasRequest && ClientOf(s', 0).Idle?
    ensures ClientOf(s', 1) == ClientOf(s, 1)
    ensures s'.server == s.server && s'.executed == s.executed && s'.answered == s.answered
    decreases m - n
  {
    if n == m {
      s' := s;
    } else {
      var next := PostInVain(s, ids[..n], ids[n]);
      assert ids[..n] + [ids[n]] == ids[..n + 1];
      s' := PostAllInVain(next, ids, n + 1, m);
    }
  }

  /** Client 0 posts, the server takes the request, and the client gives up. */
  lemma PostAndAbandon(s: State, ids: seq<i32>, data: seq<byte>, size: nat, id: i32) returns (s': State)
    requires Reached(s, ids) && !s.box.hasRequest && ClientOf(s, 0).Idle? && s.server.Ready?
    ensures Reached(s', ids + [id]) && !s'.box.hasRequest && ClientOf(s', 0).Idle?
    ensures ClientOf(s', 1) == ClientOf(s, 1) && s'.answered == s.answered
    ensures s'.server == Executing(Request(id, data))
    ensures s'.executed == s.executed + [Execution(Request(id, data), None)]
  {
    var posted := PostNext(s, ids, 0, data, size, id);
    var taken := Apply(posted, ServerTakes);
    ReachedNext(posted, ids + [id], ServerTakes, taken, ids + [id]);
    s' := Apply(taken, GiveUp(0));
    ReachedNext(taken, ids + [id], GiveUp(0), s', ids + [id]);
  }

  /** Client 1 posts under the id of the abandoned request, and is handed its answer. */
  lemma TakeForeignAnswer(s: State, ids: seq<i32>, data: seq<byte>, answer: seq<byte>) returns (s': State)
    requires Reached(s, ids) && !s.box.hasRequest && ClientOf(s, 1).Idle?
    requires s.server.Executing? && s.executed != []
    requires s.executed[|s.executed| - 1] == Execution(s.server.request, None)
    ensures var r := s.server.request;
            && Reached(s', ids + [r.id])
            && s'.executed == s.executed[..|s.executed| - 1] + [Execution(r, Some(Some(answer)))]
            && s'.answered == s.answered + [Success(1, Request(r.id, data), answer)]
  {
    var r, n := s.server.request, |s.executed| - 1;
    var ids' := ids + [r.id];
    var posted := PostNext(s, ids, 1, data, |answer|, r.id);
    var replied := Apply(posted, ServerReplies(Some(answer)));
    ReachedNext(posted, ids', ServerReplies(Some(answer)), replied, ids');
    assert replied.executed == s.executed[n := Execution(r, Some(Some(answer)))];
    s' := Apply(replied, Collect(1));
    ReachedNext(replied, ids', Collect(1), s', ids');
  }

  lemma WrongAnswer(s: State, r: Request, other: seq<byte>, answer: seq<byte>)
    requires s.executed == [Execution(r, Some(Some(answer)))] && other != r.data
    requires Success(1, Request(r.id, other), answer) in s.answered
    ensures !AllRight(s)
  {
    assert !RightAnswer(s.executed, Success(1, Request(r.id, other), answer));
  }

  lemma MixedAnswers(ids: seq<i32>, i: nat, j: nat) returns (s: State)
    requires i < j < |ids|
    ensures Reached(s, ids[..j] + [ids[i]]) && !AllRight(s)
  {
    s := State(Mailbox(false, false, Request(0, []), Response(0, [])), map[], Ready, [], [], []);
    assert Run([s], []) && IdsOf([]) == [] == ids[..0];
    assert Reached(s, ids[..0]);
    hide Reached, Run, Apply, Enabled, AllRight;
    var r := Request(ids[i], [1]);
    s := PostAllInVain(s, ids, 0, i);
    s := PostAndAbandon(s, ids[..i], r.data, 0, r.id);
    assert ids[..i] + [ids[i]] == ids[..i + 1];
    assert s.executed == [Execution(r, None)];
    s := PostAllInVain(s, ids, i + 1, j);
    s := TakeForeignAnswer(s, ids[..j], [2], []);
    WrongAnswer(s, r, [2], []);
  }

  /** If two requests go out under one id, whatever the ids before and between them, one
      client can be handed the answer to the other's request: two client objects do use
      the same ids, as both count from 1. */
  lemma RepeatedIdMixesAnswers(ids: seq<i32>, i: nat, j: nat)
    requires i < j < |ids| && ids[i] == ids[j]
    ensures exists states, es :: PostsUnder(states, es, ids) && !AllRight(states[|es|])
  {
    var s := MixedAnswers(ids, i, j);
    var states, es :| Run(states, es) && states[|es|] == s && IdsOf(s.submitted) == ids[..j] + [ids[i]];
    hide Run, AllRight;
    assert ids[..j] + [ids[i]] <= ids;
    assert PostsUnder(states, es, ids);
  }

  /** Distinct ids are exactly what the service needs: calls get the answers to their own
      requests in every run that posts under these ids if and only if none repeats. */
  lemma DistinctIdsAreEnough(ids: seq<i32>)
    ensures Distinct(ids) <==> forall states, es :: PostsUnder(states, es, ids) ==> AllRight(states[|es|])
  {
    if Distinct(ids) {
      forall states, es | PostsUnder(states, es, ids)
        ensures AllRight(states[|es|])
      {
        DistinctIdsAreFresh(states, es, ids);
        SuccessfulCallsGetTheirAnswer(states, es, |es|);
      }
    } else {
      var i, j :| 0 <= i < j < |ids| && ids[i] == ids[j];
      RepeatedIdMixesAnswers(ids, i, j);
    }
  }
}
