/** The two halves of a service call as they run over the shared mailbox. */
module Service {
  import opened Words
  import opened Outcomes
  import opened Sequences
  import opened ServiceProtocol

  class ServiceShm {
    var hasRequest: bool
    var hasResponse: bool
    var request: Request
    var response: Response

    constructor ()
      ensures !hasRequest && !hasResponse
    {
      hasRequest, hasResponse := false, false;
      request, response := Request(0, []), Response(0, []);
    }

    function Box(): Mailbox
      reads this
    {
      Mailbox(hasRequest, hasResponse, request, response)
    }

    /** What the other participants have left when the lock is taken again. */
    method Become(m: Mailbox)
      modifies this
      ensures Box() == m
    {
      hasRequest, hasResponse, request, response := m.hasRequest, m.hasResponse, m.request, m.response;
    }
  }

  /** A lock-holding section of a participant: its place before and after, the mailbox
      before and after, and the protocol step it was; no step when a client woke up,
      found nothing changed for it and waits again. */
  datatype Section = Section(before: Client, box: Mailbox, step: Option<Event>, after: Client, box': Mailbox)

  predicate IsClients(e: Event, c: nat) {
    (e.Begin? || e.SlotFree? || e.GiveUp? || e.Quit? || e.Collect?) && e.client == c
  }

  /** The section is a step of the protocol for a client standing at `before`. */
  predicate IsStep(t: Section) {
    match t.step
    case None => t.after == t.before && t.box' == t.box && !t.before.Idle?
    case Some(e) =>
      var s := State(t.box, map[0 := t.before], Ready, [], [], []);
      IsClients(e, 0) && Enabled(s, e) && Apply(s, e).box == t.box' && ClientOf(Apply(s, e), 0) == t.after
  }

  // ----- the sections a client can make -----

  ghost function WaitSection(p: Client, box: Mailbox): (t: Section)
    requires !p.Idle?
    ensures IsStep(t)
  {
    Section(p, box, None, p, box)
  }

  ghost function GiveUpSection(p: Client, box: Mailbox): (t: Section)
    requires !p.Idle?
    ensures IsStep(t)
  {
    Section(p, box, Some(GiveUp(0)), Idle, Reset(box))
  }

  ghost function QuitSection(p: Client, box: Mailbox): (t: Section)
    requires !p.Idle?
    ensures IsStep(t)
  {
    Section(p, box, Some(Quit(0)), Idle, box)
  }

  ghost function BlockedSection(data: seq<byte>, respSize: nat, box: Mailbox): (t: Section)
    requires box.hasRequest
    ensures IsStep(t)
  {
    Section(Idle, box, Some(Begin(0, data, respSize, 0)), WaitingForSlot(data, respSize), box)
  }

  ghost function PostSection(p: Client, box: Mailbox, r: Request, respSize: nat): (t: Section)
    requires !box.hasRequest && (p == Idle || p == WaitingForSlot(r.data, respSize))
    ensures IsStep(t)
  {
    Section(p, box, Some(if p.Idle? then Begin(0, r.data, respSize, r.id) else SlotFree(0, r.id)),
            WaitingForAnswer(r, respSize), Submit(box, r))
  }

  ghost function CollectSection(p: Client, box: Mailbox): (t: Section)
    requires p.WaitingForAnswer? && box.hasResponse
    ensures IsStep(t)
  {
    Section(p, box, Some(Collect(0)), Idle,
            if Answers(box, p.request.id, p.respSize) then TakeAnswer(box) else box)
  }

  /** How a wait on a condition variable ended: the mailbox as found, whether the wait
      failed (it timed out or the lock's owner died), and whether shutdown is on. */
  datatype Wake = Wake(found: Mailbox, failed: bool, shutdown: bool)

  /** The mailbox as the `k`-th section of a call finds it. */
  function Found(first: Mailbox, wakes: seq<Wake>, k: nat): Mailbox
    requires k <= |wakes|
  {
    if k == 0 then first else wakes[k - 1].found
  }

  /** Where the client stands after these sections. */
  function End(ts: seq<Section>): Client {
    if ts == [] then Idle else ts[|ts| - 1].after
  }

  /** Section `k` is a protocol step, on the mailbox that the wait before it found,
      from where the section before it ended. */
  ghost predicate Linked(ts: seq<Section>, first: Mailbox, wakes: seq<Wake>, k: nat)
    requires k < |ts| <= |wakes| + 1
  {
    IsStep(ts[k]) && ts[k].box == Found(first, wakes, k) && ts[k].before == End(ts[..k])
  }

  ghost predicate Chained(ts: seq<Section>, first: Mailbox, wakes: seq<Wake>) {
    |ts| <= |wakes| + 1 && forall k: nat | k < |ts| :: Linked(ts, first, wakes, k)
  }

  /** The request a section puts in the mailbox. */
  function PostedBy(t: Section): seq<Request> {
    if t.after.WaitingForAnswer? && t.after != t.before then [t.after.request] else []
  }

  function Posted(ts: seq<Section>): seq<Request> {
    if ts == [] then [] else Posted(ts[..|ts| - 1]) + PostedBy(ts[|ts| - 1])
  }

  /** The section found the answer to the client's own request. */
  predicate Succeeds(t: Section) {
    t.step == Some(Collect(0)) && t.before.WaitingForAnswer? && Answers(t.box, t.before.request.id, t.before.respSize)
  }

  lemma ChainGrows(ts: seq<Section>, t: Section, first: Mailbox, wakes: seq<Wake>)
    requires Chained(ts, first, wakes) && |ts| <= |wakes|
    requires IsStep(t) && t.box == Found(first, wakes, |ts|) && t.before == End(ts)
    ensures Chained(ts + [t], first, wakes) && End(ts + [t]) == t.after
    ensures Posted(ts + [t]) == Posted(ts) + PostedBy(t)
  {
    var more := ts + [t];
    assert more[..|ts|] == ts;
    forall k: nat | k < |more|
      ensures Linked(more, first, wakes, k)
    {
      assert k < |ts| ==> more[..k] == ts[..k] && Linked(ts, first, wakes, k);
    }
  }

  lemma NoSections(first: Mailbox, wakes: seq<Wake>)
    ensures Chained([], first, wakes) && Posted([]) == []
  {
  }

  // ----- when a wait ends -----

  /** A wake-up that ends the wait for a free slot, or the one for the answer. */
  predicate Ends(w: Wake, forAnswer: bool) {
    w.failed || w.shutdown || (if forAnswer then w.found.hasResponse else !w.found.hasRequest)
  }

  /** The wait that starts with wake-up `from` takes those up to `to`: the first that ends
      it is the last one taken, and without one they are all taken. */
  predicate Waits(wakes: seq<Wake>, from: nat, to: nat, forAnswer: bool) {
    && from <= to <= |wakes|
    && (forall i :: from <= i < to - 1 ==> !Ends(wakes[i], forAnswer))
    && (to < |wakes| ==> from < to && Ends(wakes[to - 1], forAnswer))
  }

  predicate Ended(wakes: seq<Wake>, from: nat, to: nat, forAnswer: bool) {
    from < to <= |wakes| && Ends(wakes[to - 1], forAnswer)
  }

  /** It ended with what the client was waiting for. */
  predicate EndedWell(wakes: seq<Wake>, from: nat, to: nat, forAnswer: bool) {
    Ended(wakes, from, to, forAnswer) && !wakes[to - 1].failed && !wakes[to - 1].shutdown
  }

  /** The mailbox that a wait leaves which ended otherwise. */
  function Abandoned(w: Wake): Mailbox {
    if w.failed then w.found.(hasRequest := false, hasResponse := false) else w.found
  }

  /** After `n` wake-ups the slot is the caller's. */
  predicate GetsSlot(first: Mailbox, wakes: seq<Wake>, n: nat) {
    if first.hasRequest then EndedWell(wakes, 0, n, false) else n == 0
  }

  /** After `m` wake-ups, `n` of them for the slot, the answer to request `id` is there. */
  predicate GetsAnswer(first: Mailbox, wakes: seq<Wake>, n: nat, m: nat, id: i32, respSize: nat) {
    && GetsSlot(first, wakes, n) && EndedWell(wakes, n, m, true)
    && var answer := wakes[m - 1].found.response;
    answer.id == id && |answer.data| == respSize
  }

  /** How the wait for a free slot ended. */
  datatype Slot = Free | Lost | Waiting

  datatype Outcome = Answer(bytes: seq<byte>) | Failure | StillWaiting

  class ServiceClient {
    const shm: ServiceShm
    var nextReqId: i32

    constructor (shm: ServiceShm)
      ensures this.shm == shm && nextReqId == 0
    {
      this.shm := shm;
      nextReqId := 0;
    }

    /** Waits until the mailbox holds no request: not at all, or for the first `k` wake-ups.
        `Free` means the lock is held, with the section that found the slot free still
        under way. */
    method AwaitSlot(data: seq<byte>, respSize: nat, wakes: seq<Wake>)
      returns (slot: Slot, k: nat, ghost ts: seq<Section>)
      modifies shm
      ensures if old(shm.hasRequest) then Waits(wakes, 0, k, false) else k == 0
      ensures slot.Free? <==> GetsSlot(old(shm.Box()), wakes, k)
      ensures slot.Waiting? <==> old(shm.hasRequest) && !Ended(wakes, 0, k, false)
      ensures slot.Lost? ==> k > 0 && shm.Box() == Abandoned(wakes[k - 1])
      ensures slot.Waiting? ==> shm.Box() == Found(old(shm.Box()), wakes, k)
      ensures Chained(ts, old(shm.Box()), wakes) && Posted(ts) == []
      ensures forall t | t in ts :: !Succeeds(t)
      ensures slot.Free? ==> k == |ts| <= |wakes| && shm.Box() == Found(old(shm.Box()), wakes, k) && !shm.hasRequest
      ensures slot.Free? ==> End(ts) == if k == 0 then Idle else WaitingForSlot(data, respSize)
      ensures !slot.Free? ==> ts != [] && shm.Box() == ts[|ts| - 1].box'
      ensures slot.Waiting? ==> End(ts) != Idle && |ts| == |wakes| + 1
      ensures slot.Lost? ==> End(ts) == Idle
    {
      hide IsStep, Linked, Chained, Posted;
      ts, k := [], 0;
      ghost var first, p := shm.Box(), WaitingForSlot(data, respSize);
      NoSections(first, wakes);
      if !shm.hasRequest {
        return Free, k, ts;
      }
      ChainGrows(ts, BlockedSection(data, respSize, first), first, wakes);
      ts := ts + [BlockedSection(data, respSize, first)];
      while k < |wakes|
        invariant k <= |wakes| && |ts| == k + 1 && ts[k].box' == shm.Box() == Found(first, wakes, k)
        invariant forall i :: 0 <= i < k ==> !Ends(wakes[i], false)
        invariant Chained(ts, first, wakes) && Posted(ts) == [] && End(ts) == p
        invariant forall t | t in ts :: !Succeeds(t)
      {
        var w := wakes[k];
        shm.Become(w.found);
        k := k + 1;
        if w.failed {
          shm.hasRequest, shm.hasResponse := false, false;
          ChainGrows(ts, GiveUpSection(p, w.found), first, wakes);
          return Lost, k, ts + [GiveUpSection(p, w.found)];
        }
        if w.shutdown {
          ChainGrows(ts, QuitSection(p, w.found), first, wakes);
          return Lost, k, ts + [QuitSection(p, w.found)];
        }
        if !shm.hasRequest {
          return Free, k, ts;
        }
        ChainGrows(ts, WaitSection(p, w.found), first, wakes);
        ts := ts + [WaitSection(p, w.found)];
      }
      return Waiting, k, ts;
    }

    /** Waits for the answer to a request already posted, from wake-up `from` on and up to
        `k`. It succeeds exactly if the wake-up that ends the wait neither failed nor came
        with shutdown, and the response is under this id and of the right size. */
    method AwaitAnswer(q: Client, wakes: seq<Wake>, from: nat, ghost first: Mailbox, ghost before: seq<Section>)
      returns (r: Outcome, k: nat, ghost ts: seq<Section>)
      requires q.WaitingForAnswer? && q.request.id == nextReqId
      requires Chained(before, first, wakes) && |before| == from + 1 && from <= |wakes| && End(before) == q
      requires !shm.hasResponse && before[from].box' == shm.Box() && !Succeeds(before[from])
      modifies shm
      ensures Waits(wakes, from, k, true)
      ensures r == StillWaiting <==> !Ended(wakes, from, k, true)
      ensures r.Answer? <==> EndedWell(wakes, from, k, true) && Answers(wakes[k - 1].found, nextReqId, q.respSize)
      ensures r.Answer? ==> r.bytes == wakes[k - 1].found.response.data && |r.bytes| == q.respSize
      ensures r.Answer? ==> shm.Box() == wakes[k - 1].found.(hasResponse := false)
      ensures r.Failure? ==> shm.Box() == Abandoned(wakes[k - 1])
      ensures r == StillWaiting ==> shm.Box() == if k == from then old(shm.Box()) else wakes[k - 1].found
      ensures Chained(ts, first, wakes) && Posted(ts) == Posted(before)
      ensures ts != [] && shm.Box() == ts[|ts| - 1].box'
      ensures r == StillWaiting <==> End(ts) != Idle
      ensures r == StillWaiting ==> |ts| == |wakes| + 1
      ensures r.Answer? <==> Succeeds(ts[|ts| - 1])
      ensures r.Answer? ==> r.bytes == ts[|ts| - 1].box.response.data
    {
      hide IsStep, Linked, Chained, Posted;
      ts := before;
      k := from;
      while k < |wakes|
        invariant from <= k <= |wakes| && forall i :: from <= i < k ==> !Ends(wakes[i], true)
        invariant shm.Box() == if k == from then old(shm.Box()) else wakes[k - 1].found
        invariant |ts| == k + 1 && ts[k].box' == shm.Box() && !Succeeds(ts[k])
        invariant Chained(ts, first, wakes) && Posted(ts) == Posted(before) && End(ts) == q
      {
        var w := wakes[k];
        shm.Become(w.found);
        k := k + 1;
        if w.failed {
          shm.hasRequest, shm.hasResponse := false, false;
          ChainGrows(ts, GiveUpSection(q, w.found), first, wakes);
          return Failure, k, ts + [GiveUpSection(q, w.found)];
        }
        if w.shutdown {
          ChainGrows(ts, QuitSection(q, w.found), first, wakes);
          return Failure, k, ts + [QuitSection(q, w.found)];
        }
        if shm.hasResponse {
          ChainGrows(ts, CollectSection(q, w.found), first, wakes);
          ts := ts + [CollectSection(q, w.found)];
          if shm.response.id != nextReqId || |shm.response.data| != q.respSize {
            return Failure, k, ts;
          }
          var answer := shm.response.data;
          shm.hasResponse := false;
          return Answer(answer), k, ts;
        }
        ChainGrows(ts, WaitSection(q, w.found), first, wakes);
        ts := ts + [WaitSection(q, w.found)];
      }
      return StillWaiting, k, ts;
    }

    /** A synchronous call. It waits as long as it must for the slot, `n` wake-ups, and then
        for the answer, up to wake-up `m`. The request goes out, under the next id, exactly
        if it gets the slot, and the call succeeds exactly if it gets the answer to that.
        Every lock-holding section is a step of the protocol. */
    method Call(data: seq<byte>, respSize: nat, wakes: seq<Wake>, shutdown: bool)
      returns (r: Outcome, n: nat, m: nat, ghost ts: seq<Section>)
      requires nextReqId < 0x7FFF_FFFF
      modifies this, shm
      ensures shutdown ==> r == Failure && n == m == 0 && ts == [] && shm.Box() == old(shm.Box())
      ensures !shutdown ==> if old(shm.hasRequest) then Waits(wakes, 0, n, false) else n == 0
      ensures !shutdown ==> if GetsSlot(old(shm.Box()), wakes, n) then Waits(wakes, n, m, true) else m == n
      ensures nextReqId == old(nextReqId) + if !shutdown && GetsSlot(old(shm.Box()), wakes, n) then 1 else 0
      ensures r.Answer? <==> !shutdown && GetsAnswer(old(shm.Box()), wakes, n, m, nextReqId, respSize)
      ensures r.Answer? ==> r.bytes == wakes[m - 1].found.response.data
      ensures r.Answer? ==> shm.Box() == wakes[m - 1].found.(hasResponse := false)
      ensures r == StillWaiting <==>
                && !shutdown && m == |wakes|
                && if GetsSlot(old(shm.Box()), wakes, n) then !Ended(wakes, n, m, true) else !Ended(wakes, 0, n, false)
      ensures r == Failure && !shutdown ==> m > 0 && shm.Box() == Abandoned(wakes[m - 1])
      ensures Chained(ts, old(shm.Box()), wakes)
      ensures ts == [] <==> shutdown
      ensures shm.Box() == if ts == [] then old(shm.Box()) else ts[|ts| - 1].box'
      ensures r == StillWaiting <==> End(ts) != Idle
      ensures r == StillWaiting ==> |ts| == |wakes| + 1
      ensures |Posted(ts)| == nextReqId - old(nextReqId)
      ensures Posted(ts) == [] || Posted(ts) == [Request(old(nextReqId) + 1, data)]
      ensures r.Answer? <==> ts != [] && Succeeds(ts[|ts| - 1])
      ensures r.Answer? ==> |r.bytes| == respSize && r.bytes == ts[|ts| - 1].box.response.data
    {
      hide IsStep, Linked, Chained, Posted;
      if shutdown {
        NoSections(shm.Box(), wakes);
        return Failure, 0, 0, [];
      }
      ghost var first := shm.Box();
      var slot;
      slot, n, ts := AwaitSlot(data, respSize, wakes);
      if slot.Lost? {
        return Failure, n, n, ts;
      }
      if slot.Waiting? {
        return StillWaiting, n, n, ts;
      }
      ts := PostRequest(data, respSize, wakes, first, ts);
      r, m, ts := AwaitAnswer(WaitingForAnswer(Request(nextReqId, data), respSize), wakes, n, first, ts);
    }

    /** Puts the request in the free mailbox, in the section under way. */
    method PostRequest(data: seq<byte>, respSize: nat, wakes: seq<Wake>,
                       ghost first: Mailbox, ghost before: seq<Section>)
      returns (ghost ts: seq<Section>)
      requires nextReqId < 0x7FFF_FFFF && !shm.hasRequest
      requires Chained(before, first, wakes) && |before| <= |wakes| && shm.Box() == Found(first, wakes, |before|)
      requires End(before) == Idle || End(before) == WaitingForSlot(data, respSize)
      modifies this`nextReqId, shm
      ensures nextReqId == old(nextReqId) + 1
      ensures shm.hasRequest && !shm.hasResponse && shm.request == Request(nextReqId, data)
      ensures Chained(ts, first, wakes) && |ts| == |before| + 1 && ts[|before|].box' == shm.Box()
      ensures End(ts) == WaitingForAnswer(Request(nextReqId, data), respSize) && !Succeeds(ts[|before|])
      ensures Posted(ts) == Posted(before) + [Request(nextReqId, data)]
    {
      hide IsStep, Linked, Posted;
      ghost var box := shm.Box();
      nextReqId := nextReqId + 1;
      shm.request := Request(nextReqId, data);
      shm.hasRequest, shm.hasResponse := true, false;
      ghost var posted := PostSection(End(before), box, Request(nextReqId, data), respSize);
      ChainGrows(before, posted, first, wakes);
      ts := before + [posted];
    }
  }

  /** One turn of the server's loop: the mailbox as found when the lock is taken or a
      wait ends, whether the lock's owner had died in that wait, whether the server has
      been told to stop, and, should a request be due, what the callback makes of it
      and how the mailbox looks when the lock is taken again. */
  datatype Turn = Turn(found: Mailbox, ownerDied: bool, stop: bool, result: Option<seq<byte>>, foundAfter: Mailbox)

  /** The mailbox a turn works on; after a crash both flags are cleared. */
  function Seen(t: Turn): Mailbox {
    if t.ownerDied then Reset(t.found) else t.found
  }

  predicate Due(m: Mailbox) {
    m.hasRequest && !m.hasResponse
  }

  /** The mailbox at the end of a turn. */
  function After(t: Turn): Mailbox {
    if Due(Seen(t)) && !t.stop then Reply(t.foundAfter, Seen(t).request.id, t.result) else Seen(t)
  }

  /** The request a turn executes, if it does. */
  function Runs(t: Turn): Option<Request> {
    if Due(Seen(t)) && !t.stop then Some(Seen(t).request) else None
  }

  function AllRuns(turns: seq<Turn>): (rs: seq<Option<Request>>)
    ensures |rs| == |turns| && forall k :: 0 <= k < |rs| ==> rs[k] == Runs(turns[k])
  {
    seq(|turns|, k requires 0 <= k < |turns| => Runs(turns[k]))
  }

  /** The requests executed in these turns, in order. */
  function Executed(turns: seq<Turn>): seq<Request> {
    Present(AllRuns(turns))
  }

  lemma ExecutedStep(turns: seq<Turn>, k: nat)
    requires k < |turns|
    ensures Executed(turns[..k + 1]) ==
              Executed(turns[..k]) + (if Runs(turns[k]).Some? then [Runs(turns[k]).value] else [])
  {
    PresentStep(AllRuns(turns), k);
    assert AllRuns(turns)[..k] == AllRuns(turns[..k]);
    assert AllRuns(turns)[..k + 1] == AllRuns(turns[..k + 1]);
  }

  /** They are those of the turns that find a request, no answer and no crash, and are not
      told to stop: each once, in the order of the turns. */
  lemma ExecutedAre(turns: seq<Turn>) returns (at: seq<nat>)
    ensures |at| == |Executed(turns)| && forall i, j :: 0 <= i < j < |at| ==> at[i] < at[j]
    ensures forall i :: 0 <= i < |at| ==> at[i] < |turns| && Executed(turns)[i] == turns[at[i]].found.request
    ensures forall k: nat :: k < |turns| ==>
              (k in at <==> var t := turns[k];
                 t.found.hasRequest && !t.found.hasResponse && !t.ownerDied && !t.stop)
  {
    at := PresentPicks(AllRuns(turns));
    forall k: nat | k < |turns|
      ensures k in at <==> Runs(turns[k]).Some?
    {
      assert AllRuns(turns)[k] == Runs(turns[k]);
    }
  }

  /** A turn is the server's part of the protocol: it executes exactly when the server
      may take, and leaves what replying leaves. */
  lemma TurnFollowsProtocol(s: State, t: Turn, later: State)
    requires s.server.Ready? && s.box == Seen(t) && !t.stop
    requires later.server == Executing(s.box.request) && later.box == t.foundAfter
    ensures Due(Seen(t)) <==> Enabled(s, ServerTakes)
    ensures Due(Seen(t)) ==> After(t) == Apply(later, ServerReplies(t.result)).box
    ensures t.ownerDied ==> !Due(Seen(t)) && After(t) == Apply(s.(box := t.found), ServerClears).box
  {
  }

  class ServiceServer {
    const shm: ServiceShm

    constructor (shm: ServiceShm)
      ensures this.shm == shm
    {
      this.shm := shm;
    }

    /** Takes the pending request, if one is due, runs the callback without the lock and
        replies to the mailbox as it is by then. */
    method SpinOnce(result: Option<seq<byte>>, foundAfter: Mailbox, shutdown: bool) returns (ran: Option<Request>)
      modifies shm
      ensures ran == if !shutdown && Due(old(shm.Box())) then Some(old(shm.request)) else None
      ensures shm.Box() == if ran.Some? then Reply(foundAfter, old(shm.request.id), result) else old(shm.Box())
    {
      if shutdown {
        return None;
      }
      if shm.hasRequest && !shm.hasResponse {
        var localReq := shm.request;
        shm.Become(foundAfter);
        if result.Some? {
          shm.response := Response(localReq.id, result.value);
          shm.hasResponse := true;
        }
        shm.hasRequest := false;
        return Some(localReq);
      }
      return None;
    }

    /** The service thread: every turn up to the first stop does the server's part. */
    method ServiceLoop(turns: seq<Turn>) returns (ran: seq<Request>, count: nat)
      modifies shm
      ensures count <= |turns| && (forall k :: 0 <= k < count - 1 ==> !turns[k].stop)
      ensures count < |turns| ==> count > 0 && turns[count - 1].stop
      ensures ran == Executed(turns[..count])
      ensures shm.Box() == if count == 0 then old(shm.Box()) else After(turns[count - 1])
    {
      ran, count := [], 0;
      while count < |turns|
        invariant count <= |turns| && forall k :: 0 <= k < count ==> !turns[k].stop
        invariant ran == Executed(turns[..count])
        invariant shm.Box() == if count == 0 then old(shm.Box()) else After(turns[count - 1])
      {
        var t := turns[count];
        ExecutedStep(turns, count);
        count := count + 1;
        shm.Become(t.found);
        if t.ownerDied {
          shm.hasRequest, shm.hasResponse := false, false;
        }
        if t.stop {
          return;
        }
        var one := SpinOnce(t.result, t.foundAfter, false);
        if one.Some? {
          ran := ran + [one.value];
        }
      }
    }
  }
}
