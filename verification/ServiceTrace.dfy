/** The code of any number of clients and of one server, interleaved, as a run of the
    service protocol. */
module ServiceTrace {
  import opened Words
  import opened Outcomes
  import opened ServiceProtocol
  import opened Service

  /** What somebody does while holding the lock: a section of a client's call, the part of
      a server's turn before the callback, and the part after it. */
  datatype Item =
    | ClientDoes(client: nat, section: Section)
    | ServerBegins(turn: Turn)
    | ServerEnds(turn: Turn)

  /** The mailbox an item finds, and the one it leaves. */
  function FoundBy(i: Item): Mailbox {
    match i
    case ClientDoes(_, t) => t.box
    case ServerBegins(t) => t.found
    case ServerEnds(t) => t.foundAfter
  }

  function LeftBy(i: Item): Mailbox {
    match i
    case ClientDoes(_, t) => t.box'
    case ServerBegins(t) => Seen(t)
    case ServerEnds(t) => After(t)
  }

  /** The mailbox, where each client stands in its code, and the turn whose callback is
      running. */
  datatype World = World(box: Mailbox, places: map<nat, Client>, running: Option<Turn>)

  function PlaceOf(w: World, c: nat): Client {
    if c in w.places then w.places[c] else Idle
  }

  /** The item goes on where the one who does it was, with the mailbox as it is. */
  predicate Fits(w: World, i: Item) {
    && w.box == FoundBy(i)
    && match i
       case ClientDoes(c, t) => IsStep(t) && t.before == PlaceOf(w, c)
       case ServerBegins(t) => w.running.None?
       case ServerEnds(t) => w.running == Some(t)
  }

  function Next(w: World, i: Item): World {
    match i
    case ClientDoes(c, t) => World(LeftBy(i), w.places[c := t.after], w.running)
    case ServerBegins(t) => World(LeftBy(i), w.places, if Runs(t).Some? then Some(t) else None)
    case ServerEnds(t) => World(LeftBy(i), w.places, None)
  }

  function WorldAfter(first: Mailbox, items: seq<Item>): World {
    if items == [] then World(first, map[], None)
    else Next(WorldAfter(first, items[..|items| - 1]), items[|items| - 1])
  }

  /** An interleaving from a new mailbox: lock-holding sections one after the other, of
      each participant in the order of its code. */
  ghost predicate IsTrace(first: Mailbox, items: seq<Item>) {
    && !first.hasRequest && !first.hasResponse
    && forall k: nat :: k < |items| ==> FitsAt(first, items, k)
  }

  ghost predicate FitsAt(first: Mailbox, items: seq<Item>, k: nat)
    requires k < |items|
  {
    Fits(WorldAfter(first, items[..k]), items[k])
  }

  /** The requests posted, in order. */
  function PostedIn(items: seq<Item>): seq<Request> {
    if items == [] then []
    else
      var i := items[|items| - 1];
      PostedIn(items[..|items| - 1]) + (if i.ClientDoes? then PostedBy(i.section) else [])
  }

  /** The callback's result for this request, in some turn of the trace. */
  predicate Answered(items: seq<Item>, k: nat, r: Request, result: Option<seq<byte>>) {
    k < |items| && items[k].ServerEnds? && Seen(items[k].turn).request == r && items[k].turn.result == result
  }

  predicate SucceedsAt(items: seq<Item>, k: nat) {
    k < |items| && items[k].ClientDoes? && Succeeds(items[k].section)
  }

  function SuccessOf(i: Item): Success
    requires i.ClientDoes? && Succeeds(i.section)
  {
    Success(i.client, i.section.before.request, i.section.box.response.data)
  }

  // ----- the protocol state that belongs to a trace -----

  /** The protocol state agrees with the code. */
  ghost predicate Agrees(w: World, s: State) {
    && s.box == w.box && (forall c: nat :: ClientOf(s, c) == PlaceOf(w, c))
    && s.server == match w.running case None => Ready case Some(t) => Executing(Seen(t).request)
  }

  /** Its history is that of the trace. */
  ghost predicate Records(items: seq<Item>, s: State) {
    && s.submitted == PostedIn(items)
    && (forall x | x in s.executed :: x.result.Some? ==> exists k: nat :: Answered(items, k, x.request, x.result.value))
    && (forall k: nat :: SucceedsAt(items, k) ==> SuccessOf(items[k]) in s.answered)
  }

  /** The protocol step of a section, for this client. */
  function For(e: Event, c: nat): Event
    requires IsClients(e, 0)
  {
    match e
    case Begin(_, data, size, id) => Begin(c, data, size, id)
    case SlotFree(_, id) => SlotFree(c, id)
    case GiveUp(_) => GiveUp(c)
    case Quit(_) => Quit(c)
    case Collect(_) => Collect(c)
  }

  /** A section is the same step in the midst of everything else. */
  lemma SectionSteps(s: State, c: nat, t: Section)
    requires IsStep(t) && t.step.Some? && s.box == t.box && ClientOf(s, c) == t.before
    ensures var e := For(t.step.value, c);
            && Enabled(s, e)
            && var s' := Apply(s, e);
            && s'.box == t.box' && ClientOf(s', c) == t.after && s'.server == s.server && s'.executed == s.executed
            && (forall d: nat :: d != c ==> ClientOf(s', d) == ClientOf(s, d))
            && s'.submitted == s.submitted + PostedBy(t)
            && s'.answered == s.answered + (if Succeeds(t) then [SuccessOf(ClientDoes(c, t))] else [])
  {
  }

  /** A run of the protocol ends in `s`. */
  ghost predicate Reached(s: State) {
    exists states, es :: Run(states, es) && states[|es|] == s
  }

  lemma ReachedNext(s: State, e: Event, s': State)
    requires Reached(s) && Enabled(s, e) && s' == Apply(s, e)
    ensures Reached(s')
  {
    var states, es :| Run(states, es) && states[|es|] == s;
    var states', es' := states + [s'], es + [e];
    assert Run(states', es') && states'[|es'|] == s';
  }

  lemma LaterItemsKeepAnswers(items: seq<Item>, i: Item, k: nat, r: Request, result: Option<seq<byte>>)
    requires Answered(items, k, r, result)
    ensures Answered(items + [i], k, r, result)
  {
  }

  lemma ItemsMove(items: seq<Item>, i: Item)
    ensures (items + [i])[..|items|] == items
    ensures PostedIn(items + [i]) == PostedIn(items) + (if i.ClientDoes? then PostedBy(i.section) else [])
  {
    assert (items + [i])[..|items|] == items;
  }

  /** History is carried on when an item executes nothing. */
  lemma RecordsGoOn(items: seq<Item>, i: Item, s: State, s': State)
    requires Records(items, s) && s'.submitted == PostedIn(items + [i])
    requires forall x | x in s'.executed ::
               x.result.None? || x in s.executed || Answered([i], 0, x.request, x.result.value)
    requires forall a | a in s.answered :: a in s'.answered
    requires i.ClientDoes? && Succeeds(i.section) ==> SuccessOf(i) in s'.answered
    ensures Records(items + [i], s')
  {
    var more := items + [i];
    forall x | x in s'.executed && x.result.Some?
      ensures exists k: nat :: Answered(more, k, x.request, x.result.value)
    {
      if x in s.executed {
        var k: nat :| Answered(items, k, x.request, x.result.value);
        LaterItemsKeepAnswers(items, i, k, x.request, x.result.value);
      } else {
        assert Answered(more, |items|, x.request, x.result.value);
      }
    }
    forall k: nat | SucceedsAt(more, k)
      ensures SuccessOf(more[k]) in s'.answered
    {
      if k < |items| {
        assert SucceedsAt(items, k) && more[k] == items[k];
      }
    }
  }

  ghost predicate Matches(w: World, items: seq<Item>, s: State) {
    Reached(s) && Agrees(w, s) && Records(items, s)
  }

  lemma SectionMatches(w: World, items: seq<Item>, s: State, i: Item) returns (s': State)
    requires Matches(w, items, s) && Fits(w, i) && i.ClientDoes?
    ensures Matches(Next(w, i), items + [i], s')
  {
    var c, t := i.client, i.section;
    ItemsMove(items, i);
    assert PlaceOf(w, c) == ClientOf(s, c);
    if t.step.None? {
      s' := s;
      assert PostedBy(t) == [] && !Succeeds(t);
      hide Records, Reached, Apply, Enabled, IsStep;
    } else {
      SectionSteps(s, c, t);
      hide Records, Reached, Apply, Enabled, IsStep;
      s' := Apply(s, For(t.step.value, c));
      ReachedNext(s, For(t.step.value, c), s');
    }
    ClientMoves(w, s, c, t.after, Next(w, i), s');
    RecordsGoOn(items, i, s, s');
  }

  lemma ClientMoves(w: World, s: State, c: nat, place: Client, w': World, s': State)
    requires (forall d: nat :: ClientOf(s, d) == PlaceOf(w, d)) && w'.places == w.places[c := place]
    requires ClientOf(s', c) == place && forall d: nat :: d != c ==> ClientOf(s', d) == ClientOf(s, d)
    ensures forall d: nat :: ClientOf(s', d) == PlaceOf(w', d)
  {
    forall d: nat ensures ClientOf(s', d) == PlaceOf(w', d) {
      assert ClientOf(s, d) == PlaceOf(w, d);
    }
  }

  lemma SamePlaces(w: World, s: State, w': World, s': State)
    requires (forall c: nat :: ClientOf(s, c) == PlaceOf(w, c)) && w'.places == w.places && s'.clients == s.clients
    ensures forall c: nat :: ClientOf(s', c) == PlaceOf(w', c)
  {
    forall c: nat ensures ClientOf(s', c) == PlaceOf(w', c) {
      assert ClientOf(s, c) == PlaceOf(w, c);
    }
  }

  lemma BeginMatches(w: World, items: seq<Item>, s: State, i: Item) returns (s': State)
    requires Matches(w, items, s) && Fits(w, i) && i.ServerBegins?
    ensures Matches(Next(w, i), items + [i], s')
  {
    var t := i.turn;
    ItemsMove(items, i);
    s' := s;
    if t.ownerDied {
      s' := Apply(s, ServerClears);
      ReachedNext(s, ServerClears, s');
    } else if Runs(t).Some? {
      s' := Apply(s, ServerTakes);
      ReachedNext(s, ServerTakes, s');
    }
    SamePlaces(w, s, Next(w, i), s');
    RecordsGoOn(items, i, s, s');
  }

  lemma EndMatches(w: World, items: seq<Item>, s: State, i: Item) returns (s': State)
    requires Matches(w, items, s) && Fits(w, i) && i.ServerEnds? && Runs(i.turn).Some?
    ensures Matches(Next(w, i), items + [i], s')
  {
    var t := i.turn;
    ItemsMove(items, i);
    s' := Apply(s, ServerReplies(t.result));
    ReachedNext(s, ServerReplies(t.result), s');
    SamePlaces(w, s, Next(w, i), s');
    RecordsGoOn(items, i, s, s');
  }

  /** The callback running is one the turn wanted to run. */
  lemma {:induction false} RunningRuns(first: Mailbox, items: seq<Item>)
    ensures var w := WorldAfter(first, items); w.running.Some? ==> Runs(w.running.value).Some?
  {
    if items != [] {
      RunningRuns(first, items[..|items| - 1]);
    }
  }

  lemma StartMatches(first: Mailbox) returns (s: State)
    requires !first.hasRequest && !first.hasResponse
    ensures Matches(WorldAfter(first, []), [], s)
  {
    s := State(first, map[], Ready, [], [], []);
    assert Run([s], []);
    assert Reached(s);
  }

  /** Every interleaving of the code is a run of the protocol: the same mailbox at the end,
      everybody in the same place, the requests posted and the results of the callback
      those of the code. */
  lemma {:induction false} TraceIsRun(first: Mailbox, items: seq<Item>) returns (s: State)
    requires IsTrace(first, items)
    ensures Matches(WorldAfter(first, items), items, s)
  {
    if items == [] {
      s := StartMatches(first);
    } else {
      var n := |items| - 1;
      var before, i := items[..n], items[n];
      var w := WorldAfter(first, before);
      PrefixIsTrace(first, items, n);
      assert FitsAt(first, items, n) && before + [i] == items;
      var s0 := TraceIsRun(first, before);
      RunningRuns(first, before);
      hide Matches, Fits, IsTrace;
      match i
      case ClientDoes(_, _) => s := SectionMatches(w, before, s0, i);
      case ServerBegins(_) => s := BeginMatches(w, before, s0, i);
      case ServerEnds(t) =>
        assert w.running == Some(t) by { FitsEnds(w, i); }
        s := EndMatches(w, before, s0, i);
    }
  }

  lemma FitsEnds(w: World, i: Item)
    requires Fits(w, i) && i.ServerEnds?
    ensures w.running == Some(i.turn)
  {
  }

  /** What this means for the code: if no id is posted twice, a call that succeeds returns
      what the callback, in some turn of the server, made of exactly its own request. */
  lemma CallsGetTheirOwnAnswer(first: Mailbox, items: seq<Item>, k: nat)
    requires IsTrace(first, items) && Distinct(IdsOf(PostedIn(items))) && SucceedsAt(items, k)
    ensures var t := items[k].section;
            exists m: nat :: Answered(items, m, t.before.request, Some(t.box.response.data))
  {
    var s := TraceIsRun(first, items);
    var states, es :| Run(states, es) && states[|es|] == s;
    assert PostsUnder(states, es, IdsOf(PostedIn(items)));
    DistinctIdsAreFresh(states, es, IdsOf(PostedIn(items)));
    SuccessfulCallsGetTheirAnswer(states, es, |es|);
    var a := SuccessOf(items[k]);
    assert a in s.answered && RightAnswer(s.executed, a);
    assert Execution(a.request, Some(Some(a.answer))) in s.executed;
  }

  lemma PrefixIsTrace(first: Mailbox, items: seq<Item>, n: nat)
    requires IsTrace(first, items) && n <= |items|
    ensures IsTrace(first, items[..n])
  {
    forall k: nat | k < n
      ensures FitsAt(first, items[..n], k)
    {
      assert items[..n][..k] == items[..k];
      assert FitsAt(first, items, k);
    }
  }
}
