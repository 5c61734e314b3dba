/** The server side of an action: goals come in, are executed, and may be cancelled. */
module ActionServer {
  import opened Words
  import opened Outcomes
  import opened Sequences
  import opened Topic
  import opened TopicRing
  import opened ActionWire

  /** What happens to a server: a goal is taken in, a goal id is asked to be cancelled. */
  datatype Event = Took(goal: Goal) | Cancel(id: i32)

  /** One turn of the processing loop: the message received, if any, what a goal that
      claims to be longer than its message is completed with, and the cancel requests
      that come in before the goal is queued, before it is taken from the queue, and
      while the callback runs. */
  datatype Turn = Turn(message: Option<seq<byte>>, stale: seq<byte>,
                       early: seq<i32>, between: seq<i32>, during: seq<i32>)

  predicate AllMessages(turns: seq<Turn>) {
    forall i :: 0 <= i < |turns| && turns[i].message.Some? ==> IsMessage(turns[i].message.value)
  }

  function Taken(t: Turn): seq<Goal>
    requires t.message.Some? ==> IsMessage(t.message.value)
  {
    if t.message.None? then []
    else match GoalIn(t.message.value, t.stale) case None => [] case Some(g) => [g]
  }

  /** The well-formed goals received, in order. */
  function GoalsOf(turns: seq<Turn>): seq<Goal>
    requires AllMessages(turns)
  {
    if turns == [] then [] else GoalsOf(turns[..|turns| - 1]) + Taken(turns[|turns| - 1])
  }

  /** The loop takes -1 for "no goal". */
  function Executable(goals: seq<Goal>): seq<Goal> {
    if goals == [] then []
    else
      var g := goals[|goals| - 1];
      Executable(goals[..|goals| - 1]) + (if g.id == -1 then [] else [g])
  }

  lemma ExecutableGrows(goals: seq<Goal>, t: Turn)
    requires t.message.Some? ==> IsMessage(t.message.value)
    ensures Executable(goals + Taken(t)) == Executable(goals) + Executable(Taken(t))
  {
    assert goals + Taken(t) == if Taken(t) == [] then goals else goals + [Taken(t)[0]];
    assert Executable([]) == [];
    assert (goals + Taken(t))[..|goals|] == goals;
  }

  lemma ExecutableOne(g: Goal)
    ensures Executable([g]) == if g.id == -1 then [] else [g]
  {
    assert [g][..0] == [];
    assert Executable([]) == [];
  }

  /** The goal a turn runs, if it does. */
  function RunIn(t: Turn): Option<Goal>
    requires t.message.Some? ==> IsMessage(t.message.value)
  {
    match t.message
    case None => None
    case Some(m) =>
      var g := GoalIn(m, t.stale);
      if g.Some? && g.value.id != -1 then g else None
  }

  function RunsIn(turns: seq<Turn>): (gs: seq<Option<Goal>>)
    requires AllMessages(turns)
    ensures |gs| == |turns| && forall k :: 0 <= k < |gs| ==> gs[k] == RunIn(turns[k])
  {
    seq(|turns|, k requires 0 <= k < |turns| => RunIn(turns[k]))
  }

  lemma AtMostOne(t: Turn)
    requires t.message.Some? ==> IsMessage(t.message.value)
    ensures Executable(Taken(t)) == if Taken(t) == [] || Taken(t)[0].id == -1 then [] else [Taken(t)[0]]
  {
    hide GoalIn, IsMessage;
    assert Executable([]) == [];
    if Taken(t) != [] {
      ExecutableOne(Taken(t)[0]);
      assert Taken(t) == [Taken(t)[0]];
    }
  }

  /** The goals executed are those of the turns whose message holds one with another id than
      -1: as `PresentPicks` says, each of them once and in order. */
  lemma {:induction false} CallsAre(turns: seq<Turn>)
    requires AllMessages(turns)
    ensures Executable(GoalsOf(turns)) == Present(RunsIn(turns))
  {
    hide GoalIn, IsMessage;
    if turns != [] {
      var n := |turns| - 1;
      CallsAre(turns[..n]);
      ExecutableGrows(GoalsOf(turns[..n]), turns[n]);
      assert RunsIn(turns)[..n] == RunsIn(turns[..n]);
      AtMostOne(turns[n]);
    }
  }

  /** A message sent under another type, or too short for the fixed fields, is no goal. */
  lemma OtherMessagesAreIgnored(h: Header, p: seq<byte>, t: Turn)
    requires h.dataSize == |p| && t.message == Received(h, p)
    requires h.msgType != MSG_CUSTOM || |p| < 16
    ensures t.message.Some? ==> IsMessage(t.message.value)
    ensures Taken(t) == [] && RunIn(t) == None
  {
    if t.message.Some? {
      OnlyGoalsAreGoals(h, p, t.stale);
    }
  }

  function Cancels(ids: seq<i32>): (es: seq<Event>)
    ensures |es| == |ids| && forall i :: 0 <= i < |es| ==> es[i] == Cancel(ids[i])
  {
    seq(|ids|, i requires 0 <= i < |ids| => Cancel(ids[i]))
  }

  function Tooks(goals: seq<Goal>): (es: seq<Event>)
    ensures |es| == |goals| && forall i :: 0 <= i < |es| ==> es[i] == Took(goals[i])
  {
    seq(|goals|, i requires 0 <= i < |goals| => Took(goals[i]))
  }

  function EventsOf(t: Turn): seq<Event>
    requires t.message.Some? ==> IsMessage(t.message.value)
  {
    BeforeCall(t) + Cancels(t.during)
  }

  function History(turns: seq<Turn>): seq<Event>
    requires AllMessages(turns)
  {
    if turns == [] then [] else History(turns[..|turns| - 1]) + EventsOf(turns[|turns| - 1])
  }

  /** A goal of that id was taken in. */
  predicate TookId(h: seq<Event>, id: i32) {
    exists j :: 0 <= j < |h| && h[j].Took? && h[j].goal.id == id
  }

  /** A cancel request for that id came after a goal of that id. */
  predicate CancelledId(h: seq<Event>, id: i32) {
    exists k :: 0 <= k < |h| && h[k] == Cancel(id) && TookId(h[..k], id)
  }

  lemma HistoryGrows(h: seq<Event>, e: Event, id: i32)
    ensures TookId(h + [e], id) <==> TookId(h, id) || (e.Took? && e.goal.id == id)
    ensures CancelledId(h + [e], id) <==> CancelledId(h, id) || (e == Cancel(id) && TookId(h, id))
  {
    var more := h + [e];
    if j :| 0 <= j < |h| && h[j].Took? && h[j].goal.id == id {
      assert more[j] == h[j];
    }
    assert more[|h|] == e && more[..|h|] == h;
    assert forall k :: 0 <= k < |h| ==> more[k] == h[k] && more[..k] == h[..k];
    if CancelledId(h, id) {
      var k :| 0 <= k < |h| && h[k] == Cancel(id) && TookId(h[..k], id);
      assert more[k] == Cancel(id) && TookId(more[..k], id);
    }
  }

  lemma FirstOfMore(ids: set<i32>, id: i32, first: i32)
    requires id in ids && first in ids - {id} && forall k :: k in ids - {id} ==> first <= k
    ensures exists least :: least in ids && forall k :: k in ids ==> least <= k
  {
    var least := if first < id then first else id;
    assert forall k :: k in ids ==> k == id || k in ids - {id};
    assert least in ids && forall k :: k in ids ==> least <= k;
  }

  lemma {:induction false} HasFirst(ids: set<i32>)
    requires ids != {}
    ensures exists id :: id in ids && forall k :: k in ids ==> id <= k
    decreases |ids|
  {
    var id :| id in ids;
    if ids != {id} {
      HasFirst(ids - {id});
      var first :| first in ids - {id} && forall k :: k in ids - {id} ==> first <= k;
      FirstOfMore(ids, id, first);
    }
  }

  /** What has happened in a turn when its callback starts. */
  function BeforeCall(t: Turn): seq<Event>
    requires t.message.Some? ==> IsMessage(t.message.value)
  {
    Cancels(t.early) + Tooks(Taken(t)) + Cancels(t.between)
  }

  function FlagsOf(h: seq<Event>, ran: seq<Goal>): (flags: seq<bool>)
    ensures |flags| == |ran|
  {
    seq(|ran|, i requires 0 <= i < |ran| => CancelledId(h, ran[i].id))
  }

  /** Which of the executed goals had been cancelled when their callback started. */
  function Flags(h: seq<Event>, turns: seq<Turn>): seq<bool>
    requires AllMessages(turns)
  {
    if turns == [] then []
    else
      var t, before := turns[|turns| - 1], turns[..|turns| - 1];
      Flags(h, before) + FlagsOf(h + History(before) + BeforeCall(t), Executable(Taken(t)))
  }

  lemma FlagsGrow(h: seq<Event>, turns: seq<Turn>, k: nat)
    requires k < |turns| && AllMessages(turns)
    ensures AllMessages(turns[..k]) && AllMessages(turns[..k + 1])
    ensures var h' := h + History(turns[..k]) + BeforeCall(turns[k]);
            Flags(h, turns[..k + 1]) == Flags(h, turns[..k]) + FlagsOf(h', Executable(Taken(turns[k])))
  {
    assert turns[..k + 1][..k] == turns[..k];
  }

  class ActionServer {
    var goalQueue: map<i32, seq<byte>>
    var activeGoals: set<i32>
    var preemptedGoals: set<i32>
    /** Everything that has happened, in the order in which the lock was taken. */
    ghost var history: seq<Event>

    /** The goals ever taken in are active; preempted are those cancelled since. */
    ghost predicate Valid()
      reads this
    {
      && (forall id: i32 :: id in activeGoals <==> TookId(history, id))
      && (forall id: i32 :: id in preemptedGoals <==> CancelledId(history, id))
    }

    constructor ()
      ensures Valid() && goalQueue == map[] && history == []
    {
      goalQueue, activeGoals, preemptedGoals, history := map[], {}, {}, [];
    }

    predicate IsPreempted(id: i32)
      reads this
    {
      id in preemptedGoals
    }

    /** Handles a cancel request. The first result is what is returned, the second the
        count put in the response. */
    method CancelCallback(id: i32) returns (ok: bool, cancelled: int)
      requires Valid()
      modifies this`preemptedGoals, this`history
      ensures Valid() && history == old(history) + [Cancel(id)]
      ensures ok && cancelled == if TookId(history, id) then 1 else 0
    {
      forall other: i32 {
        HistoryGrows(history, Cancel(id), other);
      }
      history := history + [Cancel(id)];
      if id in activeGoals {
        preemptedGoals := preemptedGoals + {id};
        return true, 1;
      }
      return true, 0;
    }

    method CancelAll(ids: seq<i32>)
      requires Valid()
      modifies this`preemptedGoals, this`history
      ensures Valid() && history == old(history) + Cancels(ids)
      ensures ids == [] ==> preemptedGoals == old(preemptedGoals)
    {
      for i := 0 to |ids|
        invariant i == 0 ==> preemptedGoals == old(preemptedGoals)
        invariant Valid() && history == old(history) + Cancels(ids)[..i]
      {
        var _, _ := CancelCallback(ids[i]);
        assert Cancels(ids)[..i + 1] == Cancels(ids)[..i] + [Cancel(ids[i])];
      }
    }

    /** Queues the goal in a received message. */
    method TakeIn(t: Turn)
      requires Valid() && (t.message.Some? ==> IsMessage(t.message.value))
      modifies this`goalQueue, this`activeGoals, this`history
      ensures Valid() && history == old(history) + Tooks(Taken(t))
      ensures Taken(t) == [] ==> goalQueue == old(goalQueue) && activeGoals == old(activeGoals)
      ensures Taken(t) != [] ==> |Taken(t)| == 1 && goalQueue == old(goalQueue)[Taken(t)[0].id := Taken(t)[0].data]
    {
      if t.message.Some? {
        var goal := GoalIn(t.message.value, t.stale);
        if goal.Some? {
          var g := goal.value;
          forall other: i32 {
            HistoryGrows(history, Took(g), other);
          }
          goalQueue := goalQueue[g.id := g.data];
          activeGoals := activeGoals + {g.id};
          history := history + [Took(g)];
        }
      }
    }

    /** Takes the first goal, in order of ids, from the queue. */
    method TakeOut() returns (id: i32, data: seq<byte>)
      modifies this`goalQueue
      ensures old(goalQueue) == map[] ==> id == -1 && goalQueue == map[]
      ensures old(goalQueue) != map[] ==>
                && id in old(goalQueue) && data == old(goalQueue)[id]
                && (forall k :: k in old(goalQueue) ==> id <= k)
                && goalQueue == old(goalQueue) - {id}
    {
      id, data := -1, [];
      if goalQueue != map[] {
        HasFirst(goalQueue.Keys);
        id :| id in goalQueue && forall k :: k in goalQueue ==> id <= k;
        data := goalQueue[id];
        goalQueue := goalQueue - {id};
      }
    }

    /** Feedback on a goal; a result is published the same way on its own topic. */
    method PublishFeedback(pub: Publisher, id: i32, data: seq<byte>, status: i32, now: i64, shutdown: bool)
      returns (ok: bool)
      requires pub.shm.Valid() && pub.pool.Valid() && |data| <= MAX_MSG_SIZE
      modifies pub.shm, pub.shm.buffer, pub.pool`headOffset, pub.pool`blocks, pub.pool.data
      ensures pub.shm.Valid() && pub.pool.Valid() && (ok <==> !shutdown)
      ensures ok ==> IsNewest(pub.shm, pub.pool, EncodeReport(id, status, now, data))
      ensures !ok ==> pub.shm.log == old(pub.shm.log)
    {
      ok := PublishMessage(pub, EncodeReport(id, status, now, data), now, shutdown);
    }

    /** The first half of a round: what comes in, and the cancel requests around it. */
    method ReceiveTurn(t: Turn)
      requires Valid() && goalQueue == map[] && (t.message.Some? ==> IsMessage(t.message.value))
      modifies this
      ensures Valid() && history == old(history) + BeforeCall(t)
      ensures goalQueue == if Taken(t) == [] then map[] else map[Taken(t)[0].id := Taken(t)[0].data]
      ensures Taken(t) == [] ==> activeGoals == old(activeGoals)
      ensures t.early == t.between == [] ==> preemptedGoals == old(preemptedGoals)
    {
      hide Valid, GoalIn, IsMessage, Taken;
      CancelAll(t.early);
      TakeIn(t);
      CancelAll(t.between);
      Append(old(history), Cancels(t.early), Tooks(Taken(t)));
      Append(old(history), Cancels(t.early) + Tooks(Taken(t)), Cancels(t.between));
    }

    /** One round: at most one goal goes through the queue. The flags say whether the
        callback finds its goal preempted when it starts. */
    method ProcessTurn(t: Turn) returns (ran: seq<Goal>, flags: seq<bool>)
      requires Valid() && goalQueue == map[] && (t.message.Some? ==> IsMessage(t.message.value))
      modifies this
      ensures Valid() && goalQueue == map[]
      ensures ran == Executable(Taken(t)) && history == old(history) + EventsOf(t)
      ensures flags == FlagsOf(old(history) + BeforeCall(t), ran)
      ensures Taken(t) == [] ==> ran == [] && activeGoals == old(activeGoals)
      ensures t.early == t.between == t.during == [] ==> preemptedGoals == old(preemptedGoals)
    {
      hide GoalIn, IsMessage, Executable, TookId, CancelledId, BeforeCall, Taken;
      AtMostOne(t);
      ReceiveTurn(t);
      assert Taken(t) != [] ==> goalQueue.Keys == {Taken(t)[0].id};
      var id, data := TakeOut();
      assert goalQueue == map[];
      ran, flags := [], [];
      if id != -1 {
        PreemptedMeansCancelled(id);
        ran, flags := [Goal(id, data)], [IsPreempted(id)];
      }
      CancelAll(t.during);
      Append(old(history), BeforeCall(t), Cancels(t.during));
    }

    lemma PreemptedMeansCancelled(id: i32)
      requires Valid()
      ensures IsPreempted(id) == CancelledId(history, id)
    {
    }

    /** Only active goals are ever preempted. */
    lemma PreemptedAreActive()
      requires Valid()
      ensures preemptedGoals <= activeGoals
    {
      forall id | id in preemptedGoals
        ensures id in activeGoals
      {
        CancelledWasTaken(history, id);
      }
    }

    /** The processing loop. The queue is empty at every loop head, the callback runs once
        for every well-formed goal received, in order and with its own data, except under
        the id -1, and it finds its goal preempted exactly if the history says so. */
    method ProcessLoop(turns: seq<Turn>) returns (calls: seq<Goal>, preempted: seq<bool>)
      requires Valid() && goalQueue == map[] && AllMessages(turns)
      modifies this
      ensures Valid() && goalQueue == map[]
      ensures calls == Executable(GoalsOf(turns)) && preempted == Flags(old(history), turns)
      ensures history == old(history) + History(turns)
    {
      hide Valid, FlagsOf;
      calls, preempted := [], [];
      var k := 0;
      while k < |turns|
        invariant k <= |turns| && Valid() && goalQueue == map[]
        invariant AllMessages(turns[..k]) && calls == Executable(GoalsOf(turns[..k]))
        invariant preempted == Flags(old(history), turns[..k])
        invariant history == old(history) + History(turns[..k])
      {
        hide AllMessages, IsMessage, Taken, EventsOf, GoalsOf, History, Executable, Flags, BeforeCall;
        TurnsGrow(turns, k);
        FlagsGrow(old(history), turns, k);
        ExecutableGrows(GoalsOf(turns[..k]), turns[k]);
        var ran, flags := ProcessTurn(turns[k]);
        Append(old(history), History(turns[..k]), EventsOf(turns[k]));
        calls, preempted := calls + ran, preempted + flags;
        k := k + 1;
      }
      assert turns[..k] == turns;
    }
  }

  lemma CancelledWasTaken(h: seq<Event>, id: i32)
    ensures CancelledId(h, id) ==> TookId(h, id)
  {
  }

  // ----- who is preempted from the start -----

  predicate NoCancels(t: Turn) {
    t.early == t.between == t.during == []
  }

  predicate OnlyTook(h: seq<Event>) {
    forall i :: 0 <= i < |h| ==> h[i].Took?
  }

  lemma QuietTurn(t: Turn)
    requires NoCancels(t) && (t.message.Some? ==> IsMessage(t.message.value))
    ensures OnlyTook(BeforeCall(t)) && OnlyTook(EventsOf(t))
  {
    hide GoalIn, IsMessage;
  }

  lemma QuietTogether(a: seq<Event>, b: seq<Event>)
    requires OnlyTook(a) && OnlyTook(b)
    ensures OnlyTook(a + b)
  {
  }

  predicate NoneSet(flags: seq<bool>) {
    forall i :: 0 <= i < |flags| ==> !flags[i]
  }

  lemma NoneSetTogether(a: seq<bool>, b: seq<bool>)
    requires NoneSet(a) && NoneSet(b)
    ensures NoneSet(a + b)
  {
  }

  lemma QuietFlags(h: seq<Event>, ran: seq<Goal>)
    requires OnlyTook(h)
    ensures NoneSet(FlagsOf(h, ran))
  {
    assert forall g | g in ran :: !CancelledId(h, g.id);
  }

  /** Nobody who is never sent a cancel request: as the cancel service is not started by
      anything, that is every goal of the program as it stands. */
  lemma {:induction false} NoCancelsNoPreemption(turns: seq<Turn>)
    requires AllMessages(turns) && forall i :: 0 <= i < |turns| ==> NoCancels(turns[i])
    ensures OnlyTook(History(turns)) && NoneSet(Flags([], turns))
  {
    if turns != [] {
      var n := |turns| - 1;
      NoCancelsNoPreemption(turns[..n]);
      assert turns[..n + 1] == turns && NoCancels(turns[n]);
      QuietTurn(turns[n]);
      hide *;
      QuietStep(turns, n);
    }
  }

  lemma QuietStep(turns: seq<Turn>, n: nat)
    requires n < |turns| && AllMessages(turns) && AllMessages(turns[..n])
    requires OnlyTook(History(turns[..n])) && NoneSet(Flags([], turns[..n]))
    requires OnlyTook(BeforeCall(turns[n])) && OnlyTook(EventsOf(turns[n]))
    ensures AllMessages(turns[..n + 1])
    ensures OnlyTook(History(turns[..n + 1])) && NoneSet(Flags([], turns[..n + 1]))
  {
    hide GoalIn, IsMessage, History, Flags, FlagsOf, BeforeCall, EventsOf, Taken, Executable, OnlyTook, NoneSet;
    TurnsGrow(turns, n);
    FlagsGrow([], turns, n);
    QuietTogether(History(turns[..n]), EventsOf(turns[n]));
    QuietTogether(History(turns[..n]), BeforeCall(turns[n]));
    assert [] + History(turns[..n]) + BeforeCall(turns[n]) == History(turns[..n]) + BeforeCall(turns[n]);
    QuietFlags([] + History(turns[..n]) + BeforeCall(turns[n]), Executable(Taken(turns[n])));
    NoneSetTogether(Flags([], turns[..n]),
                    FlagsOf([] + History(turns[..n]) + BeforeCall(turns[n]), Executable(Taken(turns[n]))));
  }

  /** A turn in which this goal comes in and is cancelled, if at all, while it runs. */
  predicate Runs(t: Turn, g: Goal) {
    && (t.message.Some? ==> IsMessage(t.message.value))
    && Taken(t) == [g] && g.id != -1 && t.early == t.between == []
  }

  lemma TurnRuns(t: Turn, g: Goal)
    requires Runs(t, g)
    ensures BeforeCall(t) == [Took(g)] && EventsOf(t) == [Took(g)] + Cancels(t.during)
    ensures Executable(Taken(t)) == [g]
  {
    ExecutableOne(g);
  }

  lemma FirstFlag(t: Turn, g: Goal)
    requires Runs(t, g)
    ensures AllMessages([t]) && GoalsOf([t]) == [g] && History([t]) == [Took(g)] + Cancels(t.during)
    ensures Flags([], [t]) == [CancelledId([Took(g)], g.id)]
  {
    hide GoalIn, IsMessage, CancelledId, Taken, BeforeCall, EventsOf, Executable, FlagsOf, Flags, History, GoalsOf;
    NoTurns();
    TurnRuns(t, g);
    FlagOne([Took(g)], g);
    OneTurn(t);
    assert [] + [] + [Took(g)] == [Took(g)];
  }

  lemma NoTurns()
    ensures AllMessages([]) && GoalsOf([]) == [] && History([]) == [] && Flags([], []) == []
  {
  }

  lemma OneTurn(t: Turn)
    requires t.message.Some? ==> IsMessage(t.message.value)
    ensures AllMessages([t]) && GoalsOf([t]) == Taken(t) && History([t]) == EventsOf(t)
    ensures Flags([], [t]) == FlagsOf([] + [] + BeforeCall(t), Executable(Taken(t)))
  {
    assert [t][..0] == [] && [t][..1] == [t];
    NoTurns();
    hide GoalIn, IsMessage, CancelledId, Taken, BeforeCall, EventsOf, Executable, FlagsOf, Flags, History, GoalsOf;
    TurnsGrow([t], 0);
    FlagsGrow([], [t], 0);
  }

  lemma FlagOne(h: seq<Event>, g: Goal)
    ensures FlagsOf(h, [g]) == [CancelledId(h, g.id)]
  {
  }

  /** Were it started: nothing is ever taken out of the two sets, so of two goals of one
      id the second is preempted from the start exactly if the first one was cancelled.
      Ids do repeat, as every client counts from 0. */
  lemma NamesakeIsPreempted(first: Turn, second: Turn, g: Goal, namesake: Goal)
    requires Runs(first, g) && Runs(second, namesake) && namesake.id == g.id
    ensures var turns := [first, second];
            && AllMessages(turns) && Executable(GoalsOf(turns)) == [g, namesake]
            && Flags([], turns) == [false, g.id in first.during]
  {
    var turns := [first, second];
    assert turns[..1] == [first] && turns[..2] == turns;
    FirstFlag(first, g);
    TurnRuns(second, namesake);
    TurnsGrow(turns, 1);
    FlagsGrow([], turns, 1);
    CancelledBetween(g, namesake, first.during);
    ExecutableOne(g);
    ExecutableGrows([g], second);
    hide Taken, BeforeCall, EventsOf, Executable, CancelledId;
    assert [] + History([first]) + BeforeCall(second) == [Took(g)] + Cancels(first.during) + [Took(namesake)];
  }

  lemma CancelledBetween(g: Goal, namesake: Goal, cancels: seq<i32>)
    requires namesake.id == g.id
    ensures !CancelledId([Took(g)], g.id)
    ensures CancelledId([Took(g)] + Cancels(cancels) + [Took(namesake)], g.id) <==> g.id in cancels
  {
    var h := [Took(g)] + Cancels(cancels) + [Took(namesake)];
    if g.id in cancels {
      var k :| 0 <= k < |cancels| && cancels[k] == g.id;
      assert h[..k + 1][0] == Took(g) && TookId(h[..k + 1], g.id);
      assert h[k + 1] == Cancel(g.id);
    }
    if CancelledId(h, g.id) {
      var k :| 0 <= k < |h| && h[k] == Cancel(g.id) && TookId(h[..k], g.id);
      assert h[k] == Cancels(cancels)[k - 1];
    }
  }

  lemma TurnsGrow(turns: seq<Turn>, k: nat)
    requires k < |turns| && AllMessages(turns)
    ensures AllMessages(turns[..k]) && AllMessages(turns[..k + 1])
    ensures GoalsOf(turns[..k + 1]) == GoalsOf(turns[..k]) + Taken(turns[k])
    ensures History(turns[..k + 1]) == History(turns[..k]) + EventsOf(turns[k])
  {
    assert turns[..k + 1][..k] == turns[..k];
  }
}
