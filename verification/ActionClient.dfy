/** The client side of an action: goals go out, feedback and results are kept until taken. */
module ActionClient {
  import opened Words
  import opened Outcomes
  import opened Topic
  import opened TopicRing
  import opened ActionWire

  /** What happens to one of the client's two tables: a report comes in for a goal, a
      caller takes the report of a goal; and a goal that went out is put down as pending. */
  datatype Event = Arrived(id: i32, report: Report) | Took(id: i32) | Sent(id: i32)

  /** The event changes the entry of this goal. */
  predicate Touches(e: Event, id: i32) {
    !e.Sent? && e.id == id
  }

  predicate UntouchedSince(h: seq<Event>, id: i32, k: nat) {
    forall j :: k < j < |h| ==> !Touches(h[j], id)
  }

  /** The report a goal has in the table: the latest that came in, unless it was taken. */
  function Latest(h: seq<Event>, id: i32): Option<Report> {
    if h == [] then None
    else
      var e := h[|h| - 1];
      if !Touches(e, id) then Latest(h[..|h| - 1], id)
      else if e.Arrived? then Some(e.report) else None
  }

  /** Event `k` brought in the report, and is the last that happened to this goal's entry. */
  predicate NotYetTaken(h: seq<Event>, id: i32, r: Report, k: nat) {
    k < |h| && h[k] == Arrived(id, r) && UntouchedSince(h, id, k)
  }

  lemma OtherGoalsDoNotMatter(h: seq<Event>, id: i32, r: Report, k: nat)
    requires h != [] && !Touches(h[|h| - 1], id)
    ensures NotYetTaken(h, id, r, k) <==> NotYetTaken(h[..|h| - 1], id, r, k)
  {
    var n := |h| - 1;
    if NotYetTaken(h[..n], id, r, k) {
      assert forall j :: k < j < n ==> h[j] == h[..n][j];
    }
    if NotYetTaken(h, id, r, k) {
      assert forall j :: k < j < n ==> h[..n][j] == h[j];
    }
  }

  /** A table entry is the latest report received for the goal and not yet taken. */
  lemma {:induction false} LatestIsNotYetTaken(h: seq<Event>, id: i32, r: Report)
    ensures Latest(h, id) == Some(r) <==> exists k: nat :: NotYetTaken(h, id, r, k)
  {
    if h != [] {
      var n := |h| - 1;
      if Touches(h[n], id) {
        assert Latest(h, id) == Some(r) <==> NotYetTaken(h, id, r, n);
        assert forall k: nat :: NotYetTaken(h, id, r, k) ==> k == n;
      } else {
        LatestIsNotYetTaken(h[..n], id, r);
        if k: nat :| NotYetTaken(h, id, r, k) {
          OtherGoalsDoNotMatter(h, id, r, k);
        }
        if k: nat :| NotYetTaken(h[..n], id, r, k) {
          OtherGoalsDoNotMatter(h, id, r, k);
        }
      }
    }
  }

  lemma LatestAfter(h: seq<Event>, e: Event)
    ensures forall id: i32 :: Latest(h + [e], id) ==
              if !Touches(e, id) then Latest(h, id) else if e.Arrived? then Some(e.report) else None
  {
    assert (h + [e])[..|h|] == h;
  }

  predicate SentAt(h: seq<Event>, id: i32, k: nat) {
    k < |h| && h[k] == Sent(id) && UntouchedSince(h, id, k)
  }

  /** A goal is pending once it was sent, until its result comes in or is taken. */
  ghost predicate IsPending(h: seq<Event>, id: i32) {
    exists k: nat :: SentAt(h, id, k)
  }

  lemma PendingAfter(h: seq<Event>, e: Event, id: i32)
    ensures IsPending(h + [e], id) <==> e == Sent(id) || (IsPending(h, id) && !Touches(e, id))
  {
    var more := h + [e];
    if e == Sent(id) {
      assert SentAt(more, id, |h|);
    }
    if k: nat :| SentAt(h, id, k) {
      assert !Touches(e, id) ==> SentAt(more, id, k);
    }
    if k: nat :| SentAt(more, id, k) {
      if k < |h| {
        assert !Touches(more[|h|], id);
        assert forall j :: k < j < |h| ==> h[j] == more[j];
        assert SentAt(h, id, k);
      }
    }
  }

  function Find(table: map<i32, Report>, id: i32): Option<Report> {
    if id in table then Some(table[id]) else None
  }

  ghost predicate Holds(table: map<i32, Report>, h: seq<Event>) {
    forall id: i32 :: Find(table, id) == Latest(h, id)
  }

  /** The first `size` bytes of a report's data area, which goes on beyond what the
      message held with whatever is in memory there. */
  function Copied(r: Report, size: nat, stale: seq<byte>): seq<byte> {
    if size <= |r.data| then r.data[..size] else r.data + stale
  }

  /** What taking a report of type size `size` gives: its data and status. */
  function Takes(entry: Option<Report>, size: nat, stale: seq<byte>): Option<(seq<byte>, i32)> {
    match entry
    case None => None
    case Some(r) => if r.dataSize != size then None else Some((Copied(r, size, stale), r.status))
  }

  /** What one round of a receive loop makes of a message, or of none. */
  function ArrivalIn(message: Option<seq<byte>>): seq<Event>
    requires message.Some? ==> IsMessage(message.value)
  {
    if message.None? then []
    else match ReportIn(message.value) case None => [] case Some(r) => [Arrived(r.0, r.1)]
  }

  /** From the sender's side: what was sent under `MSG_CUSTOM` and is long enough for a
      report arrives as one, for the goal and with the fields that stand in it, and nothing
      else does. */
  lemma WhatArrives(h: Header, p: seq<byte>)
    requires h.dataSize == |p|
    ensures Received(h, p).Some? ==> IsMessage(Received(h, p).value)
    ensures ArrivalIn(Received(h, p)) ==
              if Received(h, p).Some? && h.msgType == MSG_CUSTOM && |p| >= 20 then
                [Arrived(ToI32(U32Of(p[..4])), Report(ToI32(U32Of(p[4..8])), U32Of(p[16..20]), p[20..]))]
              else []
  {
    if Received(h, p).Some? {
      OnlyReportsAreReports(h, p);
    }
  }

  predicate AllMessages(messages: seq<Option<seq<byte>>>) {
    forall i :: 0 <= i < |messages| && messages[i].Some? ==> IsMessage(messages[i].value)
  }

  function Arrivals(messages: seq<Option<seq<byte>>>): seq<Event>
    requires AllMessages(messages)
  {
    if messages == [] then []
    else Arrivals(messages[..|messages| - 1]) + ArrivalIn(messages[|messages| - 1])
  }

  lemma ArrivalsGrow(messages: seq<Option<seq<byte>>>, k: nat)
    requires k < |messages| && AllMessages(messages)
    ensures Arrivals(messages[..k + 1]) == Arrivals(messages[..k]) + ArrivalIn(messages[k])
  {
    assert messages[..k + 1][..k] == messages[..k];
  }

  class ActionClient {
    var nextGoalId: i32
    var pendingGoals: set<i32>
    var results: map<i32, Report>
    var feedbacks: map<i32, Report>
    ghost var resultLog: seq<Event>
    ghost var feedbackLog: seq<Event>

    /** Each table holds the latest report received and not yet taken, for every goal, and
        the goals whose results are still to come are pending. */
    ghost predicate Valid()
      reads this
    {
      && Holds(results, resultLog) && Holds(feedbacks, feedbackLog)
      && forall id: i32 :: id in pendingGoals <==> IsPending(resultLog, id)
    }

    constructor ()
      ensures Valid() && nextGoalId == 0 && resultLog == [] && feedbackLog == [] && pendingGoals == {}
    {
      nextGoalId, pendingGoals := 0, {};
      results, feedbacks, resultLog, feedbackLog := map[], map[], [], [];
    }

    /** One round of the result loop: a report that arrived becomes its goal's entry and ends
        its being pending, and nothing else changes. */
    method OnResult(message: Option<seq<byte>>)
      requires Valid() && (message.Some? ==> IsMessage(message.value))
      modifies this`results, this`pendingGoals, this`resultLog
      ensures Valid() && resultLog == old(resultLog) + ArrivalIn(message)
      ensures ArrivalIn(message) == [] ==> results == old(results) && pendingGoals == old(pendingGoals)
      ensures ArrivalIn(message) != [] ==>
                var e := ArrivalIn(message)[0];
                && e.Arrived? && results == old(results)[e.id := e.report]
                && pendingGoals == old(pendingGoals) - {e.id}
    {
      if message.Some? {
        var r := ReportIn(message.value);
        if r.Some? {
          var (id, report) := r.value;
          LatestAfter(resultLog, Arrived(id, report));
          forall other: i32 {
            PendingAfter(resultLog, Arrived(id, report), other);
          }
          results := results[id := report];
          pendingGoals := pendingGoals - {id};
          resultLog := resultLog + [Arrived(id, report)];
        }
      }
    }

    /** One round of the feedback loop. */
    method OnFeedback(message: Option<seq<byte>>)
      requires Valid() && (message.Some? ==> IsMessage(message.value))
      modifies this`feedbacks, this`feedbackLog
      ensures Valid() && feedbackLog == old(feedbackLog) + ArrivalIn(message)
    {
      if message.Some? {
        var r := ReportIn(message.value);
        if r.Some? {
          var (id, report) := r.value;
          LatestAfter(feedbackLog, Arrived(id, report));
          feedbacks := feedbacks[id := report];
          feedbackLog := feedbackLog + [Arrived(id, report)];
        }
      }
    }

    /** Publishes a goal under the next id; -1 if publishing is refused. The result loop may
        run before the id is put down as pending: `meanwhile` is what it receives. */
    method SendGoal(pub: Publisher, data: seq<byte>, now: i64, shutdown: bool, meanwhile: seq<Option<seq<byte>>>)
      returns (id: i32)
      requires Valid() && pub.shm.Valid() && pub.pool.Valid() && AllMessages(meanwhile)
      requires |data| <= MAX_MSG_SIZE && 0 <= nextGoalId < 0x7FFF_FFFF
      modifies this`nextGoalId, this`pendingGoals, this`results, this`resultLog
      modifies pub.shm, pub.shm.buffer, pub.pool`headOffset, pub.pool`blocks, pub.pool.data
      ensures Valid() && pub.shm.Valid() && pub.pool.Valid()
      ensures nextGoalId == old(nextGoalId) + 1
      ensures id == if shutdown then -1 else old(nextGoalId)
      ensures resultLog == old(resultLog) + Arrivals(meanwhile) + (if shutdown then [] else [Sent(id)])
      ensures shutdown ==> pub.shm.log == old(pub.shm.log)
      ensures !shutdown ==> IsNewest(pub.shm, pub.pool, EncodeGoal(Goal(id, data), now)) && id in pendingGoals
    {
      hide IsPending, Holds, ArrivalIn, IsMessage;
      id := nextGoalId;
      nextGoalId := nextGoalId + 1;
      var ok := PublishMessage(pub, EncodeGoal(Goal(id, data), now), now, shutdown);
      OnResults(meanwhile);
      if !ok {
        return -1;
      }
      PutDown(id);
    }

    /** Puts a goal down as pending. */
    method PutDown(id: i32)
      requires Valid()
      modifies this`pendingGoals, this`resultLog
      ensures Valid() && resultLog == old(resultLog) + [Sent(id)]
      ensures pendingGoals == old(pendingGoals) + {id}
    {
      LatestAfter(resultLog, Sent(id));
      forall other: i32 {
        PendingAfter(resultLog, Sent(id), other);
      }
      pendingGoals := pendingGoals + {id};
      resultLog := resultLog + [Sent(id)];
    }

    method OnResults(messages: seq<Option<seq<byte>>>)
      requires Valid() && AllMessages(messages)
      modifies this`results, this`pendingGoals, this`resultLog
      ensures Valid() && resultLog == old(resultLog) + Arrivals(messages)
    {
      for k := 0 to |messages|
        invariant Valid() && resultLog == old(resultLog) + Arrivals(messages[..k])
      {
        ArrivalsGrow(messages, k);
        OnResult(messages[k]);
      }
      assert messages[..|messages|] == messages;
    }

    method IsFinished(id: i32) returns (b: bool)
      requires Valid()
      ensures b <==> Latest(resultLog, id).Some?
    {
      assert Find(results, id) == Latest(resultLog, id);
      b := id in results;
    }

    /** Takes the result of a goal. One of another size stays where it is. */
    method GetResult(id: i32, size: nat, stale: seq<byte>) returns (r: Option<(seq<byte>, i32)>)
      requires Valid()
      modifies this`results, this`pendingGoals, this`resultLog
      ensures Valid() && r == Takes(Latest(old(resultLog), id), size, stale)
      ensures resultLog == old(resultLog) + (if r.Some? then [Took(id)] else [])
      ensures pendingGoals == if r.Some? then old(pendingGoals) - {id} else old(pendingGoals)
    {
      assert Find(results, id) == Latest(resultLog, id);
      if id !in results {
        return None;
      }
      var entry := results[id];
      if entry.dataSize != size {
        return None;
      }
      r := Some((Copied(entry, size, stale), entry.status));
      LatestAfter(resultLog, Took(id));
      forall other: i32 {
        PendingAfter(resultLog, Took(id), other);
      }
      results := results - {id};
      pendingGoals := pendingGoals - {id};
      resultLog := resultLog + [Took(id)];
    }

    method GetFeedback(id: i32, size: nat, stale: seq<byte>) returns (r: Option<(seq<byte>, i32)>)
      requires Valid()
      modifies this`feedbacks, this`feedbackLog
      ensures Valid() && r == Takes(Latest(old(feedbackLog), id), size, stale)
      ensures feedbackLog == old(feedbackLog) + (if r.Some? then [Took(id)] else [])
    {
      assert Find(feedbacks, id) == Latest(feedbackLog, id);
      if id !in feedbacks {
        return None;
      }
      var entry := feedbacks[id];
      if entry.dataSize != size {
        return None;
      }
      r := Some((Copied(entry, size, stale), entry.status));
      LatestAfter(feedbackLog, Took(id));
      feedbacks := feedbacks - {id};
      feedbackLog := feedbackLog + [Took(id)];
    }
  }

  /** A report that arrived as sent is handed over as sent, to a caller whose type has its
      size, and to no other. */
  lemma SentReportIsTaken(h: seq<Event>, id: i32, status: i32, data: seq<byte>, size: nat, stale: seq<byte>)
    requires |data| <= MAX_MSG_SIZE
    ensures var entry := Latest(h + [Arrived(id, Report(status, |data|, data))], id);
            Takes(entry, size, stale) == if size == |data| then Some((data, status)) else None
  {
    LatestAfter(h, Arrived(id, Report(status, |data|, data)));
    assert data[..|data|] == data;
  }
}
