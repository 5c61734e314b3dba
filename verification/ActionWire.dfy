/** How goals, feedback and results travel as messages on a topic. */
module ActionWire {
  import opened Words
  import opened Outcomes
  import opened PoolLayout
  import opened TopicRing
  import opened MemoryPool
  import opened Topic

  const MSG_CUSTOM: i32 := 4
  const MAX_MSG_SIZE: nat := 256

  /** The receive buffer of the action loops: a message header and `MAX_MSG_SIZE` bytes. */
  const RECEIVE_BUFFER: nat := 280

  /** The fields before the data: id, time stamp and size; a report also has a status. */
  const GOAL_FIXED: nat := 16
  const REPORT_FIXED: nat := 20

  datatype Goal = Goal(id: i32, data: seq<byte>)

  /** Feedback or a result as kept by the client: `dataSize` is what the sender declared,
      `data` what the message held. */
  datatype Report = Report(status: i32, dataSize: u32, data: seq<byte>)

  function EncodeGoal(g: Goal, now: i64): (bs: seq<byte>)
    requires |g.data| <= MAX_MSG_SIZE
    ensures |bs| == GOAL_FIXED + |g.data|
  {
    Le(Wrap32(g.id), 4) + Le(FromI64(now), 8) + Le(|g.data|, 4) + g.data
  }

  function EncodeReport(id: i32, status: i32, now: i64, data: seq<byte>): (bs: seq<byte>)
    requires |data| <= MAX_MSG_SIZE
    ensures |bs| == REPORT_FIXED + |data|
  {
    Le(Wrap32(id), 4) + Le(Wrap32(status), 4) + Le(FromI64(now), 8) + Le(|data|, 4) + data
  }

  // ----- received messages -----

  function I32At(m: seq<byte>, at: nat): i32
    requires at + 4 <= |m|
  {
    ToI32(U32Of(m[at..at + 4]))
  }

  function U32At(m: seq<byte>, at: nat): u32
    requires at + 4 <= |m|
  {
    U32Of(m[at..at + 4])
  }

  /** A message as a receive leaves it: header, then as many bytes as the header says. */
  predicate IsMessage(m: seq<byte>) {
    24 <= |m| <= RECEIVE_BUFFER && |m| == 24 + U32At(m, 16)
  }

  /** The message is of the right type and holds at least the fixed fields. */
  predicate Carries(m: seq<byte>, fixed: nat)
    requires IsMessage(m)
  {
    I32At(m, 0) == MSG_CUSTOM && |m| >= 24 + fixed
  }

  /** The goal in a message. Should its own size field claim more than the message
      holds, the source reads on: `stale` is what it finds there. */
  function GoalIn(m: seq<byte>, stale: seq<byte>): Option<Goal>
    requires IsMessage(m)
  {
    if !Carries(m, GOAL_FIXED) then None
    else
      var size, data := U32At(m, 24 + 12), m[24 + GOAL_FIXED..];
      Some(Goal(I32At(m, 24), if size <= |data| then data[..size] else data + stale))
  }

  /** The report in a message, and the goal it belongs to. */
  function ReportIn(m: seq<byte>): Option<(i32, Report)>
    requires IsMessage(m)
  {
    if !Carries(m, REPORT_FIXED) then None
    else Some((I32At(m, 24), Report(I32At(m, 28), U32At(m, 24 + 16), m[24 + REPORT_FIXED..])))
  }

  // ----- round trips -----

  /** What a receive makes of a message with this header and payload: nothing if the
      two do not fit the receive buffer. */
  function Received(h: Header, payload: seq<byte>): (m: Option<seq<byte>>)
    requires h.dataSize == |payload|
  {
    if 24 + |payload| > RECEIVE_BUFFER then None else Some(EncodeHeader(h) + payload)
  }

  lemma FourBytes(a: seq<byte>, v: u32, b: seq<byte>)
    ensures var m := a + Le(v, 4) + b; U32Of(m[|a|..|a| + 4]) == v
  {
    var m := a + Le(v, 4) + b;
    U32RoundTrip(v, m[|a|..|a| + 4]);
  }

  lemma SignedBytes(a: seq<byte>, v: i32, b: seq<byte>)
    ensures var m := a + Le(Wrap32(v), 4) + b; ToI32(U32Of(m[|a|..|a| + 4])) == v
  {
    FourBytes(a, Wrap32(v), b);
  }

  lemma HeaderIsRead(h: Header, payload: seq<byte>)
    requires h.dataSize == |payload| <= MAX_MSG_SIZE
    ensures var m := EncodeHeader(h) + payload;
            IsMessage(m) && I32At(m, 0) == h.msgType && m[24..] == payload
  {
    var m := EncodeHeader(h) + payload;
    var t, s, ts := Le(Wrap32(h.msgType), 4), Le(Wrap32(h.seqNo), 4), Le(FromI64(h.timestamp), 8);
    var size, offset := Le(h.dataSize, 4), Le(h.poolOffset, 4);
    assert m == [] + t + (s + ts + size + offset + payload);
    SignedBytes([], h.msgType, s + ts + size + offset + payload);
    assert m == (t + s + ts) + size + (offset + payload);
    FourBytes(t + s + ts, h.dataSize, offset + payload);
  }

  lemma GoalFields(a: seq<byte>, g: Goal, now: i64)
    requires |a| == 24 && |g.data| <= MAX_MSG_SIZE
    ensures var m := a + EncodeGoal(g, now);
            I32At(m, 24) == g.id && U32At(m, 36) == |g.data| && m[40..] == g.data
  {
    var m := a + EncodeGoal(g, now);
    var id, ts, size := Le(Wrap32(g.id), 4), Le(FromI64(now), 8), Le(|g.data|, 4);
    assert m == a + id + (ts + size + g.data);
    SignedBytes(a, g.id, ts + size + g.data);
    assert m == (a + id + ts) + size + g.data;
    FourBytes(a + id + ts, |g.data|, g.data);
  }

  lemma ReportFields(a: seq<byte>, id: i32, status: i32, now: i64, data: seq<byte>)
    requires |a| == 24 && |data| <= MAX_MSG_SIZE
    ensures var m := a + EncodeReport(id, status, now, data);
            I32At(m, 24) == id && I32At(m, 28) == status && U32At(m, 40) == |data| && m[44..] == data
  {
    var m := a + EncodeReport(id, status, now, data);
    var i, s, ts, size := Le(Wrap32(id), 4), Le(Wrap32(status), 4), Le(FromI64(now), 8), Le(|data|, 4);
    assert m == a + i + (s + ts + size + data);
    SignedBytes(a, id, s + ts + size + data);
    assert m == (a + i) + s + (ts + size + data);
    SignedBytes(a + i, status, ts + size + data);
    assert m == (a + i + s + ts) + size + data;
    FourBytes(a + i + s + ts, |data|, data);
  }

  /** The messages byte by byte: id, time stamp, size and data of a goal ... */
  lemma GoalBytes(g: Goal, now: i64)
    requires |g.data| <= MAX_MSG_SIZE
    ensures var m := EncodeGoal(g, now);
            && StandsAt(m, 0, 4, Wrap32(g.id)) && StandsAt(m, 4, 8, FromI64(now))
            && StandsAt(m, 12, 4, |g.data|) && m[16..] == g.data
  {
    var m := EncodeGoal(g, now);
    var id, ts, size := Le(Wrap32(g.id), 4), Le(FromI64(now), 8), Le(|g.data|, 4);
    assert m == [] + id + (ts + size + g.data) == id + ts + (size + g.data) == id + ts + size + g.data;
    LeStands([], Wrap32(g.id), 4, ts + size + g.data);
    LeStands(id, FromI64(now), 8, size + g.data);
    LeStands(id + ts, |g.data|, 4, g.data);
  }

  /** ... and id, status, time stamp, size and data of a report. */
  lemma ReportBytes(id: i32, status: i32, now: i64, data: seq<byte>)
    requires |data| <= MAX_MSG_SIZE
    ensures var m := EncodeReport(id, status, now, data);
            && StandsAt(m, 0, 4, Wrap32(id)) && StandsAt(m, 4, 4, Wrap32(status))
            && StandsAt(m, 8, 8, FromI64(now)) && StandsAt(m, 16, 4, |data|) && m[20..] == data
  {
    var m := EncodeReport(id, status, now, data);
    var i, s, ts, size := Le(Wrap32(id), 4), Le(Wrap32(status), 4), Le(FromI64(now), 8), Le(|data|, 4);
    assert m == [] + i + (s + ts + size + data) == i + s + (ts + size + data)
             == i + s + ts + (size + data) == i + s + ts + size + data;
    LeStands([], Wrap32(id), 4, s + ts + size + data);
    LeStands(i, Wrap32(status), 4, ts + size + data);
    LeStands(i + s, FromI64(now), 8, size + data);
    LeStands(i + s + ts, |data|, 4, data);
  }

  /** What a message means depends only on the type it was sent under and on its payload. A
      goal comes out exactly if the type is `MSG_CUSTOM` and the payload holds the fixed
      fields; it has the id and the bytes that stand there. */
  lemma OnlyGoalsAreGoals(h: Header, p: seq<byte>, stale: seq<byte>)
    requires h.dataSize == |p| && Received(h, p).Some?
    ensures var m := Received(h, p).value;
            && IsMessage(m)
            && (GoalIn(m, stale).Some? <==> h.msgType == MSG_CUSTOM && |p| >= 16)
            && (GoalIn(m, stale).Some? ==>
                  var g, n := GoalIn(m, stale).value, U32Of(p[12..16]);
                  && g.id == ToI32(U32Of(p[..4]))
                  && g.data == if n <= |p| - 16 then p[16..16 + n] else p[16..] + stale)
  {
    HeaderIsRead(h, p);
    var m := Received(h, p).value;
    if |p| >= 16 {
      assert m[24..28] == p[..4] && m[36..40] == p[12..16] && m[40..] == p[16..];
      var n := U32Of(p[12..16]);
      assert n <= |p| - 16 ==> p[16..][..n] == p[16..16 + n];
    }
  }

  /** The same for a report. */
  lemma OnlyReportsAreReports(h: Header, p: seq<byte>)
    requires h.dataSize == |p| && Received(h, p).Some?
    ensures var m := Received(h, p).value;
            && IsMessage(m)
            && (ReportIn(m).Some? <==> h.msgType == MSG_CUSTOM && |p| >= 20)
            && (ReportIn(m).Some? ==>
                  ReportIn(m).value ==
                    (ToI32(U32Of(p[..4])), Report(ToI32(U32Of(p[4..8])), U32Of(p[16..20]), p[20..])))
  {
    HeaderIsRead(h, p);
    var m := Received(h, p).value;
    if |p| >= 20 {
      assert m[24..28] == p[..4] && m[28..32] == p[4..8] && m[40..44] == p[16..20] && m[44..] == p[20..];
    }
  }

  /** A goal arrives, byte for byte, exactly if its data is at most 240 bytes, though up
      to 256 are accepted for sending: a larger one never fits the receive buffer. */
  lemma GoalArrives(h: Header, g: Goal, now: i64, stale: seq<byte>)
    requires |g.data| <= MAX_MSG_SIZE
    requires h.msgType == MSG_CUSTOM && h.dataSize == GOAL_FIXED + |g.data|
    ensures var m := Received(h, EncodeGoal(g, now));
            && (m.Some? <==> |g.data| <= 240)
            && (m.Some? ==> IsMessage(m.value) && GoalIn(m.value, stale) == Some(g))
  {
    if |g.data| <= 240 {
      HeaderIsRead(h, EncodeGoal(g, now));
      GoalFields(EncodeHeader(h), g, now);
      assert g.data[..|g.data|] == g.data;
    }
  }

  /** The same for feedback and results, whose limit is 236 bytes. */
  lemma ReportArrives(h: Header, id: i32, status: i32, now: i64, data: seq<byte>)
    requires |data| <= MAX_MSG_SIZE
    requires h.msgType == MSG_CUSTOM && h.dataSize == REPORT_FIXED + |data|
    ensures var m := Received(h, EncodeReport(id, status, now, data));
            && (m.Some? <==> |data| <= 236)
            && (m.Some? ==> IsMessage(m.value) && ReportIn(m.value) == Some((id, Report(status, |data|, data))))
  {
    if |data| <= 236 {
      HeaderIsRead(h, EncodeReport(id, status, now, data));
      ReportFields(EncodeHeader(h), id, status, now, data);
    }
  }

  // ----- the same, through the topic -----

  /** One receive of an action loop: 280 bytes of buffer, at most 100 ms of waiting. */
  method ReceiveMessage(sub: Subscriber, waits: seq<Wait>, shutdown: bool) returns (m: Option<seq<byte>>, used: nat)
    requires sub.shm.Valid() && sub.pool.Valid() && InPool(sub.shm.log) && AllInPool(waits)
    modifies sub, sub.shm, sub.shm.buffer
    ensures sub.shm.Valid() && sub.pool.Valid() && InPool(sub.shm.log)
    ensures Waited(old(sub.lastSeq), |old(sub.shm.log)|, 100, waits, shutdown, used)
    ensures sub.shm.log == old(sub.shm.log) + Published(waits[..used])
    ensures var log, n := sub.shm.log, |sub.shm.log| - 1;
            if MayRead(old(sub.lastSeq), |log|, 100, waits, shutdown, used) then
              && n >= 0
              && var f := log[n];
              && m == Received(HeaderOf(log, n), sub.pool.data[f.poolOffset..f.poolOffset + f.dataSize])
              && sub.lastSeq == if m.Some? then Wrap32(n + 1) else old(sub.lastSeq)
            else m == None && sub.lastSeq == old(sub.lastSeq)
  {
    var buffer := new byte[RECEIVE_BUFFER](i => 0);
    var ret;
    ret, used := sub.ReceiveRaw(buffer, 100, waits, shutdown);
    if ret == -1 {
      return None, used;
    }
    m := Some(buffer[..ret]);
  }

  /** `payload` is in the pool, under a header published last on the topic. */
  ghost predicate IsNewest(shm: TopicShm, pool: MemoryPool, payload: seq<byte>)
    reads shm, pool.data
  {
    && shm.log != []
    && var f := shm.log[|shm.log| - 1];
    && f.msgType == MSG_CUSTOM && f.dataSize == |payload|
    && f.poolOffset + f.dataSize <= pool.data.Length
    && pool.data[f.poolOffset..f.poolOffset + f.dataSize] == payload
  }

  /** Publishes a message as every part of an action does. */
  method PublishMessage(pub: Publisher, payload: seq<byte>, now: i64, shutdown: bool) returns (ok: bool)
    requires pub.shm.Valid() && pub.pool.Valid() && |payload| <= POOL_SIZE
    modifies pub.shm, pub.shm.buffer, pub.pool`headOffset, pub.pool`blocks, pub.pool.data
    ensures pub.shm.Valid() && pub.pool.Valid()
    ensures ok <==> !shutdown
    ensures ok ==> |pub.shm.log| == |old(pub.shm.log)| + 1 && IsNewest(pub.shm, pub.pool, payload)
    ensures !ok ==> pub.shm.log == old(pub.shm.log)
  {
    var r := pub.PublishRaw(payload, MSG_CUSTOM, now, shutdown);
    ok := r.Ok? && r.value;
    assert r.Ok? ==> r == Ok(ok);
  }

  /** From the sender's topic to the receiver's hands, if the block is still live when it
      is read: the goal sent, or nothing at all above 240 bytes. */
  lemma PublishedGoalArrives(shm: TopicShm, pool: MemoryPool, g: Goal, now: i64, stale: seq<byte>)
    requires shm.Valid() && pool.Valid() && |g.data| <= MAX_MSG_SIZE
    requires IsNewest(shm, pool, EncodeGoal(g, now))
    ensures var n := |shm.log| - 1;
            var f := shm.log[n];
            var m := Received(HeaderOf(shm.log, n), pool.data[f.poolOffset..f.poolOffset + f.dataSize]);
            if |g.data| <= 240 then m.Some? && IsMessage(m.value) && GoalIn(m.value, stale) == Some(g) else m == None
  {
    GoalArrives(HeaderOf(shm.log, |shm.log| - 1), g, now, stale);
  }

  lemma PublishedReportArrives(shm: TopicShm, pool: MemoryPool, id: i32, status: i32, now: i64, data: seq<byte>)
    requires shm.Valid() && pool.Valid() && |data| <= MAX_MSG_SIZE
    requires IsNewest(shm, pool, EncodeReport(id, status, now, data))
    ensures var n := |shm.log| - 1;
            var f := shm.log[n];
            var m := Received(HeaderOf(shm.log, n), pool.data[f.poolOffset..f.poolOffset + f.dataSize]);
            if |data| <= 236 then
              m.Some? && IsMessage(m.value) && ReportIn(m.value) == Some((id, Report(status, |data|, data)))
            else m == None
  {
    ReportArrives(HeaderOf(shm.log, |shm.log| - 1), id, status, now, data);
  }
}
