/** Zero-copy publish/subscribe as interleaved steps.

    One step per critical section of a topic or of the pool, and separate steps for
    the bytes that are written and read without any lock. Any number of publishes,
    loans and subscribers run at once, on any topics, over one shared pool. */
module PubSub {
  import opened Words
  import opened PoolLayout
  import opened TopicRing

  const HEADER_SIZE: nat := 24

  /** A published message. `alloc` and `payload` are history: the allocation it lies
      in and the bytes its publisher put there. */
  datatype Msg = Msg(fields: Fields, alloc: nat, payload: seq<byte>)

  datatype Topic = Topic(ring: Ring, log: seq<Msg>)

  /** A publish under way: `publishRaw` between its allocation and the topic's lock,
      or a loan not yet published. */
  datatype Op =
    | Copying(topic: nat, alloc: nat, data: seq<byte>, done: nat, msgType: i32)
    | Loaned(alloc: nat, size: nat)

  /** What a subscriber does outside the lock: nothing, the `memcpy` of `receiveRaw`,
      or the use of the pointer that `receiveLoaned` handed out. */
  datatype Activity =
    | Idle
    | CopyingOut(msg: nat, header: Header, buf: seq<byte>)
    | Viewing(msg: nat, header: Header)

  /** `joined`, `seen` and `copies` are history: the length of the topic's log at
      construction, the messages delivered and the bytes `receiveRaw` returned. */
  datatype Sub = Sub(topic: nat, lastSeq: u32, activity: Activity,
                     joined: nat, seen: seq<nat>, copies: seq<(nat, seq<byte>)>)

  /** `blocks` and `contents` are history: every allocation ever made and what was last
      written to it by its owner. The pool's cursor is `Head(blocks)`. */
  datatype State = State(mem: seq<byte>, blocks: seq<Block>, contents: seq<seq<byte>>,
                         topics: seq<Topic>, ops: map<nat, Op>, subs: map<nat, Sub>)

  datatype Event =
    | BeginRaw(op: nat, topic: nat, data: seq<byte>, msgType: i32)
    | CopyIn(op: nat, count: nat)
    | FinishRaw(op: nat, now: i64)
    | Loan(op: nat, size: nat)
    | Fill(op: nat, at: nat, bytes: seq<byte>)
    | FinishLoan(op: nat, topic: nat, size: nat, msgType: i32, now: i64)
    | Join(sub: nat, topic: nat)
    | LookRaw(sub: nat, bufferSize: nat)
    | LookLoaned(sub: nat)
    | CopyOut(sub: nat, count: nat)
    | FinishCopy(sub: nat)
    | Release(sub: nat)

  function FieldsOf(log: seq<Msg>): (fs: seq<Fields>)
    ensures |fs| == |log|
  {
    seq(|log|, i requires 0 <= i < |log| => log[i].fields)
  }

  function Overwrite(old_: seq<byte>, at: nat, bytes: seq<byte>): (r: seq<byte>)
    requires at + |bytes| <= |old_|
    ensures |r| == |old_|
  {
    old_[..at] + bytes + old_[at + |bytes|..]
  }

  function At(mem: seq<byte>, b: Block): seq<byte>
    requires b.End() <= |mem|
  {
    mem[b.offset..b.End()]
  }

  ghost predicate Start(s: State) {
    && |s.mem| == POOL_SIZE
    && s.blocks == [] && s.contents == []
    && (forall t | t in s.topics :: t == Topic(EMPTY, []))
    && s.ops == map[] && s.subs == map[]
  }

  /** Structure every state has, in every run. */
  ghost predicate Shape(s: State) {
    && |s.mem| == POOL_SIZE
    && BlocksShape(s.blocks, s.contents)
    && (forall o | o in s.ops :: OpShape(s.blocks, |s.topics|, s.ops[o]))
    && (forall t | t in s.topics :: TopicShape(s.blocks, t))
    && (forall u | u in s.subs :: SubShape(s.topics, s.subs[u]))
  }

  ghost predicate BlocksShape(blocks: seq<Block>, contents: seq<seq<byte>>) {
    && Chain(blocks)
    && |contents| == |blocks|
    && (forall j {:trigger contents[j]} {:trigger blocks[j]} ::
          0 <= j < |blocks| ==> |contents[j]| == blocks[j].size)
  }

  ghost predicate OpShape(blocks: seq<Block>, topics: nat, o: Op) {
    && o.alloc < |blocks|
    && (match o
        case Copying(topic, alloc, data, done, _) => topic < topics && done <= |data| <= blocks[alloc].size
        case Loaned(alloc, size) => size <= blocks[alloc].size)
  }

  ghost predicate TopicShape(blocks: seq<Block>, t: Topic) {
    && t.ring == Replay(FieldsOf(t.log))
    && (forall m | m in t.log :: MsgShape(blocks, m))
  }

  ghost predicate MsgShape(blocks: seq<Block>, m: Msg) {
    && m.alloc < |blocks|
    && m.fields.poolOffset == blocks[m.alloc].offset
    && m.fields.dataSize == |m.payload| <= blocks[m.alloc].size
  }

  ghost predicate SubShape(topics: seq<Topic>, u: Sub) {
    && u.topic < |topics|
    && Ordered(u.joined, u.seen, u.lastSeq, |topics[u.topic].log|)
    && Collected(u.seen, u.copies)
    && ActivityShape(u, topics[u.topic].log)
  }

  /** The message after the last one delivered. */
  function Next(joined: nat, seen: seq<nat>): nat {
    if seen == [] then joined else seen[|seen| - 1] + 1
  }

  /** Deliveries move forward, in the log and in the 32-bit sequence numbers, and
      start after the subscriber joined. */
  ghost predicate Ordered(joined: nat, seen: seq<nat>, lastSeq: u32, n: nat) {
    && joined <= n
    && lastSeq == Wrap32(Next(joined, seen)) && Wrap32(joined) + |seen| <= lastSeq
    && (forall i :: 0 <= i < |seen| ==> joined <= seen[i] < n)
    && (forall i, j :: 0 <= i < j < |seen| ==>
          seen[i] < seen[j] && Wrap32(seen[i] + 1) < Wrap32(seen[j] + 1))
  }

  /** What `receiveRaw` returned are deliveries, each returned once and in order. */
  ghost predicate Collected(seen: seq<nat>, copies: seq<(nat, seq<byte>)>) {
    && |copies| <= |seen| && (forall i :: 0 <= i < |copies| ==> copies[i].0 in seen)
    && (forall i, j :: 0 <= i < j < |copies| ==> copies[i].0 < copies[j].0)
  }

  ghost predicate ActivityShape(u: Sub, log: seq<Msg>) {
    match u.activity
    case Idle => true
    case CopyingOut(m, h, buf) =>
      && Next(u.joined, u.seen) <= m < |log| && u.lastSeq < Wrap32(m + 1)
      && h == HeaderOf(FieldsOf(log), m) && |buf| <= h.dataSize
    case Viewing(m, h) =>
      && m < |log| && h == HeaderOf(FieldsOf(log), m)
      && u.seen != [] && u.seen[|u.seen| - 1] == m
  }

  ghost predicate Enabled(s: State, e: Event) {
    match e
    case BeginRaw(o, t, data, _) => o !in s.ops && t < |s.topics| && |data| <= POOL_SIZE
    case CopyIn(o, n) =>
      o in s.ops && s.ops[o].Copying? && 0 < n && s.ops[o].done + n <= |s.ops[o].data|
    case FinishRaw(o, _) => o in s.ops && s.ops[o].Copying? && s.ops[o].done == |s.ops[o].data|
    case Loan(o, size) => o !in s.ops && size <= POOL_SIZE
    case Fill(o, at, bytes) =>
      o in s.ops && s.ops[o].Loaned? && bytes != [] && at + |bytes| <= s.ops[o].size
    case FinishLoan(o, t, size, _, _) =>
      o in s.ops && s.ops[o].Loaned? && t < |s.topics| && size <= s.ops[o].size
    case Join(u, t) => u !in s.subs && t < |s.topics|
    case LookRaw(u, _) => CanLook(s, u)
    case LookLoaned(u) => CanLook(s, u)
    case CopyOut(u, n) =>
      && u in s.subs && s.subs[u].activity.CopyingOut?
      && 0 < n && |s.subs[u].activity.buf| + n <= s.subs[u].activity.header.dataSize
    case FinishCopy(u) =>
      && u in s.subs && s.subs[u].activity.CopyingOut?
      && |s.subs[u].activity.buf| == s.subs[u].activity.header.dataSize
    case Release(u) => u in s.subs && s.subs[u].activity.Viewing?
  }

  /** The guard of both receive calls: an idle subscriber whose cursor is behind. */
  ghost predicate CanLook(s: State, u: nat) {
    && u in s.subs && s.subs[u].activity.Idle?
    && s.subs[u].topic < |s.topics|
    && s.subs[u].lastSeq < s.topics[s.subs[u].topic].ring.seqNo
  }

  /** The guard only passes when there is a message the subscriber has not seen, and
      what it then reads is the newest message of the topic. */
  lemma LookFindsNewest(v: Sub, t: Topic)
    requires t.ring == Replay(FieldsOf(t.log)) && v.lastSeq < t.ring.seqNo
    requires Ordered(v.joined, v.seen, v.lastSeq, |t.log|)
    ensures t.log != []
    ensures var m := |t.log| - 1;
            && Next(v.joined, v.seen) <= m
            && v.lastSeq < Wrap32(m + 1)
            && Newest(t.ring) == HeaderOf(FieldsOf(t.log), m)
            && Wrap32(Newest(t.ring).seqNo) == Wrap32(m + 1)
  {
    ReplayStep(FieldsOf(t.log));
    if t.log != [] {
      NewestIsLast(FieldsOf(t.log));
    }
  }

  /** The critical section of `receiveRaw`; a message too large for the caller's
      buffer leaves the cursor where it was. */
  function LookedRaw(v: Sub, t: Topic, bufferSize: nat): Sub
    requires t.log != []
  {
    var h := Newest(t.ring);
    if HEADER_SIZE + h.dataSize <= bufferSize then v.(activity := CopyingOut(|t.log| - 1, h, [])) else v
  }

  /** The critical section of `receiveLoaned`, and the cursor move after it. */
  function LookedLoaned(v: Sub, t: Topic): Sub
    requires t.log != []
  {
    var h := Newest(t.ring);
    v.(activity := Viewing(|t.log| - 1, h), lastSeq := Wrap32(h.seqNo), seen := v.seen + [|t.log| - 1])
  }

  function CopiedOut(v: Sub, mem: seq<byte>, n: nat): Sub
    requires v.activity.CopyingOut?
    requires v.activity.header.poolOffset + |v.activity.buf| + n <= |mem|
  {
    var from := v.activity.header.poolOffset + |v.activity.buf|;
    v.(activity := v.activity.(buf := v.activity.buf + mem[from..from + n]))
  }

  /** `receiveRaw` returns, and its cursor moves to the header it copied. */
  function Copied(v: Sub): Sub
    requires v.activity.CopyingOut?
  {
    var a := v.activity;
    v.(activity := Idle, lastSeq := Wrap32(a.header.seqNo),
       seen := v.seen + [a.msg], copies := v.copies + [(a.msg, a.buf)])
  }

  function Allocate(s: State, size: nat): State
    requires |s.mem| == POOL_SIZE && size <= POOL_SIZE
    requires Cursor(Head(s.blocks))
  {
    var b := Place(Head(s.blocks), RoundUp8(size));
    s.(blocks := s.blocks + [b], contents := s.contents + [At(s.mem, b)])
  }

  /** An owner writes into its block. */
  function WriteBlock(s: State, j: nat, at: nat, bytes: seq<byte>): State
    requires j < |s.blocks| == |s.contents| && |s.contents[j]| == s.blocks[j].size
    requires s.blocks[j].End() <= |s.mem| && at + |bytes| <= s.blocks[j].size
  {
    s.(mem := Overwrite(s.mem, s.blocks[j].offset + at, bytes),
       contents := s.contents[j := Overwrite(s.contents[j], at, bytes)])
  }

  /** The critical section of a publish: stamp and store the header, advance the ring. */
  function Append(s: State, topic: nat, alloc: nat, payload: seq<byte>, msgType: i32, now: i64): State
    requires topic < |s.topics| && alloc < |s.blocks|
    requires |payload| <= POOL_SIZE && s.blocks[alloc].offset <= POOL_SIZE
  {
    var t := s.topics[topic];
    var f := Fields(msgType, now, |payload|, s.blocks[alloc].offset);
    s.(topics := s.topics[topic := Topic(Push(t.ring, f), t.log + [Msg(f, alloc, payload)])])
  }

  function SetSub(s: State, u: nat, v: Sub): State {
    s.(subs := s.subs[u := v])
  }

  function TopicOf(s: State, u: nat): Topic
    requires u in s.subs && s.subs[u].topic < |s.topics|
  {
    s.topics[s.subs[u].topic]
  }

  /** What a subscriber may rely on when it looks, and when it copies. */
  lemma Shaped(s: State, u: nat)
    requires Shape(s) && u in s.subs
    ensures SubShape(s.topics, s.subs[u]) && TopicShape(s.blocks, TopicOf(s, u))
    ensures s.subs[u].lastSeq < TopicOf(s, u).ring.seqNo ==> TopicOf(s, u).log != []
    ensures !s.subs[u].activity.Idle? ==>
              var m := TopicOf(s, u).log[s.subs[u].activity.msg];
              var h := s.subs[u].activity.header;
              MsgShape(s.blocks, m) && h.poolOffset == m.fields.poolOffset && h.dataSize == |m.payload|
                && h.poolOffset + h.dataSize <= s.blocks[m.alloc].End() <= POOL_SIZE
  {
    var v := s.subs[u];
    var t := s.topics[v.topic];
    assert t in s.topics;
    if v.lastSeq < t.ring.seqNo {
      LookFindsNewest(v, t);
    }
    if !v.activity.Idle? {
      assert t.log[v.activity.msg] in t.log;
    }
  }

  function Apply(s: State, e: Event): State
    requires Shape(s) && Enabled(s, e)
  {
    assert Cursor(Head(s.blocks)) by { ChainGrows(s.blocks, 0); }
    match e
    case BeginRaw(o, t, data, ty) =>
      var s' := Allocate(s, |data|);
      s'.(ops := s'.ops[o := Copying(t, |s.blocks|, data, 0, ty)])
    case CopyIn(o, n) =>
      var op := s.ops[o];
      var s' := WriteBlock(s, op.alloc, op.done, op.data[op.done..op.done + n]);
      s'.(ops := s'.ops[o := op.(done := op.done + n)])
    case FinishRaw(o, now) =>
      var op := s.ops[o];
      var s' := Append(s, op.topic, op.alloc, op.data, op.msgType, now);
      s'.(ops := s'.ops - {o})
    case Loan(o, size) =>
      var s' := Allocate(s, size);
      s'.(ops := s'.ops[o := Loaned(|s.blocks|, size)])
    case Fill(o, at, bytes) =>
      WriteBlock(s, s.ops[o].alloc, at, bytes)
    case FinishLoan(o, t, size, ty, now) =>
      var op := s.ops[o];
      var s' := Append(s, t, op.alloc, s.contents[op.alloc][..size], ty, now);
      s'.(ops := s'.ops - {o})
    case _ =>
      SetSub(s, e.sub, NextSub(s, e))
  }

  predicate IsSubscribers(e: Event) {
    e.Join? || e.LookRaw? || e.LookLoaned? || e.CopyOut? || e.FinishCopy? || e.Release?
  }

  /** What a subscriber's own step makes of it. */
  function NextSub(s: State, e: Event): Sub
    requires Shape(s) && Enabled(s, e) && IsSubscribers(e)
  {
    match e
    case Join(u, t) => Sub(t, s.topics[t].ring.seqNo, Idle, |s.topics[t].log|, [], [])
    case LookRaw(u, bufferSize) =>
      Shaped(s, u);
      LookedRaw(s.subs[u], TopicOf(s, u), bufferSize)
    case LookLoaned(u) =>
      Shaped(s, u);
      LookedLoaned(s.subs[u], TopicOf(s, u))
    case CopyOut(u, n) =>
      Shaped(s, u);
      CopiedOut(s.subs[u], s.mem, n)
    case FinishCopy(u) => Copied(s.subs[u])
    case Release(u) => s.subs[u].(activity := Idle)
  }

  lemma SubscriberSets(s: State, e: Event)
    requires Shape(s) && Enabled(s, e) && IsSubscribers(e)
    ensures Apply(s, e) == SetSub(s, e.sub, NextSub(s, e))
  {
  }

  /** No other step touches a subscriber. */
  lemma OthersLeaveSubs(s: State, e: Event)
    requires Shape(s) && Enabled(s, e) && !IsSubscribers(e)
    ensures Apply(s, e).subs == s.subs
  {
  }

  // ----- structure is kept by every step -----

  lemma MoreBlocks(s: State, b: Block)
    requires Shape(s)
    ensures forall o | o in s.ops :: OpShape(s.blocks + [b], |s.topics|, s.ops[o])
    ensures forall t | t in s.topics :: TopicShape(s.blocks + [b], t)
  {
    var blocks := s.blocks + [b];
    assert forall j :: 0 <= j < |s.blocks| ==> blocks[j] == s.blocks[j];
    forall t | t in s.topics
      ensures TopicShape(blocks, t)
    {
      assert TopicShape(s.blocks, t);
      assert forall m | m in t.log :: MsgShape(s.blocks, m);
    }
  }

  lemma AllocateKeepsShape(s: State, size: nat)
    requires Shape(s) && size <= POOL_SIZE && Cursor(Head(s.blocks))
    ensures Shape(Allocate(s, size))
  {
    var b := Place(Head(s.blocks), RoundUp8(size));
    ChainGrows(s.blocks, RoundUp8(size));
    assert (s.blocks + [b])[|s.blocks|] == b;
    assert BlocksShape(s.blocks + [b], s.contents + [At(s.mem, b)]);
    MoreBlocks(s, b);
  }

  lemma WriteKeepsShape(s: State, j: nat, at: nat, bytes: seq<byte>)
    requires Shape(s) && j < |s.blocks| && at + |bytes| <= s.blocks[j].size
    ensures s.blocks[j].End() <= |s.mem|
    ensures Shape(WriteBlock(s, j, at, bytes))
  {
  }

  lemma AppendKeepsTopic(blocks: seq<Block>, t: Topic, m: Msg)
    requires TopicShape(blocks, t) && MsgShape(blocks, m)
    ensures TopicShape(blocks, Topic(Push(t.ring, m.fields), t.log + [m]))
  {
    var fs := FieldsOf(t.log + [m]);
    assert fs[..|fs| - 1] == FieldsOf(t.log);
  }

  lemma LongerLogKeepsSub(topics: seq<Topic>, i: nat, t: Topic, v: Sub)
    requires i < |topics| && topics[i].log <= t.log && SubShape(topics, v)
    ensures SubShape(topics[i := t], v)
  {
    if v.topic == i && !v.activity.Idle? {
      var k := v.activity.msg;
      assert FieldsOf(t.log)[k] == FieldsOf(topics[i].log)[k];
    }
  }

  lemma AppendKeepsShape(s: State, topic: nat, alloc: nat, payload: seq<byte>, msgType: i32, now: i64)
    requires Shape(s) && topic < |s.topics| && alloc < |s.blocks|
    requires |payload| <= s.blocks[alloc].size
    ensures s.blocks[alloc].End() <= POOL_SIZE
    ensures Shape(Append(s, topic, alloc, payload, msgType, now))
  {
    var s' := Append(s, topic, alloc, payload, msgType, now);
    var t' := s'.topics[topic];
    AppendKeepsTopic(s.blocks, s.topics[topic], t'.log[|t'.log| - 1]);
    assert forall t | t in s'.topics :: t == t' || t in s.topics;
    forall u | u in s.subs
      ensures SubShape(s'.topics, s.subs[u])
    {
      LongerLogKeepsSub(s.topics, topic, t', s.subs[u]);
    }
  }

  /** Delivering message `m`, which is after everything delivered so far. */
  lemma DeliverKeepsOrder(joined: nat, seen: seq<nat>, lastSeq: u32, m: nat, n: nat)
    requires Ordered(joined, seen, lastSeq, n) && Next(joined, seen) <= m < n && lastSeq < Wrap32(m + 1)
    ensures Ordered(joined, seen + [m], Wrap32(m + 1), n)
  {
    hide Wrap32;
    forall i | 0 <= i < |seen|
      ensures seen[i] < m && Wrap32(seen[i] + 1) < Wrap32(m + 1)
    {
      var k := |seen| - 1;
      assert i < k ==> seen[i] < seen[k] && Wrap32(seen[i] + 1) < Wrap32(seen[k] + 1);
    }
  }

  lemma DeliverKeepsCollected(joined: nat, seen: seq<nat>, lastSeq: u32, m: nat, n: nat,
                              copies: seq<(nat, seq<byte>)>, bytes: seq<byte>)
    requires Ordered(joined, seen, lastSeq, n) && Next(joined, seen) <= m && Collected(seen, copies)
    ensures Collected(seen + [m], copies) && Collected(seen + [m], copies + [(m, bytes)])
  {
    hide Wrap32;
    assert forall i :: 0 <= i < |seen| ==> seen[i] <= seen[|seen| - 1] < m;
  }

  lemma LookedRawKeepsSub(topics: seq<Topic>, v: Sub, bufferSize: nat)
    requires SubShape(topics, v) && v.activity.Idle?
    requires var t := topics[v.topic]; t.ring == Replay(FieldsOf(t.log)) && v.lastSeq < t.ring.seqNo
    ensures topics[v.topic].log != []
    ensures SubShape(topics, LookedRaw(v, topics[v.topic], bufferSize))
  {
    LookFindsNewest(v, topics[v.topic]);
  }

  lemma LookedLoanedKeepsSub(topics: seq<Topic>, v: Sub)
    requires SubShape(topics, v) && v.activity.Idle?
    requires var t := topics[v.topic]; t.ring == Replay(FieldsOf(t.log)) && v.lastSeq < t.ring.seqNo
    ensures topics[v.topic].log != []
    ensures SubShape(topics, LookedLoaned(v, topics[v.topic]))
  {
    var t := topics[v.topic];
    LookFindsNewest(v, t);
    DeliverKeepsOrder(v.joined, v.seen, v.lastSeq, |t.log| - 1, |t.log|);
    DeliverKeepsCollected(v.joined, v.seen, v.lastSeq, |t.log| - 1, |t.log|, v.copies, []);
  }

  lemma CopiedKeepsSub(topics: seq<Topic>, v: Sub)
    requires SubShape(topics, v) && v.activity.CopyingOut?
    ensures SubShape(topics, Copied(v))
  {
    var a, n := v.activity, |topics[v.topic].log|;
    DeliverKeepsOrder(v.joined, v.seen, v.lastSeq, a.msg, n);
    DeliverKeepsCollected(v.joined, v.seen, v.lastSeq, a.msg, n, v.copies, a.buf);
    WrapToI32(Wrap32(v.activity.msg + 1));
  }

  lemma JoinMakesSub(topics: seq<Topic>, i: nat)
    requires i < |topics| && topics[i].ring == Replay(FieldsOf(topics[i].log))
    ensures SubShape(topics, Sub(i, topics[i].ring.seqNo, Idle, |topics[i].log|, [], []))
  {
    ReplayStep(FieldsOf(topics[i].log));
  }

  lemma SubscriberKeepsShape(s: State, e: Event)
    requires Shape(s) && Enabled(s, e) && IsSubscribers(e)
    ensures SubShape(s.topics, NextSub(s, e))
  {
    hide Ordered, BlocksShape, OpShape, MsgShape, Replay, Newest;
    match e
    case Join(u, t) =>
      assert TopicShape(s.blocks, s.topics[t]);
      JoinMakesSub(s.topics, t);
    case LookRaw(u, n) =>
      Shaped(s, u);
      LookedRawKeepsSub(s.topics, s.subs[u], n);
    case LookLoaned(u) =>
      Shaped(s, u);
      LookedLoanedKeepsSub(s.topics, s.subs[u]);
    case CopyOut(u, n) =>
      Shaped(s, u);
    case FinishCopy(u) =>
      Shaped(s, u);
      CopiedKeepsSub(s.topics, s.subs[u]);
    case Release(u) =>
      Shaped(s, u);
  }

  lemma FinishKeepsShape(s: State, e: Event)
    requires Shape(s) && Enabled(s, e) && (e.FinishRaw? || e.FinishLoan?)
    ensures Shape(Apply(s, e))
  {
    var op := s.ops[e.op];
    if e.FinishRaw? {
      AppendKeepsShape(s, op.topic, op.alloc, op.data, op.msgType, e.now);
    } else {
      AppendKeepsShape(s, e.topic, op.alloc, s.contents[op.alloc][..e.size], e.msgType, e.now);
    }
  }

  lemma BeginKeepsShape(s: State, e: Event)
    requires Shape(s) && Enabled(s, e) && (e.BeginRaw? || e.Loan?)
    ensures Shape(Apply(s, e))
  {
    ChainGrows(s.blocks, 0);
    AllocateKeepsShape(s, if e.BeginRaw? then |e.data| else e.size);
  }

  lemma FillKeepsShape(s: State, e: Event)
    requires Shape(s) && Enabled(s, e) && (e.CopyIn? || e.Fill?)
    ensures Shape(Apply(s, e))
  {
    var op := s.ops[e.op];
    if e.CopyIn? {
      WriteKeepsShape(s, op.alloc, op.done, op.data[op.done..op.done + e.count]);
    } else {
      WriteKeepsShape(s, op.alloc, e.at, e.bytes);
    }
  }

  lemma SetSubKeepsShape(s: State, u: nat, v: Sub)
    requires Shape(s) && SubShape(s.topics, v)
    ensures Shape(SetSub(s, u, v))
  {
    hide SubShape, TopicShape, OpShape, BlocksShape;
  }

  lemma StepKeepsShape(s: State, e: Event)
    requires Shape(s) && Enabled(s, e)
    ensures Shape(Apply(s, e))
  {
    hide Apply, Shape, Enabled;
    if e.BeginRaw? || e.Loan? {
      BeginKeepsShape(s, e);
    } else if e.CopyIn? || e.Fill? {
      FillKeepsShape(s, e);
    } else if e.FinishRaw? || e.FinishLoan? {
      FinishKeepsShape(s, e);
    } else {
      SubscriberSets(s, e);
      SubscriberKeepsShape(s, e);
      SetSubKeepsShape(s, e.sub, NextSub(s, e));
    }
  }

  // ----- the bytes, while blocks are used inside their survival window -----

  /** The step touches pool bytes only of a block that has not been given out again. */
  ghost predicate Timely(s: State, e: Event)
    requires Shape(s) && Enabled(s, e)
  {
    match e
    case CopyIn(o, _) => Live(s.blocks, s.ops[o].alloc)
    case Fill(o, _, _) => Live(s.blocks, s.ops[o].alloc)
    case CopyOut(u, _) => Live(s.blocks, MsgBlock(s, u))
    case _ => true
  }

  /** The allocation a subscriber is reading from. */
  function MsgBlock(s: State, u: nat): (j: nat)
    requires Shape(s) && u in s.subs && !s.subs[u].activity.Idle?
    ensures j < |s.blocks|
  {
    Shaped(s, u);
    TopicOf(s, u).log[s.subs[u].activity.msg].alloc
  }

  ghost predicate Data(s: State)
    requires Shape(s)
  {
    && Undisturbed(s.mem, s.blocks, s.contents)
    && Private(s.ops, s.topics)
    && (forall o | o in s.ops :: Written(s.contents, s.ops[o]))
    && (forall t | t in s.topics :: forall m | m in t.log :: Holds(s.contents, m))
    && (forall u | u in s.subs :: Faithful(s.topics, s.subs[u]))
  }

  /** A live block shows what its owner wrote. */
  ghost predicate Intact(mem: seq<byte>, blocks: seq<Block>, contents: seq<seq<byte>>, j: nat)
    requires |mem| == POOL_SIZE && BlocksShape(blocks, contents) && j < |blocks|
  {
    Live(blocks, j) ==> At(mem, blocks[j]) == contents[j]
  }

  ghost predicate Undisturbed(mem: seq<byte>, blocks: seq<Block>, contents: seq<seq<byte>>)
    requires |mem| == POOL_SIZE && BlocksShape(blocks, contents)
  {
    forall j: nat | j < |blocks| :: Intact(mem, blocks, contents, j)
  }

  /** A block not yet published belongs to one operation. */
  ghost predicate Private(ops: map<nat, Op>, topics: seq<Topic>) {
    && (forall o, p | o in ops && p in ops && o != p :: ops[o].alloc != ops[p].alloc)
    && (forall o | o in ops :: forall t | t in topics :: Unpublished(ops[o].alloc, t.log))
  }

  ghost predicate Unpublished(alloc: nat, log: seq<Msg>) {
    forall m | m in log :: m.alloc != alloc
  }

  ghost predicate Written(contents: seq<seq<byte>>, o: Op) {
    o.Copying? ==>
      && o.alloc < |contents| && o.done <= |o.data| && o.done <= |contents[o.alloc]|
      && contents[o.alloc][..o.done] == o.data[..o.done]
  }

  ghost predicate Holds(contents: seq<seq<byte>>, m: Msg) {
    m.alloc < |contents| && m.payload <= contents[m.alloc]
  }

  /** What a subscriber has read so far is what was published. */
  ghost predicate Faithful(topics: seq<Topic>, v: Sub) {
    && v.topic < |topics|
    && var log := topics[v.topic].log;
    && (v.activity.CopyingOut? ==> v.activity.msg < |log| && v.activity.buf <= log[v.activity.msg].payload)
    && (forall c | c in v.copies :: c.0 < |log| && c.1 == log[c.0].payload)
  }

  lemma OverwriteAt(mem: seq<byte>, at: nat, bytes: seq<byte>, b: Block)
    requires at + |bytes| <= |mem| && b.End() <= |mem|
    ensures at + |bytes| <= b.offset || b.End() <= at ==> At(Overwrite(mem, at, bytes), b) == At(mem, b)
    ensures b.offset <= at && at + |bytes| <= b.End() ==>
              At(Overwrite(mem, at, bytes), b) == Overwrite(At(mem, b), at - b.offset, bytes)
  {
    var after := Overwrite(mem, at, bytes);
    assert forall i :: 0 <= i < |mem| ==>
        after[i] == if at <= i < at + |bytes| then bytes[i - at] else mem[i];
  }

  /** Writing a live block disturbs no other live block. */
  lemma WriteKeepsUndisturbed(s: State, j: nat, at: nat, bytes: seq<byte>)
    requires Shape(s) && Undisturbed(s.mem, s.blocks, s.contents)
    requires j < |s.blocks| && Live(s.blocks, j)
    requires at + |bytes| <= s.blocks[j].size
    ensures s.blocks[j].End() <= |s.mem|
    ensures var s' := WriteBlock(s, j, at, bytes);
            BlocksShape(s'.blocks, s'.contents) && Undisturbed(s'.mem, s'.blocks, s'.contents)
  {
    var s' := WriteBlock(s, j, at, bytes);
    assert BlocksShape(s'.blocks, s'.contents);
    hide Chain;
    forall i: nat | i < |s.blocks|
      ensures Intact(s'.mem, s'.blocks, s'.contents, i)
    {
      if Live(s.blocks, i) {
        assert Intact(s.mem, s.blocks, s.contents, i);
        OverwriteAt(s.mem, s.blocks[j].offset + at, bytes, s.blocks[i]);
        if i < j {
          assert s.blocks[i].Disjoint(s.blocks[j]);
        } else if j < i {
          assert s.blocks[j].Disjoint(s.blocks[i]);
        }
      }
    }
  }

  lemma AllocateKeepsUndisturbed(s: State, size: nat)
    requires Shape(s) && Undisturbed(s.mem, s.blocks, s.contents)
    requires size <= POOL_SIZE && Cursor(Head(s.blocks))
    ensures var s' := Allocate(s, size);
            BlocksShape(s'.blocks, s'.contents) && Undisturbed(s'.mem, s'.blocks, s'.contents)
  {
    AllocateKeepsShape(s, size);
    var s' := Allocate(s, size);
    forall j: nat | j < |s'.blocks|
      ensures Intact(s'.mem, s'.blocks, s'.contents, j)
    {
      if j < |s.blocks| && Live(s'.blocks, j) {
        assert forall i :: j < i < |s.blocks| ==> s'.blocks[i] == s.blocks[i];
        assert Intact(s.mem, s.blocks, s.contents, j);
      }
    }
  }

  lemma MoreContentsKeepsOps(s: State, c: seq<byte>)
    requires Shape(s) && Data(s)
    ensures var contents := s.contents + [c];
            && (forall o | o in s.ops :: Written(contents, s.ops[o]))
            && (forall t | t in s.topics :: forall m | m in t.log :: Holds(contents, m))
  {
    var contents := s.contents + [c];
    assert forall j :: 0 <= j < |s.contents| ==> contents[j] == s.contents[j];
    forall o | o in s.ops
      ensures Written(contents, s.ops[o])
    {
      assert Written(s.contents, s.ops[o]);
    }
    forall t, m | t in s.topics && m in t.log
      ensures Holds(contents, m)
    {
      assert Holds(s.contents, m);
    }
  }

  /** A fresh allocation is nobody else's. */
  lemma FreshIsPrivate(s: State, o: nat, op: Op)
    requires Shape(s) && Private(s.ops, s.topics) && o !in s.ops && op.alloc == |s.blocks|
    ensures Private(s.ops[o := op], s.topics)
  {
    forall t | t in s.topics
      ensures Unpublished(op.alloc, t.log)
    {
      assert forall m | m in t.log :: MsgShape(s.blocks, m);
    }
    assert forall p | p in s.ops :: OpShape(s.blocks, |s.topics|, s.ops[p]);
  }

  lemma AllocateStepKeepsData(s: State, e: Event)
    requires Shape(s) && Data(s) && Enabled(s, e) && (e.BeginRaw? || e.Loan?)
    ensures Shape(Apply(s, e)) && Data(Apply(s, e))
  {
    StepKeepsShape(s, e);
    ChainGrows(s.blocks, 0);
    AllocateKeepsUndisturbed(s, if e.BeginRaw? then |e.data| else e.size);
    var s' := Apply(s, e);
    FreshIsPrivate(s, e.op, s'.ops[e.op]);
    MoreContentsKeepsOps(s, s'.contents[|s.contents|]);
    assert Written(s'.contents, s'.ops[e.op]);
  }

  lemma PrefixAfterWrite(old_: seq<byte>, done: nat, data: seq<byte>, n: nat)
    requires done + n <= |data| <= |old_| && old_[..done] == data[..done]
    ensures Overwrite(old_, done, data[done..done + n])[..done + n] == data[..done + n]
  {
    var r := Overwrite(old_, done, data[done..done + n]);
    forall i | 0 <= i < done + n
      ensures r[i] == data[i]
    {
      if i < done {
        assert old_[i] == old_[..done][i] == data[..done][i];
      }
    }
  }

  /** A write by the owner of a block concerns no published message and no other owner. */
  lemma OwnersWriteIsPrivate(s: State, o: nat, c: seq<byte>)
    requires Shape(s) && Data(s) && o in s.ops
    ensures var contents := s.contents[s.ops[o].alloc := c];
            && (forall t | t in s.topics :: forall m | m in t.log :: Holds(contents, m))
            && (forall p | p in s.ops && p != o :: Written(contents, s.ops[p]))
  {
    var contents := s.contents[s.ops[o].alloc := c];
    forall t, m | t in s.topics && m in t.log
      ensures Holds(contents, m)
    {
      assert Unpublished(s.ops[o].alloc, t.log) && Holds(s.contents, m);
    }
    forall p | p in s.ops && p != o
      ensures Written(contents, s.ops[p])
    {
      assert Written(s.contents, s.ops[p]);
    }
  }

  lemma CopyInKeepsUndisturbed(s: State, e: Event)
    requires Shape(s) && Data(s) && Enabled(s, e) && Timely(s, e) && e.CopyIn?
    ensures var s' := Apply(s, e);
            BlocksShape(s'.blocks, s'.contents) && Undisturbed(s'.mem, s'.blocks, s'.contents)
  {
    var op := s.ops[e.op];
    assert OpShape(s.blocks, |s.topics|, op);
    WriteKeepsUndisturbed(s, op.alloc, op.done, op.data[op.done..op.done + e.count]);
  }

  /** More of `data` is in place, and everything else is as it was. */
  lemma CopyInKeepsOps(s: State, e: Event)
    requires Shape(s) && Data(s) && Enabled(s, e) && e.CopyIn?
    ensures var s' := Apply(s, e);
            && (forall o | o in s'.ops :: Written(s'.contents, s'.ops[o]))
            && (forall t | t in s'.topics :: forall m | m in t.log :: Holds(s'.contents, m))
  {
    var op := s.ops[e.op];
    var c := Overwrite(s.contents[op.alloc], op.done, op.data[op.done..op.done + e.count]);
    assert Written(s.contents, op);
    PrefixAfterWrite(s.contents[op.alloc], op.done, op.data, e.count);
    OwnersWriteIsPrivate(s, e.op, c);
  }

  lemma CopyInKeepsData(s: State, e: Event)
    requires Shape(s) && Data(s) && Enabled(s, e) && Timely(s, e) && e.CopyIn?
    ensures Shape(Apply(s, e)) && Data(Apply(s, e))
  {
    StepKeepsShape(s, e);
    CopyInKeepsUndisturbed(s, e);
    CopyInKeepsOps(s, e);
    assert Private(Apply(s, e).ops, s.topics);
  }

  lemma FillKeepsData(s: State, e: Event)
    requires Shape(s) && Data(s) && Enabled(s, e) && Timely(s, e) && e.Fill?
    ensures Shape(Apply(s, e)) && Data(Apply(s, e))
  {
    StepKeepsShape(s, e);
    var op := s.ops[e.op];
    WriteKeepsUndisturbed(s, op.alloc, e.at, e.bytes);
    OwnersWriteIsPrivate(s, e.op, Overwrite(s.contents[op.alloc], e.at, e.bytes));
    assert Written(s.contents, op);
  }

  /** A published block stops belonging to the operation that published it. */
  lemma PublishKeepsPrivate(ops: map<nat, Op>, topics: seq<Topic>, o: nat, i: nat, ring: Ring, m: Msg)
    requires Private(ops, topics) && o in ops && i < |topics| && m.alloc == ops[o].alloc
    ensures Private(ops - {o}, topics[i := Topic(ring, topics[i].log + [m])])
  {
    var ops', topics' := ops - {o}, topics[i := Topic(ring, topics[i].log + [m])];
    forall p, t | p in ops' && t in topics'
      ensures Unpublished(ops'[p].alloc, t.log)
    {
      assert topics[i] in topics;
      assert Unpublished(ops[p].alloc, topics[i].log);
      assert t == topics'[i] || t in topics;
    }
  }

  lemma PublishKeepsHolds(contents: seq<seq<byte>>, topics: seq<Topic>, i: nat, ring: Ring, m: Msg)
    requires i < |topics| && Holds(contents, m)
    requires forall t | t in topics :: forall m | m in t.log :: Holds(contents, m)
    ensures forall t | t in topics[i := Topic(ring, topics[i].log + [m])] ::
              forall m | m in t.log :: Holds(contents, m)
  {
    var topics' := topics[i := Topic(ring, topics[i].log + [m])];
    forall t, k | t in topics' && k in t.log
      ensures Holds(contents, k)
    {
      assert topics[i] in topics;
      assert t == topics'[i] || t in topics;
    }
  }

  /** The message a publish appends carries what its operation wrote. */
  lemma PublishedIsHeld(contents: seq<seq<byte>>, op: Op, m: Msg)
    requires Written(contents, op) && m.alloc == op.alloc < |contents|
    requires match op
             case Copying(_, _, data, done, _) => m.payload == data && done == |data|
             case Loaned(alloc, size) =>
               |m.payload| <= |contents[alloc]| && m.payload == contents[alloc][..|m.payload|]
    ensures Holds(contents, m)
  {
    if op.Copying? {
      assert contents[op.alloc][..op.done] == m.payload;
    }
  }

  lemma LongerLogKeepsFaithful(topics: seq<Topic>, i: nat, ring: Ring, m: Msg, v: Sub)
    requires i < |topics| && Faithful(topics, v)
    ensures Faithful(topics[i := Topic(ring, topics[i].log + [m])], v)
  {
  }

  lemma FinishStepKeepsData(s: State, e: Event)
    requires Shape(s) && Data(s) && Enabled(s, e) && (e.FinishRaw? || e.FinishLoan?)
    ensures Shape(Apply(s, e)) && Data(Apply(s, e))
  {
    StepKeepsShape(s, e);
    var op := s.ops[e.op];
    var i := if e.FinishRaw? then op.topic else e.topic;
    var s' := Apply(s, e);
    var ring := s'.topics[i].ring;
    var m := s'.topics[i].log[|s.topics[i].log|];
    assert s'.topics == s.topics[i := Topic(ring, s.topics[i].log + [m])];
    assert Private(s'.ops, s'.topics) by {
      PublishKeepsPrivate(s.ops, s.topics, e.op, i, ring, m);
    }
    assert forall t | t in s'.topics :: forall k | k in t.log :: Holds(s.contents, k) by {
      assert Written(s.contents, op) && OpShape(s.blocks, |s.topics|, op);
      PublishedIsHeld(s.contents, op, m);
      PublishKeepsHolds(s.contents, s.topics, i, ring, m);
    }
    forall u | u in s.subs
      ensures Faithful(s'.topics, s.subs[u])
    {
      LongerLogKeepsFaithful(s.topics, i, ring, m, s.subs[u]);
    }
  }

  lemma SliceOfAt(mem: seq<byte>, b: Block, i: nat, j: nat)
    requires b.End() <= |mem| && i <= j <= b.size
    ensures mem[b.offset + i..b.offset + j] == At(mem, b)[i..j]
  {
    var at := At(mem, b);
    assert forall k :: 0 <= k < b.size ==> at[k] == mem[b.offset + k];
    forall k | 0 <= k < j - i
      ensures mem[b.offset + i..b.offset + j][k] == at[i..j][k]
    {
      assert at[i..j][k] == at[i + k];
    }
  }

  lemma SliceOfPrefix(a: seq<byte>, b: seq<byte>, i: nat, j: nat)
    requires a <= b && i <= j <= |a|
    ensures a[i..j] == b[i..j]
  {
  }

  /** Reading a live block gives the bytes of the message. */
  lemma ReadIsPayload(s: State, m: Msg, k: nat, n: nat)
    requires Shape(s) && Data(s) && MsgShape(s.blocks, m) && Holds(s.contents, m)
    requires Live(s.blocks, m.alloc) && k + n <= |m.payload|
    ensures m.fields.poolOffset + k + n <= |s.mem|
    ensures s.mem[m.fields.poolOffset + k..m.fields.poolOffset + k + n] == m.payload[k..k + n]
  {
    var b := s.blocks[m.alloc];
    assert Intact(s.mem, s.blocks, s.contents, m.alloc);
    SliceOfPrefix(m.payload, s.contents[m.alloc], k, k + n);
    SliceOfAt(s.mem, b, k, k + n);
  }

  lemma CopiedOutIsFaithful(topics: seq<Topic>, v: Sub, mem: seq<byte>, n: nat)
    requires Faithful(topics, v) && v.activity.CopyingOut?
    requires v.activity.header.poolOffset + |v.activity.buf| + n <= |mem|
    requires var payload, k := topics[v.topic].log[v.activity.msg].payload, |v.activity.buf|;
             var from := v.activity.header.poolOffset + k;
             k + n <= |payload| && mem[from..from + n] == payload[k..k + n]
    ensures Faithful(topics, CopiedOut(v, mem, n))
  {
    var payload, k := topics[v.topic].log[v.activity.msg].payload, |v.activity.buf|;
    assert v.activity.buf + payload[k..k + n] <= payload;
  }

  lemma LookedIsFaithful(topics: seq<Topic>, v: Sub, bufferSize: nat)
    requires Faithful(topics, v) && topics[v.topic].log != []
    ensures Faithful(topics, LookedRaw(v, topics[v.topic], bufferSize))
    ensures Faithful(topics, LookedLoaned(v, topics[v.topic]))
  {
  }

  lemma CopiedIsFaithful(topics: seq<Topic>, v: Sub)
    requires Faithful(topics, v) && v.activity.CopyingOut?
    requires |v.activity.buf| == |topics[v.topic].log[v.activity.msg].payload|
    ensures Faithful(topics, Copied(v))
  {
  }

  lemma CopyStaysFaithful(s: State, u: nat, n: nat)
    requires Shape(s) && Data(s) && Enabled(s, CopyOut(u, n)) && Timely(s, CopyOut(u, n))
    ensures Faithful(s.topics, NextSub(s, CopyOut(u, n)))
  {
    var v := s.subs[u];
    Shaped(s, u);
    var m := TopicOf(s, u).log[v.activity.msg];
    assert Faithful(s.topics, v) && Holds(s.contents, m);
    ReadIsPayload(s, m, |v.activity.buf|, n);
    hide Shape, Data, Faithful, Holds, SubShape, TopicShape, MsgShape, Live;
    CopiedOutIsFaithful(s.topics, v, s.mem, n);
  }

  lemma SubscriberStaysFaithful(s: State, e: Event)
    requires Shape(s) && Data(s) && Enabled(s, e) && Timely(s, e) && IsSubscribers(e)
    ensures Faithful(s.topics, NextSub(s, e))
  {
    hide Undisturbed, Private, Written, Holds, BlocksShape, OpShape, MsgShape, Ordered, Replay, Live;
    match e
    case Join(u, t) =>
    case CopyOut(u, n) => CopyStaysFaithful(s, u, n);
    case FinishCopy(u) =>
      Shaped(s, u);
      CopiedIsFaithful(s.topics, s.subs[u]);
    case LookRaw(u, n) =>
      Shaped(s, u);
      LookedIsFaithful(s.topics, s.subs[u], n);
    case LookLoaned(u) =>
      Shaped(s, u);
      LookedIsFaithful(s.topics, s.subs[u], 0);
    case Release(u) =>
      assert Faithful(s.topics, s.subs[u]);
  }

  lemma SetSubKeepsData(s: State, u: nat, v: Sub)
    requires Shape(s) && Data(s) && SubShape(s.topics, v) && Faithful(s.topics, v)
    ensures Shape(SetSub(s, u, v)) && Data(SetSub(s, u, v))
  {
    hide SubShape, Faithful, TopicShape, OpShape, BlocksShape, Undisturbed, Private, Written, Holds;
    assert forall w | w in SetSub(s, u, v).subs :: w == u || w in s.subs;
  }

  lemma SubscriberStepKeepsData(s: State, e: Event)
    requires Shape(s) && Data(s) && Enabled(s, e) && Timely(s, e) && IsSubscribers(e)
    ensures Shape(Apply(s, e)) && Data(Apply(s, e))
  {
    hide Apply, Shape, Data, Enabled;
    SubscriberSets(s, e);
    SubscriberKeepsShape(s, e);
    SubscriberStaysFaithful(s, e);
    SetSubKeepsData(s, e.sub, NextSub(s, e));
  }

  lemma StepKeepsData(s: State, e: Event)
    requires Shape(s) && Data(s) && Enabled(s, e) && Timely(s, e)
    ensures Shape(Apply(s, e)) && Data(Apply(s, e))
  {
    if e.BeginRaw? || e.Loan? {
      AllocateStepKeepsData(s, e);
    } else if e.CopyIn? {
      CopyInKeepsData(s, e);
    } else if e.Fill? {
      FillKeepsData(s, e);
    } else if e.FinishRaw? || e.FinishLoan? {
      FinishStepKeepsData(s, e);
    } else {
      SubscriberStepKeepsData(s, e);
    }
  }

  // ----- runs -----

  ghost predicate Steps(s: State, e: Event, s': State) {
    Shape(s) && Enabled(s, e) && s' == Apply(s, e)
  }

  /** `states` is what the events in `es` produce from a freshly created pool and topics. */
  ghost predicate Run(states: seq<State>, es: seq<Event>) {
    && |states| == |es| + 1
    && Start(states[0])
    && forall i :: 0 <= i < |es| ==> Steps(states[i], es[i], states[i + 1])
  }

  lemma RunSteps(states: seq<State>, es: seq<Event>)
    requires Run(states, es)
    ensures |states| == |es| + 1 && forall i :: 0 <= i < |es| ==> Steps(states[i], es[i], states[i + 1])
  {
  }

  ghost predicate TimelySteps(s: State, e: Event, s': State) {
    Steps(s, e, s') && Timely(s, e)
  }

  /** A run in which every pool access is to a live block. */
  ghost predicate TimelyRun(states: seq<State>, es: seq<Event>) {
    Run(states, es) && forall i :: 0 <= i < |es| ==> TimelySteps(states[i], es[i], states[i + 1])
  }

  lemma StartIsGood(s: State)
    requires Start(s)
    ensures Shape(s) && Data(s)
  {
    assert FieldsOf([]) == [];
  }

  lemma {:induction false} RunKeepsShape(states: seq<State>, es: seq<Event>, i: nat)
    requires Run(states, es) && i < |states|
    ensures Shape(states[i])
  {
    if i == 0 {
      StartIsGood(states[0]);
    } else {
      assert Steps(states[i - 1], es[i - 1], states[i]);
      StepKeepsShape(states[i - 1], es[i - 1]);
    }
  }

  lemma {:induction false} RunKeepsData(states: seq<State>, es: seq<Event>, i: nat)
    requires TimelyRun(states, es) && i < |states|
    ensures Shape(states[i]) && Data(states[i])
  {
    if i == 0 {
      StartIsGood(states[0]);
    } else {
      RunKeepsData(states, es, i - 1);
      assert TimelySteps(states[i - 1], es[i - 1], states[i]);
      StepKeepsData(states[i - 1], es[i - 1]);
    }
  }

  /** End-to-end integrity. Whatever the interleaving, while every block is written
      and read before it is given out again, the bytes `receiveRaw` returned, and the
      bytes a held pointer shows, are those its publisher put there. */
  lemma PayloadIntegrity(states: seq<State>, es: seq<Event>, i: nat, u: nat)
    requires TimelyRun(states, es) && i < |states| && u in states[i].subs
    ensures Shape(states[i])
    ensures var v, t := states[i].subs[u], TopicOf(states[i], u);
            && (forall c | c in v.copies :: c.0 < |t.log| && c.1 == t.log[c.0].payload)
            && (v.activity.Viewing? && Live(states[i].blocks, MsgBlock(states[i], u)) ==>
                  var h := v.activity.header;
                  h.poolOffset + h.dataSize <= POOL_SIZE
                  && states[i].mem[h.poolOffset..h.poolOffset + h.dataSize] == t.log[v.activity.msg].payload)
  {
    RunKeepsData(states, es, i);
    var s := states[i];
    Shaped(s, u);
    assert Faithful(s.topics, s.subs[u]);
    if s.subs[u].activity.Viewing? && Live(s.blocks, MsgBlock(s, u)) {
      var m := TopicOf(s, u).log[s.subs[u].activity.msg];
      var b := s.blocks[m.alloc];
      assert Holds(s.contents, m) && Intact(s.mem, s.blocks, s.contents, m.alloc);
      SliceOfAt(s.mem, b, 0, |m.payload|);
    }
  }

  /** Every pool access is to a block whose survival budget is not spent. */
  ghost predicate WithinBudget(s: State, e: Event)
    requires Shape(s) && Enabled(s, e)
  {
    match e
    case CopyIn(o, _) => Budgeted(s.blocks, s.ops[o].alloc)
    case Fill(o, _, _) => Budgeted(s.blocks, s.ops[o].alloc)
    case CopyOut(u, _) => Budgeted(s.blocks, MsgBlock(s, u))
    case _ => true
  }

  ghost predicate Budgeted(blocks: seq<Block>, j: nat) {
    j < |blocks| && InBudget(blocks[j].size, SizesOf(blocks[j + 1..]))
  }

  lemma BudgetIsTimely(s: State, e: Event)
    requires Shape(s) && Enabled(s, e) && WithinBudget(s, e)
    ensures Timely(s, e)
  {
    hide Shape;
    match e
    case CopyIn(o, _) =>
      ShapedOp(s, o);
      BudgetedIsLive(s, s.ops[o].alloc);
    case Fill(o, _, _) =>
      ShapedOp(s, o);
      BudgetedIsLive(s, s.ops[o].alloc);
    case CopyOut(u, _) =>
      Shaped(s, u);
      BudgetedIsLive(s, MsgBlock(s, u));
    case _ =>
  }

  lemma ShapedOp(s: State, o: nat)
    requires Shape(s) && o in s.ops
    ensures OpShape(s.blocks, |s.topics|, s.ops[o])
  {
  }

  lemma BudgetedIsLive(s: State, j: nat)
    requires Shape(s) && Budgeted(s.blocks, j) && s.blocks[j].size > 0
    ensures Live(s.blocks, j)
  {
    hide Live, InBudget, SizesOf;
    BudgetMeansLive(s.blocks, j);
  }

  ghost predicate BudgetSteps(s: State, e: Event, s': State) {
    Steps(s, e, s') && WithinBudget(s, e)
  }

  /** Integrity from arithmetic alone: it is enough that at every access the sizes
      allocated since, plus the largest of them, leave the block its budget. */
  lemma BudgetIntegrity(states: seq<State>, es: seq<Event>, i: nat, u: nat, c: (nat, seq<byte>))
    requires Run(states, es)
    requires forall k :: 0 <= k < |es| ==> BudgetSteps(states[k], es[k], states[k + 1])
    requires i < |states| && u in states[i].subs && c in states[i].subs[u].copies
    ensures Shape(states[i]) && c.0 < |TopicOf(states[i], u).log|
    ensures c.1 == TopicOf(states[i], u).log[c.0].payload
  {
    forall k | 0 <= k < |es|
      ensures TimelySteps(states[k], es[k], states[k + 1])
    {
      assert BudgetSteps(states[k], es[k], states[k + 1]);
      BudgetIsTimely(states[k], es[k]);
    }
    PayloadIntegrity(states, es, i, u);
  }

  /** In every run, timely or not, and across any number of wraps of the counters, a
      subscriber's deliveries strictly increase, as log positions and as the 32-bit
      numbers it sees, and none of them was published before it joined. So do the
      messages `receiveRaw` returned, which are among them: none is returned twice. */
  lemma DeliveryOrder(states: seq<State>, es: seq<Event>, i: nat, u: nat)
    requires Run(states, es) && i < |states| && u in states[i].subs
    ensures var v := states[i].subs[u];
            && (forall a, b :: 0 <= a < b < |v.seen| ==>
                  v.seen[a] < v.seen[b] && Wrap32(v.seen[a] + 1) < Wrap32(v.seen[b] + 1))
            && v.topic < |states[i].topics|
            && (forall a :: 0 <= a < |v.seen| ==> v.joined <= v.seen[a] < |states[i].topics[v.topic].log|)
            && (forall a :: 0 <= a < |v.copies| ==> v.copies[a].0 in v.seen)
            && (forall a, b :: 0 <= a < b < |v.copies| ==> v.copies[a].0 < v.copies[b].0)
  {
    RunKeepsShape(states, es, i);
    assert SubShape(states[i].topics, states[i].subs[u]);
  }

  /** So a subscriber gets at most 2^32 - 1 messages in all, and fewer the higher the
      topic's number stood when it joined. */
  lemma DeliveriesAreFew(states: seq<State>, es: seq<Event>, i: nat, u: nat)
    requires Run(states, es) && i < |states| && u in states[i].subs
    ensures var v := states[i].subs[u]; |v.copies| <= |v.seen| <= 0xFFFF_FFFF - Wrap32(v.joined)
  {
    RunKeepsShape(states, es, i);
    assert SubShape(states[i].topics, states[i].subs[u]);
  }

  /** A subscriber may look exactly while the number of publishes, in 32 bits, is above its
      cursor: after a wrap it is shut out until the number has passed the cursor again. */
  lemma ShutOutUntilPassed(states: seq<State>, es: seq<Event>, i: nat, u: nat)
    requires Run(states, es) && i < |states| && u in states[i].subs
    ensures Shape(states[i])
    ensures CanLook(states[i], u) <==>
              states[i].subs[u].activity.Idle? && states[i].subs[u].lastSeq < Wrap32(|TopicOf(states[i], u).log|)
  {
    RunKeepsShape(states, es, i);
    Shaped(states[i], u);
    ReplayStep(FieldsOf(TopicOf(states[i], u).log));
  }

  /** The subscriber has received what `v` has, and its cursor is at the highest number
      there is. */
  ghost predicate IsDeaf(s: State, u: nat, v: Sub) {
    && u in s.subs && s.subs[u].lastSeq == 0xFFFF_FFFF
    && s.subs[u].seen == v.seen && s.subs[u].copies == v.copies
  }

  lemma StaysDeaf(s: State, e: Event, s': State, u: nat, v: Sub)
    requires Steps(s, e, s') && IsDeaf(s, u, v)
    ensures IsDeaf(s', u, v)
  {
    assert SubShape(s.topics, s.subs[u]);
    assert !s.subs[u].activity.CopyingOut? && !CanLook(s, u);
    hide Apply, Shape;
    if IsSubscribers(e) {
      SubscriberSets(s, e);
    } else {
      OthersLeaveSubs(s, e);
    }
  }

  /** One that has received number 2^32 - 1 never receives anything again. */
  lemma {:induction false} DeafAfterLastNumber(states: seq<State>, es: seq<Event>, i: nat, j: nat, u: nat, v: Sub)
    requires Run(states, es) && i <= j < |states| && IsDeaf(states[i], u, v)
    ensures IsDeaf(states[j], u, v) && !CanLook(states[j], u)
    decreases j
  {
    hide *;
    RunSteps(states, es);
    if i < j {
      DeafAfterLastNumber(states, es, i, j - 1, u, v);
      StaysDeaf(states[j - 1], es[j - 1], states[j], u, v);
    }
    DeafCannotLook(states[j], u, v);
  }

  lemma DeafCannotLook(s: State, u: nat, v: Sub)
    requires IsDeaf(s, u, v)
    ensures !CanLook(s, u)
  {
  }

  /** What either receive call takes while it holds the lock is the newest message,
      which the subscriber has not had before. */
  lemma LookTakesNewest(s: State, e: Event)
    requires Shape(s) && Enabled(s, e) && (e.LookRaw? || e.LookLoaned?)
    ensures var v, t, a := s.subs[e.sub], TopicOf(s, e.sub), Apply(s, e).subs[e.sub].activity;
            && t.log != []
            && (forall m | m in v.seen :: m < |t.log| - 1)
            && v.joined <= |t.log| - 1
            && (!a.Idle? ==> a.msg == |t.log| - 1 && a.header == HeaderOf(FieldsOf(t.log), a.msg))
            && (a.Idle? <==> e.LookRaw? && HEADER_SIZE + |t.log[|t.log| - 1].payload| > e.bufferSize)
            && (a.Idle? ==> Apply(s, e) == s)
            && (a.Viewing? <==> e.LookLoaned?)
  {
    var v, t := s.subs[e.sub], TopicOf(s, e.sub);
    hide Shape, Apply, Ordered, Collected, ActivityShape, Replay, Newest, LookedRaw, LookedLoaned;
    Shaped(s, e.sub);
    ShapedLast(s, e.sub);
    LookFindsNewest(v, t);
    NothingSeenYet(v, t);
    SubscriberSets(s, e);
    LookedTakes(v, t, if e.LookRaw? then e.bufferSize else 0);
    assert SetSub(s, e.sub, v) == s;
  }

  lemma LookedTakes(v: Sub, t: Topic, bufferSize: nat)
    requires v.activity.Idle? && t.log != [] && Newest(t.ring) == HeaderOf(FieldsOf(t.log), |t.log| - 1)
    requires t.log[|t.log| - 1].fields.dataSize == |t.log[|t.log| - 1].payload|
    ensures var n := |t.log| - 1;
            var h := HeaderOf(FieldsOf(t.log), n);
            && LookedLoaned(v, t).activity == Viewing(n, h)
            && LookedRaw(v, t, bufferSize) ==
                 if HEADER_SIZE + |t.log[n].payload| > bufferSize then v else v.(activity := CopyingOut(n, h, []))
  {
    hide Newest;
  }

  lemma ShapedLast(s: State, u: nat)
    requires Shape(s) && u in s.subs && s.subs[u].topic < |s.topics|
    ensures var log := TopicOf(s, u).log; log != [] ==> MsgShape(s.blocks, log[|log| - 1])
  {
    assert TopicShape(s.blocks, TopicOf(s, u));
  }

  lemma NothingSeenYet(v: Sub, t: Topic)
    requires t.log != [] && Ordered(v.joined, v.seen, v.lastSeq, |t.log|) && Next(v.joined, v.seen) <= |t.log| - 1
    ensures v.joined <= |t.log| - 1 && forall m | m in v.seen :: m < |t.log| - 1
  {
    hide Wrap32;
    assert v.seen != [] ==> forall i :: 0 <= i < |v.seen| ==> v.seen[i] <= v.seen[|v.seen| - 1];
  }

  /** The end of a receive: the bytes copied are returned, as many as were published, and
      the cursor moves to the number of their message, which was not delivered before. */
  lemma CopyReturns(s: State, u: nat)
    requires Shape(s) && Enabled(s, FinishCopy(u))
    ensures var v, w, a := s.subs[u], Apply(s, FinishCopy(u)).subs[u], s.subs[u].activity;
            && w.copies == v.copies + [(a.msg, a.buf)] && w.seen == v.seen + [a.msg] && a.msg !in v.seen
            && a.msg < |TopicOf(s, u).log| && |a.buf| == |TopicOf(s, u).log[a.msg].payload|
            && w.lastSeq == Wrap32(a.msg + 1) && w.activity == Idle
  {
    hide Shape, Apply, Replay;
    Shaped(s, u);
    SubscriberSets(s, FinishCopy(u));
    CopiedIsNew(s.subs[u], TopicOf(s, u).log);
  }

  lemma CopiedIsNew(v: Sub, log: seq<Msg>)
    requires v.activity.CopyingOut? && ActivityShape(v, log) && Ordered(v.joined, v.seen, v.lastSeq, |log|)
    ensures var m := v.activity.msg;
            m < |log| && m !in v.seen && Wrap32(v.activity.header.seqNo) == Wrap32(m + 1)
  {
    WrapToI32(Wrap32(v.activity.msg + 1));
    hide Wrap32, ToI32;
    assert v.seen != [] ==> forall i :: 0 <= i < |v.seen| ==> v.seen[i] <= v.seen[|v.seen| - 1];
  }

  /** `receiveLoaned` delivers when it looks, and until it lets go of the pointer the
      subscriber does nothing else. */
  lemma LoanReturns(s: State, u: nat)
    requires Shape(s) && Enabled(s, LookLoaned(u))
    ensures TopicOf(s, u).log != []
    ensures var v, w, n := s.subs[u], Apply(s, LookLoaned(u)).subs[u], |TopicOf(s, u).log| - 1;
            && w == v.(activity := w.activity, lastSeq := Wrap32(n + 1), seen := v.seen + [n]) && n !in v.seen
            && w.activity == Viewing(n, HeaderOf(FieldsOf(TopicOf(s, u).log), n))
    ensures var s' := Apply(s, LookLoaned(u));
            && Shape(s') && Enabled(s', Release(u)) && !CanLook(s', u)
            && Apply(s', Release(u)) == SetSub(s', u, s'.subs[u].(activity := Idle))
            && !CanLook(Apply(s', Release(u)), u)
  {
    hide Shape, Apply, Replay, Newest;
    Shaped(s, u);
    LookTakesNewest(s, LookLoaned(u));
    SubscriberSets(s, LookLoaned(u));
    StepKeepsShape(s, LookLoaned(u));
    SubscriberSets(Apply(s, LookLoaned(u)), Release(u));
    LookFindsNewest(s.subs[u], TopicOf(s, u));
    ReplayStep(FieldsOf(TopicOf(s, u).log));
  }

  /** A subscriber that has just joined has nothing to look at: only what is published from
      then on is for it. */
  lemma JoinStartsFresh(s: State, u: nat, topic: nat)
    requires Shape(s) && Enabled(s, Join(u, topic))
    ensures var s' := Apply(s, Join(u, topic));
            && s'.subs[u].topic == topic && s'.subs[u].joined == |s.topics[topic].log|
            && s'.subs[u].seen == [] && s'.subs[u].copies == [] && s'.subs[u].activity.Idle? && !CanLook(s', u)
  {
    SubscriberSets(s, Join(u, topic));
  }

  /** A receive nobody interferes with, from the look to the return: the newest message's pool
      bytes are returned, and there is nothing to look at afterwards. */
  lemma ReceiveInOneGo(v: Sub, t: Topic, mem: seq<byte>, bufferSize: nat) returns (looked: Sub, copied: Sub, w: Sub)
    requires t.ring == Replay(FieldsOf(t.log)) && Ordered(v.joined, v.seen, v.lastSeq, |t.log|)
    requires v.activity.Idle? && v.lastSeq < t.ring.seqNo
    requires Newest(t.ring).poolOffset + Newest(t.ring).dataSize <= |mem|
    requires HEADER_SIZE + Newest(t.ring).dataSize <= bufferSize
    ensures t.log != [] && looked == LookedRaw(v, t, bufferSize) && looked.activity.CopyingOut?
    ensures looked.activity.buf == [] && looked.activity.header.dataSize == t.log[|t.log| - 1].fields.dataSize
    ensures copied == CopiedOut(looked, mem, looked.activity.header.dataSize) && copied.activity.CopyingOut?
    ensures w == Copied(copied) && w.activity == Idle && w.lastSeq == t.ring.seqNo
    ensures var n := |t.log| - 1;
            var f := t.log[n].fields;
            && f.poolOffset + f.dataSize <= |mem|
            && w.copies == v.copies + [(n, mem[f.poolOffset..f.poolOffset + f.dataSize])]
  {
    LookFindsNewest(v, t);
    ReplayStep(FieldsOf(t.log));
    hide Replay, Newest, Ordered;
    looked := LookedRaw(v, t, bufferSize);
    copied := CopiedOut(looked, mem, looked.activity.header.dataSize);
    w := Copied(copied);
    var f := t.log[|t.log| - 1].fields;
    assert [] + mem[f.poolOffset..f.poolOffset + f.dataSize] == mem[f.poolOffset..f.poolOffset + f.dataSize];
  }

  /** How a subscriber can have moved since it was `v`, if nothing was published. */
  ghost predicate Settling(v: Sub, t: Topic, w: Sub) {
    && w.topic == v.topic
    && (|| (w.seen == v.seen && w.lastSeq == v.lastSeq && w.copies == v.copies
            && (w.activity.Idle? || (w.activity.CopyingOut? && w.activity.msg == |t.log| - 1)))
        || (t.log != [] && w.seen == v.seen + [|t.log| - 1] && w.lastSeq == t.ring.seqNo
            && !w.activity.CopyingOut? && OneCopyMore(v.copies, w.copies, |t.log| - 1)))
  }

  /** No copy came since, or one of message `m`. */
  predicate OneCopyMore(before: seq<(nat, seq<byte>)>, after: seq<(nat, seq<byte>)>, m: nat) {
    after == before || (|after| == |before| + 1 && before <= after && after[|before|].0 == m)
  }

  lemma SettlingLook(v: Sub, t: Topic, w: Sub, bufferSize: nat)
    requires t.ring == Replay(FieldsOf(t.log)) && w.lastSeq < t.ring.seqNo
    requires Ordered(w.joined, w.seen, w.lastSeq, |t.log|)
    requires Settling(v, t, w)
    ensures t.log != []
    ensures Settling(v, t, LookedRaw(w, t, bufferSize))
    ensures Settling(v, t, LookedLoaned(w, t))
  {
    LookFindsNewest(w, t);
    ReplayStep(FieldsOf(t.log));
  }

  lemma SettlingCopied(v: Sub, t: Topic, w: Sub)
    requires t.ring == Replay(FieldsOf(t.log)) && w.activity.CopyingOut? && ActivityShape(w, t.log)
    requires Settling(v, t, w)
    ensures Settling(v, t, Copied(w))
  {
    ReplayStep(FieldsOf(t.log));
    WrapToI32(Wrap32(w.activity.msg + 1));
  }

  lemma SettlingSub(s: State, e: Event, v: Sub)
    requires Shape(s) && Enabled(s, e) && IsSubscribers(e) && !e.Join? && v.topic < |s.topics|
    requires Settling(v, s.topics[v.topic], s.subs[e.sub])
    ensures Settling(v, s.topics[v.topic], NextSub(s, e))
  {
    var w, t := s.subs[e.sub], s.topics[v.topic];
    Shaped(s, e.sub);
    hide Ordered, BlocksShape, OpShape, MsgShape, Replay, Newest;
    match e
    case LookRaw(_, bufferSize) => SettlingLook(v, t, w, bufferSize);
    case LookLoaned(_) => SettlingLook(v, t, w, 0);
    case FinishCopy(_) => SettlingCopied(v, t, w);
    case _ =>
  }

  /** The topic's log, and so its ring, is still `t`. */
  ghost predicate Quiet(s: State, topic: nat, t: Topic) {
    topic < |s.topics| && s.topics[topic] == t
  }

  lemma SettlingStep(s: State, e: Event, s': State, u: nat, v: Sub, t: Topic)
    requires Steps(s, e, s') && Quiet(s, v.topic, t)
    requires u in s.subs && Settling(v, t, s.subs[u])
    ensures u in s'.subs && Settling(v, t, s'.subs[u])
  {
    hide Apply, Shape, Settling;
    if IsSubscribers(e) {
      SubscriberSets(s, e);
      if e.sub == u {
        SettlingSub(s, e, v);
      }
    } else {
      OthersLeaveSubs(s, e);
    }
  }

  lemma {:induction false} SettlesBy(states: seq<State>, es: seq<Event>, i: nat, j: nat, u: nat, v: Sub, t: Topic)
    requires Run(states, es) && i <= j < |states|
    requires u in states[i].subs && states[i].subs[u] == v && v.activity.Idle?
    requires forall k :: i <= k <= j ==> Quiet(states[k], v.topic, t)
    ensures u in states[j].subs && Settling(v, t, states[j].subs[u])
    decreases j
  {
    hide *;
    RunSteps(states, es);
    if i < j {
      SettlesBy(states, es, i, j - 1, u, v, t);
      assert Quiet(states[j - 1], v.topic, t);
      SettlingStep(states[j - 1], es[j - 1], states[j], u, v, t);
    } else {
      SettlingSelf(v, t);
    }
  }

  lemma SettlingSelf(v: Sub, t: Topic)
    requires v.activity.Idle?
    ensures Settling(v, t, v)
  {
  }

  /** Once publishing stops, an idle subscriber gets at most one more message, it is
      the last one, and then its guard is closed. */
  lemma AtMostOneMore(states: seq<State>, es: seq<Event>, i: nat, j: nat, u: nat, t: Topic)
    requires Run(states, es) && i <= j < |states|
    requires u in states[i].subs && states[i].subs[u].activity.Idle?
    requires forall k :: i <= k <= j ==> Quiet(states[k], states[i].subs[u].topic, t)
    ensures u in states[j].subs
    ensures var seen, seen' := states[i].subs[u].seen, states[j].subs[u].seen;
            && (seen' == seen || (t.log != [] && seen' == seen + [|t.log| - 1]))
            && (seen' != seen ==> !CanLook(states[j], u))
    ensures var copies, copies' := states[i].subs[u].copies, states[j].subs[u].copies;
            && copies <= copies' && |copies'| <= |copies| + 1
            && (copies' != copies ==> t.log != [] && copies'[|copies|].0 == |t.log| - 1 && !CanLook(states[j], u))
  {
    SettlesBy(states, es, i, j, u, states[i].subs[u], t);
    assert Quiet(states[j], states[i].subs[u].topic, t);
  }
}
