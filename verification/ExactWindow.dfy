/** The survival window seen from the subscriber: what it guards against does happen. */
module ExactWindow {
  import opened Words
  import opened PoolLayout
  import opened TopicRing
  import opened PubSub

  /** The step is timely, unless it reads block `j`. */
  ghost predicate StepsBut(s: State, e: Event, s': State, j: nat) {
    Steps(s, e, s') && (Timely(s, e) || (e.CopyOut? && MsgBlock(s, e.sub) == j))
  }

  /** A stretch of such steps, from any state. */
  ghost predicate Path(states: seq<State>, es: seq<Event>, j: nat) {
    |states| == |es| + 1 && forall i :: 0 <= i < |es| ==> StepsBut(states[i], es[i], states[i + 1], j)
  }

  /** A run in which all is timely but the reading of block `j`. */
  ghost predicate RunBut(states: seq<State>, es: seq<Event>, j: nat) {
    Path(states, es, j) && Start(states[0])
  }

  /** Some copy of a message in block `j` is not what its publisher wrote. */
  ghost predicate WrongCopy(s: State, j: nat) {
    Shape(s) && exists u :: u in s.subs && WronglyCopied(s, u, j)
  }

  ghost predicate WronglyCopied(s: State, u: nat, j: nat)
    requires Shape(s) && u in s.subs
  {
    var v, log := s.subs[u], s.topics[s.subs[u].topic].log;
    exists c :: c in v.copies && c.0 < |log| && log[c.0].alloc == j && c.1 != log[c.0].payload
  }

  /** A run in which block `j`, of `size` bytes and followed by allocations of the given
      sizes, is handed to a subscriber with other bytes than its publisher's. */
  ghost predicate Torn(states: seq<State>, es: seq<Event>, j: nat, size: nat, sizes: seq<nat>) {
    && RunBut(states, es, j)
    && Occurs(states[|es|].blocks, j, size, sizes)
    && WrongCopy(states[|es|], j)
  }

  // ----- within the budget: never -----

  lemma StepGrowsBlocks(s: State, e: Event, s': State)
    requires Steps(s, e, s')
    ensures s.blocks <= s'.blocks
  {
  }

  lemma {:induction false} BlocksGrow(states: seq<State>, es: seq<Event>, j: nat, k: nat)
    requires Path(states, es, j) && k <= |es|
    ensures states[k].blocks <= states[|es|].blocks
    decreases |es| - k
  {
    if k < |es| {
      BlocksGrow(states, es, j, k + 1);
      assert StepsBut(states[k], es[k], states[k + 1], j);
      StepGrowsBlocks(states[k], es[k], states[k + 1]);
    }
  }

  lemma LiveBefore(before: seq<Block>, after: seq<Block>, j: nat)
    requires before <= after && j < |before| && Live(after, j)
    ensures Live(before, j)
  {
    assert forall i :: 0 <= i < |before| ==> before[i] == after[i];
  }

  lemma InBudgetIsNeverTorn(states: seq<State>, es: seq<Event>, j: nat, size: nat, sizes: seq<nat>)
    requires size > 0 && InBudget(size, sizes)
    ensures !Torn(states, es, j, size, sizes)
  {
    if Torn(states, es, j, size, sizes) {
      var n := |es|;
      BudgetMeansLive(states[n].blocks, j);
      forall k | 0 <= k < n
        ensures TimelySteps(states[k], es[k], states[k + 1])
      {
        assert StepsBut(states[k], es[k], states[k + 1], j);
        if !Timely(states[k], es[k]) {
          BlocksGrow(states, es, j, k);
          LiveBefore(states[k].blocks, states[n].blocks, j);
        }
      }
      var u :| u in states[n].subs && WronglyCopied(states[n], u, j);
      PayloadIntegrity(states, es, n, u);
    }
  }

  // ----- outside the budget: in some run -----

  /** `t` is reached from `s` by such steps. */
  ghost predicate Reaches(s: State, t: State, j: nat) {
    exists states, es :: Path(states, es, j) && states[0] == s && states[|es|] == t
  }

  lemma ReachesSelf(s: State, j: nat)
    ensures Reaches(s, s, j)
  {
    assert Path([s], [], j);
  }

  lemma ReachesNext(s: State, t: State, e: Event, t': State, j: nat)
    requires Reaches(s, t, j) && StepsBut(t, e, t', j)
    ensures Reaches(s, t', j)
  {
    hide StepsBut;
    var states, es :| Path(states, es, j) && states[0] == s && states[|es|] == t;
    var states', es' := states + [t'], es + [e];
    forall i | 0 <= i < |es'|
      ensures StepsBut(states'[i], es'[i], states'[i + 1], j)
    {
      assert i < |es| ==> StepsBut(states[i], es[i], states[i + 1], j);
    }
    assert Path(states', es', j);
  }

  /** The state of a run under construction: everything so far is reached from `s`, and
      the operations under way are loans of earlier blocks. */
  ghost predicate OnTheWay(s: State, t: State, target: seq<Block>, n: nat, j: nat) {
    && Reaches(s, t, j) && Shape(t) && n <= |target| && t.blocks == target[..n]
    && forall o :: o in t.ops ==> o < n
  }

  lemma NextBlock(target: seq<Block>, n: nat)
    requires Chain(target) && n < |target|
    ensures target[n].size <= POOL_SIZE && Cursor(Head(target[..n]))
    ensures target[..n + 1] == target[..n] + [Place(Head(target[..n]), RoundUp8(target[n].size))]
  {
    assert Placed(target, n);
    ChainPrefix(target, n);
    ChainGrows(target[..n], 0);
  }

  lemma ChainPrefix(target: seq<Block>, n: nat)
    requires Chain(target) && n <= |target|
    ensures Chain(target[..n])
  {
    forall i: nat | i < n ensures Placed(target[..n], i) {
      assert target[..n][..i] == target[..i];
      assert Placed(target, i);
    }
  }

  lemma LoanSets(t: State, o: nat, size: nat)
    requires Shape(t) && Enabled(t, Loan(o, size)) && Cursor(Head(t.blocks))
    ensures Apply(t, Loan(o, size)) == Allocate(t, size).(ops := t.ops[o := Loaned(|t.blocks|, size)])
  {
  }

  /** One more loan takes the next block of the history. */
  lemma LoanNext(s: State, t: State, target: seq<Block>, n: nat, j: nat) returns (t': State)
    requires Chain(target) && n < |target| && OnTheWay(s, t, target, n, j)
    ensures OnTheWay(s, t', target, n + 1, j)
    ensures t'.mem == t.mem && t'.topics == t.topics && t'.subs == t.subs
    ensures t'.ops == t.ops[n := Loaned(n, target[n].size)]
  {
    var e := Loan(n, target[n].size);
    NextBlock(target, n);
    hide Apply, Reaches, Chain;
    LoanSets(t, n, target[n].size);
    t' := Apply(t, e);
    StepKeepsShape(t, e);
    assert StepsBut(t, e, t', j);
    ReachesNext(s, t, e, t', j);
  }

  lemma {:induction false} LoanUpTo(s: State, t: State, target: seq<Block>, n: nat, m: nat, j: nat) returns (t': State)
    requires Chain(target) && n <= m <= |target| && OnTheWay(s, t, target, n, j)
    ensures OnTheWay(s, t', target, m, j)
    ensures t'.mem == t.mem && t'.topics == t.topics && t'.subs == t.subs
    ensures forall o :: o in t.ops ==> o in t'.ops && t'.ops[o] == t.ops[o]
    ensures n < m ==> m - 1 in t'.ops && t'.ops[m - 1] == Loaned(m - 1, target[m - 1].size)
    decreases m - n
  {
    if n == m {
      t' := t;
    } else {
      var next := LoanNext(s, t, target, n, j);
      t' := LoanUpTo(s, next, target, n + 1, m, j);
    }
  }

  /** The first block to touch block `j` shares a byte with it. */
  lemma SharedByte(blocks: seq<Block>, j: nat) returns (i: nat, p: nat)
    requires Chain(blocks) && j < |blocks| && blocks[j].size > 0 && !Live(blocks, j)
    ensures j < i < |blocks|
    ensures blocks[j].offset <= p < blocks[j].End() && blocks[i].offset <= p < blocks[i].End()
  {
    i := j + 1;
    while i < |blocks| && blocks[j].Disjoint(blocks[i])
      invariant j < i <= |blocks| && forall k :: j < k < i ==> blocks[j].Disjoint(blocks[k])
    {
      i := i + 1;
    }
    assert i < |blocks|;
    assert Placed(blocks, i) && blocks[..i][i - 1] == blocks[i - 1];
    p := if blocks[i].offset > blocks[j].offset then blocks[i].offset else blocks[j].offset;
  }

  function Empty(): State {
    State(seq(POOL_SIZE, _ => 0), [], [], [Topic(EMPTY, [])], map[], map[])
  }

  /** Subscriber 0 is about to copy a message that lies in block `j` and fills it. */
  ghost predicate AboutToCopy(topics: seq<Topic>, subs: map<nat, Sub>, target: seq<Block>, j: nat)
    requires j < |target|
  {
    && |topics| == 1 && 0 in subs
    && var v, log := subs[0], topics[0].log;
    && v.topic == 0 && v.copies == [] && |log| == 1 && log[0].alloc == j && |log[0].payload| == target[j].size
    && v.activity.CopyingOut? && v.activity.msg == 0 && v.activity.buf == []
    && v.activity.header.poolOffset == target[j].offset && v.activity.header.dataSize == target[j].size
  }

  lemma TakeStep(s: State, t: State, e: Event, target: seq<Block>, n: nat, j: nat) returns (t': State)
    requires OnTheWay(s, t, target, n, j) && Enabled(t, e)
    requires Timely(t, e) || (e.CopyOut? && MsgBlock(t, e.sub) == j)
    requires !e.Loan? && !e.BeginRaw?
    ensures t' == Apply(t, e) && OnTheWay(s, t', target, n, j)
  {
    t' := Apply(t, e);
    StepKeepsShape(t, e);
    assert StepsBut(t, e, t', j);
    ReachesNext(s, t, e, t', j);
  }

  lemma FinishLoanSets(t: State, o: nat, topic: nat, size: nat)
    requires Shape(t) && Enabled(t, FinishLoan(o, topic, size, 0, 0))
    ensures OpShape(t.blocks, |t.topics|, t.ops[o]) && size <= POOL_SIZE && t.blocks[t.ops[o].alloc].offset <= POOL_SIZE
    ensures Apply(t, FinishLoan(o, topic, size, 0, 0)) ==
              Append(t, topic, t.ops[o].alloc, t.contents[t.ops[o].alloc][..size], 0, 0).(ops := t.ops - {o})
  {
  }

  lemma FillSets(t: State, o: nat, at: nat, bytes: seq<byte>)
    requires Shape(t) && Enabled(t, Fill(o, at, bytes))
    ensures OpShape(t.blocks, |t.topics|, t.ops[o]) && BlocksShape(t.blocks, t.contents)
    ensures Apply(t, Fill(o, at, bytes)) == WriteBlock(t, t.ops[o].alloc, at, bytes)
  {
  }

  /** Loan up to block `j`, with a subscriber waiting ... */
  lemma LoanBlock(target: seq<Block>, j: nat) returns (t: State)
    requires Chain(target) && j < |target|
    ensures OnTheWay(Empty(), t, target, j + 1, j)
    ensures t.topics == [Topic(EMPTY, [])] && t.subs == map[0 := Sub(0, 0, Idle, 0, [], [])]
    ensures j in t.ops && t.ops[j] == Loaned(j, target[j].size)
  {
    hide Apply, Reaches;
    var s := Empty();
    StartIsGood(s);
    ReachesSelf(s, j);
    hide Shape, Chain, Live;
    t := LoanUpTo(s, s, target, 0, j + 1, j);
    SubscriberSets(t, Join(0, 0));
    t := TakeStep(s, t, Join(0, 0), target, j + 1, j);
  }

  /** ... and publish it. */
  lemma PublishBlock(target: seq<Block>, j: nat) returns (t: State)
    requires Chain(target) && j < |target| && target[j].size > 0
    ensures OnTheWay(Empty(), t, target, j + 1, j)
    ensures |t.topics| == 1 && 0 in t.subs && t.subs[0] == Sub(0, 0, Idle, 0, [], [])
    ensures |t.topics[0].log| == 1 && t.topics[0].log[0].alloc == j
    ensures |t.topics[0].log[0].payload| == target[j].size
  {
    hide Apply, Reaches, Chain, Live;
    t := LoanBlock(target, j);
    FinishLoanSets(t, j, 0, target[j].size);
    hide Shape;
    t := TakeStep(Empty(), t, FinishLoan(j, 0, target[j].size, 0, 0), target, j + 1, j);
  }

  lemma FirstMessage(v: Sub, t: Topic, blocks: seq<Block>)
    requires TopicShape(blocks, t) && |t.log| == 1 && v == Sub(0, 0, Idle, 0, [], [])
    ensures v.lastSeq < t.ring.seqNo && t.log[0].alloc < |blocks|
    ensures Newest(t.ring).poolOffset == blocks[t.log[0].alloc].offset
    ensures Newest(t.ring).dataSize == |t.log[0].payload|
  {
    ReplayStep(FieldsOf(t.log));
    LookFindsNewest(v, t);
    assert MsgShape(blocks, t.log[0]);
  }

  /** The subscriber finds the message. */
  lemma LookAtBlock(s: State, t: State, target: seq<Block>, j: nat) returns (t': State)
    requires Chain(target) && j < |target| && OnTheWay(s, t, target, j + 1, j)
    requires |t.topics| == 1 && 0 in t.subs && t.subs[0] == Sub(0, 0, Idle, 0, [], [])
    requires |t.topics[0].log| == 1 && t.topics[0].log[0].alloc == j
    requires |t.topics[0].log[0].payload| == target[j].size
    ensures OnTheWay(s, t', target, j + 1, j) && AboutToCopy(t'.topics, t'.subs, target, j) && t'.topics == t.topics
  {
    hide Apply, Chain, Reaches, Replay, Newest, Ordered, MsgShape;
    var size := target[j].size;
    Shaped(t, 0);
    FirstMessage(t.subs[0], t.topics[0], t.blocks);
    SubscriberSets(t, LookRaw(0, HEADER_SIZE + size));
    t' := TakeStep(s, t, LookRaw(0, HEADER_SIZE + size), target, j + 1, j);
  }

  /** Loan up to block `i`, put a byte into it, and go on to the end of the history. */
  lemma OverwriteByte(s: State, t: State, target: seq<Block>, j: nat, i: nat, p: nat, x: byte) returns (t': State)
    requires Chain(target) && j < i < |target|
    requires OnTheWay(s, t, target, j + 1, j) && AboutToCopy(t.topics, t.subs, target, j)
    requires target[i].offset <= p < target[i].End()
    ensures OnTheWay(s, t', target, |target|, j) && AboutToCopy(t'.topics, t'.subs, target, j)
    ensures t'.topics == t.topics && |t'.mem| == POOL_SIZE && p < POOL_SIZE && t'.mem[p] == x
  {
    hide Apply, Reaches, AboutToCopy;
    t' := LoanUpTo(s, t, target, j + 1, i + 1, j);
    var at := p - target[i].offset;
    FillSets(t', i, at, [x]);
    assert Live(t'.blocks, i);
    t' := TakeStep(s, t', Fill(i, at, [x]), target, i + 1, j);
    t' := LoanUpTo(s, t', target, i + 1, |target|, j);
  }

  lemma CopiesItAll(v: Sub, mem: seq<byte>, b: Block)
    requires v.activity.CopyingOut? && v.activity.buf == [] && v.activity.header.poolOffset == b.offset
    requires b.End() <= |mem|
    ensures CopiedOut(v, mem, b.size) == v.(activity := v.activity.(buf := At(mem, b)))
  {
    assert [] + At(mem, b) == At(mem, b);
  }

  /** The subscriber copies the block as it is now ... */
  lemma CopyBytes(s: State, t: State, target: seq<Block>, j: nat) returns (t': State)
    requires Chain(target) && j < |target| && target[j].size > 0
    requires OnTheWay(s, t, target, |target|, j) && AboutToCopy(t.topics, t.subs, target, j)
    ensures OnTheWay(s, t', target, |target|, j) && t'.topics == t.topics && 0 in t'.subs
    ensures t'.subs[0] == t.subs[0].(activity := t.subs[0].activity.(buf := At(t.mem, target[j])))
  {
    assert target[j].InPool();
    hide Apply, Chain, Live, Reaches;
    CopiesItAll(t.subs[0], t.mem, target[j]);
    SubscriberSets(t, CopyOut(0, target[j].size));
    t' := TakeStep(s, t, CopyOut(0, target[j].size), target, |target|, j);
  }

  /** ... and keeps the copy. */
  lemma KeepCopy(s: State, t: State, target: seq<Block>, j: nat, copy: seq<byte>) returns (t': State)
    requires OnTheWay(s, t, target, |target|, j) && 0 in t.subs
    requires t.subs[0].activity.CopyingOut? && t.subs[0].activity.msg == 0 && t.subs[0].activity.buf == copy
    requires |copy| == t.subs[0].activity.header.dataSize
    ensures OnTheWay(s, t', target, |target|, j) && t'.topics == t.topics
    ensures 0 in t'.subs && t'.subs[0].topic == t.subs[0].topic && (0, copy) in t'.subs[0].copies
  {
    hide Apply, Chain, Live, Reaches;
    SubscriberSets(t, FinishCopy(0));
    t' := TakeStep(s, t, FinishCopy(0), target, |target|, j);
  }

  lemma DifferentByte(mem: seq<byte>, b: Block, p: nat, payload: seq<byte>)
    requires b.offset <= p < b.End() <= |mem| && |payload| == b.size
    requires mem[p] != payload[p - b.offset]
    ensures At(mem, b) != payload
  {
    assert At(mem, b)[p - b.offset] == mem[p];
  }

  lemma CopyIsWrong(v: State, log: seq<Msg>, copy: seq<byte>, j: nat)
    requires Shape(v) && |v.topics| == 1 && v.topics[0].log == log && |log| == 1 && log[0].alloc == j
    requires 0 in v.subs && v.subs[0].topic == 0 && (0, copy) in v.subs[0].copies && copy != log[0].payload
    ensures WrongCopy(v, j)
  {
    assert WronglyCopied(v, 0, j);
  }

  lemma BlockInPool(target: seq<Block>, j: nat)
    requires Chain(target) && j < |target|
    ensures target[j].End() == target[j].offset + target[j].size <= POOL_SIZE
  {
    assert target[j].InPool();
  }

  /** A history in which block `j` is given out again too early: publish, look, reuse and
      overwrite ... */
  lemma OverwrittenBlock(target: seq<Block>, j: nat) returns (t: State)
    requires Chain(target) && j < |target| && target[j].size > 0 && !Live(target, j)
    ensures OnTheWay(Empty(), t, target, |target|, j) && AboutToCopy(t.topics, t.subs, target, j)
    ensures target[j].End() <= |t.mem| && At(t.mem, target[j]) != t.topics[0].log[0].payload
  {
    hide *;
    var s := Empty();
    var i, p := SharedByte(target, j);
    BlockInPool(target, j);
    t := PublishBlock(target, j);
    t := LookAtBlock(s, t, target, j);
    var payload := t.topics[0].log[0].payload;
    t := OverwriteByte(s, t, target, j, i, p, if payload[p - target[j].offset] == 0 then 1 else 0);
    DifferentByte(t.mem, target[j], p, payload);
  }

  /** ... and copy. */
  lemma TearingRun(target: seq<Block>, j: nat) returns (v: State)
    requires Chain(target) && j < |target| && target[j].size > 0 && !Live(target, j)
    ensures Reaches(Empty(), v, j) && v.blocks == target && WrongCopy(v, j)
  {
    hide Apply, Reaches;
    assert target[..|target|] == target;
    var t := OverwrittenBlock(target, j);
    hide Chain, Live;
    var log, copy := t.topics[0].log, At(t.mem, target[j]);
    v := CopyBytes(Empty(), t, target, j);
    v := KeepCopy(Empty(), v, target, j, copy);
    CopyIsWrong(v, log, copy, j);
  }

  lemma EarlyReuseTears(target: seq<Block>, j: nat, size: nat, sizes: seq<nat>)
    requires Occurs(target, j, size, sizes) && size > 0 && !Live(target, j)
    ensures exists states, es :: Torn(states, es, j, size, sizes)
  {
    var v := TearingRun(target, j);
    var states, es :| Path(states, es, j) && states[0] == Empty() && states[|es|] == v;
    assert Torn(states, es, j, size, sizes);
  }

  /** End-to-end, the window is exact: with every other access in time, a message whose
      block is followed by allocations of these sizes reaches every reader intact in
      every run if and only if the sizes are within its budget. */
  lemma IntactExactlyInBudget(size: nat, sizes: seq<nat>)
    requires 0 < size <= POOL_SIZE && size % 8 == 0 && Sizes(sizes)
    ensures InBudget(size, sizes) <==> forall states, es, j :: !Torn(states, es, j, size, sizes)
  {
    if InBudget(size, sizes) {
      forall states, es, j
        ensures !Torn(states, es, j, size, sizes)
      {
        InBudgetIsNeverTorn(states, es, j, size, sizes);
      }
    } else {
      var target, j := LostInHistory(size, sizes);
      EarlyReuseTears(target, j, size, sizes);
    }
  }
}
