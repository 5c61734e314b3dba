/** What a publish adds to its topic, from its first step to its last, whatever happens
    in between. */
module Publishing {
  import opened Words
  import opened PoolLayout
  import opened TopicRing
  import opened PubSub

  /** Only the last step of a publish touches a topic. */
  lemma OnlyPublishingAppends(s: State, e: Event)
    requires Shape(s) && Enabled(s, e) && !e.FinishRaw? && !e.FinishLoan?
    ensures Apply(s, e).topics == s.topics
  {
  }

  /** The event ends operation `o`. */
  predicate Ends(e: Event, o: nat) {
    (e.FinishRaw? || e.FinishLoan?) && e.op == o
  }

  /** The state of `o` as begun by this event, with `alloc` allocations before it. */
  ghost predicate Underway(s: State, begun: Event, alloc: nat)
    requires begun.BeginRaw? || begun.Loan?
  {
    && begun.op in s.ops && alloc < |s.blocks|
    && var op := s.ops[begun.op];
    match begun
    case BeginRaw(_, topic, data, msgType) =>
      && op.Copying? && op.topic == topic && op.alloc == alloc && op.data == data && op.msgType == msgType
      && s.blocks[alloc].size == RoundUp8(|data|)
    case Loan(_, size) => op == Loaned(alloc, size) && s.blocks[alloc].size == RoundUp8(size)
  }

  lemma StaysUnderway(s: State, e: Event, s': State, begun: Event, alloc: nat)
    requires Steps(s, e, s') && (begun.BeginRaw? || begun.Loan?)
    requires Underway(s, begun, alloc) && !Ends(e, begun.op)
    ensures Underway(s', begun, alloc)
  {
    assert s.blocks <= s'.blocks;
    hide Shape;
  }

  /** Operation `o` is not ended by the events from `k` on and before `i`. */
  predicate NotEnded(es: seq<Event>, o: nat, k: nat, i: nat)
    requires i <= |es|
  {
    forall m :: k <= m < i ==> !Ends(es[m], o)
  }

  lemma {:induction false} UnderwayUntil(states: seq<State>, es: seq<Event>, k: nat, i: nat)
    requires Run(states, es) && k < i <= |es| && (es[k].BeginRaw? || es[k].Loan?) && NotEnded(es, es[k].op, k, i)
    ensures Underway(states[i], es[k], |states[k].blocks|)
  {
    assert Steps(states[i - 1], es[i - 1], states[i]);
    hide Steps, Underway;
    if i == k + 1 {
      StepBegins(states[k], es[k], states[i]);
    } else {
      UnderwayUntil(states, es, k, i - 1);
      StaysUnderway(states[i - 1], es[i - 1], states[i], es[k], |states[k].blocks|);
    }
  }

  lemma StepBegins(s: State, e: Event, s': State)
    requires Steps(s, e, s') && (e.BeginRaw? || e.Loan?)
    ensures Underway(s', e, |s.blocks|)
  {
  }

  lemma FinishAppends(s: State, e: Event, begun: Event, alloc: nat)
    requires Shape(s) && Enabled(s, e) && (begun.BeginRaw? || begun.Loan?) && Ends(e, begun.op)
    requires Underway(s, begun, alloc)
    ensures e.FinishRaw? <==> begun.BeginRaw?
    ensures alloc < |s.contents|
    ensures begun.BeginRaw? ==> begun.topic < |s.topics| && |begun.data| <= POOL_SIZE
    ensures begun.Loan? ==> e.topic < |s.topics| && e.size <= begun.size && e.size <= |s.contents[alloc]|
    ensures s.blocks[alloc].offset <= POOL_SIZE
    ensures var s' := Apply(s, e);
            var topic := if begun.BeginRaw? then begun.topic else e.topic;
            var payload := if begun.BeginRaw? then begun.data else s.contents[alloc][..e.size];
            var msgType := if begun.BeginRaw? then begun.msgType else e.msgType;
            var f := Fields(msgType, e.now, |payload|, s.blocks[alloc].offset);
            && |s'.topics| == |s.topics| && e.op !in s'.ops
            && (forall t :: 0 <= t < |s.topics| && t != topic ==> s'.topics[t] == s.topics[t])
            && s'.topics[topic].log == s.topics[topic].log + [Msg(f, alloc, payload)]
  {
  }

  /** A raw publish puts one message on its topic when it ends: of its type and with its
      bytes, in the block of its own size that it allocated when it began; on other topics,
      and until then, it changes nothing. */
  lemma RawPublishAppends(states: seq<State>, es: seq<Event>, k: nat, i: nat)
    requires Run(states, es) && k < i < |es| && es[k].BeginRaw?
    requires NotEnded(es, es[k].op, k, i) && Ends(es[i], es[k].op)
    ensures var b, alloc, s, s' := es[k], |states[k].blocks|, states[i], states[i + 1];
            && es[i].FinishRaw? && alloc < |s.blocks| && s.blocks[alloc].size == RoundUp8(|b.data|)
            && b.topic < |s.topics| == |s'.topics| && |b.data| <= POOL_SIZE && s.blocks[alloc].offset <= POOL_SIZE
            && var f := Fields(b.msgType, es[i].now, |b.data|, s.blocks[alloc].offset);
            && s'.topics[b.topic].log == s.topics[b.topic].log + [Msg(f, alloc, b.data)]
            && (forall t :: 0 <= t < |s.topics| && t != b.topic ==> s'.topics[t] == s.topics[t])
  {
    UnderwayUntil(states, es, k, i);
    assert Steps(states[i], es[i], states[i + 1]);
    hide Apply, Shape, Run;
    FinishAppends(states[i], es[i], es[k], |states[k].blocks|);
  }

  /** A loan puts one message on the topic it is published on: the first bytes, as many as
      the publisher says, of what was written to the block. */
  lemma LoanPublishAppends(states: seq<State>, es: seq<Event>, k: nat, i: nat)
    requires Run(states, es) && k < i < |es| && es[k].Loan?
    requires NotEnded(es, es[k].op, k, i) && Ends(es[i], es[k].op)
    ensures var e, alloc, s, s' := es[i], |states[k].blocks|, states[i], states[i + 1];
            && e.FinishLoan? && alloc < |s.blocks| && s.blocks[alloc].size == RoundUp8(es[k].size)
            && e.topic < |s.topics| == |s'.topics| && alloc < |s.contents| && e.size <= |s.contents[alloc]|
            && e.size <= POOL_SIZE && s.blocks[alloc].offset <= POOL_SIZE
            && var f := Fields(e.msgType, e.now, e.size, s.blocks[alloc].offset);
            && s'.topics[e.topic].log == s.topics[e.topic].log + [Msg(f, alloc, s.contents[alloc][..e.size])]
            && (forall t :: 0 <= t < |s.topics| && t != e.topic ==> s'.topics[t] == s.topics[t])
  {
    UnderwayUntil(states, es, k, i);
    assert Steps(states[i], es[i], states[i + 1]);
    hide Apply, Shape, Run;
    FinishAppends(states[i], es[i], es[k], |states[k].blocks|);
  }

  /** What a publisher writes to its loan is there. */
  lemma FillWrites(s: State, o: nat, at: nat, bytes: seq<byte>)
    requires Shape(s) && Enabled(s, Fill(o, at, bytes))
    ensures var j, s' := s.ops[o].alloc, Apply(s, Fill(o, at, bytes));
            && j < |s.blocks| == |s'.contents| == |s.contents| && s'.blocks == s.blocks
            && |s'.contents[j]| == |s.contents[j]| == s.blocks[j].size
            && s.blocks[j].End() <= |s'.mem| == |s.mem| && at + |bytes| <= s.blocks[j].size
            && (forall i :: 0 <= i < s.blocks[j].size ==>
                  s'.contents[j][i] == if at <= i < at + |bytes| then bytes[i - at] else s.contents[j][i])
            && (forall i :: 0 <= i < |bytes| ==> s'.mem[s.blocks[j].offset + at + i] == bytes[i])
  {
  }
}
