/** A topic whose publishers may die anywhere inside their critical section.

    The lock is robust: the next locker is told that the owner died, declares the
    mutex consistent and goes on with whatever the dead process left. Lockers that
    wake from a condition wait do not repair the mutex and are not modelled. */
module CrashRing {
  import opened Words
  import opened Sequences
  import opened TopicRing

  /** `base` is the slot's header when the publisher entered. */
  datatype Lock =
    | Free
    | Publishing(f: Fields, stored: nat, base: Header)
    | OwnerDied

  /** All but the cursor is history: how many publishes were complete when the reader
      joined, how many at each of its receives, and the header each of them took. */
  datatype Reader = Reader(lastSeq: u32, joined: nat, taken: seq<nat>, got: seq<Header>)

  /** `done`, `lost` and `attempts` are history: the headers of the publishes that got
      past their last store, how many died between the first and the last store since
      then, and how many made the first store. */
  datatype State = State(ring: Ring, lock: Lock, readers: map<nat, Reader>,
                         done: seq<Header>, lost: nat, attempts: nat)

  datatype Event =
    | Enter(f: Fields)
    | StoreNext
    | Leave
    | Die
    | ReaderDies
    | Join(reader: nat)
    | Receive(reader: nat)

  predicate Enabled(s: State, e: Event) {
    match e
    case Enter(_) => !s.lock.Publishing?
    case StoreNext => s.lock.Publishing? && s.lock.stored < STORES
    case Leave => s.lock.Publishing? && s.lock.stored == STORES
    case Die => s.lock.Publishing?
    case ReaderDies => !s.lock.Publishing?
    case Join(u) => !s.lock.Publishing? && u !in s.readers
    case Receive(u) => !s.lock.Publishing? && u in s.readers && s.readers[u].lastSeq < s.ring.seqNo
  }

  function Apply(s: State, e: Event): State
    requires Enabled(s, e)
  {
    match e
    case Enter(f) => s.(lock := Publishing(f, 0, s.ring.slots[s.ring.writeIndex % 20]))
    case StoreNext =>
      var l := s.lock;
      var s' := s.(ring := Store(s.ring, l.stored, l.f), lock := l.(stored := l.stored + 1));
      if l.stored == 0 then s'.(attempts := s.attempts + 1)
      else if l.stored == STORES - 1 then s'.(done := s.done + [Stamped(l.f, s.ring.seqNo)], lost := 0)
      else s'
    case Leave => s.(lock := Free)
    case Die => s.(lock := OwnerDied, lost := s.lost + InFlight(s.lock))
    case ReaderDies => s.(lock := OwnerDied)
    case Join(u) => s.(lock := Free, readers := s.readers[u := Reader(s.ring.seqNo, |s.done|, [], [])])
    case Receive(u) => s.(lock := Free, readers := s.readers[u := Took(s.readers[u], Newest(s.ring), |s.done|)])
  }

  /** A reader copies a header and sets its cursor to the number in it. */
  function Took(v: Reader, h: Header, n: nat): Reader {
    v.(lastSeq := SeqOf(h), taken := v.taken + [n], got := v.got + [h])
  }

  /** One if a publish has taken a sequence number it has not delivered yet. */
  function InFlight(l: Lock): nat {
    if l.Publishing? && 0 < l.stored < STORES then 1 else 0
  }

  function Fresh(): State {
    State(EMPTY, Free, map[], [], 0, 0)
  }

  predicate Start(s: State) {
    s == Fresh()
  }

  /** The header of the `n`-th complete publish, or the zeros of a new topic. */
  function HeaderAt(done: seq<Header>, n: nat): Header
    requires n <= |done|
  {
    if n == 0 then ZERO_HEADER else done[n - 1]
  }

  function LastDone(done: seq<Header>): Header {
    HeaderAt(done, |done|)
  }

  function SeqOf(h: Header): u32 {
    Wrap32(h.seqNo)
  }

  // ----- whole headers, in every run -----

  ghost predicate Whole(s: State) {
    && s.ring.seqNo == Wrap32(s.attempts) && s.ring.writeIndex == Wrap32(|s.done|)
    && Newest(s.ring) == LastDone(s.done)
    && (s.done == [] ==> forall i :: 1 <= i < 20 ==> s.ring.slots[i] == ZERO_HEADER)
    && LockInv(s.ring, s.lock)
    && (s.lock.Publishing? && s.lock.stored == STORES ==> SeqOf(LastDone(s.done)) == s.ring.seqNo)
    && forall u | u in s.readers :: WholeReader(s.readers[u], s.done)
  }

  /** The slot under construction holds exactly the stores made so far. */
  ghost predicate LockInv(r: Ring, l: Lock) {
    l.Publishing? ==>
      && l.stored <= STORES
      && (l.stored < STORES ==> r.slots[r.writeIndex % 20] == Partial(l.base, l.stored, l.f, r.seqNo))
  }

  /** Each receive took the header that was complete last at the time. */
  ghost predicate WholeReader(v: Reader, done: seq<Header>) {
    && v.joined <= |done| && |v.taken| == |v.got|
    && (forall i :: 0 <= i < |v.taken| ==> v.joined <= v.taken[i] <= |done| && v.got[i] == HeaderAt(done, v.taken[i]))
    && (forall i, j :: 0 <= i < j < |v.taken| ==> v.taken[i] <= v.taken[j])
    && (v.got != [] ==> v.lastSeq == SeqOf(v.got[|v.got| - 1]))
  }

  /** The slot a reader reads is never the one a publisher writes. */
  lemma NewestIsNotNext(w: u32)
    ensures Wrap32(w - 1) % 20 != w % 20 && Wrap32(Wrap32(w + 1) - 1) == w
    ensures w == 0 ==> Wrap32(w - 1) % 20 == 15
  {
  }

  /** The first store only takes a number; the next five stay in a slot no reader reads. */
  lemma EarlyStoreKeepsWhole(s: State)
    requires Whole(s) && Enabled(s, StoreNext) && s.lock.stored < STORES - 1
    ensures Whole(Apply(s, StoreNext))
  {
    hide WholeReader;
    NewestIsNotNext(s.ring.writeIndex);
    WrapSteps(s.attempts);
    var s' := Apply(s, StoreNext);
    hide Wrap32, SeqOf;
    assert Newest(s'.ring) == Newest(s.ring);
  }

  lemma LongerDoneKeepsReader(v: Reader, done: seq<Header>, h: Header)
    requires WholeReader(v, done)
    ensures WholeReader(v, done + [h])
  {
  }

  /** The last store makes a whole header the newest. */
  lemma LastStoreKeepsWhole(s: State)
    requires Whole(s) && Enabled(s, StoreNext) && s.lock.stored == STORES - 1
    ensures Whole(Apply(s, StoreNext))
  {
    hide WholeReader;
    NewestIsNotNext(s.ring.writeIndex);
    WrapSteps(|s.done|);
    WrapToI32(s.ring.seqNo);
    var h := Stamped(s.lock.f, s.ring.seqNo);
    var s' := Apply(s, StoreNext);
    assert SeqOf(h) == s.ring.seqNo;
    hide Wrap32, SeqOf;
    assert Newest(s'.ring) == h == LastDone(s'.done);
    forall u | u in s.readers
      ensures WholeReader(s.readers[u], s'.done)
    {
      LongerDoneKeepsReader(s.readers[u], s.done, h);
    }
  }

  lemma TookKeepsReader(v: Reader, done: seq<Header>)
    requires WholeReader(v, done)
    ensures WholeReader(Took(v, LastDone(done), |done|), done)
  {
  }

  lemma StepKeepsWhole(s: State, e: Event)
    requires Whole(s) && Enabled(s, e)
    ensures Whole(Apply(s, e))
  {
    hide WholeReader, Wrap32;
    match e
    case StoreNext => if s.lock.stored < STORES - 1 { EarlyStoreKeepsWhole(s); } else { LastStoreKeepsWhole(s); }
    case Receive(u) => TookKeepsReader(s.readers[u], s.done);
    case Join(u) => JoinedIsWhole(s.ring.seqNo, s.done);
    case _ =>
  }

  lemma JoinedIsWhole(seqNo: u32, done: seq<Header>)
    ensures WholeReader(Reader(seqNo, |done|, [], []), done)
  {
  }

  // ----- numbers, until they wrap -----

  ghost predicate Rising(hs: seq<Header>) {
    && (forall i :: 0 <= i < |hs| ==> SeqOf(hs[i]) > 0)
    && (forall i, j :: 0 <= i < j < |hs| ==> SeqOf(hs[i]) < SeqOf(hs[j]))
  }

  /** The publishes a reader has behind it: those complete when it joined, and those up to
      the last it took. */
  function Behind(v: Reader): nat {
    if v.taken == [] then v.joined else v.taken[|v.taken| - 1]
  }

  /** The cursor separates what is behind the reader from what is still to come. */
  ghost predicate Separates(v: Reader, done: seq<Header>) {
    forall k :: 0 <= k < |done| ==> (SeqOf(done[k]) <= v.lastSeq <==> k < Behind(v))
  }

  ghost predicate Numbers(s: State) {
    && Rising(s.done)
    && SeqOf(LastDone(s.done)) + s.lost + InFlight(s.lock) == s.attempts
    && (s.lock.Publishing? && s.lock.stored == STORES ==> s.lost == 0)
    && forall u | u in s.readers ::
         Separates(s.readers[u], s.done) && s.readers[u].lastSeq + InFlight(s.lock) <= s.attempts
  }

  ghost predicate Inv(s: State) {
    Whole(s) && s.attempts < 0x1_0000_0000 && Numbers(s)
  }

  lemma DoneRises(done: seq<Header>, h: Header)
    requires Rising(done) && SeqOf(LastDone(done)) < SeqOf(h)
    ensures Rising(done + [h])
  {
    assert forall i :: 0 <= i < |done| - 1 ==> SeqOf(done[i]) < SeqOf(done[|done| - 1]);
  }

  lemma StillSeparates(v: Reader, done: seq<Header>, h: Header)
    requires Separates(v, done) && WholeReader(v, done) && v.lastSeq < SeqOf(h)
    ensures Separates(v, done + [h])
  {
  }

  lemma LastStoreKeepsNumbers(s: State)
    requires Inv(s) && Enabled(s, StoreNext) && s.lock.stored == STORES - 1
    ensures Numbers(Apply(s, StoreNext))
  {
    WrapToI32(s.ring.seqNo);
    var h := Stamped(s.lock.f, s.ring.seqNo);
    assert SeqOf(h) == s.attempts;
    hide Wrap32, SeqOf, WholeReader, Separates, Rising;
    DoneRises(s.done, h);
    forall u | u in s.readers
      ensures Separates(s.readers[u], s.done + [h])
    {
      StillSeparates(s.readers[u], s.done, h);
    }
  }

  lemma TookSeparates(v: Reader, done: seq<Header>)
    requires Rising(done)
    ensures Separates(Took(v, LastDone(done), |done|), done)
    ensures done == [] ==> SeqOf(LastDone(done)) == 0
  {
  }

  lemma JoinedSeparates(done: seq<Header>, seqNo: u32)
    requires Rising(done) && SeqOf(LastDone(done)) <= seqNo
    ensures Separates(Reader(seqNo, |done|, [], []), done)
  {
  }

  lemma ReceiveKeepsNumbers(s: State, u: nat)
    requires Inv(s) && Enabled(s, Receive(u))
    ensures Numbers(Apply(s, Receive(u)))
  {
    hide Wrap32, SeqOf, WholeReader, Separates, Rising, LockInv;
    TookSeparates(s.readers[u], s.done);
  }

  lemma JoinKeepsNumbers(s: State, u: nat)
    requires Inv(s) && Enabled(s, Join(u))
    ensures Numbers(Apply(s, Join(u)))
  {
    assert s.ring.seqNo == s.attempts;
    hide Wrap32, SeqOf, WholeReader, Separates, Rising, LockInv;
    JoinedSeparates(s.done, s.ring.seqNo);
  }

  lemma EarlyStoreKeepsNumbers(s: State)
    requires Numbers(s) && Enabled(s, StoreNext) && s.lock.stored < STORES - 1
    ensures Numbers(Apply(s, StoreNext))
  {
    hide Wrap32, SeqOf, Separates, Rising;
  }

  lemma LockKeepsNumbers(s: State, e: Event)
    requires Numbers(s) && Enabled(s, e) && (e.Enter? || e.Leave? || e.Die? || e.ReaderDies?)
    ensures Numbers(Apply(s, e))
  {
    hide Wrap32, SeqOf, Separates, Rising;
  }

  lemma StepKeepsInv(s: State, e: Event)
    requires Inv(s) && Enabled(s, e) && Apply(s, e).attempts < 0x1_0000_0000
    ensures Inv(Apply(s, e))
  {
    StepKeepsWhole(s, e);
    hide Whole;
    match e
    case StoreNext => if s.lock.stored < STORES - 1 { EarlyStoreKeepsNumbers(s); } else { LastStoreKeepsNumbers(s); }
    case Receive(u) => ReceiveKeepsNumbers(s, u);
    case Join(u) => JoinKeepsNumbers(s, u);
    case _ => LockKeepsNumbers(s, e);
  }

  // ----- runs -----

  ghost predicate Run(states: seq<State>, es: seq<Event>) {
    && |states| == |es| + 1
    && Start(states[0])
    && forall i :: 0 <= i < |es| ==> Enabled(states[i], es[i]) && states[i + 1] == Apply(states[i], es[i])
  }

  lemma RunLength(states: seq<State>, es: seq<Event>)
    requires Run(states, es)
    ensures |states| == |es| + 1
  {
  }

  /** Headers stay whole in every run, wherever publishers and readers die. */
  lemma {:induction false} RunKeepsWhole(states: seq<State>, es: seq<Event>, i: nat)
    requires Run(states, es) && i < |states|
    ensures Whole(states[i])
  {
    if i > 0 {
      assert states[i] == Apply(states[i - 1], es[i - 1]);
      RunKeepsWhole(states, es, i - 1);
      StepKeepsWhole(states[i - 1], es[i - 1]);
    }
  }

  /** Numbers keep their order up to 2^32 attempted publishes. */
  lemma {:induction false} RunKeepsInv(states: seq<State>, es: seq<Event>, i: nat)
    requires Run(states, es) && i < |states| && states[i].attempts < 0x1_0000_0000
    ensures Inv(states[i])
  {
    if i > 0 {
      assert states[i] == Apply(states[i - 1], es[i - 1]);
      RunKeepsInv(states, es, i - 1);
      StepKeepsInv(states[i - 1], es[i - 1]);
    }
  }

  /** No reader ever sees a half-written header, in runs of any length: what a receive
      takes is the newest completed header, or the zeros of a topic without one. */
  lemma ReadersGetWholeHeaders(states: seq<State>, es: seq<Event>, i: nat)
    requires Run(states, es) && i < |es| && es[i].Receive?
    ensures var u := es[i].reader;
            && u in states[i].readers && u in states[i + 1].readers
            && states[i + 1].readers[u].got == states[i].readers[u].got + [LastDone(states[i].done)]
  {
    RunKeepsWhole(states, es, i);
  }

  /** The numbers a reader gets never fall. */
  lemma DeliveriesNeverFall(states: seq<State>, es: seq<Event>, i: nat, u: nat)
    requires Run(states, es) && i < |states| && states[i].attempts < 0x1_0000_0000 && u in states[i].readers
    ensures var got := states[i].readers[u].got;
            forall a, b :: 0 <= a < b < |got| ==> SeqOf(got[a]) <= SeqOf(got[b])
  {
    RunKeepsInv(states, es, i);
    var v, done := states[i].readers[u], states[i].done;
    assert WholeReader(v, done);
    forall a, b | 0 <= a < b < |v.got|
      ensures SeqOf(v.got[a]) <= SeqOf(v.got[b])
    {
      NumbersFollowPositions(done, v.taken[a], v.taken[b]);
    }
  }

  lemma NumbersFollowPositions(done: seq<Header>, m: nat, n: nat)
    requires Rising(done) && m <= n <= |done|
    ensures SeqOf(HeaderAt(done, m)) <= SeqOf(HeaderAt(done, n))
  {
  }

  /** A completed publish repairs the topic: the newest header carries the topic's
      number again, whatever was lost before. */
  lemma CompletionRestores(states: seq<State>, es: seq<Event>, i: nat)
    requires Run(states, es) && i < |es| && es[i] == Leave
    ensures SeqOf(Newest(states[i + 1].ring)) == states[i + 1].ring.seqNo
  {
    RunKeepsWhole(states, es, i);
  }

  // ----- what a death inside the critical section does to readers -----

  lemma TopicNumber(s: State)
    requires Inv(s) && !s.lock.Publishing?
    ensures s.ring.seqNo == SeqOf(LastDone(s.done)) + s.lost && Newest(s.ring) == LastDone(s.done)
  {
    assert s.ring.seqNo == s.attempts;
    hide Wrap32, SeqOf, LastDone, WholeReader, Separates, Rising, LockInv;
    assert InFlight(s.lock) == 0;
  }

  /** A reader's guard is open exactly if its cursor is below the newest number plus the
      publishes lost since. */
  lemma GuardOpensIff(states: seq<State>, es: seq<Event>, i: nat, u: nat)
    requires Run(states, es) && i < |states| && states[i].attempts < 0x1_0000_0000
    requires !states[i].lock.Publishing? && u in states[i].readers
    ensures var s := states[i];
            Enabled(s, Receive(u)) <==> s.readers[u].lastSeq < SeqOf(LastDone(s.done)) + s.lost
  {
    RunKeepsInv(states, es, i);
    hide Run, Inv, SeqOf;
    TopicNumber(states[i]);
  }

  /** The header a reader takes next is no news: it was complete before the reader
      joined, or the reader has had it, or nothing was ever published. */
  predicate Stale(v: Reader, n: nat) {
    n <= v.joined || n in v.taken
  }

  lemma StaleIsBehind(v: Reader, done: seq<Header>)
    requires WholeReader(v, done)
    ensures Stale(v, |done|) <==> |done| <= Behind(v)
  {
    if Stale(v, |done|) && |done| > v.joined {
      var i :| 0 <= i < |v.taken| && v.taken[i] == |done|;
      assert v.taken[i] <= v.taken[|v.taken| - 1];
    }
  }

  lemma StaleAt(v: Reader, done: seq<Header>)
    requires WholeReader(v, done) && Separates(v, done)
    ensures Stale(v, |done|) <==> SeqOf(LastDone(done)) <= v.lastSeq
  {
    StaleIsBehind(v, done);
    assert done == [] ==> SeqOf(LastDone(done)) == 0;
    assert done != [] ==> (SeqOf(done[|done| - 1]) <= v.lastSeq <==> |done| - 1 < Behind(v));
  }

  /** A receive is stale exactly if the number in the newest header is not above the
      cursor, which the reader could tell from the header but does not check; and that
      takes a publisher that died since the header was completed. */
  lemma StaleIffNotAboveCursor(states: seq<State>, es: seq<Event>, i: nat)
    requires Run(states, es) && i < |es| && states[i].attempts < 0x1_0000_0000 && es[i].Receive?
    ensures var s := states[i];
            var v := s.readers[es[i].reader];
            && (Stale(v, |s.done|) <==> SeqOf(Newest(s.ring)) <= v.lastSeq)
            && (Stale(v, |s.done|) ==> s.lost > 0)
  {
    RunKeepsInv(states, es, i);
    var s, u := states[i], es[i].reader;
    assert Enabled(s, Receive(u));
    assert WholeReader(s.readers[u], s.done) && Separates(s.readers[u], s.done);
    hide Run, Inv, SeqOf, WholeReader, Separates, Stale;
    TopicNumber(s);
    StaleAt(s.readers[u], s.done);
  }

  // ----- and for how long -----

  /** Receives one after the other. */
  function Receives(u: nat, n: nat): (es: seq<Event>)
    ensures |es| == n && forall k :: 0 <= k < n ==> es[k] == Receive(u)
  {
    seq(n, _ => Receive(u))
  }

  function Copies(h: Header, n: nat): (hs: seq<Header>)
    ensures |hs| == n && forall k :: 0 <= k < n ==> hs[k] == h
  {
    seq(n, _ => h)
  }

  lemma ExtendRun(states: seq<State>, es: seq<Event>, e: Event) returns (states': seq<State>)
    requires Run(states, es) && Enabled(states[|es|], e)
    ensures states' == states + [Apply(states[|es|], e)] && |states'| == |es| + 2 && Run(states', es + [e])
  {
    states' := states + [Apply(states[|es|], e)];
  }

  /** A receive with a publish lost leaves everything as it was for the next one: the
      guard stays open, because the cursor goes back to the header's number. */
  lemma ReceiveAgain(s: State, u: nat)
    requires Inv(s) && Enabled(s, Receive(u))
    ensures var s' := Apply(s, Receive(u));
            && u in s'.readers && (Enabled(s', Receive(u)) <==> s.lost > 0)
            && s'.done == s.done && s'.lost == s.lost && s'.attempts == s.attempts
            && s'.readers[u].joined == s.readers[u].joined
            && s'.readers[u].got == s.readers[u].got + [LastDone(s.done)]
  {
    TopicNumber(s);
    hide Inv, SeqOf, LastDone;
  }

  lemma OneMore(u: nat, n: nat, h: Header)
    ensures Receives(u, n + 1) == Receives(u, n) + [Receive(u)]
    ensures Copies(h, n + 1) == Copies(h, n) + [h]
  {
  }

  lemma RepeatOnce(states: seq<State>, es: seq<Event>, u: nat) returns (states': seq<State>)
    requires Run(states, es)
    requires var s := states[|es|];
             s.attempts < 0x1_0000_0000 && s.lost > 0 && u in s.readers && Enabled(s, Receive(u))
    ensures states <= states' && |states'| == |es| + 2 && Run(states', es + [Receive(u)])
    ensures var s, s' := states[|es|], states'[|es| + 1];
            && u in s'.readers && Enabled(s', Receive(u))
            && s'.done == s.done && s'.lost == s.lost && s'.attempts == s.attempts
            && s'.readers[u].joined == s.readers[u].joined
            && s'.readers[u].got == s.readers[u].got + [LastDone(s.done)]
  {
    hide *;
    RunLength(states, es);
    RunKeepsInv(states, es, |es|);
    states' := ExtendRun(states, es, Receive(u));
    ReceiveAgain(states[|es|], u);
  }

  /** So while a publish is lost every further receive is possible and takes the same
      header once more. */
  lemma {:induction false} RepeatsWhileLost(states: seq<State>, es: seq<Event>, u: nat, n: nat)
    returns (states': seq<State>)
    requires Run(states, es)
    requires var s := states[|es|];
             s.attempts < 0x1_0000_0000 && s.lost > 0 && u in s.readers && Enabled(s, Receive(u))
    ensures states <= states' && Run(states', es + Receives(u, n))
    ensures var s, s' := states[|es|], states'[|es| + n];
            && u in s'.readers && Enabled(s', Receive(u))
            && s'.done == s.done && s'.lost == s.lost && s'.attempts == s.attempts
            && s'.readers[u].joined == s.readers[u].joined
            && s'.readers[u].got == s.readers[u].got + Copies(LastDone(s.done), n)
  {
    hide *;
    RunLength(states, es);
    var got, h := states[|es|].readers[u].got, LastDone(states[|es|].done);
    if n == 0 {
      states' := states;
      assert es + Receives(u, 0) == es && got + Copies(h, 0) == got;
    } else {
      var before := RepeatsWhileLost(states, es, u, n - 1);
      var es1 := es + Receives(u, n - 1);
      RunLength(before, es1);
      states' := RepeatOnce(before, es1, u);
      OneMore(u, n - 1, h);
      Append(es, Receives(u, n - 1), [Receive(u)]);
      Append(got, Copies(h, n - 1), [h]);
    }
  }

  /** A publisher that dies right after its first store. */
  lemma DieEarly(s: State, f: Fields) returns (s1: State, s2: State, s': State)
    requires Inv(s) && !s.lock.Publishing? && s.attempts + 1 < 0x1_0000_0000
    ensures Enabled(s, Enter(f)) && s1 == Apply(s, Enter(f))
    ensures Enabled(s1, StoreNext) && s2 == Apply(s1, StoreNext)
    ensures Enabled(s2, Die) && s' == Apply(s2, Die)
    ensures s'.readers == s.readers && s'.done == s.done && s'.lost > 0 && s'.attempts == s.attempts + 1
    ensures forall u | u in s.readers :: Enabled(s', Receive(u))
  {
    hide WholeReader, Separates, Rising, LockInv, Newest, SeqOf;
    WrapSteps(s.attempts);
    assert Wrap32(s.attempts + 1) == s.attempts + 1;
    hide Wrap32;
    s1 := Apply(s, Enter(f));
    s2 := Apply(s1, StoreNext);
    s' := Apply(s2, Die);
  }

  lemma ExtendByDeath(states: seq<State>, es: seq<Event>, f: Fields, s1: State, s2: State, s3: State)
    returns (states': seq<State>)
    requires Run(states, es)
    requires Enabled(states[|es|], Enter(f)) && s1 == Apply(states[|es|], Enter(f))
    requires Enabled(s1, StoreNext) && s2 == Apply(s1, StoreNext)
    requires Enabled(s2, Die) && s3 == Apply(s2, Die)
    ensures |states'| == |es| + 4 && states'[|es| + 3] == s3 && Run(states', es + [Enter(f), StoreNext, Die])
  {
    hide Run, Enabled, Apply;
    states' := ExtendRun(states, es, Enter(f));
    states' := ExtendRun(states', es + [Enter(f)], StoreNext);
    states' := ExtendRun(states', es + [Enter(f)] + [StoreNext], Die);
    assert es + [Enter(f)] + [StoreNext] + [Die] == es + [Enter(f), StoreNext, Die];
  }

  lemma RunWithDeath(states: seq<State>, es: seq<Event>, f: Fields) returns (died: seq<State>)
    requires Run(states, es) && !states[|es|].lock.Publishing? && states[|es|].attempts + 1 < 0x1_0000_0000
    ensures Run(died, es + [Enter(f), StoreNext, Die])
    ensures var s, s' := states[|es|], died[|es| + 3];
            && s'.readers == s.readers && s'.done == s.done && s'.lost > 0 && s'.attempts == s.attempts + 1
            && forall u | u in s.readers :: Enabled(s', Receive(u))
  {
    RunKeepsInv(states, es, |es|);
    hide Run, Inv, Enabled, Apply;
    var s1, s2, s3 := DieEarly(states[|es|], f);
    died := ExtendByDeath(states, es, f, s1, s2, s3);
  }

  /** This can befall every reader of every topic at any time: a publisher takes the lock,
      makes its first store and dies. Whatever the reader did before, its receives from
      then on all take the header that was complete last. */
  lemma EveryTopicCanRepeat(states: seq<State>, es: seq<Event>, f: Fields, u: nat, n: nat)
    returns (states': seq<State>)
    requires Run(states, es)
    requires var s := states[|es|];
             !s.lock.Publishing? && s.attempts + 1 < 0x1_0000_0000 && u in s.readers
    ensures Run(states', es + [Enter(f), StoreNext, Die] + Receives(u, n))
    ensures var s, s' := states[|es|], states'[|es| + 3 + n];
            && u in s'.readers && s'.readers[u].joined == s.readers[u].joined
            && s'.readers[u].got == s.readers[u].got + Copies(LastDone(s.done), n)
  {
    hide Run, Enabled, Apply, LastDone, Receives, Copies;
    var died := RunWithDeath(states, es, f);
    states' := RepeatsWhileLost(died, es + [Enter(f), StoreNext, Die], u, n);
  }

  /** A reader that has just joined is then handed, again and again, a message published
      before it joined; and on a topic without messages, zeros that nobody published. */
  lemma NewReaderGetsOldMessages(states: seq<State>, es: seq<Event>, f: Fields, u: nat, n: nat)
    returns (states': seq<State>)
    requires Run(states, es)
    requires var s := states[|es|];
             !s.lock.Publishing? && s.attempts + 1 < 0x1_0000_0000 && u !in s.readers
    ensures Run(states', es + [Join(u)] + [Enter(f), StoreNext, Die] + Receives(u, n))
    ensures var s, s' := states[|es|], states'[|es| + 4 + n];
            && u in s'.readers && s'.readers[u].joined == |s.done|
            && s'.readers[u].got == Copies(LastDone(s.done), n)
  {
    states' := ExtendRun(states, es, Join(u));
    states' := EveryTopicCanRepeat(states', es + [Join(u)], f, u, n);
  }

  /** For instance on a topic just created. */
  lemma ZerosFromANewTopic(f: Fields, u: nat, n: nat) returns (states: seq<State>)
    ensures Run(states, [Join(u)] + [Enter(f), StoreNext, Die] + Receives(u, n))
    ensures u in states[4 + n].readers && states[4 + n].readers[u].got == Copies(ZERO_HEADER, n)
  {
    states := NewReaderGetsOldMessages([Fresh()], [], f, u, n);
    assert [] + [Join(u)] + [Enter(f), StoreNext, Die] + Receives(u, n)
        == [Join(u)] + [Enter(f), StoreNext, Die] + Receives(u, n);
  }
}
