/** The twenty-slot header ring of a topic, and the unbounded log it stands for. */
module TopicRing {
  import opened Words

  datatype Header = Header(msgType: i32, seqNo: i32, timestamp: i64, dataSize: u32, poolOffset: u32)

  /** What a publisher supplies; the sequence number comes from the topic. */
  datatype Fields = Fields(msgType: i32, timestamp: i64, dataSize: u32, poolOffset: u32)

  const ZERO_HEADER := Header(0, 0, 0, 0, 0)

  /** `n` slots of zero-filled shared memory. */
  function Zeros(n: nat): (s: seq<Header>)
    ensures |s| == n && forall i :: 0 <= i < n ==> s[i] == ZERO_HEADER
  {
    if n == 0 then [] else Zeros(n - 1) + [ZERO_HEADER]
  }

  type Slots = s: seq<Header> | |s| == 20 witness Zeros(20)

  datatype Ring = Ring(writeIndex: u32, seqNo: u32, slots: Slots)

  /** A topic just created in zero-filled shared memory. */
  const EMPTY := Ring(0, 0, Zeros(20))

  // ----- the critical section of a publish, store by store -----

  const STORES: nat := 7

  /** The `k`-th store a publisher makes while it holds the topic's lock. */
  function Store(r: Ring, k: nat, f: Fields): Ring
    requires k < STORES
  {
    var slot := r.writeIndex % 20;
    var h := r.slots[slot];
    match k
    case 0 => r.(seqNo := Wrap32(r.seqNo + 1))
    case 1 => r.(slots := r.slots[slot := h.(seqNo := ToI32(r.seqNo))])
    case 2 => r.(slots := r.slots[slot := h.(timestamp := f.timestamp)])
    case 3 => r.(slots := r.slots[slot := h.(dataSize := f.dataSize)])
    case 4 => r.(slots := r.slots[slot := h.(msgType := f.msgType)])
    case 5 => r.(slots := r.slots[slot := h.(poolOffset := f.poolOffset)])
    case _ => r.(writeIndex := Wrap32(r.writeIndex + 1))
  }

  /** The ring after the first `k` stores. */
  function Stores(r: Ring, k: nat, f: Fields): Ring
    requires k <= STORES
  {
    if k == 0 then r else Store(Stores(r, k - 1, f), k - 1, f)
  }

  function Stamped(f: Fields, seqNo: u32): Header {
    Header(f.msgType, ToI32(seqNo), f.timestamp, f.dataSize, f.poolOffset)
  }

  /** A whole publish. */
  function Push(r: Ring, f: Fields): Ring {
    var seqNo := Wrap32(r.seqNo + 1);
    Ring(Wrap32(r.writeIndex + 1), seqNo, r.slots[r.writeIndex % 20 := Stamped(f, seqNo)])
  }

  /** A header of which the first `k` stores have been made over the old one. */
  function Partial(old_: Header, k: nat, f: Fields, seqNo: u32): Header {
    Header(
      if k > 4 then f.msgType else old_.msgType,
      if k > 1 then ToI32(seqNo) else old_.seqNo,
      if k > 2 then f.timestamp else old_.timestamp,
      if k > 3 then f.dataSize else old_.dataSize,
      if k > 5 then f.poolOffset else old_.poolOffset)
  }

  /** The stores touch one slot, the counter first and the write index last. */
  lemma {:induction false} StoresInOrder(r: Ring, k: nat, f: Fields)
    requires k <= STORES
    ensures var slot := r.writeIndex % 20;
            var seqNo := Wrap32(r.seqNo + 1);
            Stores(r, k, f) == Ring(if k > 6 then Wrap32(r.writeIndex + 1) else r.writeIndex,
                                    if k > 0 then seqNo else r.seqNo,
                                    r.slots[slot := Partial(r.slots[slot], k, f, seqNo)])
  {
    var slot := r.writeIndex % 20;
    if k == 0 {
      assert r.slots[slot := r.slots[slot]] == r.slots;
    } else {
      StoresInOrder(r, k - 1, f);
    }
  }

  lemma AllStoresArePush(r: Ring, f: Fields)
    ensures Stores(r, STORES, f) == Push(r, f)
  {
    StoresInOrder(r, STORES, f);
  }

  /** The slot a subscriber reads: `(write_index - 1) % BUFFER_SIZE` in 32 bits. */
  function Newest(r: Ring): Header {
    r.slots[Wrap32(r.writeIndex - 1) % 20]
  }

  // ----- the log -----

  /** The ring after the publishes in `log`, in order. */
  function Replay(log: seq<Fields>): Ring {
    if log == [] then EMPTY else Push(Replay(log[..|log| - 1]), log[|log| - 1])
  }

  /** The slot that publish number `i` (counting from 0) writes. */
  function SlotOf(i: nat): nat {
    Wrap32(i) % 20
  }

  /** The header of publish number `i`. */
  function HeaderOf(log: seq<Fields>, i: nat): Header
    requires i < |log|
  {
    Stamped(log[i], Wrap32(i + 1))
  }

  lemma WrapSteps(n: nat)
    ensures Wrap32(Wrap32(n) + 1) == Wrap32(n + 1)
    ensures Wrap32(Wrap32(n + 1) - 1) == Wrap32(n)
  {
  }

  /** One more publish: both counters are the length of the log in 32 bits, and only
      the slot of that publish changes. */
  lemma {:induction false} ReplayStep(log: seq<Fields>)
    ensures Replay(log).writeIndex == Replay(log).seqNo == Wrap32(|log|)
    ensures log != [] ==> var n := |log| - 1;
              Replay(log).slots == Replay(log[..n]).slots[SlotOf(n) := HeaderOf(log, n)]
  {
    if log != [] {
      ReplayStep(log[..|log| - 1]);
      WrapSteps(|log| - 1);
    }
  }

  /** A slot shows the last publish that wrote it. */
  lemma {:induction false} SlotShowsLastWriter(log: seq<Fields>, i: nat)
    requires i < |log|
    requires forall k {:trigger SlotOf(k)} :: i < k < |log| ==> SlotOf(k) != SlotOf(i)
    ensures Replay(log).slots[SlotOf(i)] == HeaderOf(log, i)
  {
    var n := |log| - 1;
    ReplayStep(log);
    if i < n {
      SlotShowsLastWriter(log[..n], i);
      assert SlotOf(n) != SlotOf(i);
      assert HeaderOf(log[..n], i) == HeaderOf(log, i);
    }
  }

  /** Whatever the counters have wrapped to, a subscriber finds the newest message,
      as it was published and under the topic's own sequence number. */
  lemma NewestIsLast(log: seq<Fields>)
    requires log != []
    ensures var h, f := Newest(Replay(log)), log[|log| - 1];
            && h == HeaderOf(log, |log| - 1)
            && h.msgType == f.msgType && h.timestamp == f.timestamp
            && h.dataSize == f.dataSize && h.poolOffset == f.poolOffset
    ensures Wrap32(Newest(Replay(log)).seqNo) == Replay(log).seqNo
  {
    var n := |log| - 1;
    ReplayStep(log);
    WrapSteps(n);
    assert Wrap32(Replay(log).writeIndex - 1) % 20 == SlotOf(n);
    assert Wrap32(ToI32(Wrap32(n + 1))) == Wrap32(n + 1) by { WrapToI32(Wrap32(n + 1)); }
  }

  /** The ring still holds each of the last twenty messages in its slot. */
  ghost predicate HoldsLastTwenty(log: seq<Fields>) {
    forall i: nat | |log| - 20 <= i < |log| :: Replay(log).slots[SlotOf(i)] == HeaderOf(log, i)
  }

  /** Publishes less than twenty apart have different slots, except for two that are
      sixteen apart on either side of a wrap of the index: 2^32 is not a multiple of 20. */
  lemma SlotsCollide(i: nat, k: nat)
    requires i < k < i + 20
    ensures SlotOf(i) == SlotOf(k) <==> Wrap32(i) + 16 == Wrap32(k) + 0x1_0000_0000 && k == i + 16
  {
    assert Wrap32(k) == Wrap32(i) + (k - i) || Wrap32(k) == Wrap32(i) + (k - i) - 0x1_0000_0000;
  }

  /** No two of the last twenty messages were published across a wrap of the index. */
  predicate IndexUnbroken(n: nat) {
    n < 0x1_0000_0000 || Wrap32(n) == 0 || Wrap32(n) >= 20
  }

  lemma UnbrokenSlotsDiffer(n: nat, i: nat, k: nat)
    requires IndexUnbroken(n) && n - 20 <= i < k < n
    ensures SlotOf(i) != SlotOf(k)
  {
    SlotsCollide(i, k);
  }

  /** After a wrap some recent message has already lost its slot. */
  lemma BrokenIndexLosesOne(n: nat) returns (i: nat)
    requires !IndexUnbroken(n)
    ensures n - 20 <= i && i + 16 < n && SlotOf(i) == SlotOf(i + 16)
  {
    var q := Wrap32(n);
    var p := if q <= 16 then 17 - q else 1;
    i := n - q - p;
    assert Wrap32(i) == 0x1_0000_0000 - p;
    assert Wrap32(i + 16) == 16 - p;
    SlotsCollide(i, i + 16);
  }

  lemma UnbrokenHoldsAll(log: seq<Fields>, i: nat)
    requires IndexUnbroken(|log|) && |log| - 20 <= i < |log|
    ensures Replay(log).slots[SlotOf(i)] == HeaderOf(log, i)
  {
    forall k {:trigger SlotOf(k)} | i < k < |log|
      ensures SlotOf(k) != SlotOf(i)
    {
      UnbrokenSlotsDiffer(|log|, i, k);
    }
    SlotShowsLastWriter(log, i);
  }

  /** Messages less than twenty apart never share a sequence number. */
  lemma NearbyStampsDiffer(i: nat, d: nat)
    requires 0 < d < 20
    ensures ToI32(Wrap32(i + 1)) != ToI32(Wrap32(i + d + 1))
  {
  }

  lemma BrokenHoldsNotAll(log: seq<Fields>)
    requires !IndexUnbroken(|log|)
    ensures !HoldsLastTwenty(log)
  {
    var i := BrokenIndexLosesOne(|log|);
    var k := i + 16;
    forall m {:trigger SlotOf(m)} | k < m < |log|
      ensures SlotOf(m) != SlotOf(k)
    {
      SlotsCollide(k, m);
    }
    SlotShowsLastWriter(log, k);
    NearbyStampsDiffer(i, 16);
    assert Replay(log).slots[SlotOf(i)] != HeaderOf(log, i);
  }

  /** The ring refines the log: it holds the last twenty messages, each in its slot,
      exactly while the index has not wrapped within them. */
  lemma RingHoldsLastTwenty(log: seq<Fields>)
    ensures HoldsLastTwenty(log) <==> IndexUnbroken(|log|)
  {
    if IndexUnbroken(|log|) {
      forall i: nat | |log| - 20 <= i < |log|
        ensures Replay(log).slots[SlotOf(i)] == HeaderOf(log, i)
      {
        UnbrokenHoldsAll(log, i);
      }
    } else {
      BrokenHoldsNotAll(log);
    }
  }

  lemma NoWrapYet(i: nat)
    requires i < 0x1_0000_0000
    ensures Wrap32(i) == i && SlotOf(i) == i % 20
  {
  }

  /** Before any wrap the counters are the length of the log and the slots are its end. */
  lemma RingBeforeWrap(log: seq<Fields>, i: nat)
    requires |log| - 20 <= i < |log| < 0x1_0000_0000
    ensures Replay(log).seqNo == Replay(log).writeIndex == |log|
    ensures Replay(log).slots[i % 20] == HeaderOf(log, i)
  {
    hide Replay, Wrap32, SlotOf, HeaderOf;
    NoWrapYet(|log|);
    NoWrapYet(i);
    ReplayStep(log);
    UnbrokenHoldsAll(log, i);
  }
}
