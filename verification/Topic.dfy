/** A topic in shared memory, and the publishers and subscribers attached to it. */
module Topic {
  import opened Words
  import opened Outcomes
  import opened PoolLayout
  import opened TopicRing
  import opened MemoryPool

  class TopicShm {
    var writeIndex: u32
    var seqNo: u32
    const buffer: array<Header>
    /** Every message ever published here. */
    ghost var log: seq<Fields>

    ghost predicate Valid()
      reads this, buffer
    {
      && buffer.Length == 20
      && Ring(writeIndex, seqNo, buffer[..]) == Replay(log)
      && seqNo == Wrap32(|log|)
    }

    constructor ()
      ensures Valid() && fresh(buffer) && log == []
    {
      buffer := new Header[20](i => ZERO_HEADER);
      writeIndex, seqNo := 0, 0;
      log := [];
      new;
      assert buffer[..] == Zeros(20);
    }

    /** The critical section both publish paths share, store by store. */
    method Append(f: Fields)
      requires Valid()
      modifies this, buffer
      ensures Valid() && log == old(log) + [f]
    {
      ghost var before := Replay(log);
      var slot := writeIndex % 20;
      seqNo := Wrap32(seqNo + 1);
      buffer[slot] := buffer[slot].(seqNo := ToI32(seqNo));
      buffer[slot] := buffer[slot].(timestamp := f.timestamp);
      buffer[slot] := buffer[slot].(dataSize := f.dataSize);
      buffer[slot] := buffer[slot].(msgType := f.msgType);
      buffer[slot] := buffer[slot].(poolOffset := f.poolOffset);
      writeIndex := Wrap32(writeIndex + 1);
      log := log + [f];
      ReplayStep(log);
      assert log[..|log| - 1] == old(log);
      assert buffer[..] == before.slots[slot := Stamped(f, seqNo)];
    }

    /** Other publishers' turns, in order. */
    method AppendAll(fs: seq<Fields>)
      requires Valid()
      modifies this, buffer
      ensures Valid() && log == old(log) + fs
    {
      for i := 0 to |fs|
        invariant Valid() && log == old(log) + fs[..i]
      {
        Append(fs[i]);
        assert fs[..i + 1] == fs[..i] + [fs[i]];
      }
    }
  }

  class Publisher {
    const shm: TopicShm
    const pool: MemoryPool

    constructor (shm: TopicShm, pool: MemoryPool)
      ensures this.shm == shm && this.pool == pool
    {
      this.shm, this.pool := shm, pool;
    }

    /** Copies `data` into a fresh block and publishes its header. */
    method PublishRaw(data: seq<byte>, msgType: i32, now: i64, shutdown: bool) returns (r: Result<bool>)
      requires shm.Valid() && pool.Valid()
      modifies shm, shm.buffer, pool`headOffset, pool`blocks, pool.data
      ensures shm.Valid() && pool.Valid()
      ensures r == Ok(false) <==> shutdown
      ensures r.Thrown? <==> !shutdown && |data| > POOL_SIZE
      ensures r != Ok(true) ==>
                shm.log == old(shm.log) && pool.blocks == old(pool.blocks) && pool.data[..] == old(pool.data[..])
      ensures r == Ok(true) ==>
                && |pool.blocks| == |old(pool.blocks)| + 1 && old(pool.blocks) <= pool.blocks
                && var b := pool.blocks[|old(pool.blocks)|];
                && b.size == RoundUp8(|data|)
                && shm.log == old(shm.log) + [Fields(msgType, now, |data|, b.offset)]
                && pool.data[..] == old(pool.data[..])[..b.offset] + data + old(pool.data[..])[b.offset + |data|..]
    {
      if shutdown {
        return Ok(false);
      }
      var place := pool.Allocate(|data|);
      if place.Thrown? {
        return Thrown(place.what);
      }
      var offset := place.value;
      assert pool.blocks[|pool.blocks| - 1].InPool();
      MemCpy(pool.data, offset, data);
      shm.Append(Fields(msgType, now, |data|, offset));
      return Ok(true);
    }

    method LoanRaw(size: nat) returns (r: Result<int>)
      requires pool.Valid()
      modifies pool`headOffset, pool`blocks
      ensures pool.Valid()
      ensures r.Ok? <==> size <= POOL_SIZE
      ensures r.Thrown? ==> pool.blocks == old(pool.blocks)
      ensures r.Ok? ==>
                && |pool.blocks| == |old(pool.blocks)| + 1 && old(pool.blocks) <= pool.blocks
                && var b := pool.blocks[|old(pool.blocks)|];
                && b.size == RoundUp8(size) && r.value == pool.GetPointer(b.offset)
    {
      var place := pool.Allocate(size);
      match place
      case Ok(offset) =>
        assert pool.blocks[|old(pool.blocks)|].InPool();
        return Ok(pool.GetPointer(offset));
      case Thrown(what) => return Thrown(what);
    }

    /** Publishes memory that was loaned. Whether `size` bytes at `ptr` are pool memory is
        not checked. */
    method PublishLoaned(ptr: int, size: nat, msgType: i32, now: i64, shutdown: bool) returns (r: Result<bool>)
      requires shm.Valid()
      modifies shm, shm.buffer
      ensures shm.Valid()
      ensures r == Ok(false) <==> shutdown
      ensures r.Thrown? <==> !shutdown && !(pool.base <= ptr < pool.base + POOL_SIZE)
      ensures r != Ok(true) ==> shm.log == old(shm.log)
      ensures r == Ok(true) ==> pool.base <= ptr < pool.base + POOL_SIZE
      ensures r == Ok(true) ==> shm.log == old(shm.log) + [Fields(msgType, now, Wrap32(size), ptr - pool.base)]
    {
      if shutdown {
        return Ok(false);
      }
      var offset := pool.GetOffset(ptr);
      if offset.Thrown? {
        return Thrown(offset.what);
      }
      shm.Append(Fields(msgType, now, Wrap32(size), offset.value));
      return Ok(true);
    }
  }

  /** One wait on the condition variable, as the waiter finds things when it has the
      lock again: what others published meanwhile, whether shutdown was requested, and
      whether the wait ended by timing out. A spurious wake has nothing published. */
  datatype Wait = Wait(published: seq<Fields>, shutdown: bool, expired: bool)

  function Published(waits: seq<Wait>): seq<Fields> {
    if waits == [] then [] else Published(waits[..|waits| - 1]) + waits[|waits| - 1].published
  }

  lemma PublishedStep(waits: seq<Wait>, k: nat)
    requires k < |waits|
    ensures Published(waits[..k + 1]) == Published(waits[..k]) + waits[k].published
  {
    assert waits[..k + 1][..k] == waits[..k];
  }

  /** These headers describe pool memory. */
  ghost predicate InPool(fs: seq<Fields>) {
    forall i :: 0 <= i < |fs| ==> fs[i].poolOffset + fs[i].dataSize <= POOL_SIZE
  }

  ghost predicate AllInPool(waits: seq<Wait>) {
    forall i :: 0 <= i < |waits| ==> InPool(waits[i].published)
  }

  lemma {:induction false} PublishedInPool(waits: seq<Wait>, k: nat)
    requires AllInPool(waits) && k <= |waits|
    ensures InPool(Published(waits[..k]))
  {
    if k > 0 {
      PublishedInPool(waits, k - 1);
      PublishedStep(waits, k - 1);
    }
  }

  /** The 24 bytes of a header in memory. */
  function EncodeHeader(h: Header): (bs: seq<byte>)
    ensures |bs| == 24
  {
    Le(Wrap32(h.msgType), 4) + Le(Wrap32(h.seqNo), 4) + Le(FromI64(h.timestamp), 8)
    + Le(h.dataSize, 4) + Le(h.poolOffset, 4)
  }

  function DecodeHeader(bs: seq<byte>): Header
    requires |bs| == 24
  {
    Header(ToI32(U32Of(bs[..4])), ToI32(U32Of(bs[4..8])), ToI64(U64Of(bs[8..16])), U32Of(bs[16..20]), U32Of(bs[20..]))
  }

  lemma FiveFields(a: seq<byte>, b: seq<byte>, c: seq<byte>, d: seq<byte>, e: seq<byte>)
    requires |a| == |b| == |d| == |e| == 4 && |c| == 8
    ensures var m := a + b + c + d + e;
            m[..4] == a && m[4..8] == b && m[8..16] == c && m[16..20] == d && m[20..] == e
  {
  }

  /** A receiver that lays the structure over its buffer finds the header that was copied. */
  lemma HeaderRoundTrip(h: Header)
    ensures DecodeHeader(EncodeHeader(h)) == h
  {
    var a, b, c := Le(Wrap32(h.msgType), 4), Le(Wrap32(h.seqNo), 4), Le(FromI64(h.timestamp), 8);
    var d, e := Le(h.dataSize, 4), Le(h.poolOffset, 4);
    FiveFields(a, b, c, d, e);
    U32RoundTrip(Wrap32(h.msgType), a);
    U32RoundTrip(Wrap32(h.seqNo), b);
    U64RoundTrip(FromI64(h.timestamp), c);
    U32RoundTrip(h.dataSize, d);
    U32RoundTrip(h.poolOffset, e);
  }

  /** The header byte by byte: type, number, time stamp, size, offset. */
  lemma HeaderBytes(h: Header)
    ensures var m := EncodeHeader(h);
            && StandsAt(m, 0, 4, Wrap32(h.msgType)) && StandsAt(m, 4, 4, Wrap32(h.seqNo))
            && StandsAt(m, 8, 8, FromI64(h.timestamp))
            && StandsAt(m, 16, 4, h.dataSize) && StandsAt(m, 20, 4, h.poolOffset)
  {
    var a, b, c := Le(Wrap32(h.msgType), 4), Le(Wrap32(h.seqNo), 4), Le(FromI64(h.timestamp), 8);
    var d, e := Le(h.dataSize, 4), Le(h.poolOffset, 4);
    var m := EncodeHeader(h);
    assert m == [] + a + (b + c + d + e) == a + b + (c + d + e) == a + b + c + (d + e)
             == a + b + c + d + e == a + b + c + d + e + [];
    LeStands([], Wrap32(h.msgType), 4, b + c + d + e);
    LeStands(a, Wrap32(h.seqNo), 4, c + d + e);
    LeStands(a + b, FromI64(h.timestamp), 8, d + e);
    LeStands(a + b + c, h.dataSize, 4, e);
    LeStands(a + b + c + d, h.poolOffset, 4, []);
  }

  /** Whether shutdown was requested when `k` waits were over. */
  predicate Down(waits: seq<Wait>, k: nat, shutdown: bool)
    requires k <= |waits|
  {
    if k == 0 then shutdown else waits[k - 1].shutdown
  }

  /** Whether the receive gave up because wait `k` timed out. */
  predicate Expired(waits: seq<Wait>, k: nat, timeoutMs: int)
    requires k <= |waits|
  {
    timeoutMs > 0 && k > 0 && waits[k - 1].expired
  }

  /** A receive may read once `used` waits are over: no shutdown, the last wait did not
      expire, and the cursor is behind a topic on which `count` messages were published. */
  predicate MayRead(lastSeq: u32, count: nat, timeoutMs: int, waits: seq<Wait>, shutdown: bool, used: nat)
    requires used <= |waits|
  {
    !Down(waits, used, shutdown) && !Expired(waits, used, timeoutMs) && lastSeq < Wrap32(count)
  }

  /** After `k` waits a receive has nothing to read, no reason to stop, and may block. */
  predicate MustWait(lastSeq: u32, count: nat, timeoutMs: int, waits: seq<Wait>, shutdown: bool, k: nat)
    requires k <= |waits|
  {
    && timeoutMs != 0
    && !Down(waits, k, shutdown)
    && !Expired(waits, k, timeoutMs)
    && Wrap32(count + |Published(waits[..k])|) <= lastSeq
  }

  ghost predicate WaitedFor(lastSeq: u32, count: nat, timeoutMs: int, waits: seq<Wait>, shutdown: bool, used: nat)
    requires used <= |waits|
  {
    forall k: nat | k < used :: MustWait(lastSeq, count, timeoutMs, waits, shutdown, k)
  }

  /** `used` is how many of the waits a receive takes: as long as it must. When the
      scripted waits are used up the caller would still be waiting. */
  ghost predicate Waited(lastSeq: u32, count: nat, timeoutMs: int, waits: seq<Wait>, shutdown: bool, used: nat) {
    && used <= |waits|
    && WaitedFor(lastSeq, count, timeoutMs, waits, shutdown, used)
    && (used < |waits| ==> !MustWait(lastSeq, count, timeoutMs, waits, shutdown, used))
  }

  /** What that means. Shutdown stops a receive at once, and a message already there is read
      at once. With nothing there, a receive without a time-out returns at once. A first wait
      that expires ends a timed receive with nothing, even if a message came with it, and is
      nothing to one without limit; a first wait that a message ends is the only one; and
      one that brings nothing, unless it expired, is not the last. */
  lemma WaitRules(lastSeq: u32, count: nat, timeoutMs: int, waits: seq<Wait>, shutdown: bool, used: nat)
    requires Waited(lastSeq, count, timeoutMs, waits, shutdown, used)
    ensures var got := MayRead(lastSeq, count + |Published(waits[..used])|, timeoutMs, waits, shutdown, used);
            && (shutdown ==> used == 0 && !got)
            && (!shutdown && lastSeq < Wrap32(count) ==> used == 0 && got)
            && (!shutdown && lastSeq >= Wrap32(count) && timeoutMs == 0 ==> used == 0 && !got)
            && (!shutdown && lastSeq >= Wrap32(count) && timeoutMs != 0 && waits != [] ==>
                  var w := waits[0];
                  var some := lastSeq < Wrap32(count + |w.published|);
                  && used >= 1
                  && (timeoutMs > 0 && w.expired ==> used == 1 && !got)
                  && (w.shutdown ==> used == 1 && !got)
                  && (some && !w.shutdown && !(timeoutMs > 0 && w.expired) ==> used == 1 && got)
                  && (!some && !w.shutdown && !(timeoutMs > 0 && w.expired) && |waits| > 1 ==> used >= 2))
  {
    assert Published(waits[..0]) == [];
    if waits != [] {
      PublishedStep(waits, 0);
    }
    assert used > 0 ==> MustWait(lastSeq, count, timeoutMs, waits, shutdown, 0);
    assert used > 1 ==> MustWait(lastSeq, count, timeoutMs, waits, shutdown, 1);
  }

  datatype LoanedMessage = LoanedMessage(data: int, size: nat, seqNo: u32)

  class Subscriber {
    const shm: TopicShm
    const pool: MemoryPool
    var lastSeq: u32

    /** A new subscriber starts at the topic's current sequence number. */
    constructor (shm: TopicShm, pool: MemoryPool)
      requires shm.Valid()
      ensures this.shm == shm && this.pool == pool
      ensures lastSeq == Wrap32(|shm.log|)
    {
      this.shm, this.pool := shm, pool;
      lastSeq := shm.seqNo;
    }

    /** The wait loop, the same in both receive calls. */
    method AwaitMessage(timeoutMs: int, waits: seq<Wait>, shutdown: bool) returns (go: bool, used: nat)
      requires shm.Valid()
      modifies shm, shm.buffer
      ensures shm.Valid()
      ensures Waited(lastSeq, |old(shm.log)|, timeoutMs, waits, shutdown, used)
      ensures shm.log == old(shm.log) + Published(waits[..used])
      ensures go == MayRead(lastSeq, |shm.log|, timeoutMs, waits, shutdown, used)
    {
      hide Replay;
      used := 0;
      var down := shutdown;
      ghost var cursor, count := lastSeq, |shm.log|;
      while lastSeq >= shm.seqNo && !down
        invariant used <= |waits| && shm.Valid() && lastSeq == cursor
        invariant shm.log == old(shm.log) + Published(waits[..used])
        invariant down == Down(waits, used, shutdown) && !Expired(waits, used, timeoutMs)
        invariant WaitedFor(cursor, count, timeoutMs, waits, shutdown, used)
        decreases |waits| - used
      {
        if timeoutMs == 0 || used == |waits| {
          return false, used;
        }
        assert MustWait(cursor, count, timeoutMs, waits, shutdown, used);
        var w := waits[used];
        shm.AppendAll(w.published);
        PublishedStep(waits, used);
        used := used + 1;
        down := w.shutdown;
        if timeoutMs > 0 && w.expired {
          return false, used;
        }
      }
      return !down, used;
    }

    /** Reads the slot before the write index. */
    method ReadNewest() returns (header: Header)
      requires shm.Valid() && shm.log != []
      ensures header == HeaderOf(shm.log, |shm.log| - 1)
      ensures Wrap32(header.seqNo) == shm.seqNo
    {
      ReplayStep(shm.log);
      NewestIsLast(shm.log);
      var slot := Wrap32(shm.writeIndex - 1) % 20;
      header := shm.buffer[slot];
    }

    /** The two copies of `receiveRaw`. */
    method CopyOut(buffer: array<byte>, header: Header)
      requires pool.Valid() && header.poolOffset + header.dataSize <= POOL_SIZE
      requires buffer != pool.data && 24 + header.dataSize <= buffer.Length
      modifies buffer
      ensures buffer[..] == EncodeHeader(header)
                            + pool.data[header.poolOffset..header.poolOffset + header.dataSize]
                            + old(buffer[24 + header.dataSize..])
    {
      var h, size := EncodeHeader(header), header.dataSize;
      ghost var before := buffer[..];
      MemCpy(buffer, 0, h);
      assert buffer[..] == h + before[24..];
      assert buffer[..24] == h && buffer[24 + size..] == before[24 + size..];
      MemCpy(buffer, 24, pool.data[header.poolOffset..header.poolOffset + size]);
    }

    /** Copies the newest message, header first, into `buffer`. The cursor moves only
        when the message fits; -1 stands for every way of receiving nothing. */
    method ReceiveRaw(buffer: array<byte>, timeoutMs: int, waits: seq<Wait>, shutdown: bool)
      returns (ret: int, used: nat)
      requires shm.Valid() && pool.Valid() && InPool(shm.log) && AllInPool(waits) && buffer != pool.data
      modifies this, shm, shm.buffer, buffer
      ensures shm.Valid() && pool.Valid() && InPool(shm.log)
      ensures Waited(old(lastSeq), |old(shm.log)|, timeoutMs, waits, shutdown, used)
      ensures shm.log == old(shm.log) + Published(waits[..used])
      ensures MayRead(old(lastSeq), |shm.log|, timeoutMs, waits, shutdown, used) ==> shm.log != []
      ensures ret != -1 <==>
                && MayRead(old(lastSeq), |shm.log|, timeoutMs, waits, shutdown, used)
                && 24 + shm.log[|shm.log| - 1].dataSize <= buffer.Length
      ensures ret == -1 ==> lastSeq == old(lastSeq) && buffer[..] == old(buffer[..])
      ensures ret != -1 ==>
                var n := |shm.log| - 1;
                var f := shm.log[n];
                && ret == 24 + f.dataSize
                && lastSeq == Wrap32(n + 1)
                && buffer[..] == EncodeHeader(HeaderOf(shm.log, n))
                                 + pool.data[f.poolOffset..f.poolOffset + f.dataSize] + old(buffer[ret..])
    {
      hide WaitedFor, MustWait, EncodeHeader, Published, AllInPool, Replay;
      var go;
      go, used := AwaitMessage(timeoutMs, waits, shutdown);
      PublishedInPool(waits, used);
      if !go {
        return -1, used;
      }
      var header := ReadNewest();
      var total := 24 + header.dataSize;
      if total > buffer.Length {
        return -1, used;
      }
      CopyOut(buffer, header);
      lastSeq := Wrap32(header.seqNo);
      return total, used;
    }

    /** Hands out a pointer to the newest message without copying it. */
    method ReceiveLoaned(timeoutMs: int, waits: seq<Wait>, shutdown: bool)
      returns (ok: bool, msg: LoanedMessage, used: nat)
      requires shm.Valid()
      modifies this, shm, shm.buffer
      ensures shm.Valid()
      ensures Waited(old(lastSeq), |old(shm.log)|, timeoutMs, waits, shutdown, used)
      ensures shm.log == old(shm.log) + Published(waits[..used])
      ensures ok <==> MayRead(old(lastSeq), |shm.log|, timeoutMs, waits, shutdown, used)
      ensures !ok ==> lastSeq == old(lastSeq)
      ensures ok ==>
                && shm.log != []
                && var n := |shm.log| - 1;
                && msg == LoanedMessage(pool.base + shm.log[n].poolOffset, shm.log[n].dataSize, Wrap32(n + 1))
                && lastSeq == msg.seqNo
    {
      msg := LoanedMessage(0, 0, 0);
      ok, used := AwaitMessage(timeoutMs, waits, shutdown);
      if !ok {
        return;
      }
      var header := ReadNewest();
      msg := LoanedMessage(pool.GetPointer(header.poolOffset), header.dataSize, Wrap32(header.seqNo));
      lastSeq := Wrap32(header.seqNo);
    }
  }
}
