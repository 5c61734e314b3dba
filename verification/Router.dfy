/** The network gateway: a topic sent over a TCP stream, and a stream taken in as a topic. */
module Router {
  import opened Words
  import opened Outcomes
  import opened PoolLayout
  import opened Sequences

  /** What happens next: the shutdown signal, or a `send` or `recv` that moves up to `n`
      bytes and fails if `n` is not positive. */
  datatype Turn = Signal | Count(n: int)

  /** Every call moves something, and shutdown is never requested. */
  predicate Smooth(turns: seq<Turn>) {
    forall i :: 0 <= i < |turns| ==> turns[i].Count? && turns[i].n > 0
  }

  function Clip(n: int, most: nat): int {
    if n < most then n else most
  }

  /** A connected socket, together with the process-wide shutdown flag. */
  class Connection {
    var running: bool
    var turns: seq<Turn>
    /** Everything sent so far. */
    var sent: seq<byte>
    /** What the peer sends, from the next byte on. */
    var inbox: seq<byte>

    constructor (turns: seq<Turn>, inbox: seq<byte>)
      ensures running && this.turns == turns && sent == [] && this.inbox == inbox
    {
      running, this.turns, sent, this.inbox := true, turns, [], inbox;
    }

    /** A look at the flag. The signal handler sets it for good. */
    method IsRunning() returns (b: bool)
      modifies this`running, this`turns
      ensures b == running && (running ==> old(running) && turns == old(turns))
      ensures Smooth(old(turns)) ==> turns == old(turns) && running == old(running)
    {
      if turns != [] && turns[0].Signal? {
        running, turns := false, turns[1..];
      }
      b := running;
    }

    /** How many bytes the next call moves; past the last scripted turn it fails. */
    method NextCount(most: nat) returns (n: int)
      modifies this`turns
      ensures n <= most && |turns| <= |old(turns)|
      ensures n > 0 ==> |turns| < |old(turns)|
      ensures Smooth(old(turns)) ==> Smooth(turns) && |turns| >= |old(turns)| - 1
      ensures Smooth(old(turns)) && old(turns) != [] && most > 0 ==> n > 0
    {
      if turns == [] || turns[0].Signal? {
        return 0;
      }
      n := Clip(turns[0].n, most);
      turns := turns[1..];
    }

    /** Sends `data`, however many calls it takes. Without a failure the result is
        `true`, which after a shutdown does not mean that all was sent. */
    method SendAll(data: seq<byte>) returns (ok: bool)
      modifies this`running, this`turns, this`sent
      ensures old(sent) <= sent <= old(sent) + data
      ensures ok <==> sent == old(sent) + data || !running
      ensures running ==> old(running)
      ensures !old(running) ==> sent == old(sent)
      ensures Smooth(old(turns)) ==> Smooth(turns) && running == old(running)
      ensures Smooth(old(turns)) && |old(turns)| >= |data| ==> ok && |turns| >= |old(turns)| - |data|
    {
      var total := 0;
      while total < |data|
        invariant total <= |data| && sent == old(sent) + data[..total]
        invariant running ==> old(running)
        invariant !old(running) ==> total == 0
        invariant Smooth(old(turns)) ==> Smooth(turns) && running == old(running)
        invariant Smooth(old(turns)) ==> |turns| >= |old(turns)| - total
        decreases |data| - total
      {
        var go := IsRunning();
        if !go {
          break;
        }
        var n := NextCount(|data| - total);
        if n <= 0 {
          return false;
        }
        assert data[..total + n] == data[..total] + data[total..][..n];
        sent := sent + data[total..][..n];
        total := total + n;
      }
      return true;
    }

    /** Fills `n` bytes; `got` are those received. The same result as for sending. */
    method RecvAll(n: nat) returns (ok: bool, got: seq<byte>)
      modifies this`running, this`turns, this`inbox
      ensures |got| <= n && old(inbox) == got + inbox
      ensures ok <==> |got| == n || !running
      ensures running ==> old(running)
      ensures !old(running) ==> got == []
      ensures Smooth(old(turns)) ==> Smooth(turns) && running == old(running)
      ensures Smooth(old(turns)) && |old(turns)| >= |old(inbox)| && old(running) ==>
                |got| == Clip(|old(inbox)|, n) && |turns| >= |inbox|
    {
      got := [];
      while |got| < n
        invariant |got| <= n && old(inbox) == got + inbox
        invariant running ==> old(running)
        invariant !old(running) ==> got == []
        invariant Smooth(old(turns)) ==> Smooth(turns) && running == old(running)
        invariant Smooth(old(turns)) && |old(turns)| >= |old(inbox)| ==> |turns| >= |inbox|
        decreases n - |got|
      {
        var go := IsRunning();
        if !go {
          break;
        }
        var k := NextCount(Clip(|inbox|, n - |got|));
        if k <= 0 {
          return false, got;
        }
        assert got + inbox == got + inbox[..k] + inbox[k..];
        got := got + inbox[..k];
        inbox := inbox[k..];
      }
      return true, got;
    }
  }

  // ----- the exporter -----

  /** "HYBR" */
  const HYBR: seq<byte> := [0x48, 0x59, 0x42, 0x52]

  const HYBRID_HEADER: nat := 12

  /** One exported message: MessagePack metadata, and the payload itself. Both lengths
      are sent as `uint32_t`. */
  datatype Message = Message(meta: seq<byte>, payload: seq<byte>) {
    predicate Sized() {
      |meta| < 0x1_0000_0000 && |payload| < 0x1_0000_0000
    }
  }

  predicate AllSized(ms: seq<Message>) {
    forall m | m in ms :: m.Sized()
  }

  function EncodeHybrid(m: Message): (bs: seq<byte>)
    requires m.Sized()
    ensures |bs| == HYBRID_HEADER + |m.meta| + |m.payload|
  {
    HYBR + Le(|m.meta|, 4) + Le(|m.payload|, 4) + m.meta + m.payload
  }

  function EncodeHybrids(ms: seq<Message>): seq<byte>
    requires AllSized(ms)
  {
    if ms == [] then [] else EncodeHybrid(ms[0]) + EncodeHybrids(ms[1..])
  }

  lemma {:induction false} EncodeAppends(ms: seq<Message>, m: Message)
    requires AllSized(ms) && m.Sized()
    ensures EncodeHybrids(ms + [m]) == EncodeHybrids(ms) + EncodeHybrid(m)
  {
    if ms == [] {
      assert EncodeHybrids([m]) == EncodeHybrid(m) + EncodeHybrids([]);
    } else {
      EncodeAppends(ms[1..], m);
      assert (ms + [m])[1..] == ms[1..] + [m];
      Append(EncodeHybrid(ms[0]), EncodeHybrids(ms[1..]), EncodeHybrid(m));
    }
  }

  /** What has been sent is `goal` while running, and never goes beyond it. */
  predicate OnCourse(running: bool, sent: seq<byte>, goal: seq<byte>) {
    sent <= goal && (running ==> sent == goal)
  }

  lemma CourseGoesOn(was: bool, before: seq<byte>, running: bool, sent: seq<byte>, goal: seq<byte>, piece: seq<byte>)
    requires OnCourse(was, before, goal) && (running ==> was)
    requires before <= sent <= before + piece && (running ==> sent == before + piece)
    requires !was ==> sent == before
    ensures OnCourse(running, sent, goal + piece)
  {
    if was {
      assert before + piece == goal + piece;
    } else {
      assert goal <= goal + piece;
    }
  }

  lemma CourseBreaks(before: seq<byte>, sent: seq<byte>, goal: seq<byte>, piece: seq<byte>, whole: seq<byte>)
    requires before <= goal && before <= sent <= before + piece && goal + piece <= whole
    requires sent != before ==> before == goal
    ensures sent <= whole
  {
    if sent != before {
      assert before + piece == goal + piece;
    }
  }

  /** One of the five sends that make up a frame; `goal` is what should have been sent
      before it, and `whole` what will have been once the frame is out. */
  method SendPiece(conn: Connection, ghost goal: seq<byte>, piece: seq<byte>, ghost whole: seq<byte>) returns (ok: bool)
    requires OnCourse(conn.running, conn.sent, goal) && goal + piece <= whole
    modifies conn`running, conn`turns, conn`sent
    ensures conn.running ==> old(conn.running)
    ensures conn.sent <= whole
    ensures ok ==> OnCourse(conn.running, conn.sent, goal + piece)
    ensures Smooth(old(conn.turns)) ==> Smooth(conn.turns) && conn.running == old(conn.running)
    ensures Smooth(old(conn.turns)) && |old(conn.turns)| >= |piece| ==>
              ok && |conn.turns| >= |old(conn.turns)| - |piece|
  {
    ghost var was, before := conn.running, conn.sent;
    ok := conn.SendAll(piece);
    CourseBreaks(before, conn.sent, goal, piece, whole);
    if ok {
      CourseGoesOn(was, before, conn.running, conn.sent, goal, piece);
    }
  }

  lemma FramePieces(g: seq<byte>, a: seq<byte>, b: seq<byte>, c: seq<byte>, d: seq<byte>, e: seq<byte>)
    ensures g + a + b + c + d + e == g + (a + b + c + d + e)
    ensures g + a <= g + a + b <= g + a + b + c <= g + a + b + c + d <= g + a + b + c + d + e
  {
  }

  method SendFrame(conn: Connection, ghost goal: seq<byte>, m: Message) returns (ok: bool)
    requires m.Sized() && OnCourse(conn.running, conn.sent, goal)
    modifies conn`running, conn`turns, conn`sent
    ensures conn.running ==> old(conn.running)
    ensures conn.sent <= goal + EncodeHybrid(m)
    ensures ok ==> OnCourse(conn.running, conn.sent, goal + EncodeHybrid(m))
    ensures Smooth(old(conn.turns)) ==> Smooth(conn.turns) && conn.running == old(conn.running)
    ensures Smooth(old(conn.turns)) && |old(conn.turns)| >= |EncodeHybrid(m)| ==>
              ok && |conn.turns| >= |old(conn.turns)| - |EncodeHybrid(m)|
  {
    var metaLen, payloadLen := Le(|m.meta|, 4), Le(|m.payload|, 4);
    ghost var whole := goal + EncodeHybrid(m);
    FramePieces(goal, HYBR, metaLen, payloadLen, m.meta, m.payload);
    ok := SendPiece(conn, goal, HYBR, whole);
    if !ok {
      return;
    }
    ok := SendPiece(conn, goal + HYBR, metaLen, whole);
    if !ok {
      return;
    }
    ok := SendPiece(conn, goal + HYBR + metaLen, payloadLen, whole);
    if !ok {
      return;
    }
    ok := SendPiece(conn, goal + HYBR + metaLen + payloadLen, m.meta, whole);
    if !ok {
      return;
    }
    ok := SendPiece(conn, goal + HYBR + metaLen + payloadLen + m.meta, m.payload, whole);
  }

  /** A frame byte by byte: "HYBR", both lengths, metadata, payload. */
  lemma HybridBytes(m: Message)
    requires m.Sized()
    ensures var bs := EncodeHybrid(m);
            && bs[..4] == [0x48, 0x59, 0x42, 0x52] && StandsAt(bs, 4, 4, |m.meta|) && StandsAt(bs, 8, 4, |m.payload|)
            && bs[12..12 + |m.meta|] == m.meta && bs[12 + |m.meta|..] == m.payload
  {
    var bs := EncodeHybrid(m);
    var a, b := Le(|m.meta|, 4), Le(|m.payload|, 4);
    assert bs == HYBR + a + (b + m.meta + m.payload) == HYBR + a + b + (m.meta + m.payload);
    LeStands(HYBR, |m.meta|, 4, b + m.meta + m.payload);
    LeStands(HYBR + a, |m.payload|, 4, m.meta + m.payload);
  }

  /** The export loop; `None` is a receive that timed out. `taken` is how many of the receives
      it made before the connection failed or shutdown was requested: what went out is all
      of their messages, or a prefix of that. */
  method DoExport(conn: Connection, received: seq<Option<Message>>) returns (taken: nat, failed: bool)
    requires conn.running && conn.sent == []
    requires forall i :: 0 <= i < |received| && received[i].Some? ==> received[i].value.Sized()
    modifies conn`running, conn`turns, conn`sent
    ensures taken <= |received| && AllSized(Present(received[..taken]))
    ensures conn.sent <= EncodeHybrids(Present(received[..taken]))
    ensures conn.running && !failed ==> taken == |received| && conn.sent == EncodeHybrids(Present(received[..taken]))
    ensures Smooth(old(conn.turns)) && |old(conn.turns)| >= |EncodeHybrids(Present(received[..taken]))| ==>
              conn.running && !failed
  {
    taken, failed := 0, false;
    ghost var out: seq<Message> := [];
    var go := conn.IsRunning();
    while go && taken < |received|
      invariant taken <= |received| && go == conn.running
      invariant out == Present(received[..taken]) && AllSized(out)
      invariant OnCourse(conn.running, conn.sent, EncodeHybrids(out))
      invariant Smooth(old(conn.turns)) ==> Smooth(conn.turns) && conn.running
      invariant Smooth(old(conn.turns)) && |old(conn.turns)| >= |EncodeHybrids(out)| ==>
                  |conn.turns| >= |old(conn.turns)| - |EncodeHybrids(out)|
    {
      PresentStep(received, taken);
      taken := taken + 1;
      if received[taken - 1].Some? {
        var m := received[taken - 1].value;
        EncodeAppends(out, m);
        var ok := SendFrame(conn, EncodeHybrids(out), m);
        out := out + [m];
        if !ok {
          return taken, true;
        }
      }
      go := conn.IsRunning();
    }
  }

  // ----- reading what was exported -----

  /** What the documented header parse makes of a stream: every whole frame. */
  function Parse(stream: seq<byte>): seq<Message>
    decreases |stream|
  {
    if |stream| < HYBRID_HEADER || stream[..4] != HYBR then []
    else
      var metaLen, payloadLen := U32Of(stream[4..8]), U32Of(stream[8..12]);
      if |stream| < HYBRID_HEADER + metaLen + payloadLen then []
      else
        var body, rest := stream[12..12 + metaLen + payloadLen], stream[12 + metaLen + payloadLen..];
        [Message(body[..metaLen], body[metaLen..])] + Parse(rest)
  }

  lemma HeaderLayout(head: seq<byte>, a: seq<byte>, b: seq<byte>, rest: seq<byte>, cut: nat)
    requires |head| == |a| == |b| == 4 && 12 <= cut <= |head + a + b + rest|
    ensures var s := (head + a + b + rest)[..cut];
            && |s| == cut && s[..4] == head && s[4..8] == a && s[8..12] == b && s[12..] == rest[..cut - 12]
  {
    var all := head + a + b + rest;
    assert all[..12] == head + a + b && all[12..] == rest;
    assert all[..cut] == head + a + b + rest[..cut - 12];
  }

  lemma BodyLayout(body: seq<byte>, more: seq<byte>, cut: nat)
    requires |body| <= cut <= |body + more|
    ensures (body + more)[..cut][..|body|] == body && (body + more)[..cut][|body|..] == more[..cut - |body|]
  {
  }

  lemma SliceOfSlice(s: seq<byte>, k: nat, n: nat)
    requires k + n <= |s|
    ensures s[k..k + n] == s[k..][..n] && s[k + n..] == s[k..][n..]
  {
  }

  /** The parse of a stream with a whole header on which the facts are known. */
  lemma ParseStep(s: seq<byte>, meta: seq<byte>, payload: seq<byte>, rest: seq<byte>)
    requires |s| >= HYBRID_HEADER && s[..4] == HYBR
    requires U32Of(s[4..8]) == |meta| && U32Of(s[8..12]) == |payload|
    requires var n := |meta| + |payload|;
             |s| >= 12 + n ==> s[12..12 + n] == meta + payload && s[12 + n..] == rest
    ensures Parse(s) == if |s| < 12 + |meta| + |payload| then [] else [Message(meta, payload)] + Parse(rest)
  {
    hide U32Of;
    var body := meta + payload;
    assert body[..|meta|] == meta && body[|meta|..] == payload;
  }

  lemma FrameParses(m: Message, more: seq<byte>, cut: nat)
    requires m.Sized() && cut <= |EncodeHybrid(m) + more|
    ensures Parse((EncodeHybrid(m) + more)[..cut]) ==
              if cut < |EncodeHybrid(m)| then [] else [m] + Parse(more[..cut - |EncodeHybrid(m)|])
  {
    var s, n := (EncodeHybrid(m) + more)[..cut], |m.meta| + |m.payload|;
    if cut >= HYBRID_HEADER {
      var metaLen, payloadLen := Le(|m.meta|, 4), Le(|m.payload|, 4);
      HybridLayout(m, more);
      HeaderLayout(HYBR, metaLen, payloadLen, m.meta + m.payload + more, cut);
      U32RoundTrip(|m.meta|, metaLen);
      U32RoundTrip(|m.payload|, payloadLen);
      if cut >= 12 + n {
        BodyLayout(m.meta + m.payload, more, cut - 12);
        SliceOfSlice(s, 12, n);
        ParseStep(s, m.meta, m.payload, more[..cut - 12 - n]);
      } else {
        ParseStep(s, m.meta, m.payload, []);
      }
    }
  }

  lemma HybridLayout(m: Message, more: seq<byte>)
    requires m.Sized()
    ensures EncodeHybrid(m) + more == HYBR + Le(|m.meta|, 4) + Le(|m.payload|, 4) + (m.meta + m.payload + more)
  {
  }

  /** A receiver that got only the first `cut` bytes reads every message that was sent
      whole, as it was sent, and nothing else. */
  lemma {:induction false} CutParses(ms: seq<Message>, cut: nat)
    requires AllSized(ms) && cut <= |EncodeHybrids(ms)|
    ensures var got := Parse(EncodeHybrids(ms)[..cut]);
            && got <= ms && AllSized(got) && |EncodeHybrids(got)| <= cut
            && (|got| < |ms| ==> cut < |EncodeHybrids(got)| + |EncodeHybrid(ms[|got|])|)
    decreases ms
  {
    if ms != [] {
      var m, more := ms[0], EncodeHybrids(ms[1..]);
      FrameParses(m, more, cut);
      if cut >= |EncodeHybrid(m)| {
        CutParses(ms[1..], cut - |EncodeHybrid(m)|);
        var got := Parse(more[..cut - |EncodeHybrid(m)|]);
        assert ([m] + got)[1..] == got;
        assert [m] + got <= [m] + ms[1..] == ms;
      }
    }
  }

  /** So no receiver ever reads a message that was not exported, whatever the chunking,
      the failures and the moment of the shutdown; and it reads all once all is sent. */
  lemma ExportedIsParsed(ms: seq<Message>, sent: seq<byte>)
    requires AllSized(ms) && sent <= EncodeHybrids(ms)
    ensures Parse(sent) <= ms
    ensures sent == EncodeHybrids(ms) ==> Parse(sent) == ms
  {
    CutParses(ms, |sent|);
    assert EncodeHybrids(ms)[..|sent|] == sent;
    var k := |Parse(sent)|;
    assert Parse(sent) == ms[..k];
    if sent == EncodeHybrids(ms) && k < |ms| {
      AtLeast(ms, k);
    }
  }

  lemma {:induction false} AtLeast(ms: seq<Message>, k: nat)
    requires AllSized(ms) && k < |ms|
    ensures AllSized(ms[..k]) && |EncodeHybrids(ms)| >= |EncodeHybrids(ms[..k])| + |EncodeHybrid(ms[k])|
  {
    if k > 0 {
      AtLeast(ms[1..], k - 1);
      assert ms[..k][1..] == ms[1..][..k - 1];
    }
  }

  // ----- the importer -----

  /** "CIPC" */
  const CIPC: seq<byte> := [0x43, 0x49, 0x50, 0x43]

  /** The frames of an import stream: those it holds whole, and whether they end before a
      frame larger than the pool, which ends the import with an exception. */
  datatype Frames = Frames(whole: seq<seq<byte>>, oversize: bool)

  function FramesOf(stream: seq<byte>): Frames
    decreases |stream|
  {
    if |stream| < 8 then Frames([], false)
    else
      var size, rest := U64Of(stream[..8]), stream[8..];
      if size > POOL_SIZE then Frames([], true)
      else if |rest| < size then Frames([], false)
      else
        var later := FramesOf(rest[size..]);
        Frames([rest[..size]] + later.whole, later.oversize)
  }

  /** A complete frame: its size and its data. */
  predicate IsFrame(bytes: seq<byte>, data: seq<byte>) {
    |bytes| == 8 + |data| && U64Of(bytes[..8]) == |data| <= POOL_SIZE && bytes[8..] == data
  }

  predicate GoesOn(bytes: seq<byte>, frames: seq<seq<byte>>, tail: seq<byte>) {
    var f := FramesOf(tail);
    FramesOf(bytes + tail) == Frames(frames + f.whole, f.oversize)
  }

  /** `bytes` is nothing but these frames, whatever comes after it. */
  ghost predicate Parsed(bytes: seq<byte>, frames: seq<seq<byte>>) {
    forall tail :: GoesOn(bytes, frames, tail)
  }

  lemma NothingParsed()
    ensures Parsed([], [])
  {
    forall tail: seq<byte> ensures GoesOn([], [], tail) {
      assert [] + tail == tail;
      assert [] + FramesOf(tail).whole == FramesOf(tail).whole;
    }
  }

  lemma FrameIsTaken(frame: seq<byte>, data: seq<byte>, tail: seq<byte>)
    requires IsFrame(frame, data)
    ensures GoesOn(frame, [data], tail)
  {
    var s := frame + tail;
    assert s[..8] == frame[..8] && s[8..] == data + tail;
    assert (data + tail)[..|data|] == data && (data + tail)[|data|..] == tail;
  }

  lemma ParsedStep(bytes: seq<byte>, frames: seq<seq<byte>>, frame: seq<byte>, data: seq<byte>)
    requires Parsed(bytes, frames) && IsFrame(frame, data)
    ensures Parsed(bytes + frame, frames + [data])
  {
    forall tail ensures GoesOn(bytes + frame, frames + [data], tail) {
      FrameIsTaken(frame, data, tail);
      assert GoesOn(bytes, frames, frame + tail);
      assert bytes + frame + tail == bytes + (frame + tail);
      assert frames + [data] + FramesOf(tail).whole == frames + ([data] + FramesOf(tail).whole);
    }
  }

  lemma ParsedEnds(bytes: seq<byte>, frames: seq<seq<byte>>, tail: seq<byte>)
    requires Parsed(bytes, frames) && FramesOf(tail).whole == []
    ensures FramesOf(bytes + tail) == Frames(frames, FramesOf(tail).oversize)
  {
    assert GoesOn(bytes, frames, tail);
    assert frames + [] == frames;
  }

  /** The connection never fails, is not shut down, and delivers all there is. */
  ghost predicate Delivers(conn: Connection)
    reads conn
  {
    conn.running && Smooth(conn.turns) && |conn.turns| >= |conn.inbox|
  }

  datatype Step = Failed | TooLarge | Received(data: seq<byte>)

  /** Receives one frame into loaned memory. `garbage` is what the size variable holds
      while unset: after a shutdown the receives report success with less than a frame.
      `tail` is what was taken from the connection. */
  method ImportFrame(conn: Connection, garbage: u64) returns (step: Step, ghost tail: seq<byte>)
    requires conn.running
    modifies conn`running, conn`turns, conn`inbox
    ensures old(conn.inbox) == tail + conn.inbox
    ensures (step.Received? && IsFrame(tail, step.data)) || FramesOf(tail).whole == []
    ensures conn.running && step.Received? ==> IsFrame(tail, step.data)
    ensures conn.running ==> (step.TooLarge? <==> FramesOf(tail).oversize)
    ensures old(Delivers(conn)) ==>
              Delivers(conn) && (!step.Received? ==> FramesOf(old(conn.inbox)) == Frames([], step.TooLarge?))
  {
    var ok, header := conn.RecvAll(8);
    tail := header;
    if !ok {
      return Failed, tail;
    }
    var size := if |header| == 8 then U64Of(header) else garbage;
    assert |header| == 8 ==> header[..8] == header;
    if size > POOL_SIZE {
      return TooLarge, tail;
    }
    var data;
    ok, data := conn.RecvAll(size);
    tail := header + data;
    assert tail[..|header|] == header && tail[|header|..] == data;
    step := if ok then Received(data) else Failed;
  }

  /** The published frames are those of these bytes, except that shutdown may have come
      just before the last. */
  predicate FramesFrom(frames: Frames, bytes: seq<byte>, running: bool) {
    var all := FramesOf(bytes);
    && frames.whole <= all.whole && |all.whole| <= |frames.whole| + 1
    && (running ==> frames == all)
  }

  /** The import loop. Published are exactly the frames received whole, even though a
      receive that shutdown cut short passes for a complete one: only a frame completed
      just as shutdown came can be missing. While no call fails and no shutdown comes, the
      result depends on the peer's bytes alone, not on how they arrive. */
  method ImportFrames(conn: Connection, garbage: u64)
    returns (published: seq<seq<byte>>, thrown: bool, ghost bytes: seq<byte>)
    modifies conn`running, conn`turns, conn`inbox
    ensures old(conn.inbox) == bytes + conn.inbox
    ensures FramesFrom(Frames(published, thrown), bytes, conn.running)
    ensures conn.running ==> old(conn.running)
    ensures old(Delivers(conn)) ==> conn.running && Frames(published, thrown) == FramesOf(old(conn.inbox))
  {
    published, thrown, bytes := [], false, [];
    ghost var frames: seq<seq<byte>> := [];
    NothingParsed();
    var go := conn.IsRunning();
    while go
      invariant old(conn.inbox) == bytes + conn.inbox && FramesOf(bytes).whole == frames && !thrown
      invariant go == conn.running && (go ==> published == frames && Parsed(bytes, frames))
      invariant published <= frames && |frames| <= |published| + 1
      invariant (go ==> old(conn.running)) && (old(Delivers(conn)) ==> Delivers(conn))
      decreases |conn.inbox|, go
    {
      ghost var rest := conn.inbox;
      var step, tail := ImportFrame(conn, garbage);
      Append(bytes, tail, conn.inbox);
      if step.Received? && IsFrame(tail, step.data) {
        ParsedStep(bytes, frames, tail, step.data);
        frames := frames + [step.data];
        ParsedEnds(bytes + tail, frames, []);
        assert bytes + tail + [] == bytes + tail;
      } else {
        ParsedEnds(bytes, frames, tail);
      }
      if !step.Received? && FramesOf(rest).whole == [] {
        ParsedEnds(bytes, frames, rest);
      }
      bytes := bytes + tail;
      if !step.Received? {
        return published, step.TooLarge?, bytes;
      }
      go := conn.IsRunning();
      if go {
        published := published + [step.data];
      }
      go := conn.IsRunning();
    }
  }

  datatype Import = BadMagic | Imported(topic: seq<byte>, frames: Frames)

  /** The import from the bytes received for the length, the topic and the frames. */
  function ImportFrom(length: seq<byte>, topic: seq<byte>, frames: seq<byte>, stale: Stale): Import
    requires stale.Valid() && |length| <= 8 && |topic| <= U64Of(Into(length, stale.length))
  {
    Imported(Into(topic, ZeroBytes(U64Of(Into(length, stale.length)))), FramesOf(frames))
  }

  /** What an import makes of a stream, even one that ends within the topic. */
  function ImportOf(stream: seq<byte>, stale: Stale): Import
    requires stale.Valid()
  {
    if Take(stream, 4) != CIPC then BadMagic
    else
      var rest := Drop(stream, 4);
      var length, body := Take(rest, 8), Drop(rest, 8);
      var n := U64Of(Into(length, stale.length));
      ImportFrom(length, Take(body, n), Drop(body, n), stale)
  }

  lemma TakeDrop(s: seq<byte>, part: seq<byte>, rest: seq<byte>, n: nat)
    requires s == part + rest && |part| == Clip(|s|, n)
    ensures part == Take(s, n) && rest == Drop(s, n)
  {
  }

  /** Receives into a variable; on a connection that delivers, what is there. */
  method Receive(conn: Connection, n: nat) returns (ok: bool, got: seq<byte>)
    modifies conn`running, conn`turns, conn`inbox
    ensures old(conn.inbox) == got + conn.inbox && |got| <= n && (ok <==> |got| == n || !conn.running)
    ensures conn.running ==> old(conn.running)
    ensures old(Delivers(conn)) ==>
              Delivers(conn) && got == Take(old(conn.inbox), n) && conn.inbox == Drop(old(conn.inbox), n)
  {
    ghost var all := conn.inbox;
    ok, got := conn.RecvAll(n);
    if |got| == Clip(|all|, n) {
      TakeDrop(all, got, conn.inbox, n);
    }
  }

  /** Reads the handshake. The results of the receives for length and topic are not
      looked at; `magic`, `length` and `topic` are what they got. */
  method ReadHandshake(conn: Connection, stale: Stale)
    returns (named: bool, name: seq<byte>, ghost magic: seq<byte>, ghost length: seq<byte>, ghost topic: seq<byte>)
    requires conn.running && stale.Valid()
    modifies conn`running, conn`turns, conn`inbox
    ensures old(conn.inbox) == magic + (length + (topic + conn.inbox))
    ensures !named ==> length == topic == []
    ensures conn.running ==> (named <==> magic == CIPC)
    ensures named ==> |length| <= 8 && |topic| <= U64Of(Into(length, stale.length))
    ensures named ==> name == Into(topic, ZeroBytes(U64Of(Into(length, stale.length))))
    ensures old(Delivers(conn)) ==> Delivers(conn)
    ensures old(Delivers(conn)) ==>
              ImportOf(old(conn.inbox), stale) ==
                if named then ImportFrom(length, topic, conn.inbox, stale) else BadMagic
  {
    hide U64Of, FramesOf, Smooth;
    name, length, topic := [], [], [];
    var ok, word := Receive(conn, 4);
    magic := word;
    named := ok && Into(word, stale.magic) == CIPC;
    assert |word| == 4 ==> Into(word, stale.magic) == word;
    if named {
      var _, size := Receive(conn, 8);
      length := size;
      var n := U64Of(Into(size, stale.length));
      var _, got := Receive(conn, n);
      topic := got;
      name := Into(got, ZeroBytes(n));
    } else {
      assert magic + ([] + ([] + conn.inbox)) == magic + conn.inbox;
    }
  }

  /** The import. `bytes` is what was received for frames. */
  method DoImport(conn: Connection, stale: Stale, garbage: u64)
    returns (r: Import, ghost magic: seq<byte>, ghost length: seq<byte>, ghost topic: seq<byte>, ghost bytes: seq<byte>)
    requires conn.running && stale.Valid()
    modifies conn`running, conn`turns, conn`inbox
    ensures old(conn.inbox) == magic + (length + (topic + (bytes + conn.inbox)))
    ensures conn.running ==> (r.BadMagic? <==> magic != CIPC)
    ensures r.Imported? ==>
              && |length| <= 8 && |topic| <= U64Of(Into(length, stale.length))
              && r.topic == Into(topic, ZeroBytes(U64Of(Into(length, stale.length))))
              && FramesFrom(r.frames, bytes, conn.running)
    ensures old(Delivers(conn)) ==> r == ImportOf(old(conn.inbox), stale)
  {
    hide U64Of, FramesOf, Smooth, ImportOf, Delivers;
    bytes := [];
    var named, name;
    named, name, magic, length, topic := ReadHandshake(conn, stale);
    if !named {
      assert [] + conn.inbox == conn.inbox;
      return BadMagic, magic, length, topic, bytes;
    }
    var published, thrown;
    published, thrown, bytes := ImportFrames(conn, garbage);
    r := Imported(name, Frames(published, thrown));
  }

  /** Frames as a peer sends them for import. */
  function EncodeFrames(frames: seq<seq<byte>>): seq<byte> {
    if frames == [] then [] else EncodeFrames(frames[..|frames| - 1]) + FrameOf(frames[|frames| - 1])
  }

  function FrameOf(data: seq<byte>): seq<byte> {
    EncodeSize(|data|) + data
  }

  lemma FrameIsWhole(data: seq<byte>)
    requires |data| <= POOL_SIZE
    ensures IsFrame(FrameOf(data), data)
  {
    SizeIsRead(|data|);
    assert FrameOf(data)[..8] == EncodeSize(|data|) && FrameOf(data)[8..] == data;
  }

  /** The importer's format carries any frames that fit the pool. */
  lemma {:induction false} FramesComeBack(frames: seq<seq<byte>>)
    requires forall i :: 0 <= i < |frames| ==> |frames[i]| <= POOL_SIZE
    ensures Parsed(EncodeFrames(frames), frames)
    ensures FramesOf(EncodeFrames(frames)) == Frames(frames, false)
  {
    if frames == [] {
      NothingParsed();
    } else {
      var n := |frames| - 1;
      var data := frames[n];
      FramesComeBack(frames[..n]);
      FrameIsWhole(data);
      ParsedStep(EncodeFrames(frames[..n]), frames[..n], FrameOf(data), data);
      assert frames == frames[..n] + [data];
    }
    ParsedEnds(EncodeFrames(frames), frames, []);
    assert EncodeFrames(frames) + [] == EncodeFrames(frames);
  }

  /** A whole stream in the import format: topic and frames are taken in as they were. */
  lemma ImportComesBack(topic: seq<byte>, frames: seq<seq<byte>>, stale: Stale)
    requires stale.Valid() && |topic| < 0x1_0000_0000_0000_0000
    requires forall i :: 0 <= i < |frames| ==> |frames[i]| <= POOL_SIZE
    ensures ImportOf(CIPC + EncodeSize(|topic|) + topic + EncodeFrames(frames), stale)
            == Imported(topic, Frames(frames, false))
  {
    FramesComeBack(frames);
    SizeIsRead(|topic|);
    var size, bytes := EncodeSize(|topic|), EncodeFrames(frames);
    hide U64Of, FramesOf, EncodeFrames, EncodeSize;
    Append(CIPC, size, topic + bytes);
    assert CIPC + size + topic + bytes == CIPC + (size + (topic + bytes));
    TakeDrop(CIPC + (size + (topic + bytes)), CIPC, size + (topic + bytes), 4);
    TakeDrop(size + (topic + bytes), size, topic + bytes, 8);
    TakeDrop(topic + bytes, topic, bytes, |topic|);
    assert Into(size, stale.length) == size && Into(topic, ZeroBytes(|topic|)) == topic;
  }

  /** The import format byte by byte: "CIPC", the length of the topic and the topic ... */
  lemma HandshakeBytes(topic: seq<byte>)
    requires |topic| < 0x1_0000_0000_0000_0000
    ensures var head := CIPC + EncodeSize(|topic|) + topic;
            && head[..4] == [0x43, 0x49, 0x50, 0x43] && StandsAt(head, 4, 8, |topic|) && head[12..] == topic
  {
    hide Le, StandsAt;
    assert EncodeSize(|topic|) == Le(|topic|, 8);
    LeStands(CIPC, |topic|, 8, topic);
  }

  /** ... and then the frames, each after its size ... */
  lemma FrameBytes(data: seq<byte>)
    requires |data| < 0x1_0000_0000_0000_0000
    ensures StandsAt(FrameOf(data), 0, 8, |data|) && FrameOf(data)[8..] == data
  {
    hide Le, StandsAt;
    assert EncodeSize(|data|) == Le(|data|, 8);
    assert FrameOf(data) == [] + Le(|data|, 8) + data;
    LeStands([], |data|, 8, data);
  }

  /** ... one after the other. */
  lemma FramesInOrder(frames: seq<seq<byte>>, data: seq<byte>)
    ensures EncodeFrames([]) == [] && EncodeFrames(frames + [data]) == EncodeFrames(frames) + FrameOf(data)
  {
    hide FrameOf;
    assert (frames + [data])[..|frames|] == frames;
  }

  /** A stream that does not start with the four magic bytes is rejected, and only that. */
  lemma RejectsOtherStreams(stream: seq<byte>, stale: Stale)
    requires stale.Valid()
    ensures ImportOf(stream, stale) == BadMagic <==> !([0x43, 0x49, 0x50, 0x43] <= stream)
  {
    assert |stream| >= 4 ==> Take(stream, 4) == stream[..4];
  }

  /** A frame that claims to be larger than the pool ends the import with an exception, after
      everything before it was published, whatever follows. */
  lemma OversizeEndsImport(frames: seq<seq<byte>>, n: nat, rest: seq<byte>)
    requires (forall i :: 0 <= i < |frames| ==> |frames[i]| <= POOL_SIZE) && POOL_SIZE < n < 0x1_0000_0000_0000_0000
    ensures FramesOf(EncodeFrames(frames) + (EncodeSize(n) + rest)) == Frames(frames, true)
  {
    FramesComeBack(frames);
    SizeIsRead(n);
    var bad := EncodeSize(n) + rest;
    assert bad[..8] == EncodeSize(n);
    assert FramesOf(bad) == Frames([], true);
    ParsedEnds(EncodeFrames(frames), frames, bad);
  }
}
