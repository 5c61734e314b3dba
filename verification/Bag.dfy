/** Recording a topic to a file and playing it back. */
module Bag {
  import opened Words
  import opened Outcomes
  import opened PoolLayout
  import opened Sequences

  datatype Frame = Frame(timestamp: i64, data: seq<byte>)

  /** "CBAG" */
  const MAGIC: seq<byte> := [0x43, 0x42, 0x41, 0x47]

  const FRAME_HEADER: nat := 16

  predicate Recordable(fs: seq<Frame>) {
    forall i :: 0 <= i < |fs| ==> 1 <= |fs[i].data| <= POOL_SIZE
  }

  function EncodeFrame(f: Frame): seq<byte> {
    Le(FromI64(f.timestamp), 8) + EncodeSize(|f.data|) + f.data
  }

  function EncodeFrames(fs: seq<Frame>): seq<byte> {
    if fs == [] then [] else EncodeFrame(fs[0]) + EncodeFrames(fs[1..])
  }

  function EncodeTopic(topic: seq<byte>): seq<byte> {
    MAGIC + EncodeSize(|topic|) + topic
  }

  // ----- the recorder -----

  lemma {:induction false} EncodeAppends(fs: seq<Frame>, f: Frame)
    ensures EncodeFrames(fs + [f]) == EncodeFrames(fs) + EncodeFrame(f)
  {
    if fs == [] {
      assert EncodeFrames([f]) == EncodeFrame(f) + EncodeFrames([]);
    } else {
      EncodeAppends(fs[1..], f);
      assert (fs + [f])[1..] == fs[1..] + [f];
    }
  }

  method WriteFrame(file: seq<byte>, f: Frame) returns (r: seq<byte>)
    ensures r == file + EncodeFrame(f)
  {
    r := file + Le(FromI64(f.timestamp), 8);
    r := r + EncodeSize(|f.data|);
    r := r + f.data;
  }

  /** The recording loop: one frame for every message received; `None` is a receive that
      timed out. */
  method RecordFrames(head: seq<byte>, received: seq<Option<Frame>>) returns (file: seq<byte>)
    ensures file == head + EncodeFrames(Present(received))
  {
    file := head;
    ghost var recorded: seq<Frame> := [];
    var k := 0;
    while k < |received|
      invariant k <= |received|
      invariant recorded == Present(received[..k])
      invariant file == head + EncodeFrames(recorded)
    {
      PresentStep(received, k);
      if received[k].Some? {
        var f := received[k].value;
        EncodeAppends(recorded, f);
        Append(head, EncodeFrames(recorded), EncodeFrame(f));
        file := WriteFrame(file, f);
        recorded := recorded + [f];
      }
      k := k + 1;
    }
    assert received[..k] == received;
  }

  /** Writes the topic and then the frames. */
  method DoRecord(topic: seq<byte>, received: seq<Option<Frame>>) returns (file: seq<byte>)
    ensures file == EncodeTopic(topic) + EncodeFrames(Present(received))
  {
    file := MAGIC;
    file := file + EncodeSize(|topic|);
    file := file + topic;
    file := RecordFrames(file, received);
  }

  // ----- the player -----

  /** An input file stream: a short read takes what is left and sets the end flag, and
      after that nothing more is read. */
  class InStream {
    const bytes: seq<byte>
    var pos: nat
    var eof: bool

    ghost predicate Valid()
      reads this
    {
      pos <= |bytes| && (eof ==> pos == |bytes|)
    }

    constructor (bytes: seq<byte>)
      ensures Valid() && this.bytes == bytes && pos == 0 && !eof
    {
      this.bytes := bytes;
      pos, eof := 0, false;
    }

    ghost function Rest(): seq<byte>
      reads this
      requires Valid()
    {
      bytes[pos..]
    }

    method Read(n: nat) returns (got: seq<byte>)
      requires Valid()
      modifies this
      ensures Valid() && eof == (old(eof) || |old(Rest())| < n)
      ensures got == Take(old(Rest()), n) && Rest() == Drop(old(Rest()), n)
      ensures Rest() == old(Rest())[|got|..]
    {
      if eof {
        return [];
      }
      if |bytes| - pos < n {
        got := bytes[pos..];
        pos, eof := |bytes|, true;
      } else {
        got := bytes[pos..pos + n];
        pos := pos + n;
      }
    }

    /** `peek() == EOF` */
    method AtEnd() returns (b: bool)
      requires Valid()
      modifies this
      ensures Valid() && b == (old(Rest()) == []) && Rest() == old(Rest()) && eof == (old(eof) || b)
    {
      b := eof || pos == |bytes|;
      eof := b;
    }
  }

  /** A message played: its declared size, and the bytes the file supplied for it. When
      they are fewer, the rest of the loaned block is whatever it held before. */
  datatype Played = Played(size: nat, got: seq<byte>)

  /** What playback did: the messages published, the time slept in all, and whether it
      ended in an exception because a frame exceeds the pool. */
  datatype Playback = Playback(messages: seq<Played>, slept: int, thrown: bool)

  datatype PlayResult = InvalidFormat | Done(topic: seq<byte>, playback: Playback)

  /** The pause before a frame. */
  function Pause(prev: i64, timestamp: i64): nat {
    if prev != 0 && timestamp > prev then timestamp - prev else 0
  }

  /** Playback of the frame section of a file. */
  function PlayFrames(bytes: seq<byte>, prev: i64): Playback
    decreases |bytes|
  {
    if |bytes| < FRAME_HEADER then Playback([], 0, false)
    else
      var timestamp, size := ToI64(U64Of(bytes[..8])), U64Of(bytes[8..16]);
      var pause, rest := Pause(prev, timestamp), bytes[16..];
      if size > POOL_SIZE then Playback([], pause, true)
      else if |rest| < size then Playback([Played(size, rest)], pause, false)
      else
        var later := PlayFrames(rest[size..], timestamp);
        Playback([Played(size, rest[..size])] + later.messages, pause + later.slept, later.thrown)
  }

  /** Playback of a file, even one that ends within its magic or its topic. */
  function PlayFile(file: seq<byte>, stale: Stale): PlayResult
    requires stale.Valid()
  {
    if Into(Take(file, 4), stale.magic) != MAGIC then InvalidFormat
    else
      var rest := Drop(file, 4);
      var n := U64Of(Into(Take(rest, 8), stale.length));
      var body := Drop(rest, 8);
      Done(Into(Take(body, n), ZeroBytes(n)), PlayFrames(Drop(body, n), 0))
  }

  function After(done: Playback, later: Playback): Playback {
    Playback(done.messages + later.messages, done.slept + later.slept, later.thrown)
  }

  lemma AfterMessage(r: Playback, m: Played, pause: nat, later: Playback)
    ensures After(r, Playback([m] + later.messages, pause + later.slept, later.thrown))
            == After(Playback(r.messages + [m], r.slept + pause, false), later)
  {
    Append(r.messages, [m], later.messages);
  }

  /** One round of the play loop: a file that ends in the frame header adds nothing, and
      one that ends in the payload is at its end afterwards. */
  lemma PlayStep(r: Playback, rest: seq<byte>, prev: i64)
    requires |rest| >= FRAME_HEADER && !r.thrown
    ensures var timestamp, size := ToI64(U64Of(rest[..8])), U64Of(rest[8..16]);
            var got := Take(rest[16..], size);
            var slept := r.slept + Pause(prev, timestamp);
            After(r, PlayFrames(rest, prev)) ==
              if size > POOL_SIZE then Playback(r.messages, slept, true)
              else After(Playback(r.messages + [Played(size, got)], slept, false),
                         PlayFrames(rest[16..][|got|..], timestamp))
  {
    hide U64Of, ToI64, Pause;
    var timestamp, size := ToI64(U64Of(rest[..8])), U64Of(rest[8..16]);
    var got := Take(rest[16..], size);
    if size > POOL_SIZE {
      assert PlayFrames(rest, prev) == Playback([], Pause(prev, timestamp), true);
      assert r.messages + [] == r.messages;
    } else {
      var later := PlayFrames(rest[16..][|got|..], timestamp);
      assert size <= |rest[16..]| ==> got == rest[16..][..size];
      assert |rest[16..]| < size ==> later == Playback([], 0, false);
      assert [Played(size, got)] + [] == [Played(size, got)];
      AfterMessage(r, Played(size, got), Pause(prev, timestamp), later);
    }
  }

  /** Reads magic and topic. */
  method ReadTopic(file: InStream, stale: Stale) returns (ok: bool, topic: seq<byte>)
    requires file.Valid() && !file.eof && stale.Valid()
    modifies file
    ensures file.Valid()
    ensures PlayFile(old(file.Rest()), stale) ==
              if ok then Done(topic, PlayFrames(file.Rest(), 0)) else InvalidFormat
  {
    topic := [];
    var magic := file.Read(4);
    if Into(magic, stale.magic) != MAGIC {
      return false, topic;
    }
    var length := file.Read(8);
    var n := U64Of(Into(length, stale.length));
    topic := file.Read(n);
    topic := Into(topic, ZeroBytes(n));
    ok := true;
  }

  method DoPlay(contents: seq<byte>, stale: Stale) returns (r: PlayResult)
    requires stale.Valid()
    ensures r == PlayFile(contents, stale)
  {
    var file := new InStream(contents);
    assert file.Rest() == contents;
    var ok, topic := ReadTopic(file, stale);
    if !ok {
      return InvalidFormat;
    }
    var playback := PlayStream(file);
    r := Done(topic, playback);
  }

  /** Reads a frame header; `None` if the file ends within it. */
  method ReadFrameHeader(file: InStream) returns (h: Option<(i64, u64)>)
    requires file.Valid() && !file.eof
    modifies file
    ensures file.Valid()
    ensures h.Some? <==> |old(file.Rest())| >= FRAME_HEADER
    ensures h.Some? ==>
              var rest := old(file.Rest());
              && h.value == (ToI64(U64Of(rest[..8])), U64Of(rest[8..16]))
              && file.Rest() == rest[16..] && !file.eof
  {
    var stamp := file.Read(8);
    var length := file.Read(8);
    if file.eof {
      return None;
    }
    assert length == old(file.Rest())[8..16];
    return Some((ToI64(U64Of(stamp)), U64Of(length)));
  }

  /** The play loop, from the first frame on. */
  method PlayStream(file: InStream) returns (r: Playback)
    requires file.Valid()
    modifies file
    ensures r == PlayFrames(old(file.Rest()), 0)
  {
    r := Playback([], 0, false);
    var prev: i64 := 0;
    ghost var all := PlayFrames(file.Rest(), 0);
    var end := file.AtEnd();
    while !end
      invariant file.Valid() && !r.thrown && file.eof == end
      invariant end ==> file.Rest() == []
      invariant all == After(r, PlayFrames(file.Rest(), prev))
      decreases |file.Rest()|, !end
    {
      ghost var rest := file.Rest();
      var header := ReadFrameHeader(file);
      if header.None? {
        break;
      }
      PlayStep(r, rest, prev);
      var (timestamp, size) := header.value;
      r := r.(slept := r.slept + Pause(prev, timestamp));
      if size > POOL_SIZE {
        return r.(thrown := true);
      }
      prev := timestamp;
      var got := file.Read(size);
      r := r.(messages := r.messages + [Played(size, got)]);
      end := file.AtEnd();
    }
  }

  // ----- a recorded file, whole or cut -----

  /** How many of these frames fit, whole, in the first `cut` bytes. */
  function Whole(fs: seq<Frame>, cut: nat): (k: nat)
    ensures k <= |fs|
  {
    if fs == [] || cut < FRAME_HEADER + |fs[0].data| then 0
    else 1 + Whole(fs[1..], cut - FRAME_HEADER - |fs[0].data|)
  }

  /** The bytes of the first `cut` that are left after the whole frames. */
  function Left(fs: seq<Frame>, cut: nat): nat {
    if fs == [] || cut < FRAME_HEADER + |fs[0].data| then cut
    else Left(fs[1..], cut - FRAME_HEADER - |fs[0].data|)
  }

  function Complete(fs: seq<Frame>): seq<Played> {
    if fs == [] then [] else [Played(|fs[0].data|, fs[0].data)] + Complete(fs[1..])
  }

  /** What a cut inside frame `k` still plays: nothing if it falls inside the frame
      header, else one message of the full size of which only `left` bytes are real. */
  function Torn(fs: seq<Frame>, k: nat, left: nat): seq<Played> {
    if k < |fs| && FRAME_HEADER <= left <= FRAME_HEADER + |fs[k].data| then
      [Played(|fs[k].data|, fs[k].data[..left - FRAME_HEADER])]
    else []
  }

  lemma StampIsRead(t: i64)
    ensures ToI64(U64Of(Le(FromI64(t), 8))) == t
  {
    U64RoundTrip(FromI64(t), Le(FromI64(t), 8));
  }

  lemma FrameLayout(f: Frame, rest: seq<byte>)
    ensures var all := EncodeFrame(f) + rest;
            && |all| == 16 + |f.data + rest| && all[..8] == Le(FromI64(f.timestamp), 8)
            && all[8..16] == EncodeSize(|f.data|) && all[16..] == f.data + rest
  {
    var stamp, size := Le(FromI64(f.timestamp), 8), EncodeSize(|f.data|);
    assert EncodeFrame(f) + rest == stamp + size + (f.data + rest);
    Split(stamp, size, f.data + rest);
  }

  lemma CutLayout(all: seq<byte>, cut: nat)
    requires FRAME_HEADER <= cut <= |all|
    ensures all[..cut][..8] == all[..8] && all[..cut][8..16] == all[8..16]
    ensures all[..cut][16..] == all[16..][..cut - 16]
  {
  }

  /** A frame header is read back from the front of what was written, even if only the
      first `cut` bytes are there. */
  lemma FrameIsRead(f: Frame, rest: seq<byte>, cut: nat)
    requires |f.data| <= POOL_SIZE && FRAME_HEADER <= cut <= |EncodeFrame(f) + rest|
    ensures var bytes := (EncodeFrame(f) + rest)[..cut];
            && ToI64(U64Of(bytes[..8])) == f.timestamp && U64Of(bytes[8..16]) == |f.data|
            && cut - 16 <= |f.data + rest| && bytes[16..] == (f.data + rest)[..cut - 16]
  {
    FrameLayout(f, rest);
    CutLayout(EncodeFrame(f) + rest, cut);
    StampIsRead(f.timestamp);
    SizeIsRead(|f.data|);
  }

  lemma PlayWhole(f: Frame, rest: seq<byte>, cut: nat, prev: i64)
    requires |f.data| <= POOL_SIZE && FRAME_HEADER + |f.data| <= cut <= |EncodeFrame(f) + rest|
    ensures var later := PlayFrames(rest[..cut - FRAME_HEADER - |f.data|], f.timestamp);
            PlayFrames((EncodeFrame(f) + rest)[..cut], prev)
            == Playback([Played(|f.data|, f.data)] + later.messages,
                        Pause(prev, f.timestamp) + later.slept, later.thrown)
  {
    FrameIsRead(f, rest, cut);
    var body, n := (f.data + rest)[..cut - 16], |f.data|;
    assert body[..n] == f.data;
    assert body[n..] == rest[..cut - 16 - n];
  }

  lemma PlayTorn(f: Frame, rest: seq<byte>, cut: nat, prev: i64)
    requires |f.data| <= POOL_SIZE && FRAME_HEADER <= cut < FRAME_HEADER + |f.data|
    ensures cut <= |EncodeFrame(f) + rest|
    ensures PlayFrames((EncodeFrame(f) + rest)[..cut], prev)
            == Playback([Played(|f.data|, f.data[..cut - FRAME_HEADER])], Pause(prev, f.timestamp), false)
  {
    FrameIsRead(f, rest, cut);
    assert (f.data + rest)[..cut - 16] == f.data[..cut - 16];
  }

  /** The messages in the first `cut` bytes of these frames. */
  function InCut(fs: seq<Frame>, cut: nat): seq<Played> {
    if fs == [] || cut < FRAME_HEADER then []
    else
      var data := fs[0].data;
      if cut < FRAME_HEADER + |data| then [Played(|data|, data[..cut - FRAME_HEADER])]
      else [Played(|data|, data)] + InCut(fs[1..], cut - FRAME_HEADER - |data|)
  }

  lemma {:induction false} CutIsPlayed(fs: seq<Frame>, cut: nat, prev: i64)
    requires Recordable(fs) && cut <= |EncodeFrames(fs)|
    ensures var p := PlayFrames(EncodeFrames(fs)[..cut], prev); !p.thrown && p.messages == InCut(fs, cut)
    decreases fs
  {
    if fs == [] || cut < FRAME_HEADER {
    } else if cut < FRAME_HEADER + |fs[0].data| {
      PlayTorn(fs[0], EncodeFrames(fs[1..]), cut, prev);
    } else {
      PlayWhole(fs[0], EncodeFrames(fs[1..]), cut, prev);
      CutIsPlayed(fs[1..], cut - FRAME_HEADER - |fs[0].data|, fs[0].timestamp);
    }
  }

  lemma CompleteStep(fs: seq<Frame>, k: nat)
    requires k < |fs|
    ensures Complete(fs[..k + 1]) == [Played(|fs[0].data|, fs[0].data)] + Complete(fs[1..][..k])
  {
    assert fs[..k + 1][1..] == fs[1..][..k];
  }

  lemma TornLater(fs: seq<Frame>, k: nat, left: nat)
    requires fs != []
    ensures Torn(fs, k + 1, left) == Torn(fs[1..], k, left)
  {
  }

  lemma {:induction false} InCutIsWholeThenTorn(fs: seq<Frame>, cut: nat)
    ensures var k := Whole(fs, cut); InCut(fs, cut) == Complete(fs[..k]) + Torn(fs, k, Left(fs, cut))
    decreases fs
  {
    if fs == [] || cut < FRAME_HEADER + |fs[0].data| {
      assert Complete(fs[..0]) == [];
    } else {
      var cut' := cut - FRAME_HEADER - |fs[0].data|;
      InCutIsWholeThenTorn(fs[1..], cut');
      var k := Whole(fs[1..], cut');
      TornLater(fs, k, Left(fs[1..], cut'));
      CompleteStep(fs, k);
      var one, whole := [Played(|fs[0].data|, fs[0].data)], Complete(fs[1..][..k]);
      var torn := Torn(fs[1..], k, Left(fs[1..], cut'));
      Append(one, whole, torn);
    }
  }

  /** A file cut anywhere in its frames plays every whole frame, in order and with its
      own bytes, and then at most the one frame the cut fell in. */
  lemma CutPlaysWholeFrames(fs: seq<Frame>, cut: nat, prev: i64)
    requires Recordable(fs) && cut <= |EncodeFrames(fs)|
    ensures var p, k := PlayFrames(EncodeFrames(fs)[..cut], prev), Whole(fs, cut);
            !p.thrown && p.messages == Complete(fs[..k]) + Torn(fs, k, Left(fs, cut))
  {
    CutIsPlayed(fs, cut, prev);
    InCutIsWholeThenTorn(fs, cut);
  }

  lemma {:induction false} AllAreWhole(fs: seq<Frame>)
    ensures Whole(fs, |EncodeFrames(fs)|) == |fs| && Left(fs, |EncodeFrames(fs)|) == 0
  {
    if fs != [] {
      AllAreWhole(fs[1..]);
    }
  }

  /** The time playback sleeps between these frames. */
  function Slept(fs: seq<Frame>, prev: i64): nat {
    if fs == [] then 0 else Pause(prev, fs[0].timestamp) + Slept(fs[1..], fs[0].timestamp)
  }

  lemma {:induction false} PlaySleeps(fs: seq<Frame>, prev: i64)
    requires Recordable(fs)
    ensures PlayFrames(EncodeFrames(fs), prev).slept == Slept(fs, prev)
    decreases fs
  {
    if fs != [] {
      var f, rest := fs[0], EncodeFrames(fs[1..]);
      var all := EncodeFrame(f) + rest;
      PlayWhole(f, rest, |all|, prev);
      assert all[..|all|] == all && rest[..|all| - FRAME_HEADER - |f.data|] == rest;
      PlaySleeps(fs[1..], f.timestamp);
    }
  }

  /** The frames were stamped by a clock that is past zero and never runs back. */
  predicate Clocked(fs: seq<Frame>) {
    && (forall i :: 0 <= i < |fs| ==> fs[i].timestamp > 0)
    && (forall i, j :: 0 <= i < j < |fs| ==> fs[i].timestamp <= fs[j].timestamp)
  }

  /** The pauses add up to the time the recording took. */
  lemma {:induction false} PausesTelescope(fs: seq<Frame>, prev: i64)
    requires Clocked(fs) && fs != [] && 0 < prev <= fs[0].timestamp
    ensures Slept(fs, prev) == fs[|fs| - 1].timestamp - prev
    decreases fs
  {
    if |fs| > 1 {
      PausesTelescope(fs[1..], fs[0].timestamp);
    }
  }

  // ----- files that are not played to the end -----

  /** The player rejects exactly the files that do not start with the four magic bytes; only
      on a file of less than four bytes does it depend on what the variable held before. */
  lemma RejectsOtherFiles(file: seq<byte>, stale: Stale)
    requires stale.Valid() && |file| >= 4
    ensures PlayFile(file, stale) == InvalidFormat <==> file[..4] != [0x43, 0x42, 0x41, 0x47]
  {
    assert Into(Take(file, 4), stale.magic) == file[..4];
  }

  function LastStamp(fs: seq<Frame>, prev: i64): i64 {
    if fs == [] then prev else fs[|fs| - 1].timestamp
  }

  lemma OversizeAtOnce(stamp: i64, n: nat, rest: seq<byte>, prev: i64)
    requires POOL_SIZE < n < 0x1_0000_0000_0000_0000
    ensures PlayFrames(Le(FromI64(stamp), 8) + EncodeSize(n) + rest, prev) == Playback([], Pause(prev, stamp), true)
  {
    var bytes := Le(FromI64(stamp), 8) + EncodeSize(n) + rest;
    Split(Le(FromI64(stamp), 8), EncodeSize(n), rest);
    StampIsRead(stamp);
    SizeIsRead(n);
    assert bytes[..8] == Le(FromI64(stamp), 8) && bytes[8..16] == EncodeSize(n);
  }

  /** A frame that claims to be larger than the pool ends playback with an exception, after
      everything before it was played and its own pause slept, whatever follows. */
  lemma {:induction false} OversizeThrows(fs: seq<Frame>, stamp: i64, n: nat, rest: seq<byte>, prev: i64)
    requires Recordable(fs) && POOL_SIZE < n < 0x1_0000_0000_0000_0000
    ensures PlayFrames(EncodeFrames(fs) + (Le(FromI64(stamp), 8) + EncodeSize(n) + rest), prev)
            == Playback(Complete(fs), Slept(fs, prev) + Pause(LastStamp(fs, prev), stamp), true)
    decreases fs
  {
    var bad := Le(FromI64(stamp), 8) + EncodeSize(n) + rest;
    if fs == [] {
      assert EncodeFrames(fs) + bad == bad;
      OversizeAtOnce(stamp, n, rest, prev);
    } else {
      var f, later := fs[0], EncodeFrames(fs[1..]) + bad;
      hide Le, EncodeSize, FromI64, EncodeFrame, Pause;
      Append(EncodeFrame(f), EncodeFrames(fs[1..]), bad);
      OversizeThrows(fs[1..], stamp, n, rest, f.timestamp);
      PlayThis(f, later, prev);
    }
  }

  lemma PlayThis(f: Frame, rest: seq<byte>, prev: i64)
    requires |f.data| <= POOL_SIZE
    ensures var later := PlayFrames(rest, f.timestamp);
            PlayFrames(EncodeFrame(f) + rest, prev)
            == Playback([Played(|f.data|, f.data)] + later.messages,
                        Pause(prev, f.timestamp) + later.slept, later.thrown)
  {
    var all := EncodeFrame(f) + rest;
    PlayWhole(f, rest, |all|, prev);
    assert all[..|all|] == all && rest[..|all| - FRAME_HEADER - |f.data|] == rest;
  }

  // ----- the bytes of a file -----

  /** A frame is its time stamp, its size and its data. */
  lemma FrameBytes(f: Frame)
    requires |f.data| < 0x1_0000_0000_0000_0000
    ensures var m := EncodeFrame(f);
            StandsAt(m, 0, 8, FromI64(f.timestamp)) && StandsAt(m, 8, 8, |f.data|) && m[16..] == f.data
  {
    hide Le, StandsAt;
    var m := EncodeFrame(f);
    var stamp, size := Le(FromI64(f.timestamp), 8), Le(|f.data|, 8);
    assert m == [] + stamp + (size + f.data) == stamp + size + f.data;
    LeStands([], FromI64(f.timestamp), 8, size + f.data);
    LeStands(stamp, |f.data|, 8, f.data);
  }

  /** A file is "CBAG", the length of the topic, the topic, and the frames ... */
  lemma FileBytes(topic: seq<byte>, frames: seq<byte>)
    requires |topic| < 0x1_0000_0000_0000_0000
    ensures var file := EncodeTopic(topic) + frames;
            && |file| >= 12 + |topic| && file[..4] == [0x43, 0x42, 0x41, 0x47] && StandsAt(file, 4, 8, |topic|)
            && file[12..12 + |topic|] == topic && file[12 + |topic|..] == frames
  {
    hide Le, StandsAt;
    TopicLayout(topic, frames);
    assert EncodeTopic(topic) + frames == MAGIC + Le(|topic|, 8) + (topic + frames);
    LeStands(MAGIC, |topic|, 8, topic + frames);
  }

  /** ... one after the other: before frame `k` are those before it, and then those after. */
  lemma {:induction false} FramesInOrder(fs: seq<Frame>, k: nat)
    requires k < |fs|
    ensures EncodeFrames(fs) == EncodeFrames(fs[..k]) + EncodeFrame(fs[k]) + EncodeFrames(fs[k + 1..])
    decreases fs
  {
    hide EncodeFrame;
    if k == 0 {
      assert EncodeFrames(fs[..0]) == [];
      assert [] + EncodeFrame(fs[0]) + EncodeFrames(fs[1..]) == EncodeFrames(fs);
    } else {
      FramesInOrder(fs[1..], k - 1);
      assert fs[..k][1..] == fs[1..][..k - 1] && fs[1..][k..] == fs[k + 1..];
      var a, b := EncodeFrame(fs[0]), EncodeFrames(fs[1..][..k - 1]);
      assert EncodeFrames(fs) == a + EncodeFrames(fs[1..]) && EncodeFrames(fs[..k]) == a + b;
      hide EncodeFrames;
      Regroup(a, b, EncodeFrame(fs[k]), EncodeFrames(fs[k + 1..]));
    }
  }

  /** A clock that never moves on costs no time. */
  lemma {:induction false} NoPauseWithoutProgress(fs: seq<Frame>, prev: i64)
    requires forall i, j :: 0 <= i < j < |fs| ==> fs[i].timestamp >= fs[j].timestamp
    requires fs != [] && prev != 0 ==> prev >= fs[0].timestamp
    ensures Slept(fs, prev) == 0
    decreases fs
  {
    if fs != [] {
      NoPauseWithoutProgress(fs[1..], fs[0].timestamp);
    }
  }

  lemma TopicLayout(topic: seq<byte>, rest: seq<byte>)
    ensures var file, n := EncodeTopic(topic) + rest, |topic|;
            && |file| == 12 + n + |rest| && file[..4] == MAGIC && file[4..12] == EncodeSize(n)
            && file[12..12 + n] == topic && file[12 + n..] == rest
  {
    var size, file := EncodeSize(|topic|), EncodeTopic(topic) + rest;
    assert file == MAGIC + size + (topic + rest);
    Split(MAGIC, size, topic + rest);
    Split(MAGIC + size, topic, rest);
  }

  lemma FileIsRead(file: seq<byte>, topic: seq<byte>, rest: seq<byte>, stale: Stale)
    requires stale.Valid()
    requires |file| == 12 + |topic| + |rest| && file[..4] == MAGIC && U64Of(file[4..12]) == |topic|
    requires file[12..12 + |topic|] == topic && file[12 + |topic|..] == rest
    ensures PlayFile(file, stale) == Done(topic, PlayFrames(rest, 0))
  {
    hide U64Of, PlayFrames;
    var n := |topic|;
    assert Into(Take(file, 4), stale.magic) == MAGIC;
    var body := Drop(file, 4);
    assert Take(body, 8) == file[4..12];
    assert Into(Take(body, 8), stale.length) == file[4..12];
    assert Drop(body, 8) == file[12..];
    assert Take(file[12..], n) == topic && Into(topic, ZeroBytes(n)) == topic;
    assert Drop(file[12..], n) == rest;
  }

  lemma TopicIsRead(topic: seq<byte>, rest: seq<byte>, stale: Stale)
    requires stale.Valid() && |topic| < 0x1_0000_0000_0000_0000
    ensures PlayFile(EncodeTopic(topic) + rest, stale) == Done(topic, PlayFrames(rest, 0))
  {
    TopicLayout(topic, rest);
    SizeIsRead(|topic|);
    FileIsRead(EncodeTopic(topic) + rest, topic, rest, stale);
  }

  /** A file that ends within its topic plays nothing, under what there is of the topic filled
      up with zeros; and one that ends within the length takes the rest of that from what the
      variable held before. */
  lemma CutInTopic(topic: seq<byte>, cut: nat, stale: Stale)
    requires stale.Valid() && |topic| < 0x1_0000_0000_0000_0000 && 4 <= cut <= 12 + |topic|
    ensures cut <= |EncodeTopic(topic)|
    ensures var r := PlayFile(EncodeTopic(topic)[..cut], stale);
            && r.Done? && r.playback == Playback([], 0, false)
            && (cut >= 12 ==> r.topic == topic[..cut - 12] + ZeroBytes(|topic| - (cut - 12)))
            && (cut < 12 ==>
                  r.topic == ZeroBytes(U64Of(EncodeSize(|topic|)[..cut - 4] + stale.length[cut - 4..])))
  {
    var file, size := EncodeTopic(topic)[..cut], EncodeSize(|topic|);
    TopicLayout(topic, []);
    assert EncodeTopic(topic) + [] == EncodeTopic(topic);
    SizeIsRead(|topic|);
    hide U64Of, EncodeSize;
    assert Into(Take(file, 4), stale.magic) == MAGIC;
    var rest := Drop(file, 4);
    if cut < 12 {
      assert Take(rest, 8) == rest == size[..cut - 4] && Drop(rest, 8) == [];
      var n := U64Of(Into(rest, stale.length));
      assert Into([], ZeroBytes(n)) == ZeroBytes(n) && Take([], n) == [] == Drop([], n);
    } else {
      var got := topic[..cut - 12];
      assert Take(rest, 8) == size && Into(size, stale.length) == size && Drop(rest, 8) == got;
      assert Take(got, |topic|) == got && Drop(got, |topic|) == [];
      assert Into(got, ZeroBytes(|topic|)) == got + ZeroBytes(|topic| - |got|);
    }
  }

  /** Record, then play: the same topic and the same frames with the same bytes. */
  lemma RoundTrip(topic: seq<byte>, fs: seq<Frame>, stale: Stale)
    requires stale.Valid() && |topic| < 0x1_0000_0000_0000_0000 && Recordable(fs)
    ensures PlayFile(EncodeTopic(topic) + EncodeFrames(fs), stale)
            == Done(topic, Playback(Complete(fs), Slept(fs, 0), false))
  {
    var bytes := EncodeFrames(fs);
    TopicIsRead(topic, bytes, stale);
    CutPlaysWholeFrames(fs, |bytes|, 0);
    AllAreWhole(fs);
    PlaySleeps(fs, 0);
    assert bytes[..|bytes|] == bytes && fs[..|fs|] == fs;
  }

  /** For a sane clock, playback takes as long as the recording did. */
  lemma {:induction false} PlaybackTakesRecordedTime(fs: seq<Frame>)
    requires Clocked(fs) && fs != []
    ensures Slept(fs, 0) == fs[|fs| - 1].timestamp - fs[0].timestamp
  {
    if |fs| > 1 {
      PausesTelescope(fs[1..], fs[0].timestamp);
    }
  }

  /** The same for a file cut anywhere after its topic. */
  lemma CutRoundTrip(topic: seq<byte>, fs: seq<Frame>, cut: nat, stale: Stale)
    requires stale.Valid() && |topic| < 0x1_0000_0000_0000_0000 && Recordable(fs) && cut <= |EncodeFrames(fs)|
    ensures var r, k := PlayFile(EncodeTopic(topic) + EncodeFrames(fs)[..cut], stale), Whole(fs, cut);
            && r.Done? && r.topic == topic && !r.playback.thrown
            && r.playback.messages == Complete(fs[..k]) + Torn(fs, k, Left(fs, cut))
            && |EncodeFrames(fs[..k])| + Left(fs, cut) == cut
            && (k < |fs| ==> Left(fs, cut) < FRAME_HEADER + |fs[k].data|)
  {
    TopicIsRead(topic, EncodeFrames(fs)[..cut], stale);
    CutPlaysWholeFrames(fs, cut, 0);
    WholeIsMost(fs, cut);
  }

  /** `Whole` counts exactly the frames that end at or before the cut. */
  lemma {:induction false} WholeIsMost(fs: seq<Frame>, cut: nat)
    ensures var k := Whole(fs, cut);
            && |EncodeFrames(fs[..k])| + Left(fs, cut) == cut
            && (k < |fs| ==> Left(fs, cut) < FRAME_HEADER + |fs[k].data|)
    decreases fs
  {
    if fs != [] && cut >= FRAME_HEADER + |fs[0].data| {
      var cut' := cut - FRAME_HEADER - |fs[0].data|;
      var k := Whole(fs[1..], cut');
      WholeIsMost(fs[1..], cut');
      assert fs[..k + 1][1..] == fs[1..][..k];
    }
  }
}
