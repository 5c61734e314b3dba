/** A topic over UDP: the network may drop, repeat and reorder what is sent. */
module UdpTopic {
  import opened Words
  import opened Outcomes
  import opened QosEnvelope

  class UDPPublisher {
    var currentSeq: u32

    constructor ()
      ensures currentSeq == 0
    {
      currentSeq := 0;
    }

    /** Sends one packet under the next sequence number. `data` is `None` for a null
        pointer; `sent` is what `sendto` returned. */
    method Publish(data: Option<seq<byte>>, now: u64, sent: int) returns (ok: bool, packet: Option<seq<byte>>)
      modifies this
      ensures packet.Some? <==> data.Some? && data.value != []
      ensures packet.None? ==> !ok && currentSeq == old(currentSeq)
      ensures packet.Some? ==>
                && currentSeq == Wrap32(old(currentSeq) + 1)
                && packet.value == Packet(QoSHeader(currentSeq, now, 0, 0), data.value)
                && (ok <==> sent == ENVELOPE + |data.value|)
    {
      if data.None? || data.value == [] {
        return false, None;
      }
      currentSeq := Wrap32(currentSeq + 1);
      var p := Packet(QoSHeader(currentSeq, now, 0, 0), data.value);
      return sent == |p|, Some(p);
    }
  }

  /** The time line moves on: nothing accepted yet, or a number above the last one. */
  predicate Accepts(last: u32, d: Option<seq<byte>>) {
    && d.Some? && ENVELOPE <= |d.value|
    && (last == 0 || HeaderOf(Received(d.value)).seqId > last)
  }

  /** The subscriber's cursor after one `recvfrom`; `None` is a failed one. */
  function Cursor(last: u32, d: Option<seq<byte>>): u32 {
    if Accepts(last, d) then HeaderOf(Received(d.value)).seqId else last
  }

  function Delivered(last: u32, d: Option<seq<byte>>): seq<byte> {
    if Accepts(last, d) then PayloadOf(Received(d.value)) else []
  }

  class UDPSubscriber {
    var lastValidSeq: u32

    constructor ()
      ensures lastValidSeq == 0
    {
      lastValidSeq := 0;
    }

    method Receive(datagram: Option<seq<byte>>) returns (s: seq<byte>)
      modifies this
      ensures s == Delivered(old(lastValidSeq), datagram)
      ensures lastValidSeq == Cursor(old(lastValidSeq), datagram)
    {
      if datagram.None? {
        return [];
      }
      var buffer := Received(datagram.value);
      if |buffer| < ENVELOPE {
        return [];
      }
      var header := HeaderOf(buffer);
      if lastValidSeq != 0 && header.seqId <= lastValidSeq {
        return [];
      }
      lastValidSeq := header.seqId;
      return buffer[ENVELOPE..];
    }
  }

  /** Of packets, the first is delivered whatever its number, and a later one exactly if its
      number is above that of the last one delivered, which then is its own; a cursor that
      stands at 0 lets everything pass. Failed and short receives deliver nothing. */
  lemma WhatIsDelivered(last: u32, h: QoSHeader, payload: seq<byte>, junk: Option<seq<byte>>)
    requires |payload| <= MAX_DATAGRAM - ENVELOPE && (junk.Some? ==> |junk.value| < 14)
    ensures var d := Some(Packet(h, payload));
            if last == 0 || h.seqId > last then Delivered(last, d) == payload && Cursor(last, d) == h.seqId
            else Delivered(last, d) == [] && Cursor(last, d) == last
    ensures Delivered(last, junk) == [] && Cursor(last, junk) == last
  {
    EnvelopeRoundTrip(h, payload);
  }

  // ----- one publisher, an adversarial network -----

  /** A message as published: its bytes and its time stamp. */
  datatype Message = Message(data: seq<byte>, stamp: u64)

  /** What one publisher puts on the wire for its `k`-th message. */
  function Wire(sent: seq<Message>, k: nat): seq<byte>
    requires k < |sent|
  {
    Packet(QoSHeader(Wrap32(k + 1), sent[k].stamp, 0, 0), sent[k].data)
  }

  /** One arrival: a copy of message `k`, or a failed or too short receive. A message too
      large for a datagram takes a number but never leaves the publisher. */
  datatype Arrival = Copy(k: nat) | Junk(d: Option<seq<byte>>)

  predicate Possible(sent: seq<Message>, a: Arrival) {
    match a
    case Copy(k) => k < |sent| && |sent[k].data| <= MAX_DATAGRAM - ENVELOPE
    case Junk(d) => d.Some? ==> |d.value| < ENVELOPE
  }

  predicate Arrivals(sent: seq<Message>, net: seq<Arrival>) {
    && (forall k :: 0 <= k < |sent| ==> sent[k].data != [])
    && (forall i :: 0 <= i < |net| ==> Possible(sent, net[i]))
  }

  /** Every message that arrives was among the first 2^32 - 1, which all have different
      numbers above 0. */
  predicate Numbered(net: seq<Arrival>) {
    forall i :: 0 <= i < |net| && net[i].Copy? ==> net[i].k < 0xFFFF_FFFF
  }

  function Datagram(sent: seq<Message>, a: Arrival): Option<seq<byte>>
    requires Possible(sent, a)
  {
    match a
    case Copy(k) => Some(Wire(sent, k))
    case Junk(d) => d
  }

  /** The cursor after these arrivals. */
  function CursorAfter(sent: seq<Message>, net: seq<Arrival>): u32
    requires Arrivals(sent, net)
  {
    if net == [] then 0
    else Cursor(CursorAfter(sent, net[..|net| - 1]), Datagram(sent, net[|net| - 1]))
  }

  /** What `receive` returns for arrival `i`. */
  function Returned(sent: seq<Message>, net: seq<Arrival>, i: nat): seq<byte>
    requires Arrivals(sent, net) && i < |net|
  {
    Delivered(CursorAfter(sent, net[..i]), Datagram(sent, net[i]))
  }

  /** Arrival `i` is newer than everything that arrived before it. */
  predicate IsRecord(net: seq<Arrival>, i: nat)
    requires i < |net|
  {
    net[i].Copy? && forall j :: 0 <= j < i && net[j].Copy? ==> net[j].k < net[i].k
  }

  lemma WireIsRead(sent: seq<Message>, k: nat)
    requires k < |sent| && |sent[k].data| <= MAX_DATAGRAM - ENVELOPE
    ensures var d := Received(Wire(sent, k)); HeaderOf(d).seqId == Wrap32(k + 1) && PayloadOf(d) == sent[k].data
  {
    EnvelopeRoundTrip(QoSHeader(Wrap32(k + 1), sent[k].stamp, 0, 0), sent[k].data);
  }

  /** One past the newest message that has arrived, and 0 before the first. */
  function Newest(net: seq<Arrival>): nat {
    if net == [] then 0
    else
      var c, a := Newest(net[..|net| - 1]), net[|net| - 1];
      if a.Copy? && a.k >= c then a.k + 1 else c
  }

  lemma {:induction false} NewestIsNewest(net: seq<Arrival>)
    ensures forall i :: 0 <= i < |net| && net[i].Copy? ==> net[i].k < Newest(net)
    ensures Newest(net) == 0 || exists i :: 0 <= i < |net| && net[i] == Copy(Newest(net) - 1)
  {
    if net != [] {
      var n := |net| - 1;
      var c := Newest(net[..n]);
      NewestIsNewest(net[..n]);
      if c != 0 && Newest(net) == c {
        var i :| 0 <= i < n && net[..n][i] == Copy(c - 1);
        assert net[i] == Copy(c - 1);
      }
    }
  }

  /** One arrival is delivered and moves the cursor exactly if it is a copy of a newer
      message. */
  lemma ArrivalMovesCursor(sent: seq<Message>, last: u32, a: Arrival)
    requires Possible(sent, a)
    requires a.Copy? ==> a.k < 0xFFFF_FFFF
    ensures Cursor(last, Datagram(sent, a)) == if a.Copy? && a.k >= last then a.k + 1 else last
    ensures Delivered(last, Datagram(sent, a)) == if a.Copy? && a.k >= last then sent[a.k].data else []
  {
    if a.Copy? {
      WireIsRead(sent, a.k);
    }
  }

  lemma {:induction false} CursorIsNewest(sent: seq<Message>, net: seq<Arrival>)
    requires Arrivals(sent, net) && Numbered(net)
    ensures CursorAfter(sent, net) == Newest(net)
  {
    if net != [] {
      var n := |net| - 1;
      CursorIsNewest(sent, net[..n]);
      assert Possible(sent, net[n]);
      ArrivalMovesCursor(sent, CursorAfter(sent, net[..n]), net[n]);
    }
  }

  /** Over any sequence of arrivals, exactly the left-to-right maxima are delivered,
      each with its own bytes; every other receive returns the empty string. */
  lemma DeliversExactlyTheRecords(sent: seq<Message>, net: seq<Arrival>, i: nat)
    requires Arrivals(sent, net) && Numbered(net) && i < |net|
    ensures Returned(sent, net, i) == if IsRecord(net, i) then sent[net[i].k].data else []
    ensures Returned(sent, net, i) != [] <==> IsRecord(net, i)
  {
    CursorIsNewest(sent, net[..i]);
    NewestIsNewest(net[..i]);
    assert Possible(sent, net[i]);
    ArrivalMovesCursor(sent, CursorAfter(sent, net[..i]), net[i]);
    if net[i].Copy? {
      RecordsAreNewer(net, i);
    }
  }

  lemma RecordsAreNewer(net: seq<Arrival>, i: nat)
    requires i < |net| && net[i].Copy?
    ensures IsRecord(net, i) <==> net[i].k >= Newest(net[..i])
  {
    var c := Newest(net[..i]);
    NewestIsNewest(net[..i]);
    assert forall j :: 0 <= j < i ==> net[..i][j] == net[j];
    if c != 0 {
      var j :| 0 <= j < i && net[..i][j] == Copy(c - 1);
      assert net[j] == Copy(c - 1);
    }
  }

  /** The messages delivered, as positions in the publisher's order. */
  function DeliveredMessages(net: seq<Arrival>): seq<nat> {
    if net == [] then []
    else
      var n := |net| - 1;
      DeliveredMessages(net[..n]) + (if IsRecord(net, n) then [net[n].k] else [])
  }

  /** So what is delivered is in the publisher's order and has no duplicates ... */
  lemma {:induction false} DeliveredInOrder(net: seq<Arrival>)
    ensures var d := DeliveredMessages(net);
            && (forall a, b :: 0 <= a < b < |d| ==> d[a] < d[b])
            && (forall k | k in d :: Copy(k) in net)
  {
    if net != [] {
      var n := |net| - 1;
      DeliveredInOrder(net[..n]);
      forall k | k in DeliveredMessages(net[..n])
        ensures Copy(k) in net && (IsRecord(net, n) ==> k < net[n].k)
      {
        var j :| 0 <= j < n && net[..n][j] == Copy(k);
        assert net[j] == Copy(k);
      }
      var d, d' := DeliveredMessages(net[..n]), DeliveredMessages(net);
      assert d' == if IsRecord(net, n) then d + [net[n].k] else d;
      forall a, b | 0 <= a < b < |d'|
        ensures d'[a] < d'[b]
      {
        assert d[a] in d;
      }
    }
  }

  /** Every message arrives once, in order. */
  predicate Faithful(sent: seq<Message>, net: seq<Arrival>) {
    |net| == |sent| && forall i :: 0 <= i < |net| ==> net[i] == Copy(i)
  }

  lemma FaithfulBeforeWrap(sent: seq<Message>, net: seq<Arrival>, i: nat)
    requires Arrivals(sent, net) && Faithful(sent, net) && i < |sent| && i < 0xFFFF_FFFF
    ensures Returned(sent, net, i) == sent[i].data
  {
    var some := net[..i + 1];
    assert Arrivals(sent, some) && some[..i] == net[..i];
    DeliversExactlyTheRecords(sent, some, i);
  }

  /** Once number 2^32 - 1 has arrived, which is that of message 0xFFFF_FFFE, the cursor
      stands at the highest number there is and lets nothing pass any more. */
  lemma {:induction false} CursorStaysAtTop(sent: seq<Message>, net: seq<Arrival>, i: nat)
    requires Arrivals(sent, net) && i < |net| && net[i] == Copy(0xFFFF_FFFE)
    ensures CursorAfter(sent, net) == 0xFFFF_FFFF
    decreases |net|
  {
    var n := |net| - 1;
    assert Possible(sent, net[i]);
    if i < n {
      CursorStaysAtTop(sent, net[..n], i);
    } else {
      WireIsRead(sent, 0xFFFF_FFFE);
    }
  }

  /** The subscriber is deaf from then on, whatever arrives. */
  lemma DeafAfterLastNumber(sent: seq<Message>, net: seq<Arrival>, i: nat, j: nat)
    requires Arrivals(sent, net) && i < j < |net| && net[i] == Copy(0xFFFF_FFFE)
    ensures Returned(sent, net, j) == []
  {
    CursorStaysAtTop(sent, net[..j], i);
  }

  /** ... and a network that loses and reorders nothing delivers everything, exactly as
      long as the sequence number has not wrapped. From the 2^32-th message on nothing is
      delivered any more. */
  lemma FaithfulNetworkDeliversAll(sent: seq<Message>, net: seq<Arrival>)
    requires Arrivals(sent, net) && Faithful(sent, net)
    ensures (forall i: nat | i < |sent| :: Returned(sent, net, i) == sent[i].data) <==> |sent| < 0x1_0000_0000
    ensures forall i: nat | i < |sent| :: Returned(sent, net, i) == if i < 0xFFFF_FFFF then sent[i].data else []
  {
    forall i: nat | i < |sent|
      ensures Returned(sent, net, i) == if i < 0xFFFF_FFFF then sent[i].data else []
    {
      if i < 0xFFFF_FFFF {
        FaithfulBeforeWrap(sent, net, i);
      } else {
        DeafAfterLastNumber(sent, net, 0xFFFF_FFFE, i);
      }
    }
    assert |sent| >= 0x1_0000_0000 ==> Returned(sent, net, 0xFFFF_FFFF) == [] != sent[0xFFFF_FFFF].data;
  }
}
