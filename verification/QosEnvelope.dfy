/** The 14-byte envelope in front of every datagram. */
module QosEnvelope {
  import opened Words
  import opened Sequences

  const ENVELOPE: nat := 14
  const BUFFER: nat := 65536
  /** The most a UDP datagram carries over IPv4; the kernel refuses to send more. */
  const MAX_DATAGRAM: nat := 65507

  datatype QoSHeader = QoSHeader(seqId: u32, timestampUs: u64, msgType: byte, qosFlag: byte)

  function Encode(h: QoSHeader): (bs: seq<byte>)
    ensures |bs| == ENVELOPE
  {
    Le(h.seqId, 4) + Le(h.timestampUs, 8) + [h.msgType, h.qosFlag]
  }

  function Packet(h: QoSHeader, payload: seq<byte>): seq<byte> {
    Encode(h) + payload
  }

  /** The envelope as it is read from the front of a receive buffer. */
  function HeaderOf(d: seq<byte>): QoSHeader
    requires ENVELOPE <= |d|
  {
    QoSHeader(U32Of(d[..4]), U64Of(d[4..12]), d[12], d[13])
  }

  function PayloadOf(d: seq<byte>): seq<byte>
    requires ENVELOPE <= |d|
  {
    d[ENVELOPE..]
  }

  /** What `recvfrom` puts in a 64 KiB buffer. */
  function Received(d: seq<byte>): seq<byte> {
    if |d| <= BUFFER then d else d[..BUFFER]
  }

  /** The packet byte by byte: number, time stamp, message type, flags, payload. */
  lemma PacketBytes(h: QoSHeader, payload: seq<byte>)
    ensures var p := Packet(h, payload);
            && |p| == 14 + |payload| && StandsAt(p, 0, 4, h.seqId) && StandsAt(p, 4, 8, h.timestampUs)
            && p[12] == h.msgType && p[13] == h.qosFlag && p[14..] == payload
  {
    var id, stamp, tail := Le(h.seqId, 4), Le(h.timestampUs, 8), [h.msgType, h.qosFlag];
    var p := Packet(h, payload);
    assert p == [] + id + (stamp + tail + payload) == id + stamp + (tail + payload);
    LeStands([], h.seqId, 4, stamp + tail + payload);
    LeStands(id, h.timestampUs, 8, tail + payload);
  }

  lemma EnvelopeRoundTrip(h: QoSHeader, payload: seq<byte>)
    ensures HeaderOf(Packet(h, payload)) == h && PayloadOf(Packet(h, payload)) == payload
  {
    var id, stamp, tail := Le(h.seqId, 4), Le(h.timestampUs, 8), [h.msgType, h.qosFlag];
    Split(id, stamp, tail + payload);
    Le4RoundTrip(h.seqId);
    Le8RoundTrip(h.timestampUs);
    assert Packet(h, payload) == id + stamp + (tail + payload);
  }
}
