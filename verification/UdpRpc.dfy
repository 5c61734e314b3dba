/** Request and response over UDP. */
module UdpRpc {
  import opened Words
  import opened Outcomes
  import opened QosEnvelope

  const REQUEST: byte := 1
  const RESPONSE: byte := 2

  /** A datagram is an answer to the call numbered `id`. */
  predicate IsReply(d: seq<byte>, id: u32) {
    && ENVELOPE <= |d|
    && HeaderOf(Received(d)).msgType == RESPONSE && HeaderOf(Received(d)).seqId == id
  }

  predicate IsRequest(d: seq<byte>) {
    ENVELOPE <= |d| && HeaderOf(Received(d)).msgType == REQUEST
  }

  /** Of the datagrams with an envelope, a call accepts those of type 2 under its id, and the
      server those of type 1; shorter ones are nothing to either. */
  lemma WhatPasses(h: QoSHeader, payload: seq<byte>, short: seq<byte>, id: u32)
    requires |short| < 14
    ensures IsReply(Packet(h, payload), id) <==> h.msgType == 2 && h.seqId == id
    ensures IsRequest(Packet(h, payload)) <==> h.msgType == 1
    ensures !IsReply(short, id) && !IsRequest(short)
  {
    EnvelopeRoundTrip(h, payload);
    var d := Packet(h, payload);
    assert Received(d)[..4] == d[..4] && Received(d)[4..12] == d[4..12];
    assert HeaderOf(Received(d)) == HeaderOf(d);
  }

  /** The first `n` of these receives bring nothing the call is waiting for. */
  predicate Noise(arrivals: seq<Option<seq<byte>>>, n: nat, id: u32)
    requires n <= |arrivals|
  {
    forall k :: 0 <= k < n ==> arrivals[k].Some? && !IsReply(arrivals[k].value, id)
  }

  datatype Outcome = Returned(bytes: seq<byte>) | StillReceiving

  class UDPServiceClient {
    var currentRequestId: u32

    constructor ()
      ensures currentRequestId == 0
    {
      currentRequestId := 0;
    }

    /** Sends a request under a new id and returns the payload of the first reply with
        that id, or the empty string when a receive times out first. `arrivals` is what
        the socket yields, `None` standing for a time-out. */
    method Call(data: Option<seq<byte>>, now: u64, arrivals: seq<Option<seq<byte>>>)
      returns (r: Outcome, packet: Option<seq<byte>>, used: nat)
      modifies this
      ensures packet.Some? <==> data.Some? && data.value != []
      ensures packet.None? ==> r == Returned([]) && used == 0 && currentRequestId == old(currentRequestId)
      ensures packet.Some? ==> currentRequestId == Wrap32(old(currentRequestId) + 1)
      ensures packet.Some? ==> packet.value == Packet(QoSHeader(currentRequestId, now, REQUEST, 1), data.value)
      ensures packet.Some? && r == StillReceiving ==> used == |arrivals| && Noise(arrivals, used, currentRequestId)
      ensures packet.Some? && r != StillReceiving ==>
                && 0 < used <= |arrivals| && Noise(arrivals, used - 1, currentRequestId)
                && match arrivals[used - 1]
                   case None => r.bytes == []
                   case Some(d) => IsReply(d, currentRequestId) && r.bytes == PayloadOf(Received(d))
    {
      used := 0;
      if data.None? || data.value == [] {
        return Returned([]), None, used;
      }
      currentRequestId := Wrap32(currentRequestId + 1);
      packet := Some(Packet(QoSHeader(currentRequestId, now, REQUEST, 1), data.value));
      while used < |arrivals|
        invariant used <= |arrivals| && Noise(arrivals, used, currentRequestId)
      {
        var arrival := arrivals[used];
        used := used + 1;
        if arrival.None? {
          return Returned([]), packet, used;
        }
        var buffer := Received(arrival.value);
        if |buffer| >= ENVELOPE {
          var reply := HeaderOf(buffer);
          if reply.msgType == RESPONSE && reply.seqId == currentRequestId {
            return Returned(buffer[ENVELOPE..]), packet, used;
          }
        }
      }
      return StillReceiving, packet, used;
    }
  }

  /** Where a reply goes and the id it must carry. */
  datatype ClientInfo = ClientInfo(addr: nat, requestId: u32)

  class UDPServiceServer {
    constructor () {}

    /** Takes one datagram from `addr`; only requests are let through. */
    method ReceiveRequest(datagram: Option<seq<byte>>, addr: nat) returns (r: Option<(seq<byte>, ClientInfo)>)
      ensures r.Some? <==> datagram.Some? && IsRequest(datagram.value)
      ensures r.Some? ==>
                var d := Received(datagram.value);
                r.value == (PayloadOf(d), ClientInfo(addr, HeaderOf(d).seqId))
    {
      if datagram.None? {
        return None;
      }
      var buffer := Received(datagram.value);
      if |buffer| >= ENVELOPE {
        var header := HeaderOf(buffer);
        if header.msgType == REQUEST {
          return Some((buffer[ENVELOPE..], ClientInfo(addr, header.seqId)));
        }
      }
      return None;
    }

    /** Answers a request under the id it came with; empty answers are not sent. */
    method SendResponse(data: Option<seq<byte>>, info: ClientInfo, now: u64, sent: int)
      returns (ok: bool, packet: Option<seq<byte>>)
      ensures packet.Some? <==> data.Some? && data.value != []
      ensures packet.Some? ==> packet.value == Packet(QoSHeader(info.requestId, now, RESPONSE, 0), data.value)
      ensures ok <==> packet.Some? && sent == |packet.value|
    {
      if data.None? || data.value == [] {
        return false, None;
      }
      var p := Packet(QoSHeader(info.requestId, now, RESPONSE, 0), data.value);
      return sent == |p|, Some(p);
    }
  }

  // ----- the protocol over an adversarial network -----

  datatype Client = Client(lastId: u32, waiting: Option<seq<byte>>)
  datatype Receipt = Receipt(info: ClientInfo, request: seq<byte>)
  datatype Answer = Answer(receipt: Receipt, response: seq<byte>)
  datatype Return = Return(addr: nat, id: u32, request: seq<byte>, bytes: seq<byte>)

  /** `toServer` and `toClients` hold every datagram ever sent, with the client's
      address: the network may deliver any of them, at any time, any number of times.
      `calls`, `answers` and `outcomes` are history: the requests issued, what the server
      passed to `send_response` for which receipt, and how calls returned. */
  datatype State = State(clients: map<nat, Client>,
                         toServer: set<(nat, seq<byte>)>, toClients: set<(nat, seq<byte>)>,
                         receipts: set<Receipt>, calls: set<Receipt>, answers: set<Answer>, outcomes: seq<Return>)

  datatype Event =
    | Open(addr: nat)
    | Restart(addr: nat)
    | Issue(addr: nat, request: seq<byte>, now: u64)
    | ServerReceives(addr: nat, d: seq<byte>)
    | Respond(receipt: Receipt, response: seq<byte>, now: u64)
    | ClientReceives(addr: nat, d: seq<byte>)
    | TimesOut(addr: nat)

  predicate Waiting(s: State, addr: nat) {
    addr in s.clients && s.clients[addr].waiting.Some?
  }

  /** Datagrams come from the other side, or are noise the receiver's checks reject. A
      client may start over at its old address, counting from 1 again. */
  predicate Enabled(s: State, e: Event) {
    match e
    case Open(a) => a !in s.clients
    case Restart(a) => a in s.clients
    case Issue(a, request, _) => a in s.clients && s.clients[a].waiting.None? && request != []
    case ServerReceives(a, d) => (a, d) in s.toServer || !IsRequest(d)
    case Respond(receipt, response, _) => receipt in s.receipts && response != []
    case ClientReceives(a, d) => Waiting(s, a) && ((a, d) in s.toClients || !IsReply(d, s.clients[a].lastId))
    case TimesOut(a) => Waiting(s, a)
  }

  /** A datagram larger than UDP carries never leaves the sender. */
  function Send(net: set<(nat, seq<byte>)>, addr: nat, d: seq<byte>): set<(nat, seq<byte>)> {
    if |d| <= MAX_DATAGRAM then net + {(addr, d)} else net
  }

  function Apply(s: State, e: Event): State
    requires Enabled(s, e)
  {
    match e
    case Open(a) => s.(clients := s.clients[a := Client(0, None)])
    case Restart(a) => s.(clients := s.clients[a := Client(0, None)])
    case Issue(a, request, now) =>
      var id := Wrap32(s.clients[a].lastId + 1);
      s.(clients := s.clients[a := Client(id, Some(request))],
         toServer := Send(s.toServer, a, Packet(QoSHeader(id, now, REQUEST, 1), request)),
         calls := s.calls + {Receipt(ClientInfo(a, id), request)})
    case ServerReceives(a, d) =>
      if IsRequest(d) then
        var b := Received(d);
        s.(receipts := s.receipts + {Receipt(ClientInfo(a, HeaderOf(b).seqId), PayloadOf(b))})
      else s
    case Respond(receipt, response, now) =>
      var info := receipt.info;
      s.(toClients := Send(s.toClients, info.addr, Packet(QoSHeader(info.requestId, now, RESPONSE, 0), response)),
         answers := s.answers + {Answer(receipt, response)})
    case ClientReceives(a, d) =>
      var c := s.clients[a];
      if IsReply(d, c.lastId) then Finish(s, a, PayloadOf(Received(d))) else s
    case TimesOut(a) => Finish(s, a, [])
  }

  /** The call of client `a` returns `bytes`. */
  function Finish(s: State, a: nat, bytes: seq<byte>): State
    requires Waiting(s, a)
  {
    var c := s.clients[a];
    s.(clients := s.clients[a := c.(waiting := None)],
       outcomes := s.outcomes + [Return(a, c.lastId, c.waiting.value, bytes)])
  }

  predicate Start(s: State) {
    s == State(map[], {}, {}, {}, {}, {}, [])
  }

  // ----- the invariant -----

  /** Some call sent this request datagram. */
  ghost predicate RequestSent(calls: set<Receipt>, addr: nat, d: seq<byte>) {
    exists c, now: u64 :: c in calls && c.info.addr == addr && |d| <= MAX_DATAGRAM
      && d == Packet(QoSHeader(c.info.requestId, now, REQUEST, 1), c.request)
  }

  /** Some `send_response` sent this reply datagram. */
  ghost predicate ReplySent(answers: set<Answer>, addr: nat, d: seq<byte>) {
    exists x, now: u64 :: x in answers && x.receipt.info.addr == addr && |d| <= MAX_DATAGRAM
      && d == Packet(QoSHeader(x.receipt.info.requestId, now, RESPONSE, 0), x.response)
  }

  /** A client never used an id for two calls. */
  ghost predicate OneCallPerId(calls: set<Receipt>) {
    forall c, d | c in calls && d in calls && c.info == d.info :: c == d
  }

  ghost predicate Justified(answers: set<Answer>, r: Return) {
    r.bytes != [] ==> Answer(Receipt(ClientInfo(r.addr, r.id), r.request), r.bytes) in answers
  }

  /** The request fits a datagram; a larger one never leaves its client. */
  predicate Fits(data: seq<byte>) {
    |data| <= MAX_DATAGRAM - ENVELOPE
  }

  /** Whatever is on its way was sent by a call or by `send_response`. */
  ghost predicate Wire(s: State) {
    && (forall a | Waiting(s, a) ::
          Receipt(ClientInfo(a, s.clients[a].lastId), s.clients[a].waiting.value) in s.calls)
    && (forall p | p in s.toServer :: RequestSent(s.calls, p.0, p.1))
    && (forall r | r in s.receipts :: r in s.calls && Fits(r.request))
    && (forall x | x in s.answers :: x.receipt in s.receipts && x.response != [])
    && (forall p | p in s.toClients :: ReplySent(s.answers, p.0, p.1))
  }

  ghost predicate Inv(s: State) {
    && Wire(s)
    && OneCallPerId(s.calls)
    && (forall r | r in s.outcomes :: Justified(s.answers, r))
  }

  /** The id this call takes. */
  function NextId(s: State, addr: nat): u32
    requires addr in s.clients
  {
    Wrap32(s.clients[addr].lastId + 1)
  }

  /** No call takes an id that was used from its address before. */
  ghost predicate FreshId(s: State, e: Event)
    requires Enabled(s, e)
  {
    e.Issue? ==> forall c | c in s.calls :: c.info != ClientInfo(e.addr, NextId(s, e.addr))
  }

  /** A request read by the server is one that a client issued under that id. */
  lemma ReceivedRequestIsACall(calls: set<Receipt>, addr: nat, d: seq<byte>)
    requires RequestSent(calls, addr, d)
    ensures IsRequest(d) && Fits(PayloadOf(Received(d)))
    ensures Receipt(ClientInfo(addr, HeaderOf(Received(d)).seqId), PayloadOf(Received(d))) in calls
  {
    var c, now: u64 :| c in calls && c.info.addr == addr && |d| <= MAX_DATAGRAM
      && d == Packet(QoSHeader(c.info.requestId, now, REQUEST, 1), c.request);
    EnvelopeRoundTrip(QoSHeader(c.info.requestId, now, REQUEST, 1), c.request);
  }

  /** A reply read by a client is an answer the server gave to a receipt under that id. */
  lemma ReceivedReplyIsAnAnswer(answers: set<Answer>, addr: nat, d: seq<byte>) returns (x: Answer)
    requires ReplySent(answers, addr, d)
    ensures IsReply(d, HeaderOf(Received(d)).seqId)
    ensures x in answers && x.receipt.info == ClientInfo(addr, HeaderOf(Received(d)).seqId)
    ensures x.response == PayloadOf(Received(d))
  {
    var y, now: u64 :| y in answers && y.receipt.info.addr == addr && |d| <= MAX_DATAGRAM
      && d == Packet(QoSHeader(y.receipt.info.requestId, now, RESPONSE, 0), y.response);
    EnvelopeRoundTrip(QoSHeader(y.receipt.info.requestId, now, RESPONSE, 0), y.response);
    x := y;
  }

  lemma MoreCalls(calls: set<Receipt>, c: Receipt, addr: nat, d: seq<byte>)
    requires RequestSent(calls, addr, d)
    ensures RequestSent(calls + {c}, addr, d)
  {
    var b, now: u64 :| b in calls && b.info.addr == addr && |d| <= MAX_DATAGRAM
      && d == Packet(QoSHeader(b.info.requestId, now, REQUEST, 1), b.request);
    assert b in calls + {c};
  }

  lemma IssuedIsSent(s: State, e: Event, p: (nat, seq<byte>))
    requires Wire(s) && Enabled(s, e) && e.Issue? && p in Apply(s, e).toServer
    ensures RequestSent(Apply(s, e).calls, p.0, p.1)
  {
    var c := Receipt(ClientInfo(e.addr, NextId(s, e.addr)), e.request);
    if p in s.toServer {
      MoreCalls(s.calls, c, p.0, p.1);
    } else {
      assert p == (e.addr, Packet(QoSHeader(c.info.requestId, e.now, REQUEST, 1), c.request));
      assert c in Apply(s, e).calls;
    }
  }

  lemma IssueKeepsWire(s: State, e: Event)
    requires Wire(s) && Enabled(s, e) && e.Issue?
    ensures Wire(Apply(s, e))
  {
    forall p | p in Apply(s, e).toServer
      ensures RequestSent(Apply(s, e).calls, p.0, p.1)
    {
      IssuedIsSent(s, e, p);
    }
  }

  lemma ServerReceivesKeepsWire(s: State, e: Event)
    requires Wire(s) && Enabled(s, e) && e.ServerReceives?
    ensures Wire(Apply(s, e))
  {
    if IsRequest(e.d) {
      assert RequestSent(s.calls, (e.addr, e.d).0, (e.addr, e.d).1);
      ReceivedRequestIsACall(s.calls, e.addr, e.d);
    }
  }

  lemma MoreAnswers(answers: set<Answer>, x: Answer, addr: nat, d: seq<byte>)
    requires ReplySent(answers, addr, d)
    ensures ReplySent(answers + {x}, addr, d)
  {
    var y, now: u64 :| y in answers && y.receipt.info.addr == addr && |d| <= MAX_DATAGRAM
      && d == Packet(QoSHeader(y.receipt.info.requestId, now, RESPONSE, 0), y.response);
    assert y in answers + {x};
  }

  lemma RespondKeepsWire(s: State, e: Event)
    requires Wire(s) && Enabled(s, e) && e.Respond?
    ensures Wire(Apply(s, e))
  {
    var s' := Apply(s, e);
    var x := Answer(e.receipt, e.response);
    var info := e.receipt.info;
    var d := Packet(QoSHeader(info.requestId, e.now, RESPONSE, 0), e.response);
    forall p | p in s'.toClients
      ensures ReplySent(s'.answers, p.0, p.1)
    {
      if p in s.toClients {
        MoreAnswers(s.answers, x, p.0, p.1);
      } else {
        assert p == (info.addr, d) && x in s'.answers;
      }
    }
  }

  lemma StepKeepsWire(s: State, e: Event)
    requires Wire(s) && Enabled(s, e)
    ensures Wire(Apply(s, e))
  {
    match e
    case Issue(_, _, _) => IssueKeepsWire(s, e);
    case ServerReceives(_, _) => ServerReceivesKeepsWire(s, e);
    case Respond(_, _, _) => RespondKeepsWire(s, e);
    case _ =>
  }

  /** What a call returns from a reply is never empty, and answers a request that went out
      under its id. */
  lemma ReplyHasThisId(s: State, e: Event) returns (x: Answer)
    requires Wire(s) && Enabled(s, e) && e.ClientReceives? && IsReply(e.d, s.clients[e.addr].lastId)
    ensures x in s.answers && x.response == PayloadOf(Received(e.d)) && x.response != []
    ensures x.receipt in s.calls && Fits(x.receipt.request)
    ensures x.receipt.info == ClientInfo(e.addr, s.clients[e.addr].lastId)
  {
    assert ReplySent(s.answers, (e.addr, e.d).0, (e.addr, e.d).1);
    x := ReceivedReplyIsAnAnswer(s.answers, e.addr, e.d);
  }

  /** So it is the server's answer to exactly that call, if the id is nobody else's. */
  lemma ReplyIsForThisCall(s: State, e: Event)
    requires Wire(s) && Enabled(s, e) && e.ClientReceives? && IsReply(e.d, s.clients[e.addr].lastId)
    requires OneCallPerId(s.calls)
    ensures var c, bytes := s.clients[e.addr], PayloadOf(Received(e.d));
            Answer(Receipt(ClientInfo(e.addr, c.lastId), c.waiting.value), bytes) in s.answers
  {
    var x := ReplyHasThisId(s, e);
  }

  lemma StepKeepsInv(s: State, e: Event)
    requires Inv(s) && Enabled(s, e) && FreshId(s, e)
    ensures Inv(Apply(s, e))
  {
    StepKeepsWire(s, e);
    match e
    case Respond(_, _, _) =>
      forall r | r in s.outcomes
        ensures Justified(Apply(s, e).answers, r)
      {
        assert Justified(s.answers, r);
      }
    case ClientReceives(a, d) =>
      if IsReply(d, s.clients[a].lastId) {
        ReplyIsForThisCall(s, e);
      }
    case _ =>
  }

  ghost predicate Run(states: seq<State>, es: seq<Event>) {
    && |states| == |es| + 1
    && Start(states[0])
    && forall i :: 0 <= i < |es| ==> Enabled(states[i], es[i]) && states[i + 1] == Apply(states[i], es[i])
  }

  ghost predicate FreshIds(states: seq<State>, es: seq<Event>)
    requires Run(states, es)
  {
    forall i :: 0 <= i < |es| ==> FreshId(states[i], es[i])
  }

  lemma {:induction false} RunKeepsWire(states: seq<State>, es: seq<Event>, i: nat)
    requires Run(states, es) && i < |states|
    ensures Wire(states[i])
  {
    if i > 0 {
      RunKeepsWire(states, es, i - 1);
      StepKeepsWire(states[i - 1], es[i - 1]);
    }
  }

  lemma {:induction false} RunKeepsInv(states: seq<State>, es: seq<Event>, i: nat)
    requires Run(states, es) && FreshIds(states, es) && i < |states|
    ensures Inv(states[i])
  {
    if i > 0 {
      RunKeepsInv(states, es, i - 1);
      StepKeepsInv(states[i - 1], es[i - 1]);
    }
  }

  /** Under loss, duplication, reordering and late replies to calls that timed out: a
      call that returns bytes returns what the server gave to `send_response` for a
      request with this call's id and this call's bytes. */
  lemma NonEmptyReturnsAreAnswers(states: seq<State>, es: seq<Event>, i: nat, r: Return)
    requires Run(states, es) && FreshIds(states, es)
    requires i < |states| && r in states[i].outcomes && r.bytes != []
    ensures exists x :: x in states[i].answers && x.receipt == Receipt(ClientInfo(r.addr, r.id), r.request)
                        && x.response == r.bytes
  {
    RunKeepsInv(states, es, i);
    assert Justified(states[i].answers, r);
    var x := Answer(Receipt(ClientInfo(r.addr, r.id), r.request), r.bytes);
    assert x in states[i].answers;
  }

  lemma PacketIsRead(h: QoSHeader, data: seq<byte>)
    requires data != [] && Fits(data)
    ensures var d := Packet(h, data);
            && ENVELOPE <= |d| <= MAX_DATAGRAM && Received(d) == d
            && HeaderOf(d) == h && PayloadOf(d) == data
  {
    EnvelopeRoundTrip(h, data);
  }

  /** A call that nothing interferes with, from any state: the request reaches the server as
      it is, the server's answer reaches the client, and the call returns it. */
  lemma UndisturbedCall(s: State, a: nat, request: seq<byte>, answer: seq<byte>, now: u64, later: u64)
    returns (issued: State, received: State, answered: State, s': State)
    requires a in s.clients && s.clients[a].waiting.None?
    requires request != [] && answer != [] && Fits(request) && Fits(answer)
    ensures var id := NextId(s, a);
            var receipt := Receipt(ClientInfo(a, id), request);
            var asked := Packet(QoSHeader(id, now, 1, 1), request);
            var reply := Packet(QoSHeader(id, later, 2, 0), answer);
            && Enabled(s, Issue(a, request, now)) && issued == Apply(s, Issue(a, request, now))
            && Enabled(issued, ServerReceives(a, asked)) && received == Apply(issued, ServerReceives(a, asked))
            && Enabled(received, Respond(receipt, answer, later))
            && answered == Apply(received, Respond(receipt, answer, later))
            && Enabled(answered, ClientReceives(a, reply)) && s' == Apply(answered, ClientReceives(a, reply))
            && s'.outcomes == s.outcomes + [Return(a, id, request, answer)]
            && s'.clients[a] == Client(id, None) && s'.calls == s.calls + {receipt}
  {
    var id := NextId(s, a);
    var receipt := Receipt(ClientInfo(a, id), request);
    var asked, reply := QoSHeader(id, now, REQUEST, 1), QoSHeader(id, later, RESPONSE, 0);
    PacketIsRead(asked, request);
    PacketIsRead(reply, answer);
    hide Packet, HeaderOf, PayloadOf, QosEnvelope.Received;
    issued := Apply(s, Issue(a, request, now));
    assert (a, Packet(asked, request)) in issued.toServer;
    received := Apply(issued, ServerReceives(a, Packet(asked, request)));
    assert receipt in received.receipts;
    answered := Apply(received, Respond(receipt, answer, later));
    assert (a, Packet(reply, answer)) in answered.toClients;
    s' := Apply(answered, ClientReceives(a, Packet(reply, answer)));
  }

  /** An empty return always means failure: in every run a call returns the empty string
      exactly when it times out, never because of a reply. */
  lemma EmptyMeansTimedOut(states: seq<State>, es: seq<Event>, i: nat)
    requires Run(states, es) && i < |es| && |states[i + 1].outcomes| > |states[i].outcomes|
    ensures var r := states[i + 1].outcomes[|states[i].outcomes|]; r.bytes == [] <==> es[i].TimesOut?
  {
    RunKeepsWire(states, es, i);
    if es[i].ClientReceives? && IsReply(es[i].d, states[i].clients[es[i].addr].lastId) {
      var x := ReplyHasThisId(states[i], es[i]);
    }
  }

  // ----- when ids are fresh -----

  /** No client starts over at an old address, and none makes 2^32 calls. */
  ghost predicate Lasting(states: seq<State>, es: seq<Event>)
    requires Run(states, es)
  {
    forall i :: 0 <= i < |es| ==>
      !es[i].Restart? && (es[i].Issue? ==> states[i].clients[es[i].addr].lastId < 0xFFFF_FFFF)
  }

  ghost predicate IdsBehind(s: State) {
    forall c | c in s.calls :: c.info.addr in s.clients && c.info.requestId <= s.clients[c.info.addr].lastId
  }

  lemma {:induction false} LastingIdsBehind(states: seq<State>, es: seq<Event>, i: nat)
    requires Run(states, es) && Lasting(states, es) && i < |states|
    ensures IdsBehind(states[i])
  {
    if i > 0 {
      LastingIdsBehind(states, es, i - 1);
    }
  }

  /** Then the counters keep the ids apart. */
  lemma LastingIsFresh(states: seq<State>, es: seq<Event>)
    requires Run(states, es) && Lasting(states, es)
    ensures FreshIds(states, es)
  {
    forall i | 0 <= i < |es|
      ensures FreshId(states[i], es[i])
    {
      LastingIdsBehind(states, es, i);
    }
  }

  // ----- ids that may coincide -----

  /** What clients do of their own accord: come up, start over, call. */
  predicate IsClientEvent(e: Event) {
    e.Open? || e.Restart? || e.Issue?
  }

  function ScriptOf(es: seq<Event>): seq<Event> {
    if es == [] then []
    else
      var e := es[|es| - 1];
      ScriptOf(es[..|es| - 1]) + (if IsClientEvent(e) then [e] else [])
  }

  predicate Concerns(e: Event, a: nat) {
    IsClientEvent(e) && e.addr == a
  }

  /** The clients that are up after this script, and the last id each has used. */
  function IdsAfter(script: seq<Event>): map<nat, u32> {
    if script == [] then map[]
    else
      var e, before := script[|script| - 1], IdsAfter(script[..|script| - 1]);
      if !IsClientEvent(e) then before
      else if e.Issue? then before[e.addr := Wrap32(LastIn(before, e.addr) + 1)]
      else before[e.addr := 0]
  }

  function LastIn(ids: map<nat, u32>, a: nat): u32 {
    if a in ids then ids[a] else 0
  }

  function Counter(script: seq<Event>, a: nat): u32 {
    LastIn(IdsAfter(script), a)
  }

  /** The id that call number `k` of the script goes out under. */
  function IdAt(script: seq<Event>, k: nat): u32
    requires k < |script| && script[k].Issue?
  {
    Wrap32(Counter(script[..k], script[k].addr) + 1)
  }

  /** A different request goes out later under the id of one that reaches the network. */
  predicate Clash(script: seq<Event>, i: nat, j: nat) {
    && i < j < |script| && script[i].Issue? && script[j].Issue? && script[i].addr == script[j].addr
    && script[i].request != script[j].request && Fits(script[i].request)
    && IdAt(script, i) == IdAt(script, j)
  }

  ghost predicate NoClash(script: seq<Event>) {
    forall i: nat, j: nat :: !Clash(script, i, j)
  }

  /** What clients can do: come up once, and call with data only after that. */
  predicate Possible(script: seq<Event>, k: nat)
    requires k < |script|
  {
    match script[k]
    case Open(a) => a !in IdsAfter(script[..k])
    case Restart(a) => a in IdsAfter(script[..k])
    case Issue(a, request, _) => a in IdsAfter(script[..k]) && request != []
    case _ => false
  }

  ghost predicate Feasible(script: seq<Event>) {
    forall k: nat :: k < |script| ==> Possible(script, k)
  }

  /** A run in which the clients follow the script, as far as they get. */
  ghost predicate Follows(states: seq<State>, es: seq<Event>, script: seq<Event>) {
    Run(states, es) && ScriptOf(es) <= script
  }

  ghost predicate AllJustified(s: State) {
    forall r | r in s.outcomes :: Justified(s.answers, r)
  }

  // ----- no clash: every return is justified -----

  predicate IsCall(script: seq<Event>, k: nat, c: Receipt) {
    && k < |script| && script[k].Issue?
    && c == Receipt(ClientInfo(script[k].addr, IdAt(script, k)), script[k].request)
  }

  predicate IsLast(script: seq<Event>, k: nat, a: nat) {
    k < |script| && Concerns(script[k], a) && forall i :: k < i < |script| ==> !Concerns(script[i], a)
  }

  /** Calls are those of the script, and a client waits in its last one. */
  ghost predicate Tracks(s: State, script: seq<Event>) {
    && (forall a | a in s.clients :: s.clients[a].lastId == Counter(script, a))
    && (forall c | c in s.calls :: exists k: nat :: IsCall(script, k, c))
    && (forall a | Waiting(s, a) :: exists k: nat :: IsLast(script, k, a) && IsCall(script, k, WaitingCall(s, a)))
  }

  function WaitingCall(s: State, a: nat): Receipt
    requires Waiting(s, a)
  {
    Receipt(ClientInfo(a, s.clients[a].lastId), s.clients[a].waiting.value)
  }

  lemma LongerScriptKeepsCall(script: seq<Event>, e: Event, k: nat, c: Receipt)
    requires IsCall(script, k, c)
    ensures IsCall(script + [e], k, c)
  {
    assert (script + [e])[..k] == script[..k];
  }

  lemma LongerScriptKeepsLast(script: seq<Event>, e: Event, k: nat, a: nat)
    requires IsLast(script, k, a) && !Concerns(e, a)
    ensures IsLast(script + [e], k, a)
  {
  }

  lemma CounterMoves(script: seq<Event>, e: Event, a: nat)
    ensures Counter(script + [e], a) ==
              if !Concerns(e, a) then Counter(script, a)
              else if e.Issue? then Wrap32(Counter(script, a) + 1) else 0
  {
    assert (script + [e])[..|script|] == script;
  }

  lemma CallsFollowScript(s: State, e: Event, script: seq<Event>, c: Receipt)
    requires Tracks(s, script) && Enabled(s, e) && IsClientEvent(e) && c in Apply(s, e).calls
    ensures exists k: nat :: IsCall(script + [e], k, c)
  {
    if c in s.calls {
      var k: nat :| IsCall(script, k, c);
      LongerScriptKeepsCall(script, e, k, c);
    } else {
      assert (script + [e])[..|script|] == script;
      assert IsCall(script + [e], |script|, c);
    }
  }

  lemma WaitsInLastCall(s: State, e: Event, script: seq<Event>, a: nat)
    requires Tracks(s, script) && Enabled(s, e) && IsClientEvent(e) && Waiting(Apply(s, e), a)
    ensures exists k: nat :: IsLast(script + [e], k, a) && IsCall(script + [e], k, WaitingCall(Apply(s, e), a))
  {
    var s', script' := Apply(s, e), script + [e];
    if e.Issue? && e.addr == a {
      assert script'[..|script|] == script;
      assert IsLast(script', |script|, a) && IsCall(script', |script|, WaitingCall(s', a));
    } else {
      assert Waiting(s, a) && WaitingCall(s', a) == WaitingCall(s, a);
      var k: nat :| IsLast(script, k, a) && IsCall(script, k, WaitingCall(s, a));
      LongerScriptKeepsCall(script, e, k, WaitingCall(s, a));
      LongerScriptKeepsLast(script, e, k, a);
    }
  }

  lemma ClientEventTracks(s: State, e: Event, script: seq<Event>)
    requires Tracks(s, script) && Enabled(s, e) && IsClientEvent(e)
    ensures Tracks(Apply(s, e), script + [e])
  {
    var s' := Apply(s, e);
    forall a | a in s'.clients
      ensures s'.clients[a].lastId == Counter(script + [e], a)
    {
      CounterMoves(script, e, a);
    }
    hide Apply, Enabled, IsCall, IsLast;
    forall c | c in s'.calls
      ensures exists k: nat :: IsCall(script + [e], k, c)
    {
      CallsFollowScript(s, e, script, c);
    }
    forall a | Waiting(s', a)
      ensures exists k: nat :: IsLast(script + [e], k, a) && IsCall(script + [e], k, WaitingCall(s', a))
    {
      WaitsInLastCall(s, e, script, a);
    }
  }

  lemma OtherEventTracks(s: State, e: Event, script: seq<Event>)
    requires Tracks(s, script) && Enabled(s, e) && !IsClientEvent(e)
    ensures Tracks(Apply(s, e), script)
  {
    forall a | Waiting(Apply(s, e), a)
      ensures Waiting(s, a) && WaitingCall(Apply(s, e), a) == WaitingCall(s, a)
    {
    }
  }

  lemma SameIdSameRequest(script: seq<Event>, c: Receipt, d: Receipt, j: nat)
    requires NoClash(script) && c.info == d.info && Fits(c.request)
    requires (exists i: nat :: IsCall(script, i, c)) && IsCall(script, j, d) && IsLast(script, j, d.info.addr)
    ensures c == d
  {
    var i: nat :| IsCall(script, i, c);
    hide IdsAfter, Counter, IdAt;
    assert Concerns(script[i], d.info.addr) && i <= j;
    assert !Clash(script, i, j);
  }

  /** A reply accepted by a call answers a request of the script under the call's id. */
  lemma AcceptedReplyIsJustified(s: State, e: Event, script: seq<Event>)
    requires Wire(s) && Tracks(s, script) && NoClash(script) && AllJustified(s)
    requires Enabled(s, e) && e.ClientReceives? && IsReply(e.d, s.clients[e.addr].lastId)
    ensures AllJustified(Apply(s, e))
  {
    var x := ReplyHasThisId(s, e);
    var j: nat :| IsLast(script, j, e.addr) && IsCall(script, j, WaitingCall(s, e.addr));
    SameIdSameRequest(script, x.receipt, WaitingCall(s, e.addr), j);
    hide Wire, Tracks, NoClash, IsLast, IsCall;
  }

  lemma StepKeepsJustified(s: State, e: Event, script: seq<Event>)
    requires Wire(s) && Tracks(s, script) && NoClash(script) && AllJustified(s) && Enabled(s, e)
    ensures AllJustified(Apply(s, e))
  {
    match e
    case Respond(_, _, _) =>
      forall r | r in s.outcomes
        ensures Justified(Apply(s, e).answers, r)
      {
        assert Justified(s.answers, r);
      }
    case ClientReceives(a, d) =>
      if IsReply(d, s.clients[a].lastId) {
        AcceptedReplyIsJustified(s, e, script);
      }
    case _ =>
  }

  lemma PrefixHasNoClash(script: seq<Event>, part: seq<Event>)
    requires part <= script && NoClash(script)
    ensures NoClash(part)
  {
    forall i: nat, j: nat
      ensures !Clash(part, i, j)
    {
      if i < j < |part| {
        assert part[..i] == script[..i] && part[..j] == script[..j];
        assert !Clash(script, i, j);
      }
    }
  }

  lemma {:induction false} RunTracks(states: seq<State>, es: seq<Event>, i: nat)
    requires Run(states, es) && i <= |es|
    ensures Tracks(states[i], ScriptOf(es[..i]))
  {
    if i > 0 {
      RunTracks(states, es, i - 1);
      var e, script := es[i - 1], ScriptOf(es[..i - 1]);
      assert es[..i][..i - 1] == es[..i - 1];
      if IsClientEvent(e) {
        ClientEventTracks(states[i - 1], e, script);
      } else {
        OtherEventTracks(states[i - 1], e, script);
        assert script + [] == script;
      }
    }
  }

  lemma {:induction false} ScriptGrows(es: seq<Event>, i: nat)
    requires i <= |es|
    ensures ScriptOf(es[..i]) <= ScriptOf(es)
    decreases |es|
  {
    if i == |es| {
      assert es[..i] == es;
    } else {
      assert es[..|es| - 1][..i] == es[..i];
      ScriptGrows(es[..|es| - 1], i);
    }
  }

  lemma {:induction false} NoClashJustifies(states: seq<State>, es: seq<Event>, script: seq<Event>, i: nat)
    requires Follows(states, es, script) && NoClash(script) && i <= |es|
    ensures AllJustified(states[i])
  {
    if i > 0 {
      NoClashJustifies(states, es, script, i - 1);
      RunKeepsWire(states, es, i - 1);
      RunTracks(states, es, i - 1);
      ScriptGrows(es, i - 1);
      PrefixHasNoClash(script, ScriptOf(es[..i - 1]));
      StepKeepsJustified(states[i - 1], es[i - 1], ScriptOf(es[..i - 1]));
    }
  }

  // ----- a clash: some return is not -----

  /** A run of this script that ends in `s`. */
  ghost predicate RunTo(s: State, script: seq<Event>) {
    exists states, es :: Run(states, es) && states[|es|] == s && ScriptOf(es) == script
  }

  lemma RunToNext(s: State, script: seq<Event>, e: Event, s': State)
    requires RunTo(s, script) && Enabled(s, e) && s' == Apply(s, e)
    ensures RunTo(s', if IsClientEvent(e) then script + [e] else script)
  {
    var states, es :| Run(states, es) && states[|es|] == s && ScriptOf(es) == script;
    var states', es' := states + [s'], es + [e];
    assert es'[..|es|] == es;
    assert Run(states', es') && states'[|es'|] == s';
    assert script + [] == script;
  }

  /** ... with every client idle, and no answer given yet. */
  ghost predicate Idle(s: State, script: seq<Event>) {
    RunTo(s, script) && s.answers == {} && AllIdle(s.clients, IdsAfter(script))
  }

  predicate AllIdle(clients: map<nat, Client>, ids: map<nat, u32>) {
    clients.Keys == ids.Keys && forall a :: a in clients ==> clients[a] == Client(ids[a], None)
  }

  lemma IdsMove(script: seq<Event>, n: nat)
    requires n < |script|
    ensures script[..n] + [script[n]] == script[..n + 1] && script[..n + 1][..n] == script[..n]
  {
  }

  /** The client at `a` sends a request. */
  lemma IssueOne(s: State, script: seq<Event>, n: nat) returns (s': State)
    requires Feasible(script) && n < |script| && script[n].Issue? && Idle(s, script[..n])
    ensures RunTo(s', script[..n + 1]) && s'.answers == {} && s'.receipts == s.receipts
    ensures var e, id := script[n], IdAt(script, n);
            && e.addr in s'.clients && s'.clients[e.addr] == Client(id, Some(e.request))
            && AllIdle(s'.clients[e.addr := Client(id, None)], IdsAfter(script[..n + 1]))
            && (Fits(e.request) ==> (e.addr, Packet(QoSHeader(id, e.now, REQUEST, 1), e.request)) in s'.toServer)
  {
    var e, id := script[n], IdAt(script, n);
    assert Possible(script, n);
    IdsMove(script, n);
    IdsStep(script, n);
    IdleUpdated(s.clients, IdsAfter(script[..n]), e.addr, id);
    assert Enabled(s, e) && NextId(s, e.addr) == id;
    hide RunTo, AllIdle, IdsAfter, Feasible, Possible, Packet, Apply, Enabled;
    IssueSets(s, e);
    s' := Apply(s, e);
    assert s'.clients[e.addr := Client(id, None)] == s.clients[e.addr := Client(id, None)];
    RunToNext(s, script[..n], e, s');
  }

  lemma IssueSets(s: State, e: Event)
    requires e.Issue? && Enabled(s, e)
    ensures var id, s' := NextId(s, e.addr), Apply(s, e);
            && s'.clients == s.clients[e.addr := Client(id, Some(e.request))]
            && s'.answers == s.answers && s'.receipts == s.receipts
            && (Fits(e.request) ==> (e.addr, Packet(QoSHeader(id, e.now, REQUEST, 1), e.request)) in s'.toServer)
  {
  }

  lemma IdleUpdated(clients: map<nat, Client>, ids: map<nat, u32>, a: nat, id: u32)
    requires AllIdle(clients, ids)
    ensures AllIdle(clients[a := Client(id, None)], ids[a := id])
  {
  }

  lemma TimeOut(s: State, script: seq<Event>, addr: nat) returns (s': State)
    requires RunTo(s, script) && Waiting(s, addr)
    ensures RunTo(s', script) && s'.answers == s.answers && s'.receipts == s.receipts
    ensures s'.clients == s.clients[addr := s.clients[addr].(waiting := None)]
  {
    hide RunTo;
    s' := Apply(s, TimesOut(addr));
    RunToNext(s, script, TimesOut(addr), s');
  }

  lemma ComeUp(s: State, script: seq<Event>, n: nat) returns (s': State)
    requires Feasible(script) && n < |script| && !script[n].Issue? && Idle(s, script[..n])
    ensures Idle(s', script[..n + 1]) && s.receipts == s'.receipts
  {
    assert Possible(script, n);
    IdsMove(script, n);
    hide RunTo;
    s' := Apply(s, script[n]);
    RunToNext(s, script[..n], script[n], s');
  }

  /** A client event, and if it is a call, its time-out. */
  lemma TakeClientEvent(s: State, script: seq<Event>, n: nat) returns (s': State)
    requires Feasible(script) && n < |script| && Idle(s, script[..n])
    ensures Idle(s', script[..n + 1]) && s.receipts <= s'.receipts
  {
    hide RunTo, AllIdle, IdsAfter, Packet, Feasible;
    if script[n].Issue? {
      s' := IssueOne(s, script, n);
      s' := TimeOut(s', script[..n + 1], script[n].addr);
    } else {
      s' := ComeUp(s, script, n);
    }
  }

  lemma {:induction false} TakeClientEvents(s: State, script: seq<Event>, n: nat, m: nat) returns (s': State)
    requires Feasible(script) && n <= m <= |script| && Idle(s, script[..n])
    ensures Idle(s', script[..m]) && s.receipts <= s'.receipts
    decreases m - n
  {
    if n == m {
      s' := s;
    } else {
      var next := TakeClientEvent(s, script, n);
      s' := TakeClientEvents(next, script, n + 1, m);
    }
  }

  /** The request reaches the server. */
  lemma ReachServer(s: State, script: seq<Event>, addr: nat, h: QoSHeader, request: seq<byte>) returns (s': State)
    requires RunTo(s, script) && (addr, Packet(h, request)) in s.toServer
    requires request != [] && Fits(request) && h.msgType == REQUEST
    ensures RunTo(s', script) && s'.answers == s.answers && s'.clients == s.clients
    ensures Receipt(ClientInfo(addr, h.seqId), request) in s'.receipts
  {
    var d := Packet(h, request);
    PacketIsRead(h, request);
    hide RunTo, Packet, HeaderOf, PayloadOf, QosEnvelope.Received;
    s' := Apply(s, ServerReceives(addr, d));
    RunToNext(s, script, ServerReceives(addr, d), s');
  }

  /** A call whose request reaches the server before the call times out. */
  lemma CallInVain(s: State, script: seq<Event>, i: nat) returns (s': State)
    requires Feasible(script) && i < |script| && Idle(s, script[..i])
    requires script[i].Issue? && Fits(script[i].request)
    ensures Idle(s', script[..i + 1])
    ensures Receipt(ClientInfo(script[i].addr, IdAt(script, i)), script[i].request) in s'.receipts
  {
    var e, id := script[i], IdAt(script, i);
    assert Possible(script, i);
    var s1 := IssueOne(s, script, i);
    hide RunTo, IdsAfter, AllIdle, Packet, IdAt;
    s' := ReachServer(s1, script[..i + 1], e.addr, QoSHeader(id, e.now, REQUEST, 1), e.request);
    s' := TimeOut(s', script[..i + 1], e.addr);
  }

  lemma AnswerOne(s: State, script: seq<Event>, r: Receipt, answer: seq<byte>) returns (s': State)
    requires RunTo(s, script) && r in s.receipts && answer != [] && Fits(answer)
    ensures RunTo(s', script) && s'.answers == s.answers + {Answer(r, answer)} && s'.clients == s.clients
    ensures (r.info.addr, Packet(QoSHeader(r.info.requestId, 0, RESPONSE, 0), answer)) in s'.toClients
  {
    PacketIsRead(QoSHeader(r.info.requestId, 0, RESPONSE, 0), answer);
    hide RunTo, Packet, HeaderOf, PayloadOf, QosEnvelope.Received;
    s' := Apply(s, Respond(r, answer, 0));
    RunToNext(s, script, Respond(r, answer, 0), s');
  }

  lemma TakeReply(s: State, script: seq<Event>, addr: nat, h: QoSHeader, answer: seq<byte>) returns (s': State)
    requires RunTo(s, script) && Waiting(s, addr) && (addr, Packet(h, answer)) in s.toClients
    requires answer != [] && Fits(answer) && h.msgType == RESPONSE && h.seqId == s.clients[addr].lastId
    ensures RunTo(s', script) && s'.answers == s.answers
    ensures Return(addr, h.seqId, s.clients[addr].waiting.value, answer) in s'.outcomes
  {
    var d := Packet(h, answer);
    PacketIsRead(h, answer);
    hide RunTo, Packet, HeaderOf, PayloadOf, QosEnvelope.Received;
    s' := Apply(s, ClientReceives(addr, d));
    RunToNext(s, script, ClientReceives(addr, d), s');
  }

  /** A later call under the same id, to which the server gives the earlier one's answer. */
  lemma CallGetsOldAnswer(s: State, script: seq<Event>, j: nat, old_: Receipt) returns (s': State)
    requires Feasible(script) && j < |script| && Idle(s, script[..j]) && script[j].Issue?
    requires old_ in s.receipts && old_.info == ClientInfo(script[j].addr, IdAt(script, j))
    requires old_.request != script[j].request
    ensures RunTo(s', script[..j + 1]) && !AllJustified(s')
  {
    var e := script[j];
    var s1 := IssueOne(s, script, j);
    hide RunTo, IdsAfter, AllIdle, Packet, IdAt;
    s1 := AnswerOne(s1, script[..j + 1], old_, [0]);
    s' := TakeReply(s1, script[..j + 1], e.addr, QoSHeader(old_.info.requestId, 0, RESPONSE, 0), [0]);
    assert !Justified(s'.answers, Return(e.addr, old_.info.requestId, e.request, [0]));
  }

  lemma ClashMixesAnswers(script: seq<Event>, i: nat, j: nat)
    requires Feasible(script) && Clash(script, i, j)
    ensures exists states, es :: Follows(states, es, script) && !AllJustified(states[|es|])
  {
    var start := State(map[], {}, {}, {}, {}, {}, []);
    assert Run([start], []) && script[..0] == [];
    assert RunTo(start, []);
    var s := TakeClientEvents(start, script, 0, i);
    s := CallInVain(s, script, i);
    s := TakeClientEvents(s, script, i + 1, j);
    s := CallGetsOldAnswer(s, script, j, Receipt(ClientInfo(script[i].addr, IdAt(script, i)), script[i].request));
    var states, es :| Run(states, es) && states[|es|] == s && ScriptOf(es) == script[..j + 1];
    assert Follows(states, es, script);
  }

  /** What clients need to do to be safe: over all runs in which they follow a script,
      every non-empty return is the server's answer to its own call if and only if no
      address sends two different requests under one id. */
  lemma ClashFreeScriptsAreSafe(script: seq<Event>)
    requires Feasible(script)
    ensures NoClash(script) <==> forall states, es :: Follows(states, es, script) ==> AllJustified(states[|es|])
  {
    if NoClash(script) {
      forall states, es | Follows(states, es, script)
        ensures AllJustified(states[|es|])
      {
        NoClashJustifies(states, es, script, |es|);
      }
    } else {
      var i: nat, j: nat :| Clash(script, i, j);
      ClashMixesAnswers(script, i, j);
    }
  }

  // ----- two scripts -----

  /** The ids after one more event. */
  lemma IdsStep(script: seq<Event>, n: nat)
    requires n < |script| && IsClientEvent(script[n])
    ensures var e, before := script[n], IdsAfter(script[..n]);
            IdsAfter(script[..n + 1]) ==
              before[e.addr := if e.Issue? then Wrap32(Counter(script[..n], e.addr) + 1) else 0]
  {
    IdsMove(script, n);
  }

  /** A client that calls, starts over at its old address and calls again is safe exactly
      if it makes the same request: both calls have id 1. */
  lemma RestartClashes(a: nat, first: seq<byte>, second: seq<byte>)
    requires first != [] && second != [] && Fits(first)
    ensures var script := [Open(a), Issue(a, first, 0), Restart(a), Issue(a, second, 0)];
            Feasible(script) && (NoClash(script) <==> first == second)
  {
    var script := [Open(a), Issue(a, first, 0), Restart(a), Issue(a, second, 0)];
    assert IdsAfter(script[..0]) == map[];
    IdsStep(script, 0);
    IdsStep(script, 1);
    IdsStep(script, 2);
    hide IdsAfter;
    assert Possible(script, 0) && Possible(script, 1) && Possible(script, 2) && Possible(script, 3);
    assert IdAt(script, 1) == 1 && IdAt(script, 3) == 1;
    assert Clash(script, 1, 3) <==> first != second;
    forall i: nat, j: nat | Clash(script, i, j)
      ensures i == 1 && j == 3
    {
    }
  }

  /** One client that stays up and makes these calls. */
  function Calls(a: nat, requests: seq<seq<byte>>): (script: seq<Event>)
    ensures |script| == |requests| + 1 && script[0] == Open(a)
    ensures forall k :: 0 < k < |script| ==> script[k] == Issue(a, requests[k - 1], 0)
  {
    if requests == [] then [Open(a)]
    else Calls(a, requests[..|requests| - 1]) + [Issue(a, requests[|requests| - 1], 0)]
  }

  lemma WrapNext(n: nat)
    ensures Wrap32(Wrap32(n) + 1) == Wrap32(n + 1)
  {
  }

  lemma {:induction false} CallIds(a: nat, requests: seq<seq<byte>>, n: nat)
    requires n <= |requests|
    ensures IdsAfter(Calls(a, requests)[..n + 1]) == map[a := Wrap32(n)]
  {
    var script := Calls(a, requests);
    IdsStep(script, n);
    if n == 0 {
      assert IdsAfter(script[..0]) == map[];
    } else {
      CallIds(a, requests, n - 1);
      WrapNext(n - 1);
    }
  }

  lemma CallsArePossible(a: nat, requests: seq<seq<byte>>, k: nat)
    requires k <= |requests| && forall r | r in requests :: r != []
    ensures var script := Calls(a, requests);
            Possible(script, k) && (k > 0 ==> IdAt(script, k) == Wrap32(k))
  {
    if k > 0 {
      CallIds(a, requests, k - 1);
      WrapNext(k - 1);
      assert requests[k - 1] in requests;
    } else {
      assert IdsAfter(Calls(a, requests)[..0]) == map[];
    }
  }

  /** Calls `i` and `j` are a multiple of 2^32 apart and make different requests. */
  predicate Repeats(requests: seq<seq<byte>>, i: nat, j: nat) {
    0 < i < j <= |requests| && Wrap32(i) == Wrap32(j) && requests[i - 1] != requests[j - 1]
  }

  lemma CallsClash(a: nat, requests: seq<seq<byte>>, i: nat, j: nat)
    requires forall r | r in requests :: r != [] && Fits(r)
    ensures Clash(Calls(a, requests), i, j) <==> Repeats(requests, i, j)
  {
    if 0 < i < j <= |requests| {
      CallsArePossible(a, requests, i);
      CallsArePossible(a, requests, j);
      assert requests[i - 1] in requests;
    }
  }

  lemma NothingRepeatsYet(requests: seq<seq<byte>>, i: nat, j: nat)
    requires |requests| <= 0x1_0000_0000
    ensures !Repeats(requests, i, j)
  {
  }

  /** It is safe exactly if calls a multiple of 2^32 apart make the same request; so up to
      2^32 calls it always is. */
  lemma LongLifeClashes(a: nat, requests: seq<seq<byte>>)
    requires forall r | r in requests :: r != [] && Fits(r)
    ensures Feasible(Calls(a, requests))
    ensures NoClash(Calls(a, requests)) <==> forall i: nat, j: nat :: !Repeats(requests, i, j)
    ensures |requests| <= 0x1_0000_0000 ==> NoClash(Calls(a, requests))
  {
    hide Clash, Possible, Repeats;
    forall k: nat | k <= |requests|
      ensures Possible(Calls(a, requests), k)
    {
      CallsArePossible(a, requests, k);
    }
    forall i: nat, j: nat
      ensures Clash(Calls(a, requests), i, j) <==> Repeats(requests, i, j)
      ensures |requests| <= 0x1_0000_0000 ==> !Repeats(requests, i, j)
    {
      CallsClash(a, requests, i, j);
      if |requests| <= 0x1_0000_0000 {
        NothingRepeatsYet(requests, i, j);
      }
    }
  }
}
