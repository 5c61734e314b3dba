/** The script that puts a sequence filter of its own, on numbers inside the payload, on
    top of a UDP topic, and reports what it takes to be lost. */
module QosReceiver {
  import opened Words
  import opened UdpTopic

  /** The size of a command; anything else is ignored. */
  const COMMAND: nat := 24

  predicate IsCommand(d: seq<byte>) {
    |d| == COMMAND
  }

  function IdOf(d: seq<byte>): u32
    requires IsCommand(d)
  {
    U32Of(d[..4])
  }

  /** A command as its sender means it; the two speeds are floats, which nobody here reads. */
  datatype Command = Command(id: u32, stamp: u64, speed: seq<byte>, steering: seq<byte>, gear: i32) {
    predicate Valid() {
      |speed| == |steering| == 4
    }
  }

  /** The packed structure: number, time stamp, speed, steering, gear. */
  function EncodeCommand(c: Command): seq<byte> {
    Le(c.id, 4) + Le(c.stamp, 8) + c.speed + c.steering + Le(Wrap32(c.gear), 4)
  }

  lemma FiveParts(a: seq<byte>, b: seq<byte>, c: seq<byte>, d: seq<byte>, e: seq<byte>)
    requires |a| == |c| == |d| == |e| == 4 && |b| == 8
    ensures var m := a + b + c + d + e;
            && |m| == 24 && m[..4] == a && m[12..16] == c && m[16..20] == d
            && m == [] + a + (b + c + d + e) == a + b + (c + d + e) == a + b + c + d + e + []
  {
  }

  /** Its bytes one by one, and the number that is read from them. */
  lemma CommandIsRead(c: Command)
    requires c.Valid()
    ensures var m := EncodeCommand(c);
            && IsCommand(m) && IdOf(m) == c.id
            && StandsAt(m, 0, 4, c.id) && StandsAt(m, 4, 8, c.stamp) && m[12..16] == c.speed && m[16..20] == c.steering
            && StandsAt(m, 20, 4, Wrap32(c.gear))
  {
    hide Le, StandsAt;
    var id, stamp, gear := Le(c.id, 4), Le(c.stamp, 8), Le(Wrap32(c.gear), 4);
    FiveParts(id, stamp, c.speed, c.steering, gear);
    LeStands([], c.id, 4, stamp + c.speed + c.steering + gear);
    LeStands(id, c.stamp, 8, c.speed + c.steering + gear);
    LeStands(id + stamp + c.speed + c.steering, Wrap32(c.gear), 4, []);
    U32RoundTrip(c.id, id);
  }

  /** Command `i` has a higher number than every command before it, and than 0. */
  predicate IsNewer(received: seq<seq<byte>>, i: nat)
    requires i < |received|
  {
    && IsCommand(received[i]) && IdOf(received[i]) > 0
    && forall j :: 0 <= j < i && IsCommand(received[j]) ==> IdOf(received[j]) < IdOf(received[i])
  }

  /** The positions of the left-to-right maxima. */
  function Maxima(received: seq<seq<byte>>): (r: seq<nat>)
    ensures forall k :: 0 <= k < |r| ==> r[k] < |received| && IsCommand(received[r[k]])
  {
    if received == [] then []
    else
      var n := |received| - 1;
      Maxima(received[..n]) + (if IsNewer(received, n) then [n] else [])
  }

  /** They are all there, each once and in order. */
  lemma {:induction false} MaximaAreNewer(received: seq<seq<byte>>)
    ensures var m := Maxima(received);
            && (forall i, j :: 0 <= i < j < |m| ==> m[i] < m[j])
            && (forall k: nat :: k in m <==> k < |received| && IsNewer(received, k))
  {
    hide IdOf;
    if received != [] {
      var n := |received| - 1;
      MaximaAreNewer(received[..n]);
      assert received[..n + 1] == received;
      MaximaGrow(received, n);
      forall k: nat | k < n
        ensures IsNewer(received[..n], k) == IsNewer(received, k)
      {
        assert forall j :: 0 <= j <= k ==> received[..n][j] == received[j];
      }
    }
  }

  function Total(counts: seq<nat>): nat {
    if counts == [] then 0 else Total(counts[..|counts| - 1]) + counts[|counts| - 1]
  }

  lemma TotalGrows(counts: seq<nat>, n: nat)
    ensures Total(counts + [n]) == Total(counts) + n
  {
    assert (counts + [n])[..|counts|] == counts;
  }

  lemma MaximaGrow(received: seq<seq<byte>>, i: nat)
    requires i < |received|
    ensures IsNewer(received[..i + 1], i) == IsNewer(received, i)
    ensures Maxima(received[..i + 1]) == Maxima(received[..i]) + (if IsNewer(received, i) then [i] else [])
  {
    var r := received[..i + 1];
    assert r[..i] == received[..i];
    assert forall j :: 0 <= j <= i ==> r[j] == received[j];
  }

  /** `last` is the highest number any of these commands has, and 0 if none has one. */
  ghost predicate IsHighest(received: seq<seq<byte>>, n: nat, last: u32)
    requires n <= |received|
  {
    && (forall j :: 0 <= j < n && IsCommand(received[j]) ==> IdOf(received[j]) <= last)
    && (last != 0 ==> exists j :: 0 <= j < n && IsCommand(received[j]) && IdOf(received[j]) == last)
  }

  lemma HighestMoves(received: seq<seq<byte>>, i: nat, last: u32)
    requires i < |received| && IsHighest(received, i, last)
    ensures IsNewer(received, i) <==> IsCommand(received[i]) && IdOf(received[i]) > last
    ensures IsHighest(received, i + 1, if IsNewer(received, i) then IdOf(received[i]) else last)
  {
    hide IdOf;
    if last != 0 {
      var j :| 0 <= j < i && IsCommand(received[j]) && IdOf(received[j]) == last;
    }
  }

  predicate AreCommands(received: seq<seq<byte>>, positions: seq<nat>) {
    forall k :: 0 <= k < |positions| ==> positions[k] < |received| && IsCommand(received[positions[k]])
  }

  /** The number of the command executed last, and 0 before the first. */
  function LastId(received: seq<seq<byte>>, executed: seq<nat>): u32
    requires AreCommands(received, executed)
  {
    if executed == [] then 0 else IdOf(received[executed[|executed| - 1]])
  }

  /** Executed plus reported lost is the span from the first number executed to the last. */
  predicate Balanced(received: seq<seq<byte>>, executed: seq<nat>, lost: seq<nat>)
    requires AreCommands(received, executed)
  {
    if executed == [] then lost == []
    else |executed| + Total(lost) == LastId(received, executed) - IdOf(received[executed[0]]) + 1
  }

  /** What is reported between two commands executed one after the other. */
  function Gap(a: u32, b: u32): seq<nat> {
    if b > a + 1 then [b - a - 1] else []
  }

  lemma GapTotal(lost: seq<nat>, a: u32, b: u32)
    requires b > a
    ensures Total(lost + Gap(a, b)) == Total(lost) + b - a - 1
  {
    TotalGrows(lost, b - a - 1);
    assert b == a + 1 ==> lost + Gap(a, b) == lost;
  }

  /** All the reports for commands executed in this order. */
  function Gaps(received: seq<seq<byte>>, executed: seq<nat>): seq<nat>
    requires AreCommands(received, executed)
  {
    var n := |executed| - 1;
    if n < 1 then []
    else Gaps(received, executed[..n]) + Gap(IdOf(received[executed[n - 1]]), IdOf(received[executed[n]]))
  }

  lemma GapsMove(received: seq<seq<byte>>, executed: seq<nat>, i: nat)
    requires AreCommands(received, executed) && i < |received| && IsCommand(received[i])
    ensures AreCommands(received, executed + [i])
    ensures Gaps(received, executed + [i]) == Gaps(received, executed) +
              (if executed == [] then [] else Gap(LastId(received, executed), IdOf(received[i])))
  {
    hide IdOf;
    assert (executed + [i])[..|executed|] == executed;
  }

  lemma BalanceMoves(received: seq<seq<byte>>, executed: seq<nat>, lost: seq<nat>, i: nat, lost': seq<nat>)
    requires AreCommands(received, executed) && Balanced(received, executed, lost)
    requires i < |received| && IsCommand(received[i])
    requires executed == [] ==> lost' == []
    requires executed != [] ==> Total(lost') == Total(lost) + IdOf(received[i]) - LastId(received, executed) - 1
    ensures AreCommands(received, executed + [i]) && LastId(received, executed + [i]) == IdOf(received[i])
    ensures Balanced(received, executed + [i], lost')
  {
    hide IdOf;
    var more := executed + [i];
    assert more[0] == if executed == [] then i else executed[0];
    assert more[|more| - 1] == i;
  }

  /** The state of the loop after `n` receives. */
  ghost predicate Books(received: seq<seq<byte>>, n: nat, executed: seq<nat>, lost: seq<nat>, last: u32) {
    && n <= |received| && executed == Maxima(received[..n])
    && IsHighest(received, n, last)
    && AreCommands(received, executed) && last == LastId(received, executed) && (last == 0 <==> executed == [])
    && lost == Gaps(received, executed) && Balanced(received, executed, lost)
  }

  lemma BooksOpen(received: seq<seq<byte>>)
    ensures Books(received, 0, [], [], 0)
  {
  }

  lemma BooksClose(received: seq<seq<byte>>, executed: seq<nat>, lost: seq<nat>, last: u32)
    requires Books(received, |received|, executed, lost, last)
    ensures executed == Maxima(received) && lost == Gaps(received, executed) && Balanced(received, executed, lost)
  {
    assert received[..|received|] == received;
  }

  lemma BooksIgnore(received: seq<seq<byte>>, n: nat, executed: seq<nat>, lost: seq<nat>, last: u32)
    requires Books(received, n, executed, lost, last) && n < |received|
    requires !IsCommand(received[n]) || IdOf(received[n]) <= last
    ensures Books(received, n + 1, executed, lost, last)
  {
    hide IdOf, Balanced, AreCommands, LastId, Gaps;
    MaximaGrow(received, n);
    HighestMoves(received, n, last);
  }

  lemma BooksExecute(received: seq<seq<byte>>, n: nat, executed: seq<nat>, lost: seq<nat>, last: u32, lost': seq<nat>)
    requires Books(received, n, executed, lost, last) && n < |received|
    requires IsCommand(received[n]) && IdOf(received[n]) > last
    requires lost' == lost + (if last == 0 then [] else Gap(last, IdOf(received[n])))
    ensures Books(received, n + 1, executed + [n], lost', IdOf(received[n]))
  {
    assert executed == [] ==> lost == [];
    hide IdOf, Balanced, AreCommands, LastId, Gaps, Gap, Total, Maxima, IsHighest;
    MaximaGrow(received, n);
    HighestMoves(received, n, last);
    GapsMove(received, executed, n);
    if executed != [] {
      GapTotal(lost, last, IdOf(received[n]));
    }
    BalanceMoves(received, executed, lost, n, lost');
  }

  /** The receive loop. Executed are exactly the left-to-right maxima, every gap between
      them is reported, and the books balance. */
  method ReceiveLoop(received: seq<seq<byte>>) returns (executed: seq<nat>, lost: seq<nat>)
    ensures executed == Maxima(received)
    ensures forall k: nat :: k in executed <==> k < |received| && IsNewer(received, k)
    ensures forall i, j :: 0 <= i < j < |executed| ==> executed[i] < executed[j]
    ensures lost == Gaps(received, executed) && Balanced(received, executed, lost)
  {
    MaximaAreNewer(received);
    hide IdOf, Books, Maxima, Gaps, Balanced;
    BooksOpen(received);
    executed, lost := [], [];
    var lastSeqId: u32 := 0;
    var i := 0;
    while i < |received|
      invariant i <= |received| && Books(received, i, executed, lost, lastSeqId)
    {
      var data := received[i];
      i := i + 1;
      if IsCommand(data) && IdOf(data) > lastSeqId {
        ghost var before := lost;
        var seqId := IdOf(data);
        if lastSeqId != 0 && seqId > lastSeqId + 1 {
          lost := lost + [seqId - lastSeqId - 1];
        }
        assert lost == before + (if lastSeqId == 0 then [] else Gap(lastSeqId, seqId));
        BooksExecute(received, i - 1, executed, before, lastSeqId, lost);
        lastSeqId := seqId;
        executed := executed + [i - 1];
      } else {
        BooksIgnore(received, i - 1, executed, lost, lastSeqId);
      }
    }
    BooksClose(received, executed, lost, lastSeqId);
  }

  // ----- in the sender's terms -----

  /** What a receive may yield: a command as it was sent, or anything of another size. */
  datatype Input = Sent(command: Command) | Other(bytes: seq<byte>) {
    predicate Valid() {
      match this
      case Sent(c) => c.Valid()
      case Other(bytes) => |bytes| != COMMAND
    }

    function Bytes(): seq<byte> {
      match this
      case Sent(c) => EncodeCommand(c)
      case Other(bytes) => bytes
    }
  }

  predicate AllValid(inputs: seq<Input>) {
    forall i :: 0 <= i < |inputs| ==> inputs[i].Valid()
  }

  function AllBytes(inputs: seq<Input>): (received: seq<seq<byte>>)
    ensures |received| == |inputs| && forall i :: 0 <= i < |received| ==> received[i] == inputs[i].Bytes()
  {
    seq(|inputs|, i requires 0 <= i < |inputs| => inputs[i].Bytes())
  }

  /** A command is executed exactly if its sender's number is above 0 and above that of every
      command received before it, and nothing else is. */
  lemma ExecutedAreNewest(inputs: seq<Input>, i: nat)
    requires AllValid(inputs) && i < |inputs|
    ensures i in Maxima(AllBytes(inputs)) <==>
              && inputs[i].Sent? && inputs[i].command.id > 0
              && forall j :: 0 <= j < i && inputs[j].Sent? ==> inputs[j].command.id < inputs[i].command.id
  {
    var received := AllBytes(inputs);
    MaximaAreNewer(received);
    forall j | 0 <= j <= i
      ensures IsCommand(received[j]) <==> inputs[j].Sent?
      ensures inputs[j].Sent? ==> IdOf(received[j]) == inputs[j].command.id
    {
      assert inputs[j].Valid();
      if inputs[j].Sent? {
        CommandIsRead(inputs[j].command);
      }
    }
  }

  // ----- on top of a UDP topic -----

  /** What the script reads from the topic, receive by receive. */
  function Payloads(sent: seq<Message>, net: seq<Arrival>): (r: seq<seq<byte>>)
    requires Arrivals(sent, net)
    ensures |r| == |net| && forall i :: 0 <= i < |net| ==> r[i] == Returned(sent, net, i)
  {
    seq(|net|, i requires 0 <= i < |net| => Returned(sent, net, i))
  }

  /** The publisher sends these commands, numbered upwards. */
  ghost predicate NumberedInside(sent: seq<Message>, cs: seq<Command>) {
    && |cs| == |sent| && (forall k :: 0 <= k < |sent| ==> SendsCommand(sent[k], cs[k]))
    && (forall j, k :: 0 <= j < k < |cs| ==> cs[j].id < cs[k].id)
  }

  predicate SendsCommand(m: Message, c: Command) {
    c.Valid() && c.id > 0 && m.data == EncodeCommand(c)
  }

  lemma SentIsRead(sent: seq<Message>, cs: seq<Command>, k: nat)
    requires NumberedInside(sent, cs) && k < |sent|
    ensures IsCommand(sent[k].data) && IdOf(sent[k].data) == cs[k].id > 0
  {
    assert SendsCommand(sent[k], cs[k]);
    CommandIsRead(cs[k]);
  }

  /** Then the second filter has nothing left to do: it executes precisely what the topic
      delivers. */
  lemma SecondFilterIsIdle(sent: seq<Message>, cs: seq<Command>, net: seq<Arrival>, i: nat)
    requires Arrivals(sent, net) && Numbered(net) && NumberedInside(sent, cs) && i < |net|
    ensures IsNewer(Payloads(sent, net), i) <==> IsRecord(net, i)
  {
    var r := Payloads(sent, net);
    DeliversExactlyTheRecords(sent, net, i);
    if IsRecord(net, i) {
      assert Possible(sent, net[i]);
      SentIsRead(sent, cs, net[i].k);
      forall j | 0 <= j < i && IsCommand(r[j])
        ensures IdOf(r[j]) < IdOf(r[i])
      {
        DeliversExactlyTheRecords(sent, net, j);
        assert Possible(sent, net[j]);
        SentIsRead(sent, cs, net[j].k);
      }
    }
  }
}
