/** Inputs at which the protocol of src/kdCom/kddll.cpp fails: a message whose
    payload is an encoded packet, read behind its header, a reset, and a call of
    the wrong type. */
module KdFailures {
  import opened Basics
  import opened KdWire
  import opened KdReceive
  import opened KdFrames
  import opened KdCalls
  import opened KdLine
  import opened KdLink
  import opened KdForged

  // ----- One frame on the line -----

  lemma {:induction false} UnreadOne(c: Chunk, n: nat)
    requires 0 < n <= |c.Content()|
    ensures Unread([c], n) == if n == |c.Content()| then [] else [Noise(c.Content()[n..])]
  {
    assert [c][1..] == [];
  }

  /** A call that hears a chunk alone on the line. */
  lemma {:induction false} CallOnChunk(msgs: seq<Message>, s: Net, c: Chunk, want: Want)
    requires s.line == [c] && |c.Content()| > 0
    requires 0 < Receive(Events(c.Content()), 0, s.ids, want).pos <= |c.Content()| + 1
    ensures var t := Receive(Events(c.Content()), 0, s.ids, want);
            Next(msgs, s, Call(want, Events(c.Content()))) ==
            Some(s.(line := if t.pos >= |c.Content()| then [] else [Noise(c.Content()[t.pos..])],
                    answers := s.answers + t.sent, ids := t.ids,
                    delivered := s.delivered +
                    if t.mail.Mail? then [Message(want.packetType, t.mail.header + t.mail.data)] else []))
  {
    hide Receive, Heard, Bytes, Frame.Bytes;
    var t, bytes := Receive(Events(c.Content()), 0, s.ids, want), c.Content();
    OneChunk(c);
    ReadEvents(bytes, t.pos);
    UnreadOne(c, if t.pos <= |bytes| then t.pos else |bytes|);
  }

  lemma {:induction false} RunThree(msgs: seq<Message>, s: Net, a: Step, b: Step, c: Step, t: Net)
    requires Next(msgs, s, a).Some? && Next(msgs, Next(msgs, s, a).value, b).Some?
    requires Next(msgs, Next(msgs, Next(msgs, s, a).value, b).value, c) == Some(t)
    ensures Run(msgs, s, [a, b, c]) == Some(t)
  {
    hide Next;
    assert [a, b, c][..2] == [a, b] && [a, b][..1] == [a] && [a][..0] == [];
    assert Run(msgs, s, []) == Some(s);
    assert Run(msgs, s, [a]) == Next(msgs, s, a);
    assert Run(msgs, s, [a, b]) == Next(msgs, Next(msgs, s, a).value, b);
  }

  // ----- Forged messages -----

  /** A message whose payload is itself an encoded packet of the first id. */
  function Carrier(x: seq<byte>): Message { Message(2, Encode(2, INITIAL_PACKET_ID, x)) }

  function CarrierFrame(x: seq<byte>): Frame { FrameOf(Carrier(x), 0) }

  lemma {:induction false} SendCarrier(x: seq<byte>)
    requires |x| + 17 <= PACKET_MAX_SIZE
    ensures Sendable([Carrier(x)]) && CarrierFrame(x).Valid() && |CarrierFrame(x).Bytes()| == |x| + 34
    ensures Next([Carrier(x)], Start, Send) == Some(Start.(line := [Flight(0, CarrierFrame(x))]))
  {
    BodyIsPacket(2, INITIAL_PACKET_ID, x);
    assert [] + [Flight(0, CarrierFrame(x))] == [Flight(0, CarrierFrame(x))];
  }

  /** A call that awaits an acknowledgement leaves the payload of a data frame
      on the line, where the next call takes it for a packet: it delivers x,
      which the debugger never sent as a message. */
  lemma {:induction false} AckForges(x: seq<byte>, want: Want, ack: Want)
    requires |x| + 17 <= PACKET_MAX_SIZE && want.packetType == 2 && want.hasData && want.headerMax <= |x|
    requires ack.packetType == ACKNOWLEDGE
    ensures var first := Events(CarrierFrame(x).Bytes());
            var second := Events(Encode(2, INITIAL_PACKET_ID, x) + [PACKET_TRAILING_BYTE]);
            var end := Run([Carrier(x)], Start, [Send, Call(ack, first), Call(want, second)]);
            end.Some? && end.value.delivered == [Message(2, x)]
  {
    hide Receive, Sum, Next, Carrier, Encode, Frame.Bytes, FrameOf, Events, Fields, Starts, Run;
    var msgs, f := [Carrier(x)], CarrierFrame(x);
    CarrierTail(x);
    SendCarrier(x);
    LeftBehindFields(f);
    var s1 := Start.(line := [Flight(0, f)]);
    var bytes := f.Bytes();
    HeardEvents(bytes);
    CallGoesOn(Events(bytes), 0, f, s1.ids, ack);
    CallOnChunk(msgs, s1, Flight(0, f), ack);
    var s2 := Next(msgs, s1, Call(ack, Events(bytes))).value;
    assert s2.line == [Noise(f.tail)] && s2.delivered == [] && s2.ids.remote == INITIAL_PACKET_ID;
    DeliversEmbedded(msgs, s2, x, want);
    var s3 := Next(msgs, s2, Call(want, Events(f.tail))).value;
    RunThree(msgs, Start, Send, Call(ack, Events(bytes)), Call(want, Events(f.tail)), s3);
  }

  lemma CarrierTail(x: seq<byte>)
    ensures CarrierFrame(x).tail == Encode(2, INITIAL_PACKET_ID, x) + [PACKET_TRAILING_BYTE]
  {
  }

  lemma LeftBehindFields(f: Frame)
    ensures f.Bytes()[16..] == f.tail
  {
  }

  lemma {:induction false} DeliversEmbedded(msgs: seq<Message>, s: Net, x: seq<byte>, want: Want)
    requires |x| <= PACKET_MAX_SIZE && want.packetType == 2 && want.hasData && want.headerMax <= |x|
    requires s.line == [Noise(Encode(2, INITIAL_PACKET_ID, x) + [PACKET_TRAILING_BYTE])] && s.delivered == []
    requires s.ids.remote == INITIAL_PACKET_ID
    ensures var next := Next(msgs, s, Call(want, Events(s.line[0].bytes)));
            next.Some? && next.value.delivered == [Message(2, x)]
  {
    hide Receive, Sum, Starts, Packet, Fields, Body, Next;
    var p, c := Encode(2, INITIAL_PACKET_ID, x), s.line[0];
    BodyIsPacket(2, INITIAL_PACKET_ID, x);
    HeardEvents(c.bytes);
    StartsConcat(Events(c.bytes), 0, p, [PACKET_TRAILING_BYTE]);
    DeliversAtOnce(Events(c.bytes), s.ids, want, |x|, x);
    assert x[..want.headerMax] + x[want.headerMax..] == x;
    CallOnChunk(msgs, s, c, want);
  }

  /** A poll for a break-in takes the first byte of a frame, so that the next
      call misses the frame and finds the packet inside it. */
  lemma {:induction false} PollForges(x: seq<byte>, want: Want, poll: Want)
    requires |x| + 17 <= PACKET_MAX_SIZE && want.packetType == 2 && want.hasData && want.headerMax <= |x|
    requires poll.packetType == POLL_BREAKIN
    ensures var bytes := CarrierFrame(x).Bytes();
            var end := Run([Carrier(x)], Start, [Send, Call(poll, Events(bytes)), Call(want, Events(bytes[1..]))]);
            end.Some? && end.value.delivered == [Message(2, x)]
  {
    hide Receive, Next, Sum, Carrier, Frame.Bytes, FrameOf, Events;
    var msgs, bytes := [Carrier(x)], CarrierFrame(x).Bytes();
    SendCarrier(x);
    PollTakesFirst(msgs, CarrierFrame(x), poll);
    MissedFrame(x, Start.ids, want);
    DeliversMissed(msgs, bytes[1..], want, x);
    var s2 := Start.(line := [Noise(bytes[1..])]);
    var s3 := Next(msgs, s2, Call(want, Events(bytes[1..]))).value;
    RunThree(msgs, Start, Send, Call(poll, Events(bytes)), Call(want, Events(bytes[1..])), s3);
  }

  lemma {:induction false} PollTakesFirst(msgs: seq<Message>, f: Frame, poll: Want)
    requires poll.packetType == POLL_BREAKIN
    ensures Next(msgs, Start.(line := [Flight(0, f)]), Call(poll, Events(f.Bytes()))) ==
            Some(Start.(line := [Noise(f.Bytes()[1..])]))
  {
    hide Receive, Next, Frame.Bytes, Events;
    var s1 := Start.(line := [Flight(0, f)]);
    PollEnds(Events(f.Bytes()), s1.ids, poll);
    CallOnChunk(msgs, s1, Flight(0, f), poll);
    assert s1.answers + [] == s1.answers && s1.delivered + [] == s1.delivered;
  }

  lemma {:induction false} DeliversMissed(msgs: seq<Message>, bytes: seq<byte>, want: Want, x: seq<byte>)
    requires want.packetType == 2 && want.headerMax <= |x| && |bytes| == |x| + 33
    requires var t := Receive(Events(bytes), 0, Start.ids, want);
             t.pos == |x| + 32 && t.mail == Mail(x[..want.headerMax], x[want.headerMax..], |x| - want.headerMax)
    ensures var next := Next(msgs, Start.(line := [Noise(bytes)]), Call(want, Events(bytes)));
            next.Some? && next.value.delivered == [Message(2, x)]
  {
    hide Receive, Next, Events;
    CallOnChunk(msgs, Start.(line := [Noise(bytes)]), Noise(bytes), want);
    assert x[..want.headerMax] + x[want.headerMax..] == x;
  }

  lemma {:induction false} PollEnds(ev: seq<Event>, ids: Ids, poll: Want)
    requires poll.packetType == POLL_BREAKIN
    ensures var t := Receive(ev, 0, ids, poll); t.pos == 1 && t.ids == ids && t.sent == [] && t.mail == NoMail
  {
  }

  lemma {:induction false} MissedFrame(x: seq<byte>, ids: Ids, want: Want)
    requires |x| + 17 <= PACKET_MAX_SIZE && want.packetType == 2 && want.hasData && want.headerMax <= |x|
    requires ids.remote == INITIAL_PACKET_ID
    ensures var t := Receive(Events(CarrierFrame(x).Bytes()[1..]), 0, ids, want);
            t.pos == |x| + 32 && t.mail == Mail(x[..want.headerMax], x[want.headerMax..], |x| - want.headerMax)
  {
    hide *;
    var ev := Events(CarrierFrame(x).Bytes()[1..]);
    HeardEvents(CarrierFrame(x).Bytes()[1..]);
    CarrierBytes(x);
    SplitCarrier(ev, x);
    FirstLeader(ev, x);
    DeliversAfter(ev, ids, want, x);
  }

  function Before(x: seq<byte>): seq<byte> {
    Leaders(PACKET_LEADER_BYTE)[1..] + Fields(2, |x| + 17, INITIAL_PACKET_ID, Sum(Encode(2, INITIAL_PACKET_ID, x)))
  }

  lemma SplitCarrier(ev: seq<Event>, x: seq<byte>)
    requires var after := Packet(2, |x|, INITIAL_PACKET_ID, x) + [PACKET_TRAILING_BYTE];
             |Before(x)| == 15 && Starts(ev, 0, Before(x) + (Leaders(PACKET_LEADER_BYTE) + after))
    ensures Starts(ev, 0, Before(x)) && Starts(ev, 15, Leaders(PACKET_LEADER_BYTE))
    ensures Starts(ev, 19, Packet(2, |x|, INITIAL_PACKET_ID, x))
  {
    hide Sum, Fields, Packet, Starts, Before;
    var l, packet := Leaders(PACKET_LEADER_BYTE), Packet(2, |x|, INITIAL_PACKET_ID, x);
    StartsConcat(ev, 0, Before(x), l + (packet + [PACKET_TRAILING_BYTE]));
    StartsConcat(ev, 15, l, packet + [PACKET_TRAILING_BYTE]);
    StartsConcat(ev, 19, packet, [PACKET_TRAILING_BYTE]);
  }

  lemma {:induction false} DeliversAfter(ev: seq<Event>, ids: Ids, want: Want, x: seq<byte>)
    requires |x| <= PACKET_MAX_SIZE && want.packetType == 2 && want.hasData && want.headerMax <= |x|
    requires ids.remote == INITIAL_PACKET_ID && Scan(ev, 0, 0) == Found(RECEIVED, PACKET_LEADER_BYTE, 19)
    requires Starts(ev, 19, Packet(2, |x|, INITIAL_PACKET_ID, x))
    ensures var t := Receive(ev, 0, ids, want);
            t.pos == |x| + 32 && t.mail == Mail(x[..want.headerMax], x[want.headerMax..], |x| - want.headerMax)
  {
    hide Sum, Fields, Packet, Starts, Scan, OneTurn;
    AcceptsPacket(ev, 0, ids, want, 2, |x|, INITIAL_PACKET_ID, x);
  }

  /** The bytes of the frame behind its first one. */
  lemma {:induction false} CarrierBytes(x: seq<byte>)
    ensures var after := Packet(2, |x|, INITIAL_PACKET_ID, x) + [PACKET_TRAILING_BYTE];
            |Before(x)| == 15 && CarrierFrame(x).Bytes()[1..] == Before(x) + (Leaders(PACKET_LEADER_BYTE) + after)
  {
    BodyIsPacket(2, INITIAL_PACKET_ID, x);
    hide Sum, Fields, Packet, Body;
    var p := Encode(2, INITIAL_PACKET_ID, x);
    Regroup(Leaders(PACKET_LEADER_BYTE), Fields(2, |p|, INITIAL_PACKET_ID, Sum(p)),
            Packet(2, |x|, INITIAL_PACKET_ID, x), [PACKET_TRAILING_BYTE]);
  }

  lemma Regroup(l: seq<byte>, fields: seq<byte>, packet: seq<byte>, t: seq<byte>)
    requires |l| > 0
    ensures (l + (fields + ((l + packet) + t)))[1..] == (l[1..] + fields) + (l + (packet + t))
  {
  }

  /** Three leader bytes and the header fields hold no four leader bytes. */
  lemma {:induction false} FirstLeader(ev: seq<Event>, x: seq<byte>)
    requires |x| + 17 <= PACKET_MAX_SIZE && Starts(ev, 0, Before(x)) && Starts(ev, 15, Leaders(PACKET_LEADER_BYTE))
    ensures Scan(ev, 0, 0) == Found(RECEIVED, PACKET_LEADER_BYTE, 19)
  {
    var before, sum := Before(x), Sum(Encode(2, INITIAL_PACKET_ID, x));
    SumBound(Encode(2, INITIAL_PACKET_ID, x));
    assert |Encode(2, INITIAL_PACKET_ID, x)| <= PACKET_MAX_SIZE by { BodyIsPacket(2, INITIAL_PACKET_ID, x); }
    FieldBytes(|x| + 17, sum);
    assert before[3] == 2 && before[7] == 0 && before[10] == 0x80 && before[14] == 0;
    hide Sum, Fields, Encode;
    assert ev[0 + 3] == Received(2) && ev[0 + 7] == Received(0);
    assert ev[0 + 10] == Received(0x80) && ev[0 + 14] == Received(0);
    forall j | 0 <= j < 18 ensures GoesOn(ev, 0, j) {
      if j < 15 {
        assert ev[0 + j] == Received(before[j]);
      } else {
        assert ev[15 + (j - 15)] == Received(Leaders(PACKET_LEADER_BYTE)[j - 15]);
      }
      NoFour(ev, j);
    }
    var l := Leaders(PACKET_LEADER_BYTE);
    assert ev[15 + 0] == Received(l[0]) && ev[15 + 1] == Received(l[1]);
    assert ev[15 + 2] == Received(l[2]) && ev[15 + 3] == Received(l[3]);
    assert FourLeaders(ev, 0, 19);
    ScanIsFirst(ev, 0, 0, 19);
    ScanReports(ev);
  }

  lemma {:induction false} ScanReports(ev: seq<Event>)
    requires Scan(ev, 0, 0).pos == 19 && FourLeaders(ev, 0, 19) && ev[18] == Received(PACKET_LEADER_BYTE)
    ensures Scan(ev, 0, 0) == Found(RECEIVED, PACKET_LEADER_BYTE, 19)
  {
    hide Scan;
    ScanIsFirst(ev, 0, 0, 19);
  }

  lemma NoFour(ev: seq<Event>, j: nat)
    requires j < 18 <= |ev|
    requires ev[3] == Received(2) && ev[7] == Received(0) && ev[10] == Received(0x80) && ev[14] == Received(0)
    ensures !FourLeaders(ev, 0, j + 1)
  {
  }

  lemma {:induction false} FieldBytes(count: nat, sum: nat)
    requires sum < 0x100_0000
    ensures var f := Fields(2, count, INITIAL_PACKET_ID, sum);
            f[0] == 2 && f[4] == 0 && f[7] == 0x80 && f[11] == 0
  {
    LittleFour(INITIAL_PACKET_ID);
    LittleFour(sum);
    assert Little(2, 2)[0] == 2;
  }

  // ----- Resets -----

  /** A frame alone on the line that the call waits for is delivered. */
  lemma {:induction false} FlightDelivers(msgs: seq<Message>, s: Net, i: nat, f: Frame, want: Want)
    requires s.line == [Flight(i, f)] && f.Valid() && f.Good() && f.id == s.ids.remote && f.ty == want.packetType
    requires DataCall(want) && want.hasData && want.headerMax <= |f.payload|
    ensures Next(msgs, s, Call(want, Events(f.Bytes()))) ==
            Some(s.(line := [], answers := s.answers + [Control(ACKNOWLEDGE, f.id)],
                    ids := s.ids.(remote := FlipLow(s.ids.remote)),
                    delivered := s.delivered + [Message(f.ty, f.payload)]))
  {
    hide Receive, Sum, Frame.Bytes, Events, Next;
    HeardEvents(f.Bytes());
    GoodPasses(f, |f.payload|);
    CallGoesOn(Events(f.Bytes()), 0, f, s.ids, want);
    FrameLength(f);
    assert f.tail[..|f.payload|] == f.payload;
    assert f.payload[..want.headerMax] + f.payload[want.headerMax..] == f.payload;
    CallOnChunk(msgs, s, Flight(i, f), want);
  }

  /** A call that hears a reset takes it off the line and resets the ids. */
  lemma {:induction false} ResetTaken(msgs: seq<Message>, s: Net, bytes: seq<byte>, c: Chunk, want: Want)
    requires s.line == [Noise(bytes), c] && IsReset(bytes) && want.packetType != POLL_BREAKIN
    ensures Next(msgs, s, Call(want, Events(bytes))) ==
            Some(s.(line := [c], answers := s.answers + [Control(RESET, 0)],
                    ids := Ids(INITIAL_PACKET_ID, INITIAL_PACKET_ID)))
  {
    hide Receive, IsReset, Heard, Bytes, Unread, Events;
    ResetLength(bytes);
    ResetIsHeard(bytes, s.ids, want);
    ReadEvents(bytes, 16);
    FirstOfTwo(bytes, c);
    assert s.delivered + [] == s.delivered;
  }

  lemma {:induction false} FirstOfTwo(bytes: seq<byte>, c: Chunk)
    requires |bytes| > 0
    ensures bytes <= Bytes([Noise(bytes), c]) && Unread([Noise(bytes), c], |bytes|) == [c]
  {
    hide Frame.Bytes;
    assert [Noise(bytes), c][1..] == [c];
    assert Noise(bytes).Content() == bytes;
  }

  /** A reset restarts the target's numbering, so a message whose acknowledgement
      the debugger has not seen is delivered twice. */
  lemma {:induction false} ResetRedelivers(msgs: seq<Message>, want: Want, reset: seq<byte>)
    requires Sendable(msgs) && |msgs| > 0 && IsReset(reset)
    requires DataCall(want) && want.hasData && want.packetType == msgs[0].ty && want.headerMax <= |msgs[0].payload|
    ensures var ev := Events(FrameOf(msgs[0], 0).Bytes());
            var end := Run(msgs, Start, [Send, Call(want, ev), Say(reset),
                                         Send, Call(want, Events(reset)), Call(want, ev)]);
            end.Some? && end.value.delivered == [msgs[0], msgs[0]]
  {
    hide Receive, Sum, Frame.Bytes, Events, IsReset, AfterCall;
    var f := FrameOf(msgs[0], 0);
    var ev, c := Events(f.Bytes()), Flight(0, f);
    var s1 := Start.(line := [c]);
    assert Next(msgs, Start, Send) == Some(s1) by { assert [] + [c] == [c]; }
    FlightDelivers(msgs, s1, 0, f, want);
    var s2 := Next(msgs, s1, Call(want, ev)).value;
    var s3 := s2.(line := [Noise(reset)]);
    assert Next(msgs, s2, Say(reset)) == Some(s3) by { assert [] + [Noise(reset)] == [Noise(reset)]; }
    var s4 := s2.(line := [Noise(reset), c]);
    assert Next(msgs, s3, Send) == Some(s4) by { assert [Noise(reset)] + [c] == [Noise(reset), c]; }
    ResetTaken(msgs, s4, reset, c, want);
    var s5 := Next(msgs, s4, Call(want, Events(reset))).value;
    FlightDelivers(msgs, s5, 0, f, want);
    var s6 := Next(msgs, s5, Call(want, ev)).value;
    hide Next;
    var a, b := [Send, Call(want, ev), Say(reset)], [Send, Call(want, Events(reset)), Call(want, ev)];
    RunThree(msgs, Start, Send, Call(want, ev), Say(reset), s3);
    RunThree(msgs, s3, Send, Call(want, Events(reset)), Call(want, ev), s6);
    RunConcat(msgs, Start, a, b);
    assert a + b == [Send, Call(want, ev), Say(reset), Send, Call(want, Events(reset)), Call(want, ev)];
    assert s6.delivered == [msgs[0]] + [msgs[0]];
  }

  // ----- The wrong type -----

  /** A call awaiting another type acknowledges the frame without delivering
      it, the debugger moves on, and the ids are then out of step, so its next
      message is acknowledged and lost too. */
  lemma {:induction false} WrongTypeSkipsTwo(msgs: seq<Message>, other: Want, right: Want)
    requires Sendable(msgs) && |msgs| >= 2
    requires DataCall(other) && other.hasData && other.headerMax <= |msgs[0].payload| && other.packetType != msgs[0].ty
    requires DataCall(right) && right.hasData && right.headerMax <= |msgs[1].payload| && right.packetType == msgs[1].ty
    ensures var first, second := Events(FrameOf(msgs[0], 0).Bytes()), Events(FrameOf(msgs[1], 1).Bytes());
            Run(msgs, Start, [Send, Call(other, first), TakeAnswer, Send, Call(right, second), TakeAnswer]) ==
            Some(Start.(next := 2))
  {
    hide Next, Sum, Receive, Frame.Bytes;
    var first, second := Events(FrameOf(msgs[0], 0).Bytes()), Events(FrameOf(msgs[1], 1).Bytes());
    SkipOne(msgs, 0, other);
    SkipOne(msgs, 1, right);
    var s1, s2 := Start.(next := 1), Start.(next := 2);
    RunThree(msgs, Start, Send, Call(other, first), TakeAnswer, s1);
    RunThree(msgs, s1, Send, Call(right, second), TakeAnswer, s2);
    var a, b := [Send, Call(other, first), TakeAnswer], [Send, Call(right, second), TakeAnswer];
    RunConcat(msgs, Start, a, b);
    assert a + b == [Send, Call(other, first), TakeAnswer, Send, Call(right, second), TakeAnswer];
  }

  /** One message sent, answered and given up by the debugger, but not delivered. */
  lemma {:induction false} SkipOne(msgs: seq<Message>, i: nat, want: Want)
    requires Sendable(msgs) && i < |msgs| && i <= 1 && DataCall(want) && want.hasData
    requires want.headerMax <= |msgs[i].payload| && (i == 1 || want.packetType != msgs[i].ty)
    ensures var s, f := Start.(next := i), FrameOf(msgs[i], i);
            && Next(msgs, s, Send) == Some(s.(line := [Flight(i, f)]))
            && Next(msgs, s.(line := [Flight(i, f)]), Call(want, Events(f.Bytes()))) == Some(s.(answers := [Ack(i)]))
            && Next(msgs, s.(answers := [Ack(i)]), TakeAnswer) == Some(s.(next := i + 1))
  {
    hide Receive, Sum, Frame.Bytes, Events;
    var s, f := Start.(next := i), FrameOf(msgs[i], i);
    assert f.Valid() && (f.id != Start.ids.remote || want.packetType != f.ty);
    AnsweredOnly(f, s.ids, want);
    CallOnChunk(msgs, s.(line := [Flight(i, f)]), Flight(i, f), want);
    assert [] + [Ack(i)] == [Ack(i)] && [Ack(i)][1..] == [];
    assert s.line + [Flight(i, f)] == [Flight(i, f)] && s.delivered + [] == s.delivered;
  }

  lemma {:induction false} AnsweredOnly(f: Frame, ids: Ids, want: Want)
    requires DataCall(want) && want.hasData && f.Valid() && f.Good() && want.headerMax <= |f.payload|
    requires f.id != ids.remote || f.ty != want.packetType
    ensures Receive(Events(f.Bytes()), 0, ids, want) ==
            Return(TIMEOUT, |f.Bytes()| + 1, ids, [Control(ACKNOWLEDGE, f.id)], false, NoMail)
  {
    hide Sum, OneTurn, Frame.Bytes, Receive;
    var ev := Events(f.Bytes());
    HeardEvents(f.Bytes());
    GoodPasses(f, |f.payload|);
    CallGoesOn(ev, 0, f, ids, want);
    SilenceTimesOut(ev, ids, want);
    FrameLength(f);
  }

  lemma FrameLength(f: Frame)
    requires f.Good()
    ensures |f.Bytes()| == |f.payload| + 17
  {
  }

  lemma {:induction false} RunConcat(msgs: seq<Message>, s: Net, first: seq<Step>, rest: seq<Step>)
    requires Run(msgs, s, first).Some?
    ensures Run(msgs, s, first + rest) == Run(msgs, Run(msgs, s, first).value, rest)
    decreases |rest|
  {
    hide Next;
    if |rest| == 0 {
      assert first + rest == first;
    } else {
      var n := |rest| - 1;
      RunConcat(msgs, s, first, rest[..n]);
      assert (first + rest)[..|first| + n] == first + rest[..n];
    }
  }
}
