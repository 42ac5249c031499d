/** When a call takes for a packet what the debugger never sent as one, or for a
    reset what is none: the exact conditions, for one call where it is and for
    all that may have been read before it. */
module KdForged {
  import opened Basics
  import opened KdWire
  import opened KdReceive
  import opened KdFrames
  import opened KdCalls
  import opened KdLine
  import opened KdLink

  // ----- Exactly when a packet can be forged -----

  /** If a call that starts k bytes into the line delivers, it delivers the
      payload of an intact frame. */
  ghost predicate FromFrame(line: seq<Chunk>, k: nat, ev: seq<Event>, ids: Ids, want: Want) {
    var t := Receive(ev, 0, ids, want);
    t.mail.Mail? ==>
      var payload := t.mail.header + t.mail.data;
      var off := k + ReadBytes(ev, t.pos) - |payload| - 17;
      off >= 0 && GoodAt(line, off) && FlightAt(line, off).value.frame.payload == payload
  }

  lemma {:induction false} UnforgedDelivers(line: seq<Chunk>, k: nat, ev: seq<Event>, ids: Ids, want: Want)
    requires FramesValid(line) && ids.remote < 0x1_0000_0000 && HearsFrom(line, k, ev)
    requires Unforged(line, want, want.packetType, ids.remote)
    ensures FromFrame(line, k, ev, ids, want)
  {
    hide Sum, Receive, Heard, Unread, Bytes, FlightAt, PacketAt, Unforged, HearsFrom, FramesValid;
    var t := Receive(ev, 0, ids, want);
    if t.mail.Mail? {
      var q, count, payload := DeliveredStands(ev, 0, ids, want);
      UnforgedGood(line, k, ev, q, want, want.packetType, count, ids.remote, payload);
      var c := PacketIsFrame(line, k, ev, q, want, want.packetType, count, ids.remote, payload);
    }
  }

  /** Where it is, a call delivers only the payload of an intact frame if and
      only if the packet of the awaited type and expected id that it looks at
      and accepts, if there is one, is such a frame. */
  lemma {:induction false} GenuineExactly(line: seq<Chunk>, ev: seq<Event>, ids: Ids, want: Want)
    requires FramesValid(line) && ids.remote < 0x1_0000_0000 && HearsFrom(line, 0, ev)
    ensures Genuine(line, ev, ids, want, want.packetType, ids.remote) <==> FromFrame(line, 0, ev, ids, want)
  {
    hide Sum, Receive, Heard, Unread, Bytes, FlightAt, PacketAt, HearsFrom, FramesValid, LooksAt;
    var ty, id := want.packetType, ids.remote;
    if Genuine(line, ev, ids, want, ty, id) && Receive(ev, 0, ids, want).mail.Mail? {
      var q, count, payload := DeliveredStands(ev, 0, ids, want);
      PacketFits(ev, q, want, ty, count, id, payload);
      var c := PacketIsFrame(line, 0, ev, q, want, ty, count, id, payload);
    }
    if FromFrame(line, 0, ev, ids, want) {
      forall q: nat, count: nat, payload |
        LooksAt(ev, 0, ids, want, q) && PacketAt(ev, q, want, ty, count, id, payload)
        ensures GoodAt(line, ReadBytes(ev, q))
      {
        LookedAtIsAnswered(ev, 0, ids, want, q, ty, count, id, payload);
        HeardThrough(ev, q, want, ty, count, id, payload);
      }
    }
  }

  lemma {:induction false} HeardThrough(ev: seq<Event>, q: nat, want: Want, ty: nat, count: nat, id: nat,
                                        payload: seq<byte>)
    requires PacketAt(ev, q, want, ty, count, id, payload)
    ensures ReadBytes(ev, q + |payload| + 17) == ReadBytes(ev, q) + |payload| + 17
  {
    hide Sum, Fields, Starts, Heard;
    PacketFits(ev, q, want, ty, count, id, payload);
    HeardStarts(ev, q, Leaders(PACKET_LEADER_BYTE) + Packet(ty, count, id, payload));
  }

  /** A call that starts at a packet it accepts, of the expected id and the
      awaited type, delivers it at once. */
  lemma {:induction false} DeliversAtOnce(ev: seq<Event>, ids: Ids, want: Want, count: nat, payload: seq<byte>)
    requires PacketAt(ev, 0, want, want.packetType, count, ids.remote, payload)
    ensures want.headerMax <= |payload| && want.headerMax <= count
    ensures Receive(ev, 0, ids, want) ==
            Return(RECEIVED, |payload| + 17, ids.(remote := FlipLow(ids.remote)), [Control(ACKNOWLEDGE, ids.remote)],
                   false, Mail(payload[..want.headerMax], payload[want.headerMax..], count - want.headerMax))
  {
    hide Sum, Take, Starts, Scan, OneTurn, Packet, Fields;
    var packet := Packet(want.packetType, count, ids.remote, payload);
    StartsConcat(ev, 0, Leaders(PACKET_LEADER_BYTE), packet);
    ScanOnLeaders(ev, 0, PACKET_LEADER_BYTE);
    AcceptsPacket(ev, 0, ids, want, want.packetType, count, ids.remote, payload);
  }

  /** Whatever was read of the line before, every such call delivers only the
      payloads of intact frames if and only if nothing else on the line is a
      packet the call accepts, of the awaited type and the expected id. */
  lemma {:induction false} ForgedExactly(line: seq<Chunk>, ids: Ids, want: Want)
    requires FramesValid(line) && ids.remote < 0x1_0000_0000
    ensures Unforged(line, want, want.packetType, ids.remote) <==>
            forall k, ev :: HearsFrom(line, k, ev) ==> FromFrame(line, k, ev, ids, want)
  {
    hide Sum, Receive, Heard, Bytes, Packet, Accepts, FlightAt, Starts, FromFrame, HearsFrom;
    if Unforged(line, want, want.packetType, ids.remote) {
      forall k, ev | HearsFrom(line, k, ev) ensures FromFrame(line, k, ev, ids, want) {
        UnforgedDelivers(line, k, ev, ids, want);
      }
    }
    if forall k, ev :: HearsFrom(line, k, ev) ==> FromFrame(line, k, ev, ids, want) {
      forall off, count, payload | Stands(line, off, want, want.packetType, count, ids.remote, payload)
        ensures GoodAt(line, off)
      {
        var bytes := Leaders(PACKET_LEADER_BYTE) + Packet(want.packetType, count, ids.remote, payload);
        HearsPacket(line, off, bytes);
        ForgedIsHeard(line, off, ids, want, count, payload);
      }
    }
  }

  lemma {:induction false} HearsPacket(line: seq<Chunk>, off: nat, bytes: seq<byte>)
    requires off + |bytes| <= |Bytes(line)| && Bytes(line)[off..off + |bytes|] == bytes
    ensures HearsFrom(line, off, Events(bytes))
  {
    HeardEvents(bytes);
    assert bytes <= Bytes(line)[off..];
  }

  lemma {:induction false} ForgedIsHeard(line: seq<Chunk>, off: nat, ids: Ids, want: Want, count: nat,
                                         payload: seq<byte>)
    requires Stands(line, off, want, want.packetType, count, ids.remote, payload)
    requires FromFrame(line, off, Events(Leaders(PACKET_LEADER_BYTE) +
                                         Packet(want.packetType, count, ids.remote, payload)), ids, want)
    ensures GoodAt(line, off)
  {
    hide Sum, Receive, Heard, Bytes, Packet, Accepts, FlightAt, Starts;
    var bytes := Leaders(PACKET_LEADER_BYTE) + Packet(want.packetType, count, ids.remote, payload);
    var ev := Events(bytes);
    HeardEvents(bytes);
    DeliversAtOnce(ev, ids, want, count, payload);
    assert payload[..want.headerMax] + payload[want.headerMax..] == payload;
    assert ev[..|ev|] == ev;
  }

  /** Any part of the line can be read away by polls: each takes a byte and
      changes nothing else. */
  lemma {:induction false} PollsRead(msgs: seq<Message>, s: Net, k: nat) returns (steps: seq<Step>)
    requires k <= |Bytes(s.line)|
    ensures Run(msgs, s, steps) == Some(s.(line := Unread(s.line, k)))
    ensures |steps| == k && forall i :: 0 <= i < k ==> steps[i].Call? && steps[i].want.packetType == POLL_BREAKIN
    decreases k
  {
    hide Next, Unread, Bytes;
    if k == 0 {
      steps := [];
      UnreadNone(s.line);
    } else {
      var init := PollsRead(msgs, s, k - 1);
      var t := s.(line := Unread(s.line, k - 1));
      UnreadBytes(s.line, k - 1);
      var step := Call(Want(POLL_BREAKIN, 0, false), [Received(Bytes(s.line)[k - 1])]);
      steps := init + [step];
      assert steps[..k - 1] == init;
      PollReads(msgs, t, step);
      UnreadMore(s.line, k - 1, 1);
    }
  }

  lemma {:induction false} UnreadNone(line: seq<Chunk>)
    ensures Unread(line, 0) == line
  {
  }

  lemma {:induction false} PollReads(msgs: seq<Message>, s: Net, step: Step)
    requires step.Call? && step.want.packetType == POLL_BREAKIN && |step.ev| == 1 && step.ev[0].Received?
    requires |Bytes(s.line)| > 0 && step.ev[0].b == Bytes(s.line)[0]
    ensures Next(msgs, s, step) == Some(s.(line := Unread(s.line, 1)))
  {
    var ev := step.ev;
    assert ev[..0] == [] && ev[..1] == ev;
    assert Heard(ev) == [ev[0].b];
    assert s.answers + [] == s.answers && s.delivered + [] == s.delivered;
  }

  lemma {:induction false} UnreadMore(line: seq<Chunk>, a: nat, b: nat)
    ensures Unread(Unread(line, a), b) == Unread(line, a + b)
    decreases |line|
  {
    if |line| > 0 && a > 0 && b > 0 {
      var c := line[0].Content();
      if a >= |c| {
        UnreadMore(line[1..], a - |c|, b);
      } else {
        var rest := [Noise(c[a..])] + line[1..];
        assert rest[1..] == line[1..] && rest[0].Content() == c[a..];
        if a + b < |c| { assert c[a..][b..] == c[a + b..]; }
      }
    }
  }

  /** And on any other line a run of polls and one such call does deliver what
      is no intact frame. */
  lemma {:induction false} ForgedRun(msgs: seq<Message>, s: Net, want: Want)
    returns (steps: seq<Step>, off: nat, count: nat, payload: seq<byte>)
    requires !Unforged(s.line, want, want.packetType, s.ids.remote)
    ensures Stands(s.line, off, want, want.packetType, count, s.ids.remote, payload) && !GoodAt(s.line, off)
    ensures Run(msgs, s, steps).Some?
    ensures Run(msgs, s, steps).value.delivered == s.delivered + [Message(want.packetType, payload)]
  {
    hide Receive, Heard, Bytes, Packet, Accepts, FlightAt, Starts, Unread, Next;
    off, count, payload := SomeForged(s.line, want, want.packetType, s.ids.remote);
    var bytes := Leaders(PACKET_LEADER_BYTE) + Packet(want.packetType, count, s.ids.remote, payload);
    var polls := PollsRead(msgs, s, off);
    var t := s.(line := Unread(s.line, off));
    UnreadBytes(s.line, off);
    HeardEvents(bytes);
    DeliversAtOnce(Events(bytes), s.ids, want, count, payload);
    var step := Call(want, Events(bytes));
    DeliversBy(msgs, t, step, payload);
    steps := polls + [step];
    assert steps[..|polls|] == polls && steps[|polls|] == step;
  }

  lemma SomeForged(line: seq<Chunk>, want: Want, ty: nat, id: nat) returns (off: nat, count: nat, payload: seq<byte>)
    requires !Unforged(line, want, ty, id)
    ensures Stands(line, off, want, ty, count, id, payload) && !GoodAt(line, off)
  {
    hide Stands, GoodAt;
    off, count, payload :| Stands(line, off, want, ty, count, id, payload) && !GoodAt(line, off);
  }

  lemma {:induction false} DeliversBy(msgs: seq<Message>, s: Net, step: Step, payload: seq<byte>)
    requires step.Call? && Heard(step.ev) <= Bytes(s.line) && step.want.headerMax <= |payload|
    requires var mail := Receive(step.ev, 0, s.ids, step.want).mail;
             mail.Mail? && mail.header == payload[..step.want.headerMax] && mail.data == payload[step.want.headerMax..]
    ensures Next(msgs, s, step).Some?
    ensures Next(msgs, s, step).value.delivered == s.delivered + [Message(step.want.packetType, payload)]
  {
    hide Receive, Heard, Bytes, Unread;
    assert payload[..step.want.headerMax] + payload[step.want.headerMax..] == payload;
  }

  // ----- Exactly when a reset can be read -----

  lemma {:induction false} ResetIsHeard(bytes: seq<byte>, ids: Ids, want: Want)
    requires IsReset(bytes) && want.packetType != POLL_BREAKIN
    ensures Receive(Events(bytes), 0, ids, want) ==
            Return(RESEND, 16, Ids(INITIAL_PACKET_ID, INITIAL_PACKET_ID), [Control(RESET, 0)], false, NoMail)
  {
    hide Take, Scan, Starts, Value, Little, OneTurn, Events, Leaders;
    var ev := Events(bytes);
    var leaders, ty, count, id, sum := bytes[..4], bytes[4..6], bytes[6..8], bytes[8..12], bytes[12..16];
    HeardEvents(bytes);
    assert bytes == leaders + (ty + (count + (id + sum)));
    StartsConcat(ev, 0, leaders, ty + (count + (id + sum)));
    ScanOnLeaders(ev, 0, CONTROL_PACKET_LEADER_BYTE);
    ValueOfLittle(RESET, 2);
    TurnOnControl(ev, 0, 4, ids, want, ty, count, id, sum);
  }

  /** Whatever was read of the line before, no such call resets the ids if and
      only if no reset packet stands anywhere on the line. */
  lemma {:induction false} ResetExactly(line: seq<Chunk>, ids: Ids, want: Want)
    requires want.packetType != POLL_BREAKIN
    ensures NoReset(line) <==>
            forall k, ev :: HearsFrom(line, k, ev) ==> Control(RESET, 0) !in Receive(ev, 0, ids, want).sent
  {
    hide Receive, Heard, Bytes, IsReset, HearsFrom, ResetAt, NoReset;
    forall k: nat, ev | NoReset(line) && HearsFrom(line, k, ev)
      ensures Control(RESET, 0) !in Receive(ev, 0, ids, want).sent
    {
      if Control(RESET, 0) in Receive(ev, 0, ids, want).sent {
        var q := ResetLookedAt(ev, 0, ids, want);
        ResetOnLine(line, k, ev, q);
      }
    }
    if !NoReset(line) {
      var off := SomeReset(line);
      var bytes := Bytes(line)[off..off + 16];
      HearsPacket(line, off, bytes);
      ResetIsHeard(bytes, ids, want);
    }
  }

  lemma ResetLength(bytes: seq<byte>)
    requires IsReset(bytes)
    ensures |bytes| == 16
  {
  }

  lemma SomeReset(line: seq<Chunk>) returns (off: nat)
    requires !NoReset(line)
    ensures ResetStands(line, off)
  {
    off :| ResetStands(line, off);
  }
}
