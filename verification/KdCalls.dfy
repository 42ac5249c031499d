/** What a whole KdReceivePacket call delivers and acknowledges, for every kind
    of call and every line: polls, calls awaiting an acknowledgement, calls
    without a data buffer, and timeouts and line errors anywhere. */
module KdCalls {
  import opened Basics
  import opened KdWire
  import opened KdReceive
  import opened KdFrames

  /** A packet the call accepts stands here, leader included. */
  ghost predicate PacketAt(ev: seq<Event>, q: nat, want: Want, ty: nat, count: nat, id: nat, payload: seq<byte>) {
    && Accepts(want, ty, count, id, payload)
    && Starts(ev, q, Leaders(PACKET_LEADER_BYTE) + Packet(ty, count, id, payload))
  }

  /** The 16 bytes of a control packet of type RESET. */
  ghost predicate IsReset(bytes: seq<byte>) {
    |bytes| == 16 && bytes[..4] == Leaders(CONTROL_PACKET_LEADER_BYTE) && bytes[4..6] == Little(RESET, 2)
  }

  /** The 16 bytes of a control packet of any other type. */
  ghost predicate IsControl(bytes: seq<byte>) {
    |bytes| == 16 && bytes[..4] == Leaders(CONTROL_PACKET_LEADER_BYTE) && bytes[4..6] != Little(RESET, 2)
  }

  ghost predicate ControlAt(ev: seq<Event>, q: nat) {
    exists bytes :: IsControl(bytes) && Starts(ev, q, bytes)
  }

  ghost predicate ResetAt(ev: seq<Event>, q: nat) {
    exists bytes :: IsReset(bytes) && Starts(ev, q, bytes)
  }

  // ----- One turn -----

  lemma {:induction false} TurnDelivers(ev: seq<Event>, pos: nat, ids: Ids, want: Want)
    requires want.packetType != POLL_BREAKIN && ids.remote < 0x1_0000_0000
    requires OneTurn(ev, pos, ids, want).Return? && OneTurn(ev, pos, ids, want).mail.Mail?
    ensures Delivers(ev, pos, ids, want, OneTurn(ev, pos, ids, want))
  {
    hide *;
    MailIsAcknowledged(ev, pos, ids, want);
    var ty, count, payload := AcknowledgedPacket(ev, pos, ids, want, ids.remote);
    AcceptsHeader(want, ty, count, ids.remote, payload);
    AcceptsPacket(ev, pos, ids, want, ty, count, ids.remote, payload);
    FoundLeaders(ev, pos);
    EndDelivers(ev, pos, ids, want, Scan(ev, pos, pos).pos, ty, count, payload);
  }

  lemma {:induction false} EndDelivers(ev: seq<Event>, pos: nat, ids: Ids, want: Want, p: nat,
                                       ty: nat, count: nat, payload: seq<byte>)
    requires Accepts(want, ty, count, ids.remote, payload) && p >= pos + 4
    requires Starts(ev, p - 4, Leaders(PACKET_LEADER_BYTE)) && Starts(ev, p, Packet(ty, count, ids.remote, payload))
    requires DataTurnEnd(p + |payload| + 13, ty, count, ids.remote, Sum(payload), ids, want, payload,
                         PACKET_TRAILING_BYTE).Return?
    ensures var t := DataTurnEnd(p + |payload| + 13, ty, count, ids.remote, Sum(payload), ids, want, payload,
                                 PACKET_TRAILING_BYTE);
            t.mail.Mail? && Delivers(ev, pos, ids, want, t)
  {
    hide Sum, Starts, Packet, Fields;
    StartsConcat(ev, p - 4, Leaders(PACKET_LEADER_BYTE), Packet(ty, count, ids.remote, payload));
    assert payload[..want.headerMax] + payload[want.headerMax..] == payload;
    StartsWithin(ev, p - 4, Leaders(PACKET_LEADER_BYTE) + Packet(ty, count, ids.remote, payload));
  }

  lemma StartsWithin(ev: seq<Event>, pos: nat, bytes: seq<byte>)
    requires Starts(ev, pos, bytes)
    ensures pos + |bytes| <= |ev|
  {
  }

  lemma MailIsAcknowledged(ev: seq<Event>, pos: nat, ids: Ids, want: Want)
    requires want.packetType != POLL_BREAKIN
    requires OneTurn(ev, pos, ids, want).Return? && OneTurn(ev, pos, ids, want).mail.Mail?
    ensures var t := OneTurn(ev, pos, ids, want);
            && t.status == RECEIVED && t.sent == [Control(ACKNOWLEDGE, ids.remote)] && !t.breakin
            && t.ids == ids.(remote := FlipLow(ids.remote)) && DataCall(want)
  {
    hide Sum, Take, Scan, Value;
  }

  /** The end of a call that delivers: the packet of the awaited type and the
      expected id that just ended on the line, acknowledged last. */
  ghost predicate Delivers(ev: seq<Event>, pos: nat, ids: Ids, want: Want, t: Turn)
    requires t.Return? && t.mail.Mail?
  {
    var payload := t.mail.header + t.mail.data;
    && t.status == RECEIVED && !t.breakin && t.ids == ids.(remote := FlipLow(ids.remote))
    && |t.sent| > 0 && t.sent[|t.sent| - 1] == Control(ACKNOWLEDGE, ids.remote)
    && |t.mail.header| == want.headerMax
    && pos + |payload| + 17 <= t.pos <= |ev|
    && PacketAt(ev, t.pos - |payload| - 17, want, want.packetType, want.headerMax + t.mail.dataLength,
                ids.remote, payload)
  }

  /** A turn that ends the call without delivering leaves the remote id alone,
      unless it read a reset. */
  lemma {:induction false} TurnFails(ev: seq<Event>, pos: nat, ids: Ids, want: Want)
    requires OneTurn(ev, pos, ids, want).Return? && OneTurn(ev, pos, ids, want).mail == NoMail
    ensures var t := OneTurn(ev, pos, ids, want);
            && (t.status == RECEIVED ==> want.packetType == ACKNOWLEDGE)
            && (t.sent == [] || t.sent == Refuse || t.sent == [Control(RESET, 0)])
            && if t.sent == [Control(RESET, 0)] then t.ids == Ids(INITIAL_PACKET_ID, INITIAL_PACKET_ID)
               else t.ids.remote == ids.remote
  {
    hide Sum, Take, Scan, Value;
  }

  lemma {:induction false} ResetIsRead(ev: seq<Event>, pos: nat, ids: Ids, want: Want)
    requires OneTurn(ev, pos, ids, want).Return? && OneTurn(ev, pos, ids, want).sent == [Control(RESET, 0)]
    ensures var f := Scan(ev, pos, pos); f.status == RECEIVED && f.pos >= pos + 4 && ResetAt(ev, f.pos - 4)
  {
    ResetSeen(ev, pos, ids, want);
    hide OneTurn, Take, Scan, Value, ResetAt;
    FoundLeaders(ev, pos);
    ControlTaken(ev, pos, ids, want);
    ResetFields(ev, Scan(ev, pos, pos).pos);
  }

  lemma {:induction false} ResetSeen(ev: seq<Event>, pos: nat, ids: Ids, want: Want)
    requires OneTurn(ev, pos, ids, want).sent == [Control(RESET, 0)]
    ensures Scan(ev, pos, pos).status == RECEIVED && Scan(ev, pos, pos).leader == CONTROL_PACKET_LEADER_BYTE
    ensures var ty := Take(ev, Scan(ev, pos, pos).pos, 2); ty.status == RECEIVED && Value(ty.bytes) == RESET
  {
    hide Sum, Take, Scan, Value;
    ScanAdvances(ev, pos, pos);
  }

  lemma {:induction false} ResetFields(ev: seq<Event>, p: nat)
    requires p >= 4 && Starts(ev, p - 4, Leaders(CONTROL_PACKET_LEADER_BYTE))
    requires Take(ev, p, 12).status == RECEIVED && Take(ev, p, 2).status == RECEIVED
    requires Value(Take(ev, p, 2).bytes) == RESET
    ensures ResetAt(ev, p - 4)
  {
    hide Take, Value, Little;
    var s, ty := Take(ev, p, 12).bytes, Take(ev, p, 2).bytes;
    TakenStarts(ev, p, 12);
    TakenStarts(ev, p, 2);
    assert s[..2] == ty by {
      assert ev[p + 0] == Received(s[0]) && ev[p + 0] == Received(ty[0]);
      assert ev[p + 1] == Received(s[1]) && ev[p + 1] == Received(ty[1]);
    }
    LittleOfValue(ty);
    var all := Leaders(CONTROL_PACKET_LEADER_BYTE) + s;
    StartsConcat(ev, p - 4, Leaders(CONTROL_PACKET_LEADER_BYTE), s);
    assert all[4..6] == s[..2];
    assert IsReset(all);
  }

  lemma {:induction false} ControlTaken(ev: seq<Event>, pos: nat, ids: Ids, want: Want)
    requires Scan(ev, pos, pos).status == RECEIVED && OneTurn(ev, pos, ids, want).sent == [Control(RESET, 0)]
    ensures Take(ev, Scan(ev, pos, pos).pos, 12).status == RECEIVED
  {
    hide Scan, Value, Sum, Little;
    var p := Scan(ev, pos, pos).pos;
    TakeMore(ev, p, 2, 2);
    TakeMore(ev, p, 4, 4);
    TakeMore(ev, p, 8, 4);
  }

  lemma {:induction false} TurnOnControl(ev: seq<Event>, pos: nat, p: nat, ids: Ids, want: Want,
                                         ty: seq<byte>, count: seq<byte>, id: seq<byte>, sum: seq<byte>)
    requires Scan(ev, pos, pos) == Found(RECEIVED, CONTROL_PACKET_LEADER_BYTE, p)
    requires |ty| == 2 && |count| == 2 && |id| == 4 && |sum| == 4 && Value(ty) != RESEND_TYPE
    requires Starts(ev, p, ty + (count + (id + sum)))
    ensures OneTurn(ev, pos, ids, want) == ControlTurn(p + 12, Value(ty), Value(id), ids, want)
  {
    hide Take, Scan, Starts, Value, Sum;
    StartsConcat(ev, p, ty, count + (id + sum));
    StartsConcat(ev, p + 2, count, id + sum);
    StartsConcat(ev, p + 4, id, sum);
    TakeStarts(ev, p, ty);
    TakeStarts(ev, p + 2, count);
    TakeStarts(ev, p + 4, id);
    TakeStarts(ev, p + 8, sum);
  }

  // ----- Whole calls -----

  /** One of the call's turns finds a leader at q and reads what follows it. */
  predicate LooksAt(ev: seq<Event>, pos: nat, ids: Ids, want: Want, q: nat)
    decreases if pos <= |ev| then |ev| + 1 - pos else 0
  {
    && want.packetType != POLL_BREAKIN
    && var f, t := Scan(ev, pos, pos), OneTurn(ev, pos, ids, want);
    && f.status == RECEIVED
    && (q + 4 == f.pos || (t.Again? && LooksAt(ev, t.pos, ids, want, q)))
  }

  lemma {:induction false} LooksAhead(ev: seq<Event>, pos: nat, ids: Ids, want: Want, q: nat)
    requires LooksAt(ev, pos, ids, want, q)
    ensures q >= pos
    decreases if pos <= |ev| then |ev| + 1 - pos else 0
  {
    hide Scan, OneTurn;
    FoundLeaders(ev, pos);
    var t := OneTurn(ev, pos, ids, want);
    if q + 4 != Scan(ev, pos, pos).pos { LooksAhead(ev, t.pos, ids, want, q); }
  }

  /** A call delivers only the payload of a packet of the awaited type and the
      expected id that just ended on the line, and has acknowledged it last.
      Any other call leaves the remote id alone, unless it has read a reset. */
  lemma {:induction false} ReceiveDelivers(ev: seq<Event>, pos: nat, ids: Ids, want: Want)
    requires ids.remote < 0x1_0000_0000
    ensures var t := Receive(ev, pos, ids, want);
            if t.mail.Mail? then Delivers(ev, pos, ids, want, t)
            else
              && (t.status == RECEIVED ==> !DataCall(want))
              && (t.ids.remote == ids.remote ||
                  (t.ids.remote == INITIAL_PACKET_ID && t.sent != [] && t.sent[|t.sent| - 1] == Control(RESET, 0)))
    decreases if pos <= |ev| then |ev| + 1 - pos else 0
  {
    hide Sum, Take, Starts, Scan, OneTurn, Packet, Accepts, PacketAt;
    if want.packetType != POLL_BREAKIN {
      var t := OneTurn(ev, pos, ids, want);
      if t.Again? {
        ReceiveDelivers(ev, t.pos, ids, want);
      } else if t.mail.Mail? {
        TurnDelivers(ev, pos, ids, want);
      } else {
        TurnFails(ev, pos, ids, want);
      }
    }
  }

  /** The packet a call delivers is one it looked at. */
  lemma {:induction false} DeliveredStands(ev: seq<Event>, pos: nat, ids: Ids, want: Want)
    returns (q: nat, count: nat, payload: seq<byte>)
    requires ids.remote < 0x1_0000_0000 && Receive(ev, pos, ids, want).mail.Mail?
    ensures LooksAt(ev, pos, ids, want, q) && PacketAt(ev, q, want, want.packetType, count, ids.remote, payload)
    ensures var t := Receive(ev, pos, ids, want);
            && |t.sent| > 0 && t.sent[|t.sent| - 1] == Control(ACKNOWLEDGE, ids.remote)
            && t.ids == ids.(remote := FlipLow(ids.remote))
            && t.pos == q + |payload| + 17 && t.mail.header + t.mail.data == payload
    decreases if pos <= |ev| then |ev| + 1 - pos else 0
  {
    hide Sum, Take, Starts, Scan, OneTurn, Packet, Accepts, PacketAt;
    if want.packetType != POLL_BREAKIN {
      var t := OneTurn(ev, pos, ids, want);
      if t.Again? {
        q, count, payload := DeliveredStands(ev, t.pos, ids, want);
        TurnFound(ev, pos, ids, want);
      } else {
        q, count, payload := DeliveredByTurn(ev, pos, ids, want);
      }
    }
  }

  /** A turn that goes on has found a leader. */
  lemma {:induction false} TurnFound(ev: seq<Event>, pos: nat, ids: Ids, want: Want)
    requires OneTurn(ev, pos, ids, want).Again? || OneTurn(ev, pos, ids, want).sent != []
    ensures Scan(ev, pos, pos).status == RECEIVED
  {
    hide Sum, Take, Scan, Value;
  }

  lemma {:induction false} DeliveredByTurn(ev: seq<Event>, pos: nat, ids: Ids, want: Want)
    returns (q: nat, count: nat, payload: seq<byte>)
    requires want.packetType != POLL_BREAKIN && ids.remote < 0x1_0000_0000
    requires OneTurn(ev, pos, ids, want).Return? && OneTurn(ev, pos, ids, want).mail.Mail?
    ensures q + 4 == Scan(ev, pos, pos).pos && Scan(ev, pos, pos).status == RECEIVED
    ensures PacketAt(ev, q, want, want.packetType, count, ids.remote, payload)
    ensures var t := OneTurn(ev, pos, ids, want);
            && t.sent == [Control(ACKNOWLEDGE, ids.remote)] && t.ids == ids.(remote := FlipLow(ids.remote))
            && t.pos == q + |payload| + 17 && t.mail.header + t.mail.data == payload
  {
    hide Sum, Take, Starts, Scan, OneTurn, Packet, Accepts;
    MailIsAcknowledged(ev, pos, ids, want);
    var ty;
    ty, count, payload := AcknowledgedPacket(ev, pos, ids, want, ids.remote);
    AcceptsHeader(want, ty, count, ids.remote, payload);
    AcceptsPacket(ev, pos, ids, want, ty, count, ids.remote, payload);
    FoundLeaders(ev, pos);
    q := Scan(ev, pos, pos).pos - 4;
    StartsConcat(ev, q, Leaders(PACKET_LEADER_BYTE), Packet(ty, count, ids.remote, payload));
    assert payload[..want.headerMax] + payload[want.headerMax..] == payload;
  }

  /** A reset a call answers is one it looked at. */
  lemma {:induction false} ResetLookedAt(ev: seq<Event>, pos: nat, ids: Ids, want: Want) returns (q: nat)
    requires Control(RESET, 0) in Receive(ev, pos, ids, want).sent
    ensures LooksAt(ev, pos, ids, want, q) && ResetAt(ev, q)
    decreases if pos <= |ev| then |ev| + 1 - pos else 0
  {
    hide Sum, Take, Starts, Scan, OneTurn, ResetAt;
    var t := OneTurn(ev, pos, ids, want);
    SentByTurn(ev, pos, ids, want);
    if t.Return? {
      assert t.sent == [Control(RESET, 0)];
      ResetIsRead(ev, pos, ids, want);
      q := Scan(ev, pos, pos).pos - 4;
    } else {
      TurnGoesOn(ev, pos, ids, want);
      TurnFound(ev, pos, ids, want);
      q := ResetLookedAt(ev, t.pos, ids, want);
    }
  }

  lemma TurnGoesOn(ev: seq<Event>, pos: nat, ids: Ids, want: Want)
    requires OneTurn(ev, pos, ids, want).Again?
    ensures Control(RESET, 0) !in OneTurn(ev, pos, ids, want).sent
  {
    hide Sum, Take, Scan, Value;
  }

  /** Every acknowledgement a call sends is for a packet it looked at. */
  lemma {:induction false} AcknowledgedStands(ev: seq<Event>, pos: nat, ids: Ids, want: Want, id: nat)
    returns (q: nat, ty: nat, count: nat, payload: seq<byte>)
    requires Control(ACKNOWLEDGE, id) in Receive(ev, pos, ids, want).sent
    ensures LooksAt(ev, pos, ids, want, q) && PacketAt(ev, q, want, ty, count, id, payload)
    decreases if pos <= |ev| then |ev| + 1 - pos else 0
  {
    hide Sum, Take, Starts, Scan, OneTurn, Packet, Accepts, PacketAt;
    var t := OneTurn(ev, pos, ids, want);
    SentByTurn(ev, pos, ids, want);
    if Control(ACKNOWLEDGE, id) in t.sent {
      assert t.sent == [Control(ACKNOWLEDGE, id)];
      q, ty, count, payload := AcknowledgedByTurn(ev, pos, ids, want, id);
    } else {
      TurnFound(ev, pos, ids, want);
      q, ty, count, payload := AcknowledgedStands(ev, t.pos, ids, want, id);
    }
  }

  lemma {:induction false} AcknowledgedByTurn(ev: seq<Event>, pos: nat, ids: Ids, want: Want, id: nat)
    returns (q: nat, ty: nat, count: nat, payload: seq<byte>)
    requires want.packetType != POLL_BREAKIN && OneTurn(ev, pos, ids, want).sent == [Control(ACKNOWLEDGE, id)]
    ensures q + 4 == Scan(ev, pos, pos).pos && Scan(ev, pos, pos).status == RECEIVED
    ensures PacketAt(ev, q, want, ty, count, id, payload)
    ensures OneTurn(ev, pos, ids, want).Again? && id == ids.remote ==> ty != want.packetType
  {
    hide Sum, Take, Starts, Scan, OneTurn, Packet, Accepts;
    ty, count, payload := AcknowledgedPacket(ev, pos, ids, want, id);
    AcceptsHeader(want, ty, count, id, payload);
    AcceptsPacket(ev, pos, ids, want, ty, count, id, payload);
    FoundLeaders(ev, pos);
    q := Scan(ev, pos, pos).pos - 4;
    StartsConcat(ev, q, Leaders(PACKET_LEADER_BYTE), Packet(ty, count, id, payload));
  }

  /** A turn sends at most one control packet. */
  lemma SentByTurn(ev: seq<Event>, pos: nat, ids: Ids, want: Want)
    ensures |OneTurn(ev, pos, ids, want).sent| <= 1
  {
    hide Sum, Take, Scan, Value;
  }

  /** A packet a call looks at and accepts is acknowledged, and delivered if it
      has the expected id and the awaited type. */
  lemma {:induction false} LookedAtIsAnswered(ev: seq<Event>, pos: nat, ids: Ids, want: Want,
                                              q: nat, ty: nat, count: nat, id: nat, payload: seq<byte>)
    requires LooksAt(ev, pos, ids, want, q) && PacketAt(ev, q, want, ty, count, id, payload)
    ensures var t := Receive(ev, pos, ids, want);
            && Control(ACKNOWLEDGE, id) in t.sent
            && (id == ids.remote && ty == want.packetType ==>
                  t.mail.Mail? && t.mail.header + t.mail.data == payload && t.pos == q + |payload| + 17)
    decreases if pos <= |ev| then |ev| + 1 - pos else 0
  {
    hide Sum, Take, Starts, Scan, OneTurn, Packet, Accepts, PacketAt;
    var t := OneTurn(ev, pos, ids, want);
    if q + 4 == Scan(ev, pos, pos).pos {
      AnsweredByTurn(ev, pos, ids, want, ty, count, id, payload);
    } else {
      LookedAtIsAnswered(ev, t.pos, ids, want, q, ty, count, id, payload);
    }
  }

  lemma {:induction false} AnsweredByTurn(ev: seq<Event>, pos: nat, ids: Ids, want: Want,
                                          ty: nat, count: nat, id: nat, payload: seq<byte>)
    requires Scan(ev, pos, pos).status == RECEIVED && Scan(ev, pos, pos).pos >= 4
    requires PacketAt(ev, Scan(ev, pos, pos).pos - 4, want, ty, count, id, payload)
    ensures var t := OneTurn(ev, pos, ids, want);
            && Control(ACKNOWLEDGE, id) in t.sent
            && (id == ids.remote && ty == want.packetType ==>
                  && t.Return? && t.mail.Mail? && t.mail.header + t.mail.data == payload
                  && t.pos == Scan(ev, pos, pos).pos + |payload| + 13)
  {
    hide Sum, Take, Starts, Scan, OneTurn, Packet, Accepts;
    var p := Scan(ev, pos, pos).pos;
    FoundLeaders(ev, pos);
    StartsConcat(ev, p - 4, Leaders(PACKET_LEADER_BYTE), Packet(ty, count, id, payload));
    SameLeader(ev, p - 4, Scan(ev, pos, pos).leader, PACKET_LEADER_BYTE);
    AcceptsHeader(want, ty, count, id, payload);
    AcceptsPacket(ev, pos, ids, want, ty, count, id, payload);
    assert payload[..want.headerMax] + payload[want.headerMax..] == payload;
  }

  lemma SameLeader(ev: seq<Event>, q: nat, a: byte, b: byte)
    requires Starts(ev, q, Leaders(a)) && Starts(ev, q, Leaders(b))
    ensures a == b
  {
    assert ev[q + 0] == Received(Leaders(a)[0]) && ev[q + 0] == Received(Leaders(b)[0]);
  }

  /** The ids a call acknowledges are exactly those of the packets it looks at
      and accepts. */
  lemma {:induction false} AcknowledgedExactly(ev: seq<Event>, pos: nat, ids: Ids, want: Want, id: nat)
    ensures Control(ACKNOWLEDGE, id) in Receive(ev, pos, ids, want).sent <==>
            exists q, ty, count, payload ::
              LooksAt(ev, pos, ids, want, q) && PacketAt(ev, q, want, ty, count, id, payload)
  {
    hide *;
    if Control(ACKNOWLEDGE, id) in Receive(ev, pos, ids, want).sent {
      var q, ty, count, payload := AcknowledgedStands(ev, pos, ids, want, id);
    }
    if q, ty, count, payload :| LooksAt(ev, pos, ids, want, q) && PacketAt(ev, q, want, ty, count, id, payload) {
      LookedAtIsAnswered(ev, pos, ids, want, q, ty, count, id, payload);
    }
  }

  /** The expected id is acknowledged last, in delivering, and never else. */
  ghost predicate OnlyDelivered(t: Turn, id: nat) {
    && (t.Return? && t.mail.Mail? ==> |t.sent| > 0 && t.sent[|t.sent| - 1] == Control(ACKNOWLEDGE, id))
    && (forall k :: 0 <= k < |t.sent| && (t.Return? && t.mail.Mail? ==> k < |t.sent| - 1) ==>
          t.sent[k] != Control(ACKNOWLEDGE, id))
  }

  /** A call that acknowledges the expected id in any other way passes over a
      packet of another type. */
  lemma {:induction false} PassedOver(ev: seq<Event>, pos: nat, ids: Ids, want: Want)
    returns (q: nat, ty: nat, count: nat, payload: seq<byte>)
    requires !OnlyDelivered(Receive(ev, pos, ids, want), ids.remote)
    ensures LooksAt(ev, pos, ids, want, q) && PacketAt(ev, q, want, ty, count, ids.remote, payload)
    ensures ty != want.packetType
    decreases if pos <= |ev| then |ev| + 1 - pos else 0
  {
    hide Sum, Take, Starts, Scan, OneTurn, Packet, Accepts, PacketAt;
    var t := OneTurn(ev, pos, ids, want);
    SentByTurn(ev, pos, ids, want);
    assert want.packetType != POLL_BREAKIN;
    if t.Return? {
      if t.mail.Mail? { MailIsAcknowledged(ev, pos, ids, want); } else { TurnFails(ev, pos, ids, want); }
      assert false;
    } else if t.sent == [Control(ACKNOWLEDGE, ids.remote)] {
      q, ty, count, payload := AcknowledgedByTurn(ev, pos, ids, want, ids.remote);
    } else {
      TurnFound(ev, pos, ids, want);
      RestPasses(t.sent, Receive(ev, t.pos, ids, want), ids.remote);
      q, ty, count, payload := PassedOver(ev, t.pos, ids, want);
    }
  }

  lemma RestPasses(sent: seq<Control>, rest: Turn, id: nat)
    requires |sent| <= 1 && sent != [Control(ACKNOWLEDGE, id)] && rest.Return?
    ensures OnlyDelivered(rest, id) ==> OnlyDelivered(rest.(sent := sent + rest.sent), id)
  {
    var all := sent + rest.sent;
    assert forall k :: |sent| <= k < |all| ==> all[k] == rest.sent[k - |sent|];
  }

  /** Behind a frame that does not end the call, it answers and goes on as a
      new call would. */
  lemma {:induction false} CallGoesOn(ev: seq<Event>, pos: nat, f: Frame, ids: Ids, want: Want)
    requires want.packetType != POLL_BREAKIN && f.Valid() && Starts(ev, pos, f.Bytes())
    ensures Receive(ev, pos, ids, want) ==
            match TurnOf(f, pos, ids, want)
            case Return(_, _, _, _, _, _) => TurnOf(f, pos, ids, want)
            case Again(p, sent) => var rest := Receive(ev, p, ids, want); rest.(sent := sent + rest.sent)
  {
    hide Sum, Take, OneTurn, Starts;
    FrameTurn(ev, pos, f, ids, want);
  }

  lemma {:induction false} SilenceTimesOut(ev: seq<Event>, ids: Ids, want: Want)
    requires want.packetType != POLL_BREAKIN
    ensures Receive(ev, |ev|, ids, want) == Report(TIMEOUT, |ev| + 1, ids)
  {
  }
}
