/** Which frames KdReceivePacket acknowledges, refuses and delivers. */
module KdFrames {
  import opened Basics
  import opened KdWire
  import opened KdReceive

  /** A call for a data packet. */
  predicate DataCall(want: Want) {
    want.packetType != ACKNOWLEDGE && want.packetType != POLL_BREAKIN
  }

  /** The call takes packets that announce this many bytes. */
  predicate Fits(want: Want, count: nat) { want.headerMax <= count <= PACKET_MAX_SIZE }

  /** How many of the announced bytes the call reads: all, or the header when
      no data buffer was supplied. */
  function ReadLength(want: Want, count: nat): nat { if want.hasData then count else want.headerMax }

  /** The 12 header bytes after the leader. */
  function Fields(ty: nat, count: nat, id: nat, checksum: nat): (s: seq<byte>)
    ensures |s| == 12
  {
    Little(ty, 2) + Little(count, 2) + Little(id, 4) + Little(checksum, 4)
  }

  predicate FieldsInRange(ty: nat, count: nat, id: nat, checksum: nat) {
    ty < 0x1_0000 && count < 0x1_0000 && id < 0x1_0000_0000 && checksum < 0x1_0000_0000
  }

  /** Header fields announcing count bytes, then the given bytes and the trailer. */
  function Packet(ty: nat, count: nat, id: nat, payload: seq<byte>): (s: seq<byte>)
    ensures |s| == |payload| + 13
  {
    Fields(ty, count, id, Sum(payload)) + (payload + [PACKET_TRAILING_BYTE])
  }

  /** The call acknowledges this packet when it reads it. */
  predicate Accepts(want: Want, ty: nat, count: nat, id: nat, payload: seq<byte>) {
    && DataCall(want) && ty < 0x1_0000 && id < 0x1_0000_0000
    && Fits(want, count) && |payload| == ReadLength(want, count)
  }

  /** A packet that announces its own length is what a debugger encodes. */
  lemma {:induction false} BodyIsPacket(ty: nat, id: nat, payload: seq<byte>)
    ensures Body(ty, id, payload) == Packet(ty, |payload|, id, payload)
  {
  }

  lemma StartsConcat(ev: seq<Event>, pos: nat, s: seq<byte>, t: seq<byte>)
    ensures Starts(ev, pos, s + t) <==> Starts(ev, pos, s) && Starts(ev, pos + |s|, t)
  {
    if Starts(ev, pos, s) && Starts(ev, pos + |s|, t) {
      forall i | 0 <= i < |s + t| ensures ev[pos + i] == Received((s + t)[i]) {
        if i >= |s| { assert ev[pos + |s| + (i - |s|)] == Received(t[i - |s|]); }
      }
    }
    if Starts(ev, pos, s + t) {
      forall i | 0 <= i < |s| ensures ev[pos + i] == Received(s[i]) { assert (s + t)[i] == s[i]; }
      forall i | 0 <= i < |t| ensures ev[pos + |s| + i] == Received(t[i]) {
        assert ev[pos + (|s| + i)] == Received((s + t)[|s| + i]);
      }
    }
  }

  // ----- After the header fields -----

  /** What follows is n bytes with the announced sum and the trailing byte. */
  ghost predicate Intact(ev: seq<Event>, pos: nat, n: nat, checksum: nat) {
    exists payload :: |payload| == n && Starts(ev, pos, payload + [PACKET_TRAILING_BYTE]) && Sum(payload) == checksum
  }

  /** How a data turn ends when the bytes it reads and one more follow the header fields. */
  lemma {:induction false} DataTurnOnBytes(ev: seq<Event>, pos: nat, ty: nat, count: nat, id: nat, checksum: nat,
                                           ids: Ids, want: Want, payload: seq<byte>, last: byte)
    requires DataCall(want) && Fits(want, count) && |payload| == ReadLength(want, count)
    requires Starts(ev, pos, payload + [last])
    ensures DataTurn(ev, pos, ty, count, id, checksum, ids, want) ==
            DataTurnEnd(pos + |payload| + 1, ty, count, id, checksum, ids, want, payload, last)
  {
    hide Sum, Take, Starts;
    var h, d := payload[..want.headerMax], payload[want.headerMax..];
    assert payload + [last] == h + (d + [last]);
    StartsConcat(ev, pos, h, d + [last]);
    StartsConcat(ev, pos + |h|, d, [last]);
    TakeStarts(ev, pos, h);
    TakeStarts(ev, pos + |h|, d);
    TakeStarts(ev, pos + |h| + |d|, [last]);
    assert h + d == payload;
    ChecksumExact(h, d);
  }

  function DataTurnEnd(end: nat, ty: nat, count: nat, id: nat, checksum: nat, ids: Ids, want: Want,
                       payload: seq<byte>, last: byte): Turn
    requires want.headerMax <= |payload| && want.headerMax <= count
  {
    if last != PACKET_TRAILING_BYTE || checksum != Sum(payload) then Again(end, Refuse)
    else if id != ids.remote || ty != want.packetType then Again(end, [Control(ACKNOWLEDGE, id)])
    else Return(RECEIVED, end, ids.(remote := FlipLow(ids.remote)), [Control(ACKNOWLEDGE, id)], false,
                Mail(payload[..want.headerMax], payload[want.headerMax..], count - want.headerMax))
  }

  /** A data turn of a data call sends exactly one control packet: an
      acknowledgement of the packet's id if the count is in range and what the
      call reads is intact, else a request to resend. */
  lemma DataTurnReply(ev: seq<Event>, pos: nat, ty: nat, count: nat, id: nat, checksum: nat, ids: Ids, want: Want)
    requires DataCall(want)
    ensures DataTurn(ev, pos, ty, count, id, checksum, ids, want).sent ==
            if Fits(want, count) && Intact(ev, pos, ReadLength(want, count), checksum)
            then [Control(ACKNOWLEDGE, id)] else Refuse
  {
    var t := DataTurn(ev, pos, ty, count, id, checksum, ids, want);
    var n := ReadLength(want, count);
    if Fits(want, count) {
      if Intact(ev, pos, n, checksum) {
        var payload :| && |payload| == n && Starts(ev, pos, payload + [PACKET_TRAILING_BYTE])
                       && Sum(payload) == checksum;
        DataTurnOnBytes(ev, pos, ty, count, id, checksum, ids, want, payload, PACKET_TRAILING_BYTE);
      } else if t.sent != Refuse {
        var payload := AcceptedPayload(ev, pos, ty, count, id, checksum, ids, want);
        assert false;
      }
    }
  }

  lemma {:induction false} TakenStartAt(ev: seq<Event>, pos: nat, n: nat, end: nat)
    requires Take(ev, pos, n).status == RECEIVED && pos + n <= end <= |ev|
    ensures Starts(ev, pos, Take(ev, pos, n).bytes)
  {
    TakenStarts(ev, pos, n);
  }

  lemma AcceptedPayload(ev: seq<Event>, pos: nat, ty: nat, count: nat, id: nat, checksum: nat, ids: Ids, want: Want)
    returns (payload: seq<byte>)
    requires DataCall(want) && DataTurn(ev, pos, ty, count, id, checksum, ids, want).sent != Refuse
    ensures Fits(want, count) && |payload| == ReadLength(want, count)
    ensures Starts(ev, pos, payload + [PACKET_TRAILING_BYTE]) && Sum(payload) == checksum
  {
    hide Sum, Take, Starts;
    var header := Take(ev, pos, want.headerMax);
    var data := Take(ev, header.pos, ReadLength(want, count) - want.headerMax);
    var trailer := Take(ev, data.pos, 1);
    TakenStartAt(ev, pos, want.headerMax, trailer.pos);
    TakenStartAt(ev, header.pos, ReadLength(want, count) - want.headerMax, trailer.pos);
    TakenStartAt(ev, data.pos, 1, trailer.pos);
    StartsConcat(ev, header.pos, data.bytes, trailer.bytes);
    StartsConcat(ev, pos, header.bytes, data.bytes + trailer.bytes);
    payload := header.bytes + data.bytes;
    assert payload + [PACKET_TRAILING_BYTE] == header.bytes + (data.bytes + trailer.bytes);
    ChecksumExact(header.bytes, data.bytes);
  }

  // ----- From the leader on -----

  /** Four leader bytes at the current position are found at once. */
  lemma {:induction false} ScanOnLeaders(ev: seq<Event>, pos: nat, b: byte)
    requires IsLeader(b) && Starts(ev, pos, Leaders(b))
    ensures Scan(ev, pos, pos) == Found(RECEIVED, b, pos + 4)
  {
    var l := Leaders(b);
    assert l[0] == b && l[1] == b && l[2] == b && l[3] == b;
    assert Scan(ev, pos, pos) == Scan(ev, pos, pos + 1);
    assert Scan(ev, pos, pos + 1) == Scan(ev, pos, pos + 2);
    assert Scan(ev, pos, pos + 2) == Scan(ev, pos, pos + 3);
  }

  /** A found leader is four bytes of the call. */
  lemma {:induction false} FoundLeaders(ev: seq<Event>, pos: nat)
    requires Scan(ev, pos, pos).status == RECEIVED
    ensures var f := Scan(ev, pos, pos);
            f.pos >= pos + 4 && IsLeader(f.leader) && Starts(ev, f.pos - 4, Leaders(f.leader))
  {
    ScanAdvances(ev, pos, pos);
    ScanIsFirst(ev, pos, pos, Scan(ev, pos, pos).pos);
  }

  /** Once a data leader is found and the header fields follow, the turn is the data turn. */
  lemma {:induction false} TurnOnFields(ev: seq<Event>, pos: nat, ids: Ids, want: Want,
                                        ty: nat, count: nat, id: nat, checksum: nat)
    requires Scan(ev, pos, pos).status == RECEIVED && Scan(ev, pos, pos).leader == PACKET_LEADER_BYTE
    requires FieldsInRange(ty, count, id, checksum)
    requires Starts(ev, Scan(ev, pos, pos).pos, Fields(ty, count, id, checksum))
    ensures OneTurn(ev, pos, ids, want) ==
            DataTurn(ev, Scan(ev, pos, pos).pos + 12, ty, count, id, checksum, ids, want)
  {
    var p := Scan(ev, pos, pos).pos;
    var a, b, c, d := Little(ty, 2), Little(count, 2), Little(id, 4), Little(checksum, 4);
    StartsConcat(ev, p, a + b + c, d);
    StartsConcat(ev, p, a + b, c);
    StartsConcat(ev, p, a, b);
    TakeStarts(ev, p, a);
    TakeStarts(ev, p + 2, b);
    TakeStarts(ev, p + 4, c);
    TakeStarts(ev, p + 8, d);
    ValueOfLittle(ty, 2);
    ValueOfLittle(count, 2);
    ValueOfLittle(id, 4);
    ValueOfLittle(checksum, 4);
  }

  /** The four header fields, if they arrive. */
  lemma FieldsArrived(ev: seq<Event>, p: nat) returns (ty: nat, count: nat, id: nat, checksum: nat)
    requires Take(ev, p, 12).status == RECEIVED
    ensures FieldsInRange(ty, count, id, checksum) && Starts(ev, p, Fields(ty, count, id, checksum))
  {
    var s := Take(ev, p, 12).bytes;
    TakenStarts(ev, p, 12);
    var a, b, c, d := s[..2], s[2..4], s[4..8], s[8..12];
    assert s == a + b + c + d;
    ty, count, id, checksum := Value(a), Value(b), Value(c), Value(d);
    LittleOfValue(a);
    LittleOfValue(b);
    LittleOfValue(c);
    LittleOfValue(d);
    ValueBound(a);
    ValueBound(b);
    ValueBound(c);
    ValueBound(d);
    LittleUp(0, 0);
  }

  /** Every data-leader frame whose header fields arrive causes exactly one
      control packet: an acknowledgement with its id if and only if the caller
      is not awaiting an acknowledgement and the length fits, and payload,
      trailer and checksum check as far as the call reads, else a request to
      resend. */
  lemma {:induction false} OneReplyPerFrame(ev: seq<Event>, pos: nat, ids: Ids, want: Want,
                                            ty: nat, count: nat, id: nat, checksum: nat)
    requires want.packetType != POLL_BREAKIN
    requires Scan(ev, pos, pos).status == RECEIVED && Scan(ev, pos, pos).leader == PACKET_LEADER_BYTE
    requires FieldsInRange(ty, count, id, checksum)
    requires Starts(ev, Scan(ev, pos, pos).pos, Fields(ty, count, id, checksum))
    ensures OneTurn(ev, pos, ids, want).sent ==
            if want.packetType != ACKNOWLEDGE && Fits(want, count)
               && Intact(ev, Scan(ev, pos, pos).pos + 12, ReadLength(want, count), checksum)
            then [Control(ACKNOWLEDGE, id)] else Refuse
  {
    hide Sum, Take, Starts, Scan, Little, OneTurn;
    TurnOnFields(ev, pos, ids, want, ty, count, id, checksum);
    if want.packetType != ACKNOWLEDGE {
      DataTurnReply(ev, Scan(ev, pos, pos).pos + 12, ty, count, id, checksum, ids, want);
    }
  }

  /** What a data call does with a packet it accepts. */
  lemma {:induction false} AcceptsPacket(ev: seq<Event>, pos: nat, ids: Ids, want: Want,
                                         ty: nat, count: nat, id: nat, payload: seq<byte>)
    requires Accepts(want, ty, count, id, payload)
    requires Scan(ev, pos, pos).status == RECEIVED && Scan(ev, pos, pos).leader == PACKET_LEADER_BYTE
    requires Starts(ev, Scan(ev, pos, pos).pos, Packet(ty, count, id, payload))
    ensures OneTurn(ev, pos, ids, want) ==
            DataTurnEnd(Scan(ev, pos, pos).pos + |payload| + 13, ty, count, id, Sum(payload), ids, want,
                        payload, PACKET_TRAILING_BYTE)
  {
    hide Sum, Take, Starts, Scan, Little, OneTurn, DataTurn;
    var p := Scan(ev, pos, pos).pos;
    StartsConcat(ev, p, Fields(ty, count, id, Sum(payload)), payload + [PACKET_TRAILING_BYTE]);
    SumBound(payload);
    TurnOnFields(ev, pos, ids, want, ty, count, id, Sum(payload));
    DataTurnOnBytes(ev, p + 12, ty, count, id, Sum(payload), ids, want, payload, PACKET_TRAILING_BYTE);
  }

  /** A turn that acknowledges a packet has read it from behind its leader. */
  lemma {:induction false} AcknowledgedPacket(ev: seq<Event>, pos: nat, ids: Ids, want: Want, id: nat)
    returns (ty: nat, count: nat, payload: seq<byte>)
    requires want.packetType != POLL_BREAKIN && OneTurn(ev, pos, ids, want).sent == [Control(ACKNOWLEDGE, id)]
    ensures Scan(ev, pos, pos).status == RECEIVED && Scan(ev, pos, pos).leader == PACKET_LEADER_BYTE
    ensures Accepts(want, ty, count, id, payload)
    ensures Starts(ev, Scan(ev, pos, pos).pos, Packet(ty, count, id, payload))
  {
    AckIsData(ev, pos, ids, want, id);
    hide Sum, Take, Starts, Scan, Little, OneTurn, DataTurn;
    var p := Scan(ev, pos, pos).pos;
    HeaderTaken(ev, pos, ids, want);
    var id', checksum;
    ty, count, id', checksum := FieldsArrived(ev, p);
    TurnOnFields(ev, pos, ids, want, ty, count, id', checksum);
    DataTurnReply(ev, p + 12, ty, count, id', checksum, ids, want);
    payload := AcceptedPayload(ev, p + 12, ty, count, id', checksum, ids, want);
    StartsConcat(ev, p, Fields(ty, count, id, checksum), payload + [PACKET_TRAILING_BYTE]);
  }

  lemma {:induction false} AckIsData(ev: seq<Event>, pos: nat, ids: Ids, want: Want, id: nat)
    requires want.packetType != POLL_BREAKIN && OneTurn(ev, pos, ids, want).sent == [Control(ACKNOWLEDGE, id)]
    ensures Scan(ev, pos, pos).status == RECEIVED && Scan(ev, pos, pos).leader == PACKET_LEADER_BYTE && DataCall(want)
  {
    hide Sum, Take, Value;
    ScanAdvances(ev, pos, pos);
  }

  /** The packets a data call acknowledges are exactly those it accepts, read
      from behind the leader it found. */
  lemma {:induction false} AcknowledgedIsPacket(ev: seq<Event>, pos: nat, ids: Ids, want: Want, id: nat)
    requires DataCall(want) && id < 0x1_0000_0000
    requires Scan(ev, pos, pos).status == RECEIVED && Scan(ev, pos, pos).leader == PACKET_LEADER_BYTE
    ensures OneTurn(ev, pos, ids, want).sent == [Control(ACKNOWLEDGE, id)] <==>
            exists ty, count, payload :: Accepts(want, ty, count, id, payload)
                                         && Starts(ev, Scan(ev, pos, pos).pos, Packet(ty, count, id, payload))
  {
    hide Sum, Take, Starts, Scan, Little, OneTurn, DataTurn, Accepts, Packet;
    if ty, count, payload :| Accepts(want, ty, count, id, payload)
                             && Starts(ev, Scan(ev, pos, pos).pos, Packet(ty, count, id, payload)) {
      AcceptsPacket(ev, pos, ids, want, ty, count, id, payload);
      AcceptsHeader(want, ty, count, id, payload);
    }
    if OneTurn(ev, pos, ids, want).sent == [Control(ACKNOWLEDGE, id)] {
      var ty, count, payload := AcknowledgedPacket(ev, pos, ids, want, id);
    }
  }

  lemma AcceptsHeader(want: Want, ty: nat, count: nat, id: nat, payload: seq<byte>)
    requires Accepts(want, ty, count, id, payload)
    ensures want.headerMax <= |payload| && want.headerMax <= count
  {
  }

  /** With a data buffer these are exactly the encodings of packets that fit:
      what a debugger encodes is accepted whole, and what is accepted is such
      an encoding. */
  lemma {:induction false} AcknowledgedIsEncoded(ev: seq<Event>, pos: nat, ids: Ids, want: Want, id: nat)
    requires DataCall(want) && want.hasData && id < 0x1_0000_0000
    requires Scan(ev, pos, pos).status == RECEIVED && Scan(ev, pos, pos).leader == PACKET_LEADER_BYTE
    ensures OneTurn(ev, pos, ids, want).sent == [Control(ACKNOWLEDGE, id)] <==>
            exists ty, payload :: ValidPacket(ty, id, payload) && want.headerMax <= |payload|
                                  && Starts(ev, Scan(ev, pos, pos).pos, Body(ty, id, payload))
  {
    hide Sum, Take, Starts, Scan, Little, OneTurn, DataTurn, Body, Packet;
    var p := Scan(ev, pos, pos).pos;
    AcknowledgedIsPacket(ev, pos, ids, want, id);
    if ty, count, payload :| Accepts(want, ty, count, id, payload) && Starts(ev, p, Packet(ty, count, id, payload)) {
      BodyIsPacket(ty, id, payload);
      assert ValidPacket(ty, id, payload);
    }
    if ty, payload :| && ValidPacket(ty, id, payload) && want.headerMax <= |payload|
                      && Starts(ev, p, Body(ty, id, payload)) {
      BodyIsPacket(ty, id, payload);
      assert Accepts(want, ty, |payload|, id, payload);
    }
  }

  /** A turn that sends anything in answer to a data leader has read the header fields. */
  lemma {:induction false} HeaderTaken(ev: seq<Event>, pos: nat, ids: Ids, want: Want)
    requires Scan(ev, pos, pos).status == RECEIVED && Scan(ev, pos, pos).leader == PACKET_LEADER_BYTE
    requires OneTurn(ev, pos, ids, want).sent != []
    ensures Take(ev, Scan(ev, pos, pos).pos, 12).status == RECEIVED
  {
    var p := Scan(ev, pos, pos).pos;
    TakeMore(ev, p, 2, 2);
    TakeMore(ev, p, 4, 4);
    TakeMore(ev, p, 8, 4);
  }

  lemma {:induction false} TakeMore(ev: seq<Event>, pos: nat, m: nat, n: nat)
    requires Take(ev, pos, m).status == RECEIVED && Take(ev, pos + m, n).status == RECEIVED
    ensures Take(ev, pos, m + n).status == RECEIVED
    decreases m
  {
    if m > 0 { TakeMore(ev, pos + 1, m - 1, n); }
  }

  // ----- Corruption, missing buffers and short frames -----

  /** A packet as it may arrive: as sent, or with the bytes after its header
      fields replaced by as many others that the sum or the trailer betrays. */
  datatype Frame = Frame(ty: nat, id: nat, payload: seq<byte>, tail: seq<byte>) {
    predicate Good() { tail == payload + [PACKET_TRAILING_BYTE] }

    /** Reading n bytes of the tail and the next as the trailer looks right. */
    predicate Passes(n: nat)
      requires n < |tail|
    {
      tail[n] == PACKET_TRAILING_BYTE && Sum(tail[..n]) == Sum(payload)
    }

    predicate Garbled() { |tail| == |payload| + 1 && !Passes(|payload|) }

    ghost predicate Valid() {
      ValidPacket(ty, id, payload) && (Good() || Garbled())
    }

    function Bytes(): (s: seq<byte>)
      ensures |s| == |tail| + 16
    {
      Leaders(PACKET_LEADER_BYTE) + (Fields(ty, |payload|, id, Sum(payload)) + tail)
    }
  }

  /** A good frame is the packet's encoding. */
  lemma GoodIsEncoded(f: Frame)
    requires f.Good()
    ensures f.Bytes() == Encode(f.ty, f.id, f.payload)
  {
    BodyIsPacket(f.ty, f.id, f.payload);
  }

  /** Changing any one payload byte of a frame garbles it. */
  lemma OneByteGarbles(f: Frame, i: nat, b: byte)
    requires f.Good() && i < |f.payload| && b != f.payload[i]
    ensures f.(tail := f.tail[i := b]).Garbled()
  {
    SumUpdate(f.payload, i, b);
    assert f.tail[i := b][..|f.payload|] == f.payload[i := b];
  }

  /** A good frame looks right at its own length and at no shorter one. */
  lemma GoodPasses(f: Frame, n: nat)
    requires f.Good() && n < |f.tail|
    ensures f.Passes(n) <==> n == |f.payload|
  {
    hide Sum;
    if n == |f.payload| {
      assert f.tail[..n] == f.payload;
    } else {
      assert f.payload == f.tail[..n] + f.payload[n..];
      SumConcat(f.tail[..n], f.payload[n..]);
      FirstInSum(f.payload[n..]);
    }
  }

  /** What any call but a poll does with a frame at its position. An
      acknowledgement is awaited, or the payload is too short, and the payload
      stays on the line; otherwise the call takes what it reads and one byte. */
  function TurnOf(f: Frame, pos: nat, ids: Ids, want: Want): Turn
    requires |f.tail| == |f.payload| + 1
  {
    if want.packetType == ACKNOWLEDGE then
      Return(RECEIVED, pos + 16, ids.(current := FlipLow(ids.current)), Refuse, false, NoMail)
    else if |f.payload| < want.headerMax then Again(pos + 16, Refuse)
    else
      var n := ReadLength(want, |f.payload|);
      DataTurnEnd(pos + n + 17, f.ty, |f.payload|, f.id, Sum(f.payload), ids, want, f.tail[..n], f.tail[n])
  }

  lemma FrameTurn(ev: seq<Event>, pos: nat, f: Frame, ids: Ids, want: Want)
    requires want.packetType != POLL_BREAKIN && f.Valid() && Starts(ev, pos, f.Bytes())
    ensures OneTurn(ev, pos, ids, want) == TurnOf(f, pos, ids, want)
  {
    hide Sum, Take, Starts, Scan, Little, OneTurn;
    var fields := Fields(f.ty, |f.payload|, f.id, Sum(f.payload));
    StartsConcat(ev, pos, Leaders(PACKET_LEADER_BYTE), fields + f.tail);
    StartsConcat(ev, pos + 4, fields, f.tail);
    ScanOnLeaders(ev, pos, PACKET_LEADER_BYTE);
    SumBound(f.payload);
    TurnOnFields(ev, pos, ids, want, f.ty, |f.payload|, f.id, Sum(f.payload));
    if want.packetType != ACKNOWLEDGE && want.headerMax <= |f.payload| {
      hide DataTurn;
      var n := ReadLength(want, |f.payload|);
      var got, last := f.tail[..n], f.tail[n];
      assert f.tail == (got + [last]) + f.tail[n + 1..];
      StartsConcat(ev, pos + 16, got + [last], f.tail[n + 1..]);
      DataTurnOnBytes(ev, pos + 16, f.ty, |f.payload|, f.id, Sum(f.payload), ids, want, got, last);
    }
  }

  /** A data call acknowledges a frame that fits exactly when it looks right as
      far as the call reads: a good one when a buffer was supplied or there is
      no data, and with a buffer never a garbled one. */
  lemma FrameAnswer(f: Frame, pos: nat, ids: Ids, want: Want)
    requires DataCall(want) && f.Valid() && want.headerMax <= |f.payload|
    ensures var acknowledged := TurnOf(f, pos, ids, want).sent == [Control(ACKNOWLEDGE, f.id)];
            && TurnOf(f, pos, ids, want).sent == (if acknowledged then [Control(ACKNOWLEDGE, f.id)] else Refuse)
            && (acknowledged <==> f.Passes(ReadLength(want, |f.payload|)))
            && (f.Good() ==> (acknowledged <==> want.hasData || |f.payload| == want.headerMax))
            && (f.Garbled() && want.hasData ==> !acknowledged)
  {
    hide Sum;
    var n := ReadLength(want, |f.payload|);
    if f.Good() { GoodPasses(f, n); }
    assert f.Passes(n) <==> f.tail[n] == PACKET_TRAILING_BYTE && Sum(f.tail[..n]) == Sum(f.payload);
  }

  /** Without a data buffer the data bytes are not read, so a packet is
      accepted exactly when it has none. */
  lemma WithoutDataBuffer(ev: seq<Event>, pos: nat, ids: Ids, want: Want, ty: nat, id: nat, payload: seq<byte>)
    requires DataCall(want) && !want.hasData && ValidPacket(ty, id, payload) && want.headerMax <= |payload|
    requires Starts(ev, pos, Encode(ty, id, payload))
    ensures OneTurn(ev, pos, ids, want).sent ==
            if |payload| == want.headerMax then [Control(ACKNOWLEDGE, id)] else Refuse
  {
    hide Sum, Starts, OneTurn, Encode;
    var f := Frame(ty, id, payload, payload + [PACKET_TRAILING_BYTE]);
    GoodIsEncoded(f);
    FrameTurn(ev, pos, f, ids, want);
    FrameAnswer(f, pos, ids, want);
  }

  /** And the checksum then no longer protects the packet: this one, with its
      second byte changed from 0 to 0xAA, is delivered. */
  lemma {:induction false} OneByteUndetected(ev: seq<Event>, ids: Ids)
    requires ids.remote < 0x1_0000_0000
    requires Starts(ev, 0, Frame(2, ids.remote, [1, 0], [1, 0xAA, PACKET_TRAILING_BYTE]).Bytes())
    ensures var f := Frame(2, ids.remote, [1, 0], [1, 0, PACKET_TRAILING_BYTE]);
            f.Good() && f.(tail := f.tail[1 := 0xAA]).Bytes() ==
                Frame(2, ids.remote, [1, 0], [1, 0xAA, PACKET_TRAILING_BYTE]).Bytes()
    ensures Receive(ev, 0, ids, Want(2, 1, false)).mail == Mail([1], [], 1)
  {
    hide Take, Starts, Scan, Little;
    var f := Frame(2, ids.remote, [1, 0], [1, 0, PACKET_TRAILING_BYTE]);
    var g := f.(tail := f.tail[1 := 0xAA]);
    assert g.tail == [1, 0xAA, PACKET_TRAILING_BYTE];
    assert f.tail == f.payload + [PACKET_TRAILING_BYTE];
    OneByteGarbles(f, 1, 0xAA);
    FrameTurn(ev, 0, g, ids, Want(2, 1, false));
    assert [1, 0][..1] == [1] && g.tail[..1] == [1] && Sum([1]) == Sum([]) + 1 && Sum([1, 0]) == Sum([1]) + 0;
  }

  /** A call refuses the frame: it asks for it again and delivers nothing. */
  ghost predicate Refuses(f: Frame, want: Want)
    requires |f.tail| == |f.payload| + 1
  {
    forall pos, ids :: TurnOf(f, pos, ids, want).Again? && TurnOf(f, pos, ids, want).sent == Refuse
  }

  /** A frame as sent with payload byte i replaced. */
  function Altered(f: Frame, i: nat, b: byte): Frame
    requires f.Good() && i < |f.payload|
  {
    f.(tail := f.tail[i := b])
  }

  /** A one-byte change is refused by every call that reads the whole payload. */
  lemma {:induction false} OneByteRefused(ev: seq<Event>, pos: nat, ids: Ids, want: Want, f: Frame, i: nat, b: byte)
    requires DataCall(want) && Fits(want, |f.payload|) && ReadLength(want, |f.payload|) == |f.payload|
    requires ValidPacket(f.ty, f.id, f.payload) && f.Good() && i < |f.payload| && b != f.payload[i]
    requires Starts(ev, pos, Altered(f, i, b).Bytes())
    ensures OneTurn(ev, pos, ids, want) == Again(pos + |f.payload| + 17, Refuse)
  {
    hide Sum, OneTurn, Starts, Frame.Bytes;
    var g := Altered(f, i, b);
    OneByteGarbles(f, i, b);
    FrameTurn(ev, pos, g, ids, want);
    assert !g.Passes(|f.payload|);
  }

  /** Every one-byte change of every intact frame that fits is refused if and
      only if the call supplies a data buffer or a header as large as the largest
      packet. */
  lemma {:induction false} OneByteExactly(want: Want)
    requires DataCall(want)
    ensures AllAltered(want) <==> want.hasData || want.headerMax >= PACKET_MAX_SIZE
  {
    hide Sum, Refuses;
    if want.hasData || want.headerMax >= PACKET_MAX_SIZE {
      forall f: Frame, i: nat, b: byte | Alters(want, f, i, b) ensures Refuses(Altered(f, i, b), want) {
        AlteredRefused(want, f, i, b);
      }
    } else {
      AlteredAccepted(want);
    }
  }

  /** The frame is intact and fits the call, and the byte differs. */
  ghost predicate Alters(want: Want, f: Frame, i: nat, b: byte) {
    && ValidPacket(f.ty, f.id, f.payload) && f.Good() && Fits(want, |f.payload|)
    && i < |f.payload| && b != f.payload[i]
  }

  ghost predicate AllAltered(want: Want) {
    forall f: Frame, i: nat, b: byte :: Alters(want, f, i, b) ==> Refuses(Altered(f, i, b), want)
  }

  lemma {:induction false} AlteredRefused(want: Want, f: Frame, i: nat, b: byte)
    requires DataCall(want) && Alters(want, f, i, b) && (want.hasData || want.headerMax >= PACKET_MAX_SIZE)
    ensures Refuses(Altered(f, i, b), want)
  {
    hide Sum;
    OneByteGarbles(f, i, b);
    assert !Altered(f, i, b).Passes(|f.payload|);
  }

  /** A zero byte just behind the header, changed to the trailing byte, passes. */
  lemma {:induction false} AlteredAccepted(want: Want)
    requires DataCall(want) && !want.hasData && want.headerMax < PACKET_MAX_SIZE
    ensures !AllAltered(want)
  {
    var h := want.headerMax;
    var payload: seq<byte> := seq(h + 1, _ => 0);
    var f := Frame(2, INITIAL_PACKET_ID, payload, payload + [PACKET_TRAILING_BYTE]);
    var g := Altered(f, h, PACKET_TRAILING_BYTE);
    assert g.tail[..h] == payload[..h] && g.tail[h] == PACKET_TRAILING_BYTE;
    ZeroSum(payload);
    ZeroSum(payload[..h]);
    assert Alters(want, f, h, PACKET_TRAILING_BYTE);
    hide Sum;
    assert g.Passes(h);
    assert TurnOf(g, 0, Ids(0, 0), want).sent != Refuse;
    assert !Refuses(g, want);
  }

  lemma {:induction false} ZeroSum(s: seq<byte>)
    requires forall i :: 0 <= i < |s| ==> s[i] == 0
    ensures Sum(s) == 0
  {
    if |s| > 0 { ZeroSum(s[..|s| - 1]); }
  }

  lemma {:induction false} FirstInSum(s: seq<byte>)
    requires |s| > 0
    ensures Sum(s) >= s[0]
  {
    SumConcat([s[0]], s[1..]);
    assert s == [s[0]] + s[1..];
    assert Sum([s[0]]) == s[0];
  }
}
