/** KdReceivePacket (src/kdCom/kddll.cpp) as a function of the line, and what
    it acknowledges, refuses and delivers. */
module KdReceive {
  import opened Basics
  import opened KdWire

  const PACKET_MAX_SIZE: nat := 4000
  const INITIAL_PACKET_ID: nat := 0x8080_0000
  const ACKNOWLEDGE: nat := 4
  const RESEND_TYPE: nat := 5
  const RESET: nat := 6
  const POLL_BREAKIN: nat := 8

  /** A control packet put on the line. */
  datatype Control = Control(kind: nat, id: nat)

  /** CurrentPacketId and RemotePacketId. */
  datatype Ids = Ids(current: nat, remote: nat)

  /** The arguments of a call: the awaited type, the capacity of the message
      header, and whether a data buffer was supplied. */
  datatype Want = Want(packetType: nat, headerMax: nat, hasData: bool)

  /** What a call hands back in its out-parameters when it delivers a packet. */
  datatype Mail = NoMail | Mail(header: seq<byte>, data: seq<byte>, dataLength: nat)

  /** How one turn of the receive loop ends. */
  datatype Turn =
    | Return(status: Status, pos: nat, ids: Ids, sent: seq<Control>, breakin: bool, mail: Mail)
    | Again(pos: nat, sent: seq<Control>)

  function FlipLow(id: nat): nat { if id % 2 == 0 then id + 1 else id - 1 }  // id ^ 1
  function WithoutSync(id: nat): nat { if id / 2048 % 2 == 1 then id - 2048 else id }  // id & ~SYNC_PACKET_ID

  const Refuse: seq<Control> := [Control(RESEND_TYPE, 0)]

  /** A turn that only reports a status. */
  function Report(status: Status, pos: nat, ids: Ids): Turn { Return(status, pos, ids, [], false, NoMail) }

  /** Steps 1 to 5: the leader and the four header fields. */
  function OneTurn(ev: seq<Event>, pos: nat, ids: Ids, want: Want): (t: Turn)
    ensures t.Again? ==> pos + 4 <= |ev| && t.pos >= pos + 4
  {
    var f := Scan(ev, pos, pos);
    ScanAdvances(ev, pos, pos);
    if f.status != RECEIVED then Return(f.status, f.pos, ids, [], f.status == RESEND, NoMail)
    else
      var ty := Take(ev, f.pos, 2);
      if ty.status != RECEIVED then Report(ty.status, ty.pos, ids)
      else if f.leader == CONTROL_PACKET_LEADER_BYTE && Value(ty.bytes) == RESEND_TYPE then Report(RESEND, ty.pos, ids)
      else
        var count := Take(ev, ty.pos, 2);
        if count.status != RECEIVED then Report(count.status, count.pos, ids)
        else
          var id := Take(ev, count.pos, 4);
          if id.status != RECEIVED then Report(id.status, id.pos, ids)
          else
            var checksum := Take(ev, id.pos, 4);
            if checksum.status != RECEIVED then Report(checksum.status, checksum.pos, ids)
            else if f.leader == CONTROL_PACKET_LEADER_BYTE then
              ControlTurn(checksum.pos, Value(ty.bytes), Value(id.bytes), ids, want)
            else
              DataTurn(ev, checksum.pos, Value(ty.bytes), Value(count.bytes), Value(id.bytes), Value(checksum.bytes),
                       ids, want)
  }

  /** Step 6: control packets. */
  function ControlTurn(pos: nat, ty: nat, id: nat, ids: Ids, want: Want): (t: Turn)
    ensures t.Again? ==> t.pos == pos
  {
    if ty == ACKNOWLEDGE then
      if want.packetType == ACKNOWLEDGE && id == WithoutSync(ids.current)
      then Report(RECEIVED, pos, ids.(current := FlipLow(ids.current)))
      else Again(pos, [])
    else if ty == RESET then
      Return(RESEND, pos, Ids(INITIAL_PACKET_ID, INITIAL_PACKET_ID), [Control(RESET, 0)], false, NoMail)
    else if ty == RESEND_TYPE then Report(RESEND, pos, ids)
    else Again(pos, [])
  }

  /** A data packet whose header fields have arrived. */
  function DataTurn(ev: seq<Event>, pos: nat, ty: nat, count: nat, id: nat, checksum: nat, ids: Ids,
                    want: Want): (t: Turn)
    ensures t.pos >= pos
  {
    if want.packetType == ACKNOWLEDGE then
      Return(RECEIVED, pos, ids.(current := FlipLow(ids.current)), Refuse, false, NoMail)
    else if count < want.headerMax || count > PACKET_MAX_SIZE then Again(pos, Refuse)
    else
      var header := Take(ev, pos, want.headerMax);
      if header.status != RECEIVED then Again(header.pos, Refuse)
      else
        var length := count - want.headerMax;
        var data := Take(ev, header.pos, if want.hasData then length else 0);
        if data.status != RECEIVED then Again(data.pos, Refuse)
        else
          var trailer := Take(ev, data.pos, 1);
          var sum := (Sum(header.bytes) % 0x1_0000_0000 + Sum(data.bytes) % 0x1_0000_0000) % 0x1_0000_0000;
          if trailer.status != RECEIVED || trailer.bytes != [PACKET_TRAILING_BYTE] then Again(trailer.pos, Refuse)
          else if checksum != sum then Again(trailer.pos, Refuse)
          else
            var ack := [Control(ACKNOWLEDGE, id)];
            if id != ids.remote || ty != want.packetType then Again(trailer.pos, ack)
            else
              Return(RECEIVED, trailer.pos, ids.(remote := FlipLow(ids.remote)), ack, false,
                     Mail(header.bytes, data.bytes, length))
  }

  /** The whole call: turns until one returns. It returns on every line that
      is timeouts from some point on. */
  function Receive(ev: seq<Event>, pos: nat, ids: Ids, want: Want): (t: Turn)
    ensures t.Return?
    decreases if pos <= |ev| then |ev| + 1 - pos else 0
  {
    if want.packetType == POLL_BREAKIN then
      Report(if EventAt(ev, pos) == Received(BREAKIN_PACKET_BYTE) then RECEIVED else TIMEOUT, pos + 1, ids)
    else
      match OneTurn(ev, pos, ids, want)
      case Return(_, _, _, _, _, _) => OneTurn(ev, pos, ids, want)
      case Again(p, sent) =>
        var rest := Receive(ev, p, ids, want);
        rest.(sent := sent + rest.sent)
  }

  // ----- Packets -----

  /** The bytes of a packet after its leader, as a debugger sends it. */
  function Body(ty: nat, id: nat, payload: seq<byte>): seq<byte> {
    Little(ty, 2) + Little(|payload|, 2) + Little(id, 4) + Little(Sum(payload), 4) + payload + [PACKET_TRAILING_BYTE]
  }

  function Leaders(b: byte): seq<byte> { [b, b, b, b] }

  function Encode(ty: nat, id: nat, payload: seq<byte>): seq<byte> {
    Leaders(PACKET_LEADER_BYTE) + Body(ty, id, payload)
  }

  ghost predicate ValidPacket(ty: nat, id: nat, payload: seq<byte>) {
    ty < 0x1_0000 && id < 0x1_0000_0000 && |payload| <= PACKET_MAX_SIZE
  }

  /** The header and data sums of an accepted packet never wrap: their 32-bit
      total is the natural sum of all payload bytes. */
  lemma {:induction false} ChecksumExact(header: seq<byte>, data: seq<byte>)
    requires |header + data| <= PACKET_MAX_SIZE
    ensures (Sum(header) % 0x1_0000_0000 + Sum(data) % 0x1_0000_0000) % 0x1_0000_0000 == Sum(header + data)
  {
    SumConcat(header, data);
    SumBound(header + data);
  }
}
