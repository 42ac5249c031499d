/** The code of src/kdCom/kdserial.cpp and src/kdCom/kddll.cpp: loops over a
    port and two packet ids, each method tied to its function of the line. */
module KdCode {
  import opened Basics
  import opened KdWire
  import opened KdReceive

  /** The bytes of a control packet, as KdpSendControlPacket lays them out. */
  function ControlBytes(c: Control): seq<byte> {
    Leaders(CONTROL_PACKET_LEADER_BYTE) + Little(c.kind, 2) + Little(0, 2) + Little(c.id, 4) + Little(0, 4)
  }

  function Wire(sent: seq<Control>): seq<byte>
  {
    if |sent| == 0 then [] else Wire(sent[..|sent| - 1]) + ControlBytes(sent[|sent| - 1])
  }

  lemma {:induction false} WireConcat(s: seq<Control>, t: seq<Control>)
    ensures Wire(s + t) == Wire(s) + Wire(t)
    decreases |t|
  {
    hide ControlBytes, Wire;
    if |t| == 0 {
      assert s + t == s;
      WireNone(t);
      assert Wire(s) + [] == Wire(s);
    } else {
      var u, last := t[..|t| - 1], ControlBytes(t[|t| - 1]);
      WireConcat(s, u);
      WireLast(t);
      WireLast(s + t);
      assert (s + t)[..|s + t| - 1] == s + u;
      assert Wire(s) + Wire(u) + last == Wire(s) + (Wire(u) + last);
    }
  }

  lemma {:induction false} WireNone(t: seq<Control>)
    requires t == []
    ensures Wire(t) == []
  {
  }

  lemma {:induction false} WireLast(t: seq<Control>)
    requires |t| > 0
    ensures Wire(t) == Wire(t[..|t| - 1]) + ControlBytes(t[|t| - 1])
  {
  }

  lemma {:induction false} WireAfter(base: seq<byte>, s: seq<Control>, t: seq<Control>)
    ensures base + Wire(s) + Wire(t) == base + Wire(s + t)
  {
    WireConcat(s, t);
  }

  class KdTransport {
    const events: seq<Event>    // what the line will bring
    var pos: nat                // how much of it has been read
    var output: seq<byte>       // what has been sent
    var currentPacketId: nat
    var remotePacketId: nat
    var controlCPending: bool

    constructor (events: seq<Event>)
      ensures this.events == events && pos == 0 && output == [] && !controlCPending
      ensures Ids(currentPacketId, remotePacketId) == Ids(INITIAL_PACKET_ID + 0x800, INITIAL_PACKET_ID)
    {
      this.events := events;
      pos, output, controlCPending := 0, [], false;
      currentPacketId, remotePacketId := INITIAL_PACKET_ID + 0x800, INITIAL_PACKET_ID;
    }

    function CurrentIds(): Ids
      reads this
    {
      Ids(currentPacketId, remotePacketId)
    }

    /** KdpReceiveByte */
    method ReceiveByte() returns (status: Status, b: byte)
      modifies this`pos
      ensures pos == old(pos) + 1
      ensures match EventAt(events, old(pos))
              case Received(x) => status == RECEIVED && b == x
              case NoData => status == TIMEOUT
              case LineError => status == RESEND
    {
      var event := EventAt(events, pos);
      pos := pos + 1;
      match event
      case Received(x) => return RECEIVED, x;
      case NoData => return TIMEOUT, 0;
      case LineError => return RESEND, 0;
    }

    /** KdpSendBuffer */
    method SendBuffer(buffer: seq<byte>)
      modifies this`output
      ensures output == old(output) + buffer
    {
      var i := 0;
      while i < |buffer|
        invariant 0 <= i <= |buffer|
        invariant output == old(output) + buffer[..i]
      {
        output := output + [buffer[i]];
        i := i + 1;
      }
      assert buffer[..i] == buffer;
    }

    method SendControlPacket(kind: nat, id: nat)
      modifies this`output
      ensures output == old(output) + Wire([Control(kind, id)])
    {
      hide ControlBytes;
      var c := Control(kind, id);
      SendBuffer(ControlBytes(c));
      assert Wire([c]) == Wire([]) + ControlBytes(c) by { assert [c][..0] == []; }
    }

    /** KdpReceiveBuffer */
    method ReceiveBuffer(size: nat) returns (status: Status, buffer: seq<byte>)
      modifies this`pos
      ensures Taken(status, pos, buffer) == Take(events, old(pos), size)
    {
      buffer := [];
      var left := size;
      while left > 0
        invariant 0 <= left <= size
        invariant Take(events, old(pos), size) ==
                  var t := Take(events, pos, left); t.(bytes := buffer + t.bytes)
      {
        ghost var p := pos;
        var b;
        status, b := ReceiveByte();
        if status != RECEIVED {
          assert buffer + [] == buffer;
          return;
        }
        assert buffer + ([b] + Take(events, pos, left - 1).bytes) == buffer + [b] + Take(events, pos, left - 1).bytes;
        buffer := buffer + [b];
        left := left - 1;
      }
      assert buffer + [] == buffer;
      status := RECEIVED;
    }

    /** KdpReceivePacketLeader: a run of equal leader bytes counted in index,
        with its byte, or the break-in byte, in buffer[0]. */
    method ReceivePacketLeader() returns (status: Status, leader: byte)
      modifies this`pos
      ensures var f := Scan(events, old(pos), old(pos));
              status == f.status && pos == f.pos && (status == RECEIVED ==> leader == f.leader)
    {
      var buffer := new byte[4];
      buffer[0] := 0;
      var index := 0;
      ghost var start := pos;
      while index < 4
        invariant fresh(buffer) && buffer.Length == 4 && start <= pos && 0 <= index <= 4
        invariant index < 4 ==> Scan(events, start, start) == Scan(events, start, pos)
        invariant index > 0 ==> IsLeader(buffer[0])
        invariant RunLength(events, start, pos, buffer[0], index)
        invariant index == 0 ==> !IsLeader(buffer[0]) || start == pos
        invariant buffer[0] == BREAKIN_PACKET_BYTE <==>
                  start < pos && EventAt(events, pos - 1) == Received(BREAKIN_PACKET_BYTE)
        invariant forall j :: 0 <= j < index ==> buffer[j] == buffer[0]
        invariant index == 4 ==> Scan(events, start, start) == Found(RECEIVED, buffer[0], pos)
        decreases |events| - pos, 4 - index
      {
        var b;
        status, b := ReceiveByte();
        if status == TIMEOUT {
          return if buffer[0] == BREAKIN_PACKET_BYTE then RESEND else TIMEOUT, 0;
        }
        if status == RECEIVED && IsLeader(b) {
          if b != buffer[0] { index := 0; }
          buffer[index] := b;
          index := index + 1;
          if index == 4 {
            assert EventAt(events, pos - 1) == EventAt(events, pos - 2) == EventAt(events, pos - 3) ==
                   EventAt(events, pos - 4) == Received(b);
            assert FourLeaders(events, start, pos);
          }
        } else if status == RECEIVED && b == BREAKIN_PACKET_BYTE {
          index := 0;
          buffer[0] := b;
        } else {
          index := 0;
          buffer[0] := 0;
        }
      }
      return RECEIVED, buffer[0];
    }

    /** Step 6 of KdReceivePacket. */
    method HandleControl(ty: nat, id: nat, want: Want) returns (again: bool, status: Status)
      modifies this
      ensures var t := ControlTurn(old(pos), ty, id, old(CurrentIds()), want);
              && pos == old(pos) && controlCPending == old(controlCPending) && again == t.Again?
              && output == old(output) + Wire(t.sent)
              && (again ==> CurrentIds() == old(CurrentIds()))
              && (!again ==> status == t.status && CurrentIds() == t.ids && !t.breakin && t.mail == NoMail)
    {
      assert output + Wire([]) == output;
      status := RESEND;
      if ty == ACKNOWLEDGE {
        if want.packetType == ACKNOWLEDGE && id == WithoutSync(currentPacketId) {
          currentPacketId := FlipLow(currentPacketId);
          return false, RECEIVED;
        }
        again := true;
      } else if ty == RESET {
        currentPacketId, remotePacketId := INITIAL_PACKET_ID, INITIAL_PACKET_ID;
        SendControlPacket(RESET, 0);
        return false, RESEND;
      } else if ty == RESEND_TYPE {
        return false, RESEND;
      } else {
        again := true;
      }
    }

    /** What follows the header fields of a data packet. */
    method HandleData(ty: nat, count: nat, id: nat, checksum: nat, want: Want)
      returns (again: bool, status: Status, mail: Mail)
      modifies this
      ensures var t := DataTurn(events, old(pos), ty, count, id, checksum, old(CurrentIds()), want);
              && pos == t.pos && controlCPending == old(controlCPending) && again == t.Again?
              && output == old(output) + Wire(t.sent)
              && (again ==> CurrentIds() == old(CurrentIds()))
              && (!again ==> status == t.status && CurrentIds() == t.ids && !t.breakin && mail == t.mail)
    {
      hide Sum, Take, Wire, FlipLow, ControlBytes;
      status, mail := RECEIVED, NoMail;
      if want.packetType == ACKNOWLEDGE {
        SendControlPacket(RESEND_TYPE, 0);
        currentPacketId := FlipLow(currentPacketId);
        return false, RECEIVED, NoMail;
      }
      if count < want.headerMax || count > PACKET_MAX_SIZE {
        SendControlPacket(RESEND_TYPE, 0);
        return true, status, mail;
      }
      var header;
      status, header := ReceiveBuffer(want.headerMax);
      if status != RECEIVED {
        SendControlPacket(RESEND_TYPE, 0);
        return true, status, mail;
      }
      var sum := CalculateChecksum(header);
      var length := count - want.headerMax;
      var data := [];
      TakeNone(events, pos);
      SumOfNothing(Sum(header));
      if want.hasData && length > 0 {
        status, data := ReceiveBuffer(length);
        if status != RECEIVED {
          SendControlPacket(RESEND_TYPE, 0);
          return true, status, mail;
        }
        var dataSum := CalculateChecksum(data);
        sum := (sum + dataSum) % 0x1_0000_0000;
      }
      var trailer;
      status, trailer := ReceiveBuffer(1);
      if status != RECEIVED || trailer != [PACKET_TRAILING_BYTE] || checksum != sum {
        SendControlPacket(RESEND_TYPE, 0);
        return true, status, mail;
      }
      SendControlPacket(ACKNOWLEDGE, id);
      if id != remotePacketId || ty != want.packetType {
        return true, status, mail;
      }
      remotePacketId := FlipLow(remotePacketId);
      return false, RECEIVED, Mail(header, data, length);
    }

    /** One turn of the loop of KdReceivePacket. */
    method ReceiveTurn(want: Want) returns (again: bool, status: Status, mail: Mail)
      modifies this
      ensures var t := OneTurn(events, old(pos), old(CurrentIds()), want);
              && pos == t.pos && again == t.Again?
              && output == old(output) + Wire(t.sent)
              && (again ==> CurrentIds() == old(CurrentIds()) && controlCPending == old(controlCPending))
              && (!again ==> status == t.status && CurrentIds() == t.ids && mail == t.mail)
              && (!again ==> controlCPending == (old(controlCPending) || t.breakin))
    {
      hide Wire, Value, Take, Scan, DataTurn, ControlBytes;
      WireNone([]);
      again, mail := false, NoMail;
      var leader;
      status, leader := ReceivePacketLeader();
      if status != RECEIVED {
        if status == RESEND { controlCPending := true; }
        return;
      }
      var ty, count, id, checksum;
      status, ty := ReceiveBuffer(2);
      if status != RECEIVED { return; }
      if leader == CONTROL_PACKET_LEADER_BYTE && Value(ty) == RESEND_TYPE { return false, RESEND, NoMail; }
      status, count := ReceiveBuffer(2);
      if status != RECEIVED { return; }
      status, id := ReceiveBuffer(4);
      if status != RECEIVED { return; }
      status, checksum := ReceiveBuffer(4);
      if status != RECEIVED { return; }
      if leader == CONTROL_PACKET_LEADER_BYTE {
        again, status := HandleControl(Value(ty), Value(id), want);
      } else {
        again, status, mail := HandleData(Value(ty), Value(count), Value(id), Value(checksum), want);
      }
    }

    /** The loop of KdReceivePacket. */
    method ReceiveLoop(want: Want) returns (status: Status, mail: Mail)
      requires want.packetType != POLL_BREAKIN
      modifies this
      ensures var t := Receive(events, old(pos), old(CurrentIds()), want);
              && status == t.status && pos == t.pos && CurrentIds() == t.ids && mail == t.mail
              && output == old(output) + Wire(t.sent)
              && controlCPending == (old(controlCPending) || t.breakin)
    {
      ghost var done: seq<Control> := [];
      assert output + Wire(done) == output;
      hide OneTurn, Wire, Receive;
      var again := true;
      ghost var t := Receive(events, pos, CurrentIds(), want);
      ghost var ids := CurrentIds();
      ghost var base := output;
      assert Extended([], t) == t;
      status, mail := TIMEOUT, NoMail;
      while again
        invariant output == base + Wire(done)
        invariant again ==> CurrentIds() == ids && controlCPending == old(controlCPending)
        invariant again ==> t == Extended(done, Receive(events, pos, ids, want))
        invariant !again ==> t == Return(status, pos, CurrentIds(), done, t.breakin, mail)
        invariant !again ==> controlCPending == (old(controlCPending) || t.breakin)
        decreases again, if pos <= |events| then |events| + 1 - pos else 0
      {
        ghost var turn := OneTurn(events, pos, ids, want);
        ReceiveUnfolds(events, pos, ids, want, done);
        again, status, mail := ReceiveTurn(want);
        WireAfter(base, done, turn.sent);
        done := done + turn.sent;
      }
    }

    /** KdReceivePacket */
    method ReceivePacket(want: Want) returns (status: Status, mail: Mail)
      modifies this
      ensures var t := Receive(events, old(pos), old(CurrentIds()), want);
              && status == t.status && pos == t.pos && CurrentIds() == t.ids && mail == t.mail
              && output == old(output) + Wire(t.sent)
              && controlCPending == (old(controlCPending) || t.breakin)
      ensures want.packetType == POLL_BREAKIN ==>
                && status == (if old(pos) < |events| && events[old(pos)] == Received(0x62) then RECEIVED else TIMEOUT)
                && mail == NoMail && pos == old(pos) + 1 && output == old(output)
                && CurrentIds() == old(CurrentIds()) && controlCPending == old(controlCPending)
    {
      if want.packetType == POLL_BREAKIN {
        var b;
        status, b := ReceiveByte();
        status, mail := if status == RECEIVED && b == BREAKIN_PACKET_BYTE then RECEIVED else TIMEOUT, NoMail;
        assert output + Wire([]) == output;
      } else {
        hide Receive;
        status, mail := ReceiveLoop(want);
      }
    }
  }

  /** A result with earlier control packets put in front. */
  function Extended(sent: seq<Control>, t: Turn): Turn { t.(sent := sent + t.sent) }

  lemma {:induction false} ReceiveUnfolds(ev: seq<Event>, pos: nat, ids: Ids, want: Want, done: seq<Control>)
    requires want.packetType != POLL_BREAKIN
    ensures var turn := OneTurn(ev, pos, ids, want);
            Extended(done, Receive(ev, pos, ids, want)) ==
            if turn.Return? then Extended(done, turn) else Extended(done + turn.sent, Receive(ev, turn.pos, ids, want))
  {
    hide OneTurn;
    var turn := OneTurn(ev, pos, ids, want);
    if turn.Again? {
      var rest := Receive(ev, turn.pos, ids, want).sent;
      assert done + (turn.sent + rest) == done + turn.sent + rest;
    }
  }

  /** Exactly index events before pos, all since start, are the byte b, or four are. */
  ghost predicate RunLength(ev: seq<Event>, start: nat, pos: nat, b: byte, index: nat)
  {
    && start + index <= pos
    && (forall j :: pos - index <= j < pos ==> EventAt(ev, j) == Received(b))
    && (0 < index && start + index < pos ==> EventAt(ev, pos - index - 1) != Received(b))
    && (index == 0 && start < pos ==> !(EventAt(ev, pos - 1).Received? && IsLeader(EventAt(ev, pos - 1).b)))
  }
}
