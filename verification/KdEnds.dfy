/** How a call of KdReceivePacket ends and with which status, read off the line:
    polls, silence, break-ins, line errors inside a header, control packets. */
module KdEnds {
  import opened Basics
  import opened Layout
  import opened KdWire
  import opened KdReceive
  import opened KdFrames
  import opened KdCalls
  import opened KdCode

  // ----- Polls -----

  /** A poll answers RECEIVED exactly to a break-in byte and TIMEOUT to anything
      else. It takes one event and changes nothing. */
  lemma {:induction false} PollAnswers(ev: seq<Event>, pos: nat, ids: Ids, want: Want)
    requires want.packetType == POLL_BREAKIN
    ensures var t := Receive(ev, pos, ids, want);
            && (t.status == RECEIVED <==> pos < |ev| && ev[pos] == Received(0x62))
            && (t.status == TIMEOUT <==> t.status != RECEIVED)
            && t.pos == pos + 1 && t.ids == ids && t.sent == [] && !t.breakin && t.mail == NoMail
  {
  }

  // ----- The search for a leader -----

  /** From pos on nothing ends the search for a leader before event p. */
  ghost predicate Searches(ev: seq<Event>, pos: nat, p: nat) {
    pos <= p && forall j :: pos <= j < p ==> GoesOn(ev, pos, j)
  }

  /** The first four equal leader bytes are b and end before p. */
  ghost predicate LeaderEnds(ev: seq<Event>, pos: nat, b: byte, p: nat) {
    p > pos && Searches(ev, pos, p - 1) && FourLeaders(ev, pos, p) && ev[p - 1] == Received(b)
  }

  lemma {:induction false} LeaderFound(ev: seq<Event>, pos: nat, b: byte, p: nat)
    requires LeaderEnds(ev, pos, b, p)
    ensures Scan(ev, pos, pos) == Found(RECEIVED, b, p) && IsLeader(b)
  {
    hide Scan;
    ScanIsFirst(ev, pos, pos, p);
  }

  /** A call that hears silence before a leader ends there. It reports RESEND and
      raises the break-in flag exactly if a break-in byte came right before, and
      reports TIMEOUT otherwise. */
  lemma {:induction false} SilenceEnds(ev: seq<Event>, pos: nat, p: nat, ids: Ids, want: Want)
    requires want.packetType != POLL_BREAKIN && Searches(ev, pos, p) && (p >= |ev| || ev[p].NoData?)
    ensures var breakin := pos < p <= |ev| && ev[p - 1] == Received(0x62);
            Receive(ev, pos, ids, want) ==
            Return(if breakin then RESEND else TIMEOUT, p + 1, ids, [], breakin, NoMail)
  {
    hide Scan;
    ScanIsFirst(ev, pos, pos, p + 1);
  }

  // ----- Header fields -----

  /** How many header bytes a call reads at once behind a leader: all twelve,
      but behind a resend request only its type. */
  function HeaderLength(b: byte, ty: seq<byte>): nat {
    if b == CONTROL_PACKET_LEADER_BYTE && ty == [5, 0] then 2 else 12
  }

  /** A call cut short inside the header fields ends there: RESEND after a line
      error, TIMEOUT after silence, with nothing sent and nothing changed. */
  lemma {:induction false} CutShort(ev: seq<Event>, pos: nat, b: byte, p: nat, got: seq<byte>, ids: Ids, want: Want)
    requires want.packetType != POLL_BREAKIN && LeaderEnds(ev, pos, b, p)
    requires |got| < 12 && (|got| >= 2 ==> |got| < HeaderLength(b, got[..2]))
    requires Starts(ev, p, got) && !EventAt(ev, p + |got|).Received?
    ensures Receive(ev, pos, ids, want) ==
            Report(if EventAt(ev, p + |got|).LineError? then RESEND else TIMEOUT, p + |got| + 1, ids)
  {
    hide Scan, Take, Starts, Value, LeaderEnds, EventAt;
    LeaderFound(ev, pos, b, p);
    var n := |got|;
    if n < 2 {
      TakeCut(ev, p, 2, got);
    } else {
      assert got == got[..2] + got[2..];
      StartsConcat(ev, p, got[..2], got[2..]);
      TakeStarts(ev, p, got[..2]);
      ResendValue(got[..2]);
      CutLater(ev, pos, b, p, got[..2], got[2..], ids, want);
    }
  }

  lemma {:induction false} CutLater(ev: seq<Event>, pos: nat, b: byte, p: nat, ty: seq<byte>, got: seq<byte>, ids: Ids,
                                    want: Want)
    requires want.packetType != POLL_BREAKIN && Scan(ev, pos, pos) == Found(RECEIVED, b, p)
    requires Take(ev, p, 2) == Taken(RECEIVED, p + 2, ty) && |got| < 10
    requires !(b == CONTROL_PACKET_LEADER_BYTE && Value(ty) == RESEND_TYPE)
    requires Starts(ev, p + 2, got) && !EventAt(ev, p + 2 + |got|).Received?
    ensures var q := p + 2 + |got|;
            Receive(ev, pos, ids, want) == Report(if EventAt(ev, q).LineError? then RESEND else TIMEOUT, q + 1, ids)
  {
    hide Scan, Take, Starts, Value, EventAt;
    if |got| < 2 {
      TakeCut(ev, p + 2, 2, got);
    } else {
      var count, more := got[..2], got[2..];
      assert got == count + more;
      StartsConcat(ev, p + 2, count, more);
      TakeStarts(ev, p + 2, count);
      if |more| < 4 {
        TakeCut(ev, p + 4, 4, more);
      } else {
        assert more == more[..4] + more[4..];
        StartsConcat(ev, p + 4, more[..4], more[4..]);
        TakeStarts(ev, p + 4, more[..4]);
        TakeCut(ev, p + 8, 4, more[4..]);
      }
    }
  }

  /** KdpReceiveBuffer stops behind the first event that is no byte. */
  lemma {:induction false} TakeCut(ev: seq<Event>, pos: nat, n: nat, got: seq<byte>)
    requires |got| < n && Starts(ev, pos, got) && !EventAt(ev, pos + |got|).Received?
    ensures Take(ev, pos, n) ==
            Taken(if EventAt(ev, pos + |got|).LineError? then RESEND else TIMEOUT, pos + |got| + 1, got)
    decreases n
  {
    if |got| > 0 {
      assert ev[pos + 0] == Received(got[0]);
      assert Starts(ev, pos + 1, got[1..]) by {
        forall i | 0 <= i < |got[1..]| ensures ev[pos + 1 + i] == Received(got[1..][i]) {
          assert ev[pos + (i + 1)] == Received(got[i + 1]);
        }
      }
      TakeCut(ev, pos + 1, n - 1, got[1..]);
      assert [got[0]] + got[1..] == got;
    }
  }

  lemma {:induction false} ResendValue(ty: seq<byte>)
    requires |ty| == 2
    ensures Value(ty) == RESEND_TYPE <==> ty == [5, 0]
  {
    hide Little, Value;
    LittleTwo(5);
    assert Little(5, 2) == [5, 0];
    ValueOfLittle(5, 2);
    LittleOfValue(ty);
  }

  // ----- Control packets -----

  /** A resend request ends a call of any kind with RESEND, right behind its type. */
  lemma {:induction false} ResendEnds(ev: seq<Event>, pos: nat, p: nat, ids: Ids, want: Want)
    requires want.packetType != POLL_BREAKIN && LeaderEnds(ev, pos, 0x69, p) && Starts(ev, p, [5, 0])
    ensures Receive(ev, pos, ids, want) == Return(RESEND, p + 2, ids, [], false, NoMail)
  {
    hide Scan, Take, Starts, Value, LeaderEnds;
    LeaderFound(ev, pos, 0x69, p);
    TakeStarts(ev, p, [5, 0]);
    ResendValue([5, 0]);
  }

  /** Any other control packet: a reset restores both ids, is answered by a reset
      and ends the call with RESEND; the acknowledgement of the current id, its
      sync bit aside, ends a call that awaits one with RECEIVED and flips that id;
      everything else is passed over in silence. */
  lemma {:induction false} ControlAnswers(ev: seq<Event>, pos: nat, p: nat, c: Control, rest: seq<byte>, ids: Ids,
                                          want: Want)
    requires want.packetType != POLL_BREAKIN && LeaderEnds(ev, pos, 0x69, p)
    requires c.kind < 0x1_0000 && c.id < 0x1_0000_0000 && c.kind != 5 && |rest| == 6
    requires Starts(ev, p, Little(c.kind, 2) + (rest[..2] + (Little(c.id, 4) + rest[2..])))
    ensures var t, q := Receive(ev, pos, ids, want), p + 12;
            if c.kind == 6 then
              t == Return(RESEND, q, Ids(0x8080_0000, 0x8080_0000), [Control(6, 0)], false, NoMail)
            else if c.kind == 4 && want.packetType == 4 && c.id == WithoutSync(ids.current) then
              t == Return(RECEIVED, q, Ids(FlipLow(ids.current), ids.remote), [], false, NoMail)
            else t == Receive(ev, q, ids, want)
  {
    hide Scan, Take, Starts, Value, Little, LeaderEnds, WithoutSync, FlipLow;
    LeaderFound(ev, pos, 0x69, p);
    ValueOfLittle(c.kind, 2);
    ValueOfLittle(c.id, 4);
    TurnOnControl(ev, pos, p, ids, want, Little(c.kind, 2), rest[..2], Little(c.id, 4), rest[2..]);
    hide OneTurn;
    var t := OneTurn(ev, pos, ids, want);
    if t.Again? { assert [] + Receive(ev, p + 12, ids, want).sent == Receive(ev, p + 12, ids, want).sent; }
  }

  // ----- Data packets that are not taken -----

  lemma {:induction false} GoesOnBehind(ev: seq<Event>, pos: nat, ids: Ids, want: Want, q: nat)
    requires want.packetType != POLL_BREAKIN && OneTurn(ev, pos, ids, want) == Again(q, Refuse)
    ensures Receive(ev, pos, ids, want) == Extended([Control(5, 0)], Receive(ev, q, ids, want))
  {
    hide OneTurn;
  }

  /** The header of a data packet ends a call that awaits an acknowledgement as if
      that had come: the current id flips, the packet is asked for again, and its
      payload stays on the line. */
  lemma {:induction false} DataForAcknowledgement(ev: seq<Event>, pos: nat, p: nat, ids: Ids, want: Want,
                                                  ty: nat, count: nat, id: nat, checksum: nat)
    requires want.packetType == 4 && LeaderEnds(ev, pos, 0x30, p)
    requires FieldsInRange(ty, count, id, checksum) && Starts(ev, p, Fields(ty, count, id, checksum))
    ensures Receive(ev, pos, ids, want) ==
            Return(RECEIVED, p + 12, Ids(FlipLow(ids.current), ids.remote), [Control(5, 0)], false, NoMail)
  {
    hide Scan, Take, Starts, Fields, OneTurn, LeaderEnds, FlipLow;
    LeaderFound(ev, pos, 0x30, p);
    TurnOnFields(ev, pos, ids, want, ty, count, id, checksum);
  }

  /** A packet shorter than the header buffer or longer than 4000 bytes is asked
      for again, and the call goes on behind its header. */
  lemma {:induction false} MisfitRefused(ev: seq<Event>, pos: nat, p: nat, ids: Ids, want: Want,
                                         ty: nat, count: nat, id: nat, checksum: nat)
    requires DataCall(want) && LeaderEnds(ev, pos, 0x30, p) && !(want.headerMax <= count <= 4000)
    requires FieldsInRange(ty, count, id, checksum) && Starts(ev, p, Fields(ty, count, id, checksum))
    ensures Receive(ev, pos, ids, want) == Extended([Control(5, 0)], Receive(ev, p + 12, ids, want))
  {
    hide Scan, Take, Starts, Fields, OneTurn, LeaderEnds, Receive;
    LeaderFound(ev, pos, 0x30, p);
    TurnOnFields(ev, pos, ids, want, ty, count, id, checksum);
    GoesOnBehind(ev, pos, ids, want, p + 12);
  }

  /** A packet cut short behind its header is asked for again, and the call goes
      on behind the silence or line error that cut it. */
  lemma {:induction false} PayloadCut(ev: seq<Event>, pos: nat, p: nat, ids: Ids, want: Want,
                                      ty: nat, count: nat, id: nat, checksum: nat, got: seq<byte>)
    requires DataCall(want) && LeaderEnds(ev, pos, 0x30, p) && Fits(want, count)
    requires FieldsInRange(ty, count, id, checksum) && Starts(ev, p, Fields(ty, count, id, checksum))
    requires |got| <= ReadLength(want, count)
    requires Starts(ev, p + 12, got) && !EventAt(ev, p + 12 + |got|).Received?
    ensures Receive(ev, pos, ids, want) == Extended([Control(5, 0)], Receive(ev, p + 13 + |got|, ids, want))
  {
    hide Scan, Take, Starts, Fields, OneTurn, LeaderEnds, Receive, DataTurn, EventAt;
    LeaderFound(ev, pos, 0x30, p);
    TurnOnFields(ev, pos, ids, want, ty, count, id, checksum);
    DataTurnCut(ev, p + 12, ty, count, id, checksum, ids, want, got);
    GoesOnBehind(ev, pos, ids, want, p + 13 + |got|);
  }

  lemma {:induction false} DataTurnCut(ev: seq<Event>, q: nat, ty: nat, count: nat, id: nat, checksum: nat, ids: Ids,
                                       want: Want, got: seq<byte>)
    requires DataCall(want) && Fits(want, count) && |got| <= ReadLength(want, count)
    requires Starts(ev, q, got) && !EventAt(ev, q + |got|).Received?
    ensures DataTurn(ev, q, ty, count, id, checksum, ids, want) == Again(q + |got| + 1, Refuse)
  {
    hide Take, Starts, Sum, EventAt, DataTurn;
    var h := want.headerMax;
    if |got| < h {
      TakeCut(ev, q, h, got);
      HeaderCut(ev, q, ty, count, id, checksum, ids, want);
    } else {
      var header, data := got[..h], got[h..];
      assert got == header + data;
      StartsConcat(ev, q, header, data);
      TakeStarts(ev, q, header);
      if |got| < ReadLength(want, count) {
        TakeCut(ev, q + h, count - h, data);
      } else {
        TakeStarts(ev, q + h, data);
        TakeCut(ev, q + |got|, 1, []);
      }
      DataCut(ev, q, ty, count, id, checksum, ids, want);
    }
  }

  lemma {:induction false} HeaderCut(ev: seq<Event>, q: nat, ty: nat, count: nat, id: nat, checksum: nat, ids: Ids,
                                     want: Want)
    requires DataCall(want) && Fits(want, count) && Take(ev, q, want.headerMax).status != RECEIVED
    ensures DataTurn(ev, q, ty, count, id, checksum, ids, want) == Again(Take(ev, q, want.headerMax).pos, Refuse)
  {
    hide Take, Sum;
  }

  lemma {:induction false} DataCut(ev: seq<Event>, q: nat, ty: nat, count: nat, id: nat, checksum: nat, ids: Ids,
                                   want: Want)
    requires DataCall(want) && Fits(want, count) && Take(ev, q, want.headerMax).status == RECEIVED
    requires var d := Take(ev, q + want.headerMax, ReadLength(want, count) - want.headerMax);
             d.status == RECEIVED ==> Take(ev, d.pos, 1).status != RECEIVED
    ensures var d := Take(ev, q + want.headerMax, ReadLength(want, count) - want.headerMax);
            DataTurn(ev, q, ty, count, id, checksum, ids, want) ==
            Again(if d.status != RECEIVED then d.pos else Take(ev, d.pos, 1).pos, Refuse)
  {
    hide Take, Sum;
  }

  // ----- Packet ids -----

  /** id ^ 1 flips the lowest bit and no other. */
  lemma {:induction false} FlipLowBits(id: nat, k: nat)
    ensures Bit(FlipLow(id), k) == (if k == 0 then !Bit(id, 0) else Bit(id, k))
  {
    var h := id / 2;
    DivMod(FlipLow(id), 2, h, 1 - id % 2);
  }

  /** id & ~SYNC_PACKET_ID clears bit 11 and no other. */
  lemma {:induction false} WithoutSyncBits(id: nat, k: nat)
    ensures Bit(WithoutSync(id), k) == (k != 11 && Bit(id, k))
  {
    hide WithoutSync, Power2, Bit;
    var high, b, low := SyncBit(id);
    SyncPower();
    Joined(id, 2 * high + b, low, 11, k);
    Joined(WithoutSync(id), 2 * high, low, 11, k);
    if k >= 11 {
      EvenBits(high, 0, k - 11);
      EvenBits(high, b, k - 11);
    }
  }

  lemma SyncBit(id: nat) returns (high: nat, b: nat, low: nat)
    ensures b <= 1 && low < 2048 && id == 2048 * (2 * high + b) + low && WithoutSync(id) == 2048 * (2 * high) + low
  {
    var q := id / 2048;
    high, b, low := q / 2, q % 2, id % 2048;
  }

  lemma {:induction false} SyncPower()
    ensures Power2(11) == 2048
  {
    SmallPowers();
  }

  lemma {:induction false} EvenBits(high: nat, b: nat, k: nat)
    requires b <= 1
    ensures Bit(2 * high + b, k) == if k == 0 then b == 1 else Bit(high, k - 1)
  {
  }

  // ----- What was sent is read back -----

  /** A receiver of control packets: the leader, then type, byte count, packet id
      and checksum, the middle and the last of them zero. */
  function ReadControl(ev: seq<Event>, pos: nat): Option<(Control, nat)> {
    var f := Scan(ev, pos, pos);
    if f.status != RECEIVED || f.leader != CONTROL_PACKET_LEADER_BYTE then None
    else
      var t := Take(ev, f.pos, 12);
      if t.status != RECEIVED || Value(t.bytes[2..4]) != 0 || Value(t.bytes[8..12]) != 0 then None
      else Some((Control(Value(t.bytes[..2]), Value(t.bytes[4..8])), t.pos))
  }

  function ReadControls(ev: seq<Event>, pos: nat, n: nat): Option<(seq<Control>, nat)> {
    if n == 0 then Some(([], pos))
    else match ReadControls(ev, pos, n - 1)
      case None => None
      case Some((sent, p)) =>
        match ReadControl(ev, p)
        case None => None
        case Some((c, q)) => Some((sent + [c], q))
  }

  predicate InRange(c: Control) { c.kind < 0x1_0000 && c.id < 0x1_0000_0000 }

  /** The sixteen bytes put on the line for a control packet are read back as it. */
  lemma {:induction false} ControlReadsBack(ev: seq<Event>, pos: nat, c: Control)
    requires InRange(c) && Starts(ev, pos, ControlBytes(c))
    ensures |ControlBytes(c)| == 16 && ReadControl(ev, pos) == Some((c, pos + 16))
  {
    hide Scan, Take, Starts, Value, Little, ControlBytes, Leaders;
    var ty, zero, id, none := Little(c.kind, 2), Little(0, 2), Little(c.id, 4), Little(0, 4);
    var fields := ty + zero + id + none;
    ControlLayout(c);
    StartsConcat(ev, pos, Leaders(CONTROL_PACKET_LEADER_BYTE), fields);
    ScanOnLeaders(ev, pos, CONTROL_PACKET_LEADER_BYTE);
    TakeStarts(ev, pos + 4, fields);
    FieldsSplit(ty, zero, id, none);
    ValueOfLittle(c.kind, 2);
    ValueOfLittle(0, 2);
    ValueOfLittle(c.id, 4);
    ValueOfLittle(0, 4);
  }

  lemma ControlLayout(c: Control)
    ensures |Leaders(CONTROL_PACKET_LEADER_BYTE)| == 4
    ensures ControlBytes(c) ==
            Leaders(CONTROL_PACKET_LEADER_BYTE) + (Little(c.kind, 2) + Little(0, 2) + Little(c.id, 4) + Little(0, 4))
  {
    hide Little;
  }

  lemma FieldsSplit(a: seq<byte>, b: seq<byte>, c: seq<byte>, d: seq<byte>)
    requires |a| == 2 && |b| == 2 && |c| == 4 && |d| == 4
    ensures var s := a + b + c + d; s[..2] == a && s[2..4] == b && s[4..8] == c && s[8..12] == d
  {
  }

  /** And so is every list of them, with exactly its bytes consumed. */
  lemma {:induction false} WireReadsBack(ev: seq<Event>, pos: nat, sent: seq<Control>)
    requires (forall i :: 0 <= i < |sent| ==> InRange(sent[i])) && Starts(ev, pos, Wire(sent))
    ensures |Wire(sent)| == 16 * |sent|
    ensures ReadControls(ev, pos, |sent|) == Some((sent, pos + |Wire(sent)|))
    decreases |sent|
  {
    hide Wire, Starts, ReadControl, InRange, ControlBytes;
    if |sent| == 0 {
      WireNone(sent);
    } else {
      var n := |sent| - 1;
      WireLast(sent);
      StartsConcat(ev, pos, Wire(sent[..n]), ControlBytes(sent[n]));
      WireReadsBack(ev, pos, sent[..n]);
      ControlReadsBack(ev, pos + |Wire(sent[..n])|, sent[n]);
      assert sent[..n] + [sent[n]] == sent;
    }
  }

  lemma {:induction false} ValueFits(s: seq<byte>)
    requires |s| == 4
    ensures Value(s) < 0x1_0000_0000
  {
    assert s[1..][1..] == s[2..] && s[2..][1..] == s[3..] && s[3..][1..] == [];
    assert Value(s) == s[0] + 256 * Value(s[1..]) && Value(s[1..]) == s[1] + 256 * Value(s[2..]);
    assert Value(s[2..]) == s[2] + 256 * Value(s[3..]) && Value(s[3..]) == s[3] + 256 * Value([]);
  }

  lemma {:induction false} TurnInRange(ev: seq<Event>, pos: nat, ids: Ids, want: Want)
    ensures forall i :: 0 <= i < |OneTurn(ev, pos, ids, want).sent| ==> InRange(OneTurn(ev, pos, ids, want).sent[i])
  {
    hide Scan, Take, Value, Sum;
    var f := Scan(ev, pos, pos);
    var id := Take(ev, f.pos + 4, 4);
    if id.status == RECEIVED { ValueFits(id.bytes); }
  }

  lemma {:induction false} SentInRange(ev: seq<Event>, pos: nat, ids: Ids, want: Want)
    ensures forall i :: 0 <= i < |Receive(ev, pos, ids, want).sent| ==> InRange(Receive(ev, pos, ids, want).sent[i])
    decreases if pos <= |ev| then |ev| + 1 - pos else 0
  {
    hide OneTurn, InRange;
    TurnInRange(ev, pos, ids, want);
    if want.packetType != POLL_BREAKIN && OneTurn(ev, pos, ids, want).Again? {
      SentInRange(ev, OneTurn(ev, pos, ids, want).pos, ids, want);
    }
  }

  /** Whatever a call hears, a debugger that reads its output gets exactly the
      acknowledgements, resend requests and resets the call sent, in order. */
  lemma {:induction false} AnswersReadBack(ev: seq<Event>, pos: nat, ids: Ids, want: Want, back: seq<Event>, at: nat)
    requires Starts(back, at, Wire(Receive(ev, pos, ids, want).sent))
    ensures var sent := Receive(ev, pos, ids, want).sent;
            ReadControls(back, at, |sent|) == Some((sent, at + 16 * |sent|))
  {
    hide Receive, Wire, Starts, ReadControls, InRange;
    SentInRange(ev, pos, ids, want);
    WireReadsBack(back, at, Receive(ev, pos, ids, want).sent);
  }
}
