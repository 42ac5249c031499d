/** Calls that keep in step with the frames: whatever the payloads hold, a call
    that starts at a frame and reads frames whole takes nothing else for one. */
module KdAligned {
  import opened Basics
  import opened KdWire
  import opened KdReceive
  import opened KdFrames
  import opened KdCalls
  import opened KdLine

  /** The call reads the whole payload of the frame. */
  predicate TakesWhole(want: Want, f: Frame) {
    want.headerMax <= |f.payload| == ReadLength(want, |f.payload|)
  }

  /** The frame the call is waiting for. */
  predicate Wanted(f: Frame, ids: Ids, want: Want) {
    f.Good() && f.id == ids.remote && f.ty == want.packetType
  }

  /** An event the search for a leader passes over: a line error, or a byte that
      is no leader byte. */
  predicate Passed(e: Event) { e.LineError? || (e.Received? && !IsLeader(e.b)) }

  /** From pos on the call hears frames whole and, up to the one that ends it,
      reads them whole. Between them there may be line errors, bytes that are no
      leader bytes and control packets other than resets; silence may come
      behind any of them. */
  ghost predicate Aligned(line: seq<Chunk>, ev: seq<Event>, pos: nat, ids: Ids, want: Want)
    decreases |ev| - pos
  {
    if pos >= |ev| || ev[pos].NoData? then true
    else if Passed(ev[pos]) then Aligned(line, ev, pos + 1, ids, want)
    else if FlightAt(line, ReadBytes(ev, pos)).Some? then
      var f := FlightAt(line, ReadBytes(ev, pos)).value.frame;
      && Starts(ev, pos, f.Bytes())
      && (want.packetType == ACKNOWLEDGE ||
          (TakesWhole(want, f) && (Wanted(f, ids, want) || Aligned(line, ev, pos + |f.Bytes()|, ids, want))))
    else ControlAt(ev, pos) && Aligned(line, ev, pos + 16, ids, want)
  }

  // ----- What an aligned call looks at -----

  /** The search for a leader from pos and from the next event end alike. */
  lemma {:induction false} ScanPasses(ev: seq<Event>, pos: nat, k: nat)
    requires pos < |ev| && Passed(ev[pos]) && pos < k
    ensures var f, g := Scan(ev, pos, k), Scan(ev, pos + 1, k);
            f.pos == g.pos && f.leader == g.leader && (f.status == RECEIVED <==> g.status == RECEIVED)
    decreases |ev| - k
  {
    if !EventAt(ev, k).NoData? {
      assert FourLeaders(ev, pos, k + 1) == FourLeaders(ev, pos + 1, k + 1);
      if !FourLeaders(ev, pos, k + 1) { ScanPasses(ev, pos, k + 1); }
    }
  }

  lemma {:induction false} LooksPast(ev: seq<Event>, pos: nat, ids: Ids, want: Want, q: nat)
    requires pos < |ev| && Passed(ev[pos]) && LooksAt(ev, pos, ids, want, q)
    ensures LooksAt(ev, pos + 1, ids, want, q)
  {
    assert Scan(ev, pos, pos) == Scan(ev, pos, pos + 1);
    ScanPasses(ev, pos, pos + 1);
    hide Scan, LooksAt;
    SameTurn(ev, pos, ids, want);
    LooksAlike(ev, pos, pos + 1, ids, want, q);
  }

  lemma SameTurn(ev: seq<Event>, pos: nat, ids: Ids, want: Want)
    requires var f, g := Scan(ev, pos, pos), Scan(ev, pos + 1, pos + 1);
             f.status == RECEIVED && g.status == RECEIVED && f.pos == g.pos && f.leader == g.leader
    ensures OneTurn(ev, pos, ids, want) == OneTurn(ev, pos + 1, ids, want)
  {
    hide Scan, Take, Sum, Value;
  }

  lemma {:induction false} LooksAlike(ev: seq<Event>, p: nat, p': nat, ids: Ids, want: Want, q: nat)
    requires LooksAt(ev, p, ids, want, q) && OneTurn(ev, p, ids, want) == OneTurn(ev, p', ids, want)
    requires Scan(ev, p', p').status == RECEIVED && Scan(ev, p, p).pos == Scan(ev, p', p').pos
    ensures LooksAt(ev, p', ids, want, q)
  {
    hide Scan, OneTurn;
  }

  lemma {:induction false} SilenceShowsNothing(ev: seq<Event>, pos: nat, ids: Ids, want: Want, q: nat)
    requires EventAt(ev, pos).NoData?
    ensures !LooksAt(ev, pos, ids, want, q)
  {
    hide OneTurn;
  }

  /** At a frame the call reads whole it looks at the frame or at what follows. */
  lemma {:induction false} LooksAtFrame(ev: seq<Event>, pos: nat, f: Frame, ids: Ids, want: Want, q: nat)
    requires f.Valid() && Starts(ev, pos, f.Bytes()) && LooksAt(ev, pos, ids, want, q) && q != pos
    requires want.packetType == ACKNOWLEDGE || TakesWhole(want, f)
    ensures want.packetType != ACKNOWLEDGE && !Wanted(f, ids, want) && LooksAt(ev, pos + |f.Bytes()|, ids, want, q)
  {
    hide Sum, Scan, OneTurn, Starts, Frame.Bytes;
    FrameTurn(ev, pos, f, ids, want);
    FrameLeads(ev, pos, f);
    ScanOnLeaders(ev, pos, PACKET_LEADER_BYTE);
    if want.packetType != ACKNOWLEDGE {
      if f.Good() { GoodPasses(f, |f.payload|); }
      FrameSize(f);
    }
  }

  lemma FrameLeads(ev: seq<Event>, pos: nat, f: Frame)
    requires Starts(ev, pos, f.Bytes())
    ensures Starts(ev, pos, Leaders(PACKET_LEADER_BYTE))
  {
    StartsConcat(ev, pos, Leaders(PACKET_LEADER_BYTE), f.Bytes()[4..]);
    assert f.Bytes() == Leaders(PACKET_LEADER_BYTE) + f.Bytes()[4..];
  }

  lemma FrameSize(f: Frame)
    requires f.Valid()
    ensures |f.Bytes()| == |f.payload| + 17
  {
  }

  /** And likewise at a control packet. */
  lemma {:induction false} LooksAtControl(ev: seq<Event>, pos: nat, bytes: seq<byte>, ids: Ids, want: Want, q: nat)
    requires IsControl(bytes) && Starts(ev, pos, bytes) && LooksAt(ev, pos, ids, want, q) && q != pos
    ensures LooksAt(ev, pos + 16, ids, want, q)
  {
    hide Sum, Scan, Starts, Take, Value, OneTurn;
    var ty, count, id, sum := bytes[4..6], bytes[6..8], bytes[8..12], bytes[12..16];
    assert bytes == bytes[..4] + (ty + (count + (id + sum)));
    StartsConcat(ev, pos, bytes[..4], ty + (count + (id + sum)));
    ScanOnLeaders(ev, pos, CONTROL_PACKET_LEADER_BYTE);
    if Value(ty) == RESEND_TYPE {
      StartsConcat(ev, pos + 4, ty, count + (id + sum));
      TakeStarts(ev, pos + 4, ty);
      ResendReturns(ev, pos, ids, want);
    } else {
      TurnOnControl(ev, pos, pos + 4, ids, want, ty, count, id, sum);
    }
  }

  lemma {:induction false} ResendReturns(ev: seq<Event>, pos: nat, ids: Ids, want: Want)
    requires var f := Scan(ev, pos, pos);
             && f.status == RECEIVED && f.leader == CONTROL_PACKET_LEADER_BYTE
             && Take(ev, f.pos, 2).status == RECEIVED && Value(Take(ev, f.pos, 2).bytes) == RESEND_TYPE
    ensures OneTurn(ev, pos, ids, want).Return?
  {
    hide Scan, Take, Value;
  }

  /** An aligned call looks only at frames, which it hears whole and whose
      payloads it reads whole, and at control packets. */
  lemma {:induction false} AlignedLooks(line: seq<Chunk>, ev: seq<Event>, pos: nat, ids: Ids, want: Want, q: nat)
    requires FramesValid(line) && Aligned(line, ev, pos, ids, want) && LooksAt(ev, pos, ids, want, q)
    ensures ControlAt(ev, q) || FrameAt(line, ev, want, q)
    decreases |ev| - pos
  {
    hide LooksAt, FlightAt, ReadBytes, Frame.Bytes, Starts, IsLeader;
    if EventAt(ev, pos).NoData? {
      SilenceShowsNothing(ev, pos, ids, want, q);
      assert false;
    } else if Passed(ev[pos]) {
      LooksPast(ev, pos, ids, want, q);
      AlignedLooks(line, ev, pos + 1, ids, want, q);
    } else if FlightAt(line, ReadBytes(ev, pos)).Some? {
      var f := FlightAt(line, ReadBytes(ev, pos)).value.frame;
      ValidAt(line, ReadBytes(ev, pos));
      if q != pos {
        LooksAtFrame(ev, pos, f, ids, want, q);
        AlignedLooks(line, ev, pos + |f.Bytes()|, ids, want, q);
      }
    } else if q != pos {
      var bytes :| IsControl(bytes) && Starts(ev, pos, bytes);
      LooksAtControl(ev, pos, bytes, ids, want, q);
      AlignedLooks(line, ev, pos + 16, ids, want, q);
    }
  }

  ghost predicate FrameAt(line: seq<Chunk>, ev: seq<Event>, want: Want, q: nat) {
    && FlightAt(line, ReadBytes(ev, q)).Some?
    && var f := FlightAt(line, ReadBytes(ev, q)).value.frame;
    && f.Valid() && Starts(ev, q, f.Bytes()) && (want.packetType == ACKNOWLEDGE || TakesWhole(want, f))
  }

  lemma {:induction false} ValidAt(line: seq<Chunk>, off: nat)
    requires FramesValid(line) && FlightAt(line, off).Some?
    ensures FlightAt(line, off).value.frame.Valid()
  {
    hide FlightAt, Frame.Bytes;
    var c := FlightLeft(line, off);
  }

  // ----- What it accepts -----

  lemma {:induction false} AcceptedIsGood(line: seq<Chunk>, ev: seq<Event>, want: Want, q: nat,
                                          ty: nat, count: nat, id: nat, payload: seq<byte>)
    requires HearsFrom(line, 0, ev) && PacketAt(ev, q, want, ty, count, id, payload)
    requires ControlAt(ev, q) || FrameAt(line, ev, want, q)
    ensures GoodAt(line, ReadBytes(ev, q))
  {
    hide Sum, Heard, Bytes, Packet, FlightAt, Starts, HearsFrom, Frame.Bytes;
    var bytes := Leaders(PACKET_LEADER_BYTE) + Packet(ty, count, id, payload);
    StandsOnLine(line, 0, ev, q, bytes);
    if ControlAt(ev, q) { NoDataLeader(ev, q, Packet(ty, count, id, payload)); }
    var off := ReadBytes(ev, q);
    assert Stands(line, off, want, ty, count, id, payload);
    StandsPasses(line, off, want, ty, count, id, payload);
  }

  lemma NoDataLeader(ev: seq<Event>, q: nat, rest: seq<byte>)
    requires Starts(ev, q, Leaders(PACKET_LEADER_BYTE) + rest)
    ensures !ControlAt(ev, q) && !ResetAt(ev, q)
  {
    StartsConcat(ev, q, Leaders(PACKET_LEADER_BYTE), rest);
    forall bytes: seq<byte> | |bytes| == 16 && bytes[..4] == Leaders(CONTROL_PACKET_LEADER_BYTE)
      ensures !Starts(ev, q, bytes)
    {
      if Starts(ev, q, bytes) {
        assert bytes == bytes[..4] + bytes[4..];
        StartsConcat(ev, q, bytes[..4], bytes[4..]);
        SameLeader(ev, q, CONTROL_PACKET_LEADER_BYTE, PACKET_LEADER_BYTE);
      }
    }
  }

  lemma NotReset(line: seq<Chunk>, ev: seq<Event>, want: Want, q: nat)
    requires ControlAt(ev, q) || FrameAt(line, ev, want, q)
    ensures !ResetAt(ev, q)
  {
    hide FlightAt, Little;
    if ControlAt(ev, q) {
      var bytes :| IsControl(bytes) && Starts(ev, q, bytes);
      forall other | IsReset(other) ensures !Starts(ev, q, other) {
        if Starts(ev, q, other) { SameBytes(ev, q, bytes, other); }
      }
    } else {
      var f := FlightAt(line, ReadBytes(ev, q)).value.frame;
      assert f.Bytes() == Leaders(PACKET_LEADER_BYTE) + f.Bytes()[4..];
      NoDataLeader(ev, q, f.Bytes()[4..]);
    }
  }

  lemma SameBytes(ev: seq<Event>, q: nat, a: seq<byte>, b: seq<byte>)
    requires Starts(ev, q, a) && Starts(ev, q, b) && |a| == |b|
    ensures a == b
  {
    forall i | 0 <= i < |a| ensures a[i] == b[i] {
      assert ev[q + i] == Received(a[i]) && ev[q + i] == Received(b[i]);
    }
  }

  /** Whatever the payloads hold, all an aligned call accepts is intact frames,
      and it reads no reset. */
  lemma {:induction false} AlignedIsGenuine(line: seq<Chunk>, ev: seq<Event>, ids: Ids, want: Want)
    requires FramesValid(line) && HearsFrom(line, 0, ev) && Aligned(line, ev, 0, ids, want)
    ensures forall ty, id :: Genuine(line, ev, ids, want, ty, id)
    ensures ReadsNoReset(ev, ids, want)
  {
    hide Aligned, LooksAt, PacketAt, GoodAt, ResetAt, ControlAt, FrameAt, HearsFrom, FramesValid, ReadBytes;
    forall ty: nat, id: nat, q: nat, count: nat, payload |
      LooksAt(ev, 0, ids, want, q) && PacketAt(ev, q, want, ty, count, id, payload)
      ensures GoodAt(line, ReadBytes(ev, q))
    {
      AlignedLooks(line, ev, 0, ids, want, q);
      AcceptedIsGood(line, ev, want, q, ty, count, id, payload);
    }
    forall q: nat | LooksAt(ev, 0, ids, want, q) ensures !ResetAt(ev, q) {
      AlignedLooks(line, ev, 0, ids, want, q);
      NotReset(line, ev, want, q);
    }
  }
}
