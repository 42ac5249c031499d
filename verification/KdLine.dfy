/** The line from the debugger to the target: frames and other bytes in order,
    of which a call hears a part and reads a part of that. */
module KdLine {
  import opened Basics
  import opened KdWire
  import opened KdReceive
  import opened KdFrames
  import opened KdCalls

  /** A frame carrying message index, or other bytes: control packets, break-in
      bytes, noise, a frame corrupted beyond recognition or read in part. */
  datatype Chunk = Flight(index: nat, frame: Frame) | Noise(bytes: seq<byte>) {
    function Content(): seq<byte> { if Flight? then frame.Bytes() else bytes }
  }

  function Bytes(line: seq<Chunk>): seq<byte> {
    if |line| == 0 then [] else line[0].Content() + Bytes(line[1..])
  }

  lemma NoBytes()
    ensures Bytes([]) == []
  {
  }

  lemma {:induction false} FirstBytes(line: seq<Chunk>)
    requires |line| > 0
    ensures Bytes(line) == line[0].Content() + Bytes(line[1..])
  {
  }

  lemma OneChunk(c: Chunk)
    ensures Bytes([c]) == c.Content()
  {
    hide Frame.Bytes;
    assert [c][1..] == [] && c.Content() + [] == c.Content();
  }

  /** The line after n of its bytes were read. */
  function Unread(line: seq<Chunk>, n: nat): seq<Chunk> {
    if |line| == 0 || n == 0 then line
    else if n >= |line[0].Content()| then Unread(line[1..], n - |line[0].Content()|)
    else [Noise(line[0].Content()[n..])] + line[1..]
  }

  /** The frame that starts exactly at this byte. */
  function FlightAt(line: seq<Chunk>, off: nat): (f: Option<Chunk>)
    ensures f.Some? ==> f.value.Flight?
  {
    if |line| == 0 then None
    else if off == 0 && line[0].Flight? then Some(line[0])
    else if off >= |line[0].Content()| then FlightAt(line[1..], off - |line[0].Content()|)
    else None
  }

  lemma {:induction false} UnreadBytes(line: seq<Chunk>, n: nat)
    requires n <= |Bytes(line)|
    ensures Bytes(Unread(line, n)) == Bytes(line)[n..]
    decreases |line|
  {
    if |line| > 0 && n > 0 {
      var c := line[0].Content();
      if n >= |c| {
        UnreadBytes(line[1..], n - |c|);
      } else {
        var rest := [Noise(c[n..])] + line[1..];
        assert rest[1..] == line[1..];
        assert rest[0].Content() == c[n..];
      }
    }
  }

  /** What is left is the chunks from some point on, behind a part of one. */
  ghost predicate Rest(line: seq<Chunk>, rest: seq<Chunk>, m: nat) {
    m <= |line| && (rest == line[m..] || (|rest| > 0 && rest[0].Noise? && rest[1..] == line[m..]))
  }

  lemma {:induction false} UnreadRest(line: seq<Chunk>, n: nat) returns (m: nat)
    ensures Rest(line, Unread(line, n), m)
    decreases |line|
  {
    if |line| == 0 || n == 0 {
      m := 0;
    } else if n >= |line[0].Content()| {
      m := UnreadRest(line[1..], n - |line[0].Content()|);
      m := m + 1;
      assert line[1..][m - 1..] == line[m..];
    } else {
      m := 1;
    }
  }

  lemma {:induction false} FlightBytes(line: seq<Chunk>, off: nat)
    requires FlightAt(line, off).Some?
    ensures var bytes := FlightAt(line, off).value.frame.Bytes();
            off + |bytes| <= |Bytes(line)| && Bytes(line)[off..off + |bytes|] == bytes
    decreases |line|
  {
    hide Frame.Bytes;
    var first := line[0].Content();
    var bytes := FlightAt(line, off).value.frame.Bytes();
    if off == 0 && line[0].Flight? {
      assert first == bytes;
    } else {
      FlightBytes(line[1..], off - |first|);
      Shifted(first, Bytes(line[1..]), off - |first|, |bytes|);
    }
  }

  lemma {:induction false} FlightLeft(line: seq<Chunk>, off: nat) returns (c: nat)
    requires FlightAt(line, off).Some?
    ensures var f := FlightAt(line, off).value;
            c < |line| && line[c] == f && Unread(line, off + |f.frame.Bytes()|) == line[c + 1..]
    decreases |line|
  {
    hide Frame.Bytes;
    var first := line[0].Content();
    if off == 0 && line[0].Flight? {
      c := 0;
      assert Unread(line, |first|) == Unread(line[1..], 0);
    } else {
      c := FlightLeft(line[1..], off - |first|);
      assert line[1..][c + 1..] == line[c + 2..];
      c := c + 1;
    }
  }

  /** A frame found on the line stands there with all its bytes, and what is
      left behind it is the chunks after it. */
  lemma {:induction false} FlightFound(line: seq<Chunk>, off: nat) returns (c: nat)
    requires FlightAt(line, off).Some?
    ensures var bytes := FlightAt(line, off).value.frame.Bytes();
            && c < |line| && line[c] == FlightAt(line, off).value
            && off + |bytes| <= |Bytes(line)| && Bytes(line)[off..off + |bytes|] == bytes
            && Unread(line, off + |bytes|) == line[c + 1..]
  {
    hide *;
    FlightBytes(line, off);
    c := FlightLeft(line, off);
  }

  lemma Shifted(a: seq<byte>, b: seq<byte>, off: nat, n: nat)
    requires off + n <= |b|
    ensures (a + b)[|a| + off..|a| + off + n] == b[off..off + n]
  {
  }

  // ----- What a call hears -----

  /** The bytes among the events. */
  function Heard(ev: seq<Event>): (s: seq<byte>)
    ensures |s| <= |ev|
  {
    if |ev| == 0 then []
    else
      var last := ev[|ev| - 1];
      Heard(ev[..|ev| - 1]) + if last.Received? then [last.b] else []
  }

  lemma {:induction false} HeardPrefix(ev: seq<Event>, k: nat)
    requires k <= |ev|
    ensures Heard(ev[..k]) <= Heard(ev)
    decreases |ev|
  {
    if k == |ev| {
      assert ev[..k] == ev;
    } else {
      var init := ev[..|ev| - 1];
      HeardPrefix(init, k);
      assert init[..k] == ev[..k];
    }
  }

  /** Bytes that stand in the events stand among the bytes heard. */
  lemma {:induction false} HeardStarts(ev: seq<Event>, q: nat, bytes: seq<byte>)
    requires Starts(ev, q, bytes)
    ensures q + |bytes| <= |ev| && Heard(ev[..q + |bytes|]) == Heard(ev[..q]) + bytes
    decreases |bytes|
  {
    if |bytes| > 0 {
      var n := |bytes| - 1;
      HeardStarts(ev, q, bytes[..n]);
      assert ev[..q + n + 1][..q + n] == ev[..q + n];
      assert ev[q + n] == Received(bytes[n]);
      assert bytes == bytes[..n] + [bytes[n]];
    }
  }

  lemma {:induction false} HeardEvents(bytes: seq<byte>)
    ensures Starts(Events(bytes), 0, bytes) && Heard(Events(bytes)) == bytes
  {
    var ev := Events(bytes);
    HeardStarts(ev, 0, bytes);
    assert ev[..|bytes|] == ev && ev[..0] == [];
  }

  function Events(bytes: seq<byte>): (ev: seq<Event>)
    ensures |ev| == |bytes|
  {
    seq(|bytes|, i requires 0 <= i < |bytes| => Received(bytes[i]))
  }

  // ----- What stands on the line -----

  /** A packet the call accepts stands at this byte of the line. */
  ghost predicate Stands(line: seq<Chunk>, off: nat, want: Want, ty: nat, count: nat, id: nat, payload: seq<byte>) {
    && Accepts(want, ty, count, id, payload) && off + |payload| + 17 <= |Bytes(line)|
    && Bytes(line)[off..off + |payload| + 17] == Leaders(PACKET_LEADER_BYTE) + Packet(ty, count, id, payload)
  }

  ghost predicate GoodAt(line: seq<Chunk>, off: nat) {
    FlightAt(line, off).Some? && FlightAt(line, off).value.frame.Good()
  }

  /** Every packet of this type and id that the call would accept is an intact frame. */
  ghost predicate Unforged(line: seq<Chunk>, want: Want, ty: nat, id: nat) {
    forall off, count, payload :: Stands(line, off, want, ty, count, id, payload) ==> GoodAt(line, off)
  }

  ghost predicate ResetStands(line: seq<Chunk>, off: nat) {
    off + 16 <= |Bytes(line)| && IsReset(Bytes(line)[off..off + 16])
  }

  ghost predicate NoReset(line: seq<Chunk>) {
    forall off :: !ResetStands(line, off)
  }

  /** A call hears the line from byte k on. */
  ghost predicate HearsFrom(line: seq<Chunk>, k: nat, ev: seq<Event>) {
    k <= |Bytes(line)| && Heard(ev) <= Bytes(line)[k..]
  }

  ghost predicate FramesValid(line: seq<Chunk>) {
    forall k :: 0 <= k < |line| && line[k].Flight? ==> line[k].frame.Valid()
  }

  /** Where something the call hears stands on the line. */
  lemma {:induction false} StandsOnLine(line: seq<Chunk>, k: nat, ev: seq<Event>, q: nat, bytes: seq<byte>)
    requires HearsFrom(line, k, ev) && Starts(ev, q, bytes)
    ensures var off := k + |Heard(ev[..q])|;
            && q + |bytes| <= |ev| && k + |Heard(ev[..q + |bytes|])| == off + |bytes| <= |Bytes(line)|
            && Bytes(line)[off..off + |bytes|] == bytes
  {
    HeardStarts(ev, q, bytes);
    HeardPrefix(ev, q + |bytes|);
    hide Bytes, Heard, Starts;
    WindowOf(Bytes(line), k, Heard(ev[..q]), bytes);
  }

  lemma WindowOf(all: seq<byte>, k: nat, before: seq<byte>, bytes: seq<byte>)
    requires k <= |all| && before + bytes <= all[k..]
    ensures var off := k + |before|; off + |bytes| <= |all| && all[off..off + |bytes|] == bytes
  {
    assert all[k..][|before|..|before| + |bytes|] == (before + bytes)[|before|..];
  }

  lemma {:induction false} ResetOnLine(line: seq<Chunk>, k: nat, ev: seq<Event>, q: nat)
    requires HearsFrom(line, k, ev) && ResetAt(ev, q)
    ensures !NoReset(line)
  {
    var bytes :| IsReset(bytes) && Starts(ev, q, bytes);
    assert |bytes| == 16;
    hide HearsFrom, Starts, Heard, Bytes, IsReset;
    StandsOnLine(line, k, ev, q, bytes);
    assert ResetStands(line, k + |Heard(ev[..q])|);
  }

  /** How many bytes were heard before event pos. */
  function ReadBytes(ev: seq<Event>, pos: nat): nat { |Heard(if pos <= |ev| then ev[..pos] else ev)| }

  lemma {:induction false} ReadEvents(bytes: seq<byte>, n: nat)
    requires n <= |bytes| + 1
    ensures ReadBytes(Events(bytes), n) == if n <= |bytes| then n else |bytes|
    ensures Heard(Events(bytes)) == bytes
  {
    HeardEvents(bytes);
    if n <= |bytes| {
      HeardEvents(bytes[..n]);
      assert Events(bytes)[..n] == Events(bytes[..n]);
    }
  }

  /** Of the packets the call looks at, those of this type and id that it
      accepts are intact frames. */
  ghost predicate Genuine(line: seq<Chunk>, ev: seq<Event>, ids: Ids, want: Want, ty: nat, id: nat) {
    forall q, count, payload :: LooksAt(ev, 0, ids, want, q) && PacketAt(ev, q, want, ty, count, id, payload) ==>
                                  GoodAt(line, ReadBytes(ev, q))
  }

  /** The call looks at no reset. */
  ghost predicate ReadsNoReset(ev: seq<Event>, ids: Ids, want: Want) {
    forall q :: LooksAt(ev, 0, ids, want, q) ==> !ResetAt(ev, q)
  }

  /** What the call accepts and hears on an unforged line is an intact frame. */
  lemma {:induction false} UnforgedGood(line: seq<Chunk>, k: nat, ev: seq<Event>, q: nat, want: Want,
                                        ty: nat, count: nat, id: nat, payload: seq<byte>)
    requires HearsFrom(line, k, ev) && Unforged(line, want, ty, id)
    requires PacketAt(ev, q, want, ty, count, id, payload)
    ensures q <= |ev| && GoodAt(line, k + |Heard(ev[..q])|)
  {
    hide Sum, Heard, Bytes, Packet, Accepts, GoodAt, Starts, HearsFrom;
    StandsOnLine(line, k, ev, q, Leaders(PACKET_LEADER_BYTE) + Packet(ty, count, id, payload));
    assert Stands(line, k + |Heard(ev[..q])|, want, ty, count, id, payload);
  }

  /** A packet that the call accepts and that stands at an intact frame is that
      frame; behind it the chunks after it are left. */
  lemma {:induction false} PacketIsFrame(line: seq<Chunk>, k: nat, ev: seq<Event>, q: nat, want: Want,
                                         ty: nat, count: nat, id: nat, payload: seq<byte>) returns (c: nat)
    requires FramesValid(line) && HearsFrom(line, k, ev) && PacketAt(ev, q, want, ty, count, id, payload)
    requires q <= |ev| && GoodAt(line, k + |Heard(ev[..q])|)
    ensures var off := k + |Heard(ev[..q])|;
            && q + |payload| + 17 <= |ev| && k + |Heard(ev[..q + |payload| + 17])| == off + |payload| + 17
            && GoodAt(line, off) && c < |line| && line[c] == FlightAt(line, off).value
            && Unread(line, off + |payload| + 17) == line[c + 1..]
    ensures line[c].Flight? && line[c].frame.Good()
            && line[c].frame.ty == ty && line[c].frame.id == id && line[c].frame.payload == payload
            && count == |payload|
  {
    hide Sum, Heard, Unread, Bytes, Packet, Accepts, FlightAt, Starts, HearsFrom;
    StandsOnLine(line, k, ev, q, Leaders(PACKET_LEADER_BYTE) + Packet(ty, count, id, payload));
    var off := k + |Heard(ev[..q])|;
    assert Stands(line, off, want, ty, count, id, payload);
    c := FlightFound(line, off);
    StandsIsFlight(line, off, want, ty, count, id, payload);
  }

  /** An intact frame is accepted as the packet it is and as no other. */
  lemma {:induction false} StandsIsFlight(line: seq<Chunk>, off: nat, want: Want, ty: nat, count: nat, id: nat,
                                          payload: seq<byte>)
    requires Stands(line, off, want, ty, count, id, payload)
    requires GoodAt(line, off) && FlightAt(line, off).value.frame.Valid()
    ensures var f := FlightAt(line, off).value.frame; f.ty == ty && f.id == id && f.payload == payload
    ensures count == |payload|
  {
    hide FlightAt, Bytes, Unread, Sum, Fields, Little;
    var f := FlightAt(line, off).value.frame;
    var c := FlightFound(line, off);
    var fields, fields' := Fields(ty, count, id, Sum(payload)), Fields(f.ty, |f.payload|, f.id, Sum(f.payload));
    FieldsAgree(Bytes(line), off, fields, payload + [PACKET_TRAILING_BYTE], fields', f.tail);
    SumBound(payload);
    SumBound(f.payload);
    FieldsInjective(ty, count, id, Sum(payload), f.ty, |f.payload|, f.id, Sum(f.payload));
    TailsAgree(Bytes(line), off, fields, payload + [PACKET_TRAILING_BYTE], fields', f.tail);
    WholePayload(f, payload);
  }

  lemma {:induction false} WholePayload(f: Frame, payload: seq<byte>)
    requires f.Good() && |payload| <= |f.payload| && Sum(payload) == Sum(f.payload)
    requires f.tail[..|payload| + 1] == payload + [PACKET_TRAILING_BYTE]
    ensures f.payload == payload
  {
    hide Sum;
    var n := |payload|;
    assert f.tail[n] == f.tail[..n + 1][n] == PACKET_TRAILING_BYTE;
    assert f.tail[..n] == f.tail[..n + 1][..n] == payload;
    GoodPasses(f, n);
    assert f.tail[..n] == f.payload;
  }

  /** A frame at which a call accepts a packet looks right as far as it reads. */
  lemma {:induction false} StandsPasses(line: seq<Chunk>, off: nat, want: Want, ty: nat, count: nat, id: nat,
                                        payload: seq<byte>)
    requires Stands(line, off, want, ty, count, id, payload)
    requires FlightAt(line, off).Some? && FlightAt(line, off).value.frame.Valid()
    ensures var f := FlightAt(line, off).value.frame;
            var n := ReadLength(want, |f.payload|);
            n < |f.tail| && f.Passes(n)
  {
    hide FlightAt, Bytes, Unread, Sum, Fields, Little;
    var f := FlightAt(line, off).value.frame;
    FlightBytes(line, off);
    var fields, fields' := Fields(ty, count, id, Sum(payload)), Fields(f.ty, |f.payload|, f.id, Sum(f.payload));
    FieldsAgree(Bytes(line), off, fields, payload + [PACKET_TRAILING_BYTE], fields', f.tail);
    SumBound(payload);
    SumBound(f.payload);
    FieldsInjective(ty, count, id, Sum(payload), f.ty, |f.payload|, f.id, Sum(f.payload));
    TailsAgree(Bytes(line), off, fields, payload + [PACKET_TRAILING_BYTE], fields', f.tail);
    PassesSo(f, payload);
  }

  lemma {:induction false} PassesSo(f: Frame, payload: seq<byte>)
    requires |payload| < |f.tail| && Sum(payload) == Sum(f.payload)
    requires f.tail[..|payload| + 1] == payload + [PACKET_TRAILING_BYTE]
    ensures f.Passes(|payload|)
  {
    hide Sum;
    var n := |payload|;
    assert f.tail[n] == f.tail[..n + 1][n] == PACKET_TRAILING_BYTE;
    assert f.tail[..n] == f.tail[..n + 1][..n] == payload;
  }

  lemma FieldsAgree(bytes: seq<byte>, off: nat, a: seq<byte>, s: seq<byte>, b: seq<byte>, t: seq<byte>)
    requires |a| == 12 && |b| == 12 && off + 16 + |s| <= |bytes| && off + 16 + |t| <= |bytes|
    requires bytes[off..off + 16 + |s|] == Leaders(PACKET_LEADER_BYTE) + (a + s)
    requires bytes[off..off + 16 + |t|] == Leaders(PACKET_LEADER_BYTE) + (b + t)
    ensures a == b
  {
    var l := Leaders(PACKET_LEADER_BYTE);
    forall i | 0 <= i < 12 ensures a[i] == b[i] {
      assert (l + (a + s))[4 + i] == a[i] && (l + (b + t))[4 + i] == b[i];
      assert bytes[off..off + 16 + |s|][4 + i] == bytes[off + 4 + i] == bytes[off..off + 16 + |t|][4 + i];
    }
  }

  lemma TailsAgree(bytes: seq<byte>, off: nat, a: seq<byte>, s: seq<byte>, b: seq<byte>, t: seq<byte>)
    requires |a| == 12 && |b| == 12 && off + 16 + |s| <= |bytes| && off + 16 + |t| <= |bytes| && |s| <= |t|
    requires bytes[off..off + 16 + |s|] == Leaders(PACKET_LEADER_BYTE) + (a + s)
    requires bytes[off..off + 16 + |t|] == Leaders(PACKET_LEADER_BYTE) + (b + t)
    ensures t[..|s|] == s
  {
    var l := Leaders(PACKET_LEADER_BYTE);
    forall i | 0 <= i < |s| ensures s[i] == t[i] {
      assert (l + (a + s))[16 + i] == s[i] && (l + (b + t))[16 + i] == t[i];
      assert bytes[off..off + 16 + |s|][16 + i] == bytes[off + 16 + i] == bytes[off..off + 16 + |t|][16 + i];
    }
  }

  lemma {:induction false} FieldsInjective(ty: nat, count: nat, id: nat, sum: nat, ty': nat, count': nat, id': nat,
                                           sum': nat)
    requires FieldsInRange(ty, count, id, sum) && FieldsInRange(ty', count', id', sum')
    requires Fields(ty, count, id, sum) == Fields(ty', count', id', sum')
    ensures ty == ty' && count == count' && id == id' && sum == sum'
  {
    var f, g := Fields(ty, count, id, sum), Fields(ty', count', id', sum');
    assert f[..2] == Little(ty, 2) && g[..2] == Little(ty', 2);
    assert f[2..4] == Little(count, 2) && g[2..4] == Little(count', 2);
    assert f[4..8] == Little(id, 4) && g[4..8] == Little(id', 4);
    assert f[8..12] == Little(sum, 4) && g[8..12] == Little(sum', 4);
    ValueOfLittle(ty, 2);
    ValueOfLittle(ty', 2);
    ValueOfLittle(count, 2);
    ValueOfLittle(count', 2);
    ValueOfLittle(id, 4);
    ValueOfLittle(id', 4);
    ValueOfLittle(sum, 4);
    ValueOfLittle(sum', 4);
  }
}
