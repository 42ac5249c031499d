/** A condition on the messages alone: if no frame holds four equal leader
    bytes in a row behind its own leader, then no call of any kind can mistake
    leftovers for a packet, and the results on order and loss hold of all runs. */
module KdQuiet {
  import opened Basics
  import opened KdWire
  import opened KdReceive
  import opened KdFrames
  import opened KdCalls
  import opened KdLine
  import opened KdLink
  import opened KdSkips

  ghost predicate LeaderRun(bytes: seq<byte>, off: nat, b: byte) {
    IsLeader(b) && off + 4 <= |bytes| && bytes[off..off + 4] == Leaders(b)
  }

  /** Four equal leader bytes stand nowhere but at the start of a frame or of a
      control packet other than a reset, and the last byte is none. */
  ghost predicate Quiet(c: Chunk) {
    && |c.Content()| > 0 && !IsLeader(c.Content()[|c.Content()| - 1])
    && (forall off, b :: LeaderRun(c.Content(), off, b) ==> off == 0 && Leads(c, b))
  }

  /** A frame has a data leader; other bytes have a leader only as a control packet. */
  ghost predicate Leads(c: Chunk, b: byte) {
    if c.Flight? then b == PACKET_LEADER_BYTE else b == CONTROL_PACKET_LEADER_BYTE && IsControl(c.bytes)
  }

  /** No call accepts the frame unless it is intact: none reads a part of it
      that looks whole. Calls with a data buffer read all of it. */
  ghost predicate Betrayed(f: Frame, buffers: bool) {
    f.Good() || forall n :: 0 <= n < |f.tail| && (buffers ==> n == |f.payload|) ==> !f.Passes(n)
  }

  ghost predicate QuietLine(line: seq<Chunk>, buffers: bool) {
    forall k :: 0 <= k < |line| ==>
                  Quiet(line[k]) && (line[k].Flight? ==> line[k].frame.Valid() && Betrayed(line[k].frame, buffers))
  }

  /** On a quiet line four equal leader bytes are the start of a frame or of a
      control packet other than a reset. */
  lemma {:induction false} RunsLead(line: seq<Chunk>, buffers: bool, off: nat, b: byte)
    requires QuietLine(line, buffers) && LeaderRun(Bytes(line), off, b)
    ensures if b == PACKET_LEADER_BYTE then FlightAt(line, off).Some?
            else off + 16 <= |Bytes(line)| && IsControl(Bytes(line)[off..off + 16])
    decreases |line|
  {
    hide Frame.Bytes, Quiet, Betrayed, IsControl, Bytes, Chunk.Content;
    NotEmpty(line, off, b);
    var c, rest := line[0].Content(), Bytes(line[1..]);
    assert Quiet(line[0]);
    FirstBytes(line);
    if off + 4 <= |c| {
      assert Bytes(line)[off..off + 4] == c[off..off + 4];
      RunInChunk(line[0], off, b);
      if line[0].Noise? { assert Bytes(line)[..16] == c; }
    } else if off < |c| {
      LastIsNoLeader(line[0]);
      RunHasLeader(Bytes(line), off, b, |c| - 1);
      assert false;
    } else {
      Shifted(c, rest, off - |c|, 4);
      RunsLead(line[1..], buffers, off - |c|, b);
      if b != PACKET_LEADER_BYTE { Shifted(c, rest, off - |c|, 16); }
    }
  }

  lemma {:induction false} NotEmpty(line: seq<Chunk>, off: nat, b: byte)
    requires LeaderRun(Bytes(line), off, b)
    ensures |line| > 0
  {
  }

  lemma RunInChunk(c: Chunk, off: nat, b: byte)
    requires Quiet(c) && LeaderRun(c.Content(), off, b)
    ensures off == 0 && Leads(c, b) && (c.Noise? ==> |c.bytes| == 16 && c.Content() == c.bytes)
  {
    hide Frame.Bytes;
  }

  lemma RunHasLeader(bytes: seq<byte>, off: nat, b: byte, i: nat)
    requires LeaderRun(bytes, off, b) && off <= i < off + 4
    ensures IsLeader(bytes[i])
  {
    assert bytes[off..off + 4][i - off] == bytes[i];
  }

  lemma LastIsNoLeader(c: Chunk)
    requires Quiet(c)
    ensures |c.Content()| > 0 && !IsLeader(c.Content()[|c.Content()| - 1])
  {
    hide Frame.Bytes;
  }

  /** All a call accepts on a quiet line is intact frames. */
  lemma {:induction false} QuietUnforged(line: seq<Chunk>, buffers: bool, want: Want, ty: nat, id: nat)
    requires QuietLine(line, buffers) && (buffers && DataCall(want) ==> want.hasData)
    ensures Unforged(line, want, ty, id)
  {
    hide Sum, Bytes, FlightAt, Packet, Quiet, Betrayed, Fields, Frame.Bytes;
    forall off: nat, count: nat, payload | Stands(line, off, want, ty, count, id, payload) ensures GoodAt(line, off) {
      var bytes := Leaders(PACKET_LEADER_BYTE) + Packet(ty, count, id, payload);
      assert Bytes(line)[off..off + 4] == bytes[..4] == Leaders(PACKET_LEADER_BYTE);
      RunsLead(line, buffers, off, PACKET_LEADER_BYTE);
      var c := FlightLeft(line, off);
      StandsPasses(line, off, want, ty, count, id, payload);
      NotBetrayed(line[c].frame, buffers, ReadLength(want, |line[c].frame.payload|));
    }
  }

  lemma NotBetrayed(f: Frame, buffers: bool, n: nat)
    requires Betrayed(f, buffers) && n < |f.tail| && f.Passes(n) && (buffers ==> n == |f.payload|)
    ensures f.Good()
  {
    hide Sum;
  }

  /** No reset stands on a quiet line. */
  lemma {:induction false} QuietNoReset(line: seq<Chunk>, buffers: bool)
    requires QuietLine(line, buffers)
    ensures NoReset(line)
  {
    hide QuietLine, Bytes, Little;
    forall off: nat ensures !ResetStands(line, off) {
      if ResetStands(line, off) {
        var bytes := Bytes(line)[off..off + 16];
        assert Bytes(line)[off..off + 4] == bytes[..4];
        RunsLead(line, buffers, off, CONTROL_PACKET_LEADER_BYTE);
      }
    }
  }

  /** The control packets a debugger sends in answer are quiet. */
  lemma {:induction false} AnswersAreQuiet(kind: nat, id: nat)
    requires kind == ACKNOWLEDGE || kind == RESEND_TYPE
    requires id == 0 || id == INITIAL_PACKET_ID || id == INITIAL_PACKET_ID + 1
    ensures Quiet(Noise(Leaders(CONTROL_PACKET_LEADER_BYTE) + Fields(kind, 0, id, 0)))
  {
    hide Fields, Little, IsControl;
    var bytes := Leaders(CONTROL_PACKET_LEADER_BYTE) + Fields(kind, 0, id, 0);
    AnswerBytes(kind, id);
    forall off: nat, b | LeaderRun(bytes, off, b) ensures off == 0 && Leads(Noise(bytes), b) {
      if off > 0 {
        RunHasLeader(bytes, off, b, if off <= 4 then 4 else if off <= 8 then 8 else 12);
        assert false;
      }
      assert bytes[0..4][0] == bytes[0];
    }
  }

  lemma {:induction false} AnswerBytes(kind: nat, id: nat)
    requires kind == ACKNOWLEDGE || kind == RESEND_TYPE
    requires id == 0 || id == INITIAL_PACKET_ID || id == INITIAL_PACKET_ID + 1
    ensures var bytes := Leaders(CONTROL_PACKET_LEADER_BYTE) + Fields(kind, 0, id, 0);
            IsControl(bytes) && bytes[4] == kind && bytes[8] <= 1 && bytes[12] == 0 && bytes[15] == 0
  {
    hide Little;
    var bytes := Leaders(CONTROL_PACKET_LEADER_BYTE) + Fields(kind, 0, id, 0);
    assert bytes[4..6] == Little(kind, 2);
    LittleTwo(kind);
    LittleTwo(RESET);
    LittleTwo(0);
    LittleFour(id);
    LittleFour(0);
  }

  // ----- Runs -----

  /** Nothing that is put on the line holds a false leader or is a reset; with
      buffers, every data call supplies a data buffer, else every corruption
      shows at every length. */
  ghost predicate QuietStep(s: Net, step: Step, buffers: bool) {
    match step
    case Say(bytes) => Quiet(Noise(bytes))
    case Spoil(_, bytes) => Quiet(Noise(bytes))
    case Garble(k, tail) =>
      k < |s.line| && s.line[k].Flight? ==>
        var f := s.line[k].frame.(tail := tail); Quiet(Flight(s.line[k].index, f)) && Betrayed(f, buffers)
    case Call(want, _) => buffers && DataCall(want) ==> want.hasData
    case _ => true
  }

  ghost predicate QuietRun(msgs: seq<Message>, steps: seq<Step>, buffers: bool) {
    forall n :: 0 <= n < |steps| && Run(msgs, Start, steps[..n]).Some? ==>
                  QuietStep(Run(msgs, Start, steps[..n]).value, steps[n], buffers)
  }

  ghost predicate QuietMessages(msgs: seq<Message>) {
    forall i :: 0 <= i < |msgs| ==> Quiet(Flight(i, FrameOf(msgs[i], i)))
  }

  /** What is left of a quiet chunk is quiet. */
  lemma QuietPart(c: Chunk, n: nat)
    requires Quiet(c) && 0 < n < |c.Content()|
    ensures Quiet(Noise(c.Content()[n..]))
  {
    hide Frame.Bytes;
    var all, part := c.Content(), Noise(c.Content()[n..]);
    assert part.Content() == all[n..];
    forall off: nat, b ensures !LeaderRun(part.Content(), off, b) {
      if LeaderRun(all[n..], off, b) { RunShifted(all, n, off, b); }
    }
  }

  lemma RunShifted(all: seq<byte>, n: nat, off: nat, b: byte)
    requires n <= |all| && LeaderRun(all[n..], off, b)
    ensures LeaderRun(all, n + off, b)
  {
    assert all[n..][off..off + 4] == all[n + off..n + off + 4];
  }

  lemma {:induction false} QuietUnread(line: seq<Chunk>, buffers: bool, n: nat)
    requires QuietLine(line, buffers)
    ensures QuietLine(Unread(line, n), buffers)
    decreases |line|
  {
    hide Quiet, Betrayed, Frame.Bytes;
    if |line| > 0 && n > 0 {
      if n >= |line[0].Content()| {
        QuietUnread(line[1..], buffers, n - |line[0].Content()|);
      } else {
        QuietPart(line[0], n);
      }
    }
  }

  lemma QuietNext(msgs: seq<Message>, s: Net, step: Step, buffers: bool)
    requires Sendable(msgs) && QuietMessages(msgs) && QuietLine(s.line, buffers) && QuietStep(s, step, buffers)
    requires Next(msgs, s, step).Some?
    ensures QuietLine(Next(msgs, s, step).value.line, buffers)
  {
    hide Quiet, Betrayed, Receive, Heard, Sum, Unread, Bytes, Drawn, Drop, Twice;
    match step
    case Send => SentQuiet(msgs, s.next, buffers);
    case Say(bytes) =>
    case Lose(k) =>
      DropDrawn(s.line, k);
      QuietDrawn(s.line, Drop(s.line, k), seq(|s.line| - 1, i => if i < k then i else i + 1), buffers);
    case Repeat(k) =>
      TwiceDrawn(s.line, k);
      QuietDrawn(s.line, Twice(s.line, k), seq(|s.line| + 1, i => if i <= k then i else i - 1), buffers);
    case Garble(k, tail) =>
    case Spoil(k, bytes) =>
    case Call(want, ev) => QuietUnread(s.line, buffers, ReadBytes(ev, Receive(ev, 0, s.ids, want).pos));
    case LoseAnswer(k) =>
    case RepeatAnswer(k) =>
    case TakeAnswer =>
  }

  lemma QuietDrawn(line: seq<Chunk>, drawn: seq<Chunk>, from: seq<nat>, buffers: bool)
    requires QuietLine(line, buffers) && Drawn(line, drawn, from)
    ensures QuietLine(drawn, buffers)
  {
    hide Quiet, Betrayed;
  }

  lemma SentQuiet(msgs: seq<Message>, i: nat, buffers: bool)
    requires Sendable(msgs) && QuietMessages(msgs) && i < |msgs|
    ensures var c := Flight(i, FrameOf(msgs[i], i)); Quiet(c) && c.frame.Valid() && Betrayed(c.frame, buffers)
  {
    hide Quiet;
  }

  lemma {:induction false} RunStaysQuiet(msgs: seq<Message>, steps: seq<Step>, buffers: bool)
    requires Sendable(msgs) && QuietMessages(msgs) && QuietRun(msgs, steps, buffers) && Run(msgs, Start, steps).Some?
    ensures QuietLine(Run(msgs, Start, steps).value.line, buffers)
    decreases |steps|
  {
    hide Next, QuietStep, QuietMessages, Sendable;
    if |steps| > 0 {
      hide QuietLine;
      var n := |steps| - 1;
      QuietPrefix(msgs, steps, n, buffers);
      RunStaysQuiet(msgs, steps[..n], buffers);
      QuietNext(msgs, Run(msgs, Start, steps[..n]).value, steps[n], buffers);
    }
  }

  lemma {:induction false} QuietPrefix(msgs: seq<Message>, steps: seq<Step>, n: nat, buffers: bool)
    requires n <= |steps| && QuietRun(msgs, steps, buffers)
    ensures QuietRun(msgs, steps[..n], buffers)
  {
    hide Run, QuietStep;
    var init := steps[..n];
    assert forall m :: 0 <= m < n ==> init[..m] == steps[..m] && init[m] == steps[m];
  }

  lemma {:induction false} QuietCall(s: Net, step: Step, buffers: bool)
    requires QuietLine(s.line, buffers) && QuietStep(s, step, buffers)
    ensures Authentic(s, step)
  {
    hide QuietLine, Unforged, NoReset;
    if step.Call? {
      QuietNoReset(s.line, buffers);
      forall ty: nat, id: nat ensures Unforged(s.line, step.want, ty, id) {
        QuietUnforged(s.line, buffers, step.want, ty, id);
      }
    }
  }

  /** In a quiet run no call finds anything acceptable on the line but intact
      frames, or a reset. */
  lemma {:induction false} QuietIsFair(msgs: seq<Message>, steps: seq<Step>, buffers: bool)
    requires Sendable(msgs) && QuietMessages(msgs) && QuietRun(msgs, steps, buffers)
    ensures AllFair(msgs, steps)
  {
    forall n | 0 <= n < |steps| && Run(msgs, Start, steps[..n]).Some?
      ensures Authentic(Run(msgs, Start, steps[..n]).value, steps[n])
    {
      hide Run, Authentic, QuietStep, QuietLine;
      QuietPrefix(msgs, steps, n, buffers);
      RunStaysQuiet(msgs, steps[..n], buffers);
      QuietCall(Run(msgs, Start, steps[..n]).value, steps[n], buffers);
    }
  }

  /** With quiet messages, runs of calls of every kind deliver messages whole,
      in order and none twice, and skip none exactly when the calls await the
      types of the expected frames they look at. */
  lemma {:induction false} QuietRunsDeliver(msgs: seq<Message>, steps: seq<Step>, buffers: bool, s: Net)
    requires Sendable(msgs) && QuietMessages(msgs) && QuietRun(msgs, steps, buffers)
    requires Run(msgs, Start, steps) == Some(s)
    ensures exists at :: PickedAt(msgs, s.delivered, at)
    ensures AllAwaited(msgs, Start, steps) <==>
            forall n :: 0 <= n <= |steps| && Run(msgs, Start, steps[..n]).Some? ==>
                          NoneSkipped(Run(msgs, Start, steps[..n]).value)
  {
    hide Run, AllFair, AllAwaited, NoneSkipped, QuietRun, QuietMessages, PickedAt;
    QuietIsFair(msgs, steps, buffers);
    FairRunsDeliver(msgs, steps, s);
  }
}
