/** The ordinary link: data calls with a buffer that hear whole frames, over
    lines that lose, repeat and garble whole frames. Nothing is asked of the
    payloads. */
module KdPlain {
  import opened Basics
  import opened KdWire
  import opened KdReceive
  import opened KdFrames
  import opened KdCalls
  import opened KdLine
  import opened KdAligned
  import opened KdLink
  import opened KdSkips

  /** Only frames are on the line. */
  ghost predicate OnlyFrames(line: seq<Chunk>) {
    forall k :: 0 <= k < |line| ==> line[k].Flight? && line[k].frame.Valid()
  }

  ghost predicate Roomy(line: seq<Chunk>, want: Want) {
    forall k :: 0 <= k < |line| && line[k].Flight? ==> want.headerMax <= |line[k].frame.payload|
  }

  // ----- Whole frames as events -----

  lemma {:induction false} BytesSplit(line: seq<Chunk>, j: nat)
    requires j <= |line|
    ensures Bytes(line) == Bytes(line[..j]) + Bytes(line[j..])
    decreases |line|
  {
    hide Bytes, Chunk.Content;
    if j == 0 {
      NoBytes();
      assert line[..0] == [] && line[0..] == line;
      assert [] + Bytes(line) == Bytes(line);
    } else {
      BytesSplit(line[1..], j - 1);
      FirstBytes(line);
      FirstBytes(line[..j]);
      assert line[..j][1..] == line[1..][..j - 1] && line[1..][j - 1..] == line[j..];
      var c, x, y := line[0].Content(), Bytes(line[1..][..j - 1]), Bytes(line[j..]);
      assert c + (x + y) == (c + x) + y;
    }
  }

  /** Frame j starts behind those before it and is followed by those after it. */
  lemma {:induction false} FrameStarts(line: seq<Chunk>, j: nat)
    requires j < |line| && line[j].Flight?
    ensures FlightAt(line, |Bytes(line[..j])|) == Some(line[j])
    decreases |line|
  {
    hide Frame.Bytes;
    if j == 0 {
      assert line[..0] == [];
    } else {
      assert line[..j][1..] == line[1..][..j - 1] && line[..j][0] == line[0];
      FrameStarts(line[1..], j - 1);
      if line[0].Flight? { FrameNotEmpty(line[0].frame); }
    }
  }

  lemma FrameNotEmpty(f: Frame)
    ensures |f.Bytes()| > 0
  {
  }

  lemma {:induction false} LeftBehind(line: seq<Chunk>, j: nat)
    requires OnlyFrames(line) && j <= |line|
    ensures Unread(line, |Bytes(line[..j])|) == line[j..]
    decreases |line|
  {
    hide Frame.Bytes;
    if j == 0 {
      assert line[..0] == [];
    } else {
      assert line[..j][1..] == line[1..][..j - 1] && line[..j][0] == line[0] && line[1..][j - 1..] == line[j..];
      LeftBehind(line[1..], j - 1);
      FrameNotEmpty(line[0].frame);
    }
  }

  /** Where frame j stands in the events of the first m frames. */
  lemma {:induction false} FrameEvents(line: seq<Chunk>, m: nat, j: nat)
    requires OnlyFrames(line) && j < m <= |line|
    ensures var ev, pos := Events(Bytes(line[..m])), |Bytes(line[..j])|;
            && Starts(ev, pos, line[j].frame.Bytes()) && |Bytes(line[..j + 1])| == pos + |line[j].frame.Bytes()|
            && pos < |ev| && ev[pos] == Received(PACKET_LEADER_BYTE) && ReadBytes(ev, pos) == pos
  {
    hide Frame.Bytes, Heard;
    var all, ev := Bytes(line[..m]), Events(Bytes(line[..m]));
    var pos, f := |Bytes(line[..j])|, line[j].frame;
    BytesSplit(line[..m], j);
    assert line[..m][..j] == line[..j] && line[..m][j..] == line[j..m];
    BytesSplit(line[j..m], 1);
    assert line[j..m][..1] == [line[j]];
    OneChunk(line[j]);
    BytesSplit(line[..j + 1], j);
    assert line[..j + 1][..j] == line[..j] && line[..j + 1][j..] == [line[j]];
    HeardEvents(all);
    var rest := Bytes(line[j..m][1..]);
    assert all == Bytes(line[..j]) + (f.Bytes() + rest);
    StartsConcat(ev, 0, Bytes(line[..j]), f.Bytes() + rest);
    StartsConcat(ev, pos, f.Bytes(), rest);
    FrameLeads(ev, pos, f);
    assert Leaders(PACKET_LEADER_BYTE)[0] == PACKET_LEADER_BYTE;
    assert ev[pos + 0] == Received(PACKET_LEADER_BYTE);
    ReadEvents(all, pos);
  }

  // ----- A plain call -----

  /** It keeps in step with the frames. */
  lemma {:induction false} PlainAligned(line: seq<Chunk>, m: nat, j: nat, ids: Ids, want: Want)
    requires OnlyFrames(line) && Roomy(line, want) && want.hasData && j <= m <= |line|
    ensures Aligned(line, Events(Bytes(line[..m])), |Bytes(line[..j])|, ids, want)
    decreases m - j
  {
    hide Frame.Bytes, Bytes, FlightAt, ReadBytes, Starts, Events;
    if j < m {
      FrameEvents(line, m, j);
      FrameStarts(line, j);
      PlainAligned(line, m, j + 1, ids, want);
    }
  }

  /** It ends behind one of the frames, or in silence behind them all. */
  lemma {:induction false} PlainEnds(line: seq<Chunk>, m: nat, j: nat, ids: Ids, want: Want) returns (c: nat)
    requires OnlyFrames(line) && Roomy(line, want) && DataCall(want) && want.hasData && j <= m <= |line|
    ensures var ev := Events(Bytes(line[..m]));
            var t := Receive(ev, |Bytes(line[..j])|, ids, want);
            c <= |line| && ReadBytes(ev, t.pos) == |Bytes(line[..c])|
    decreases m - j
  {
    hide Frame.Bytes, Bytes, FlightAt, Starts, Sum, Receive, ReadBytes;
    var ev := Events(Bytes(line[..m]));
    if j < m {
      FrameEvents(line, m, j);
      var f := line[j].frame;
      FrameSize(f);
      CallGoesOn(ev, |Bytes(line[..j])|, f, ids, want);
      if TurnOf(f, |Bytes(line[..j])|, ids, want).Return? {
        c := j + 1;
        Shorter(line, c, m);
        ReadEvents(Bytes(line[..m]), |Bytes(line[..c])|);
      } else {
        c := PlainEnds(line, m, j + 1, ids, want);
      }
    } else {
      c := m;
      SilenceTimesOut(ev, ids, want);
      ReadEvents(Bytes(line[..m]), |Bytes(line[..m])| + 1);
    }
  }

  lemma {:induction false} Shorter(line: seq<Chunk>, c: nat, m: nat)
    requires c <= m <= |line|
    ensures |Bytes(line[..c])| <= |Bytes(line[..m])|
  {
    BytesSplit(line[..m], c);
    assert line[..m][..c] == line[..c];
  }

  // ----- Runs -----

  /** A call for data with a buffer, and a header no larger than any payload,
      that hears whole frames and then silence. */
  ghost predicate PlainCall(msgs: seq<Message>, s: Net, want: Want, ev: seq<Event>) {
    && DataCall(want) && want.hasData
    && (forall i :: 0 <= i < |msgs| ==> want.headerMax <= |msgs[i].payload|)
    && exists m :: 0 <= m <= |s.line| && ev == Events(Bytes(s.line[..m]))
  }

  ghost predicate PlainStep(msgs: seq<Message>, s: Net, step: Step) {
    !step.Say? && !step.Spoil? && (step.Call? ==> PlainCall(msgs, s, step.want, step.ev))
  }

  ghost predicate PlainRun(msgs: seq<Message>, steps: seq<Step>) {
    forall n :: 0 <= n < |steps| && Run(msgs, Start, steps[..n]).Some? ==>
                  PlainStep(msgs, Run(msgs, Start, steps[..n]).value, steps[n])
  }

  /** Every frame carries a message's payload. */
  ghost predicate Messaged(msgs: seq<Message>, line: seq<Chunk>) {
    && OnlyFrames(line)
    && forall k :: 0 <= k < |line| ==> line[k].index < |msgs| && line[k].frame.payload == msgs[line[k].index].payload
  }

  lemma {:induction false} PlainNext(msgs: seq<Message>, s: Net, step: Step)
    requires Sendable(msgs) && Messaged(msgs, s.line) && PlainStep(msgs, s, step) && Next(msgs, s, step).Some?
    ensures Messaged(msgs, Next(msgs, s, step).value.line)
  {
    hide Frame.Bytes, Bytes, Receive, Heard, Unread, Sum, Drop, Twice, Drawn;
    match step
    case Send => SentValid(msgs, s.next);
    case Say(_) =>
    case Lose(k) =>
      DropDrawn(s.line, k);
      MessagedDrawn(msgs, s.line, Drop(s.line, k), seq(|s.line| - 1, i => if i < k then i else i + 1));
    case Repeat(k) =>
      TwiceDrawn(s.line, k);
      MessagedDrawn(msgs, s.line, Twice(s.line, k), seq(|s.line| + 1, i => if i <= k then i else i - 1));
    case Garble(k, tail) =>
    case Spoil(_, _) =>
    case Call(want, ev) => PlainLeaves(msgs, s, want, ev);
    case LoseAnswer(k) =>
    case RepeatAnswer(k) =>
    case TakeAnswer =>
  }

  lemma SentValid(msgs: seq<Message>, i: nat)
    requires Sendable(msgs) && i < |msgs|
    ensures FrameOf(msgs[i], i).Valid() && FrameOf(msgs[i], i).payload == msgs[i].payload
  {
    hide Sum;
  }

  lemma MessagedDrawn(msgs: seq<Message>, line: seq<Chunk>, drawn: seq<Chunk>, from: seq<nat>)
    requires Messaged(msgs, line) && Drawn(line, drawn, from)
    ensures Messaged(msgs, drawn)
  {
    hide Sum;
  }

  lemma {:induction false} PlainLeaves(msgs: seq<Message>, s: Net, want: Want, ev: seq<Event>)
    requires Messaged(msgs, s.line) && PlainCall(msgs, s, want, ev)
    ensures Messaged(msgs, AfterCall(s, want, ev).line)
  {
    hide Frame.Bytes, Bytes, Receive, ReadBytes, Unread, Sum, Events;
    var m :| 0 <= m <= |s.line| && ev == Events(Bytes(s.line[..m]));
    NoBytes();
    assert s.line[..0] == [];
    var c := PlainEnds(s.line, m, 0, s.ids, want);
    LeftBehind(s.line, c);
  }

  lemma {:induction false} PlainInLine(msgs: seq<Message>, s: Net, step: Step)
    requires Messaged(msgs, s.line) && PlainStep(msgs, s, step)
    ensures InLine(s, step)
  {
    hide Frame.Bytes, Bytes, Aligned, Sum, Events;
    if step.Call? {
      var m :| 0 <= m <= |s.line| && step.ev == Events(Bytes(s.line[..m]));
      NoBytes();
      assert s.line[..0] == [];
      PlainAligned(s.line, m, 0, s.ids, step.want);
    }
  }

  lemma {:induction false} RunStaysPlain(msgs: seq<Message>, steps: seq<Step>)
    requires Sendable(msgs) && PlainRun(msgs, steps) && Run(msgs, Start, steps).Some?
    ensures Messaged(msgs, Run(msgs, Start, steps).value.line)
    decreases |steps|
  {
    hide Next, PlainStep, Sendable;
    if |steps| > 0 {
      hide Messaged;
      var n := |steps| - 1;
      PlainPrefix(msgs, steps, n);
      RunStaysPlain(msgs, steps[..n]);
      PlainNext(msgs, Run(msgs, Start, steps[..n]).value, steps[n]);
    }
  }

  lemma {:induction false} PlainPrefix(msgs: seq<Message>, steps: seq<Step>, n: nat)
    requires n <= |steps| && PlainRun(msgs, steps)
    ensures PlainRun(msgs, steps[..n])
  {
    hide Run, PlainStep;
    var init := steps[..n];
    assert forall m :: 0 <= m < n ==> init[..m] == steps[..m] && init[m] == steps[m];
  }

  lemma {:induction false} PlainIsFair(msgs: seq<Message>, steps: seq<Step>)
    requires Sendable(msgs) && PlainRun(msgs, steps)
    ensures AllFair(msgs, steps)
  {
    forall n | 0 <= n < |steps| && Run(msgs, Start, steps[..n]).Some?
      ensures InLine(Run(msgs, Start, steps[..n]).value, steps[n])
    {
      hide Run, InLine, PlainStep, Messaged;
      PlainPrefix(msgs, steps, n);
      RunStaysPlain(msgs, steps[..n]);
      PlainInLine(msgs, Run(msgs, Start, steps[..n]).value, steps[n]);
    }
  }

  /** Whatever the payloads hold, ordinary runs deliver messages whole, in order
      and none twice, and skip none exactly when the calls await the types of
      the expected frames they look at. */
  lemma {:induction false} PlainRunsDeliver(msgs: seq<Message>, steps: seq<Step>, s: Net)
    requires Sendable(msgs) && PlainRun(msgs, steps) && Run(msgs, Start, steps) == Some(s)
    ensures exists at :: PickedAt(msgs, s.delivered, at)
    ensures AllAwaited(msgs, Start, steps) <==>
            forall n :: 0 <= n <= |steps| && Run(msgs, Start, steps[..n]).Some? ==>
                          NoneSkipped(Run(msgs, Start, steps[..n]).value)
  {
    hide Run, AllFair, AllAwaited, NoneSkipped, PlainRun, PickedAt;
    PlainIsFair(msgs, steps);
    FairRunsDeliver(msgs, steps, s);
  }
}
