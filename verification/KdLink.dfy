/** KdReceivePacket composed with a stop-and-wait debugger. The line may lose,
    repeat and corrupt frames and carry other bytes; calls of every kind may
    come at any time and be cut short by timeouts and line errors. KdSendPacket
    is empty in src/kdCom/kddll.cpp, so the debugger is an environment process. */
module KdLink {
  import opened Basics
  import opened KdWire
  import opened KdReceive
  import opened KdFrames
  import opened KdCalls
  import opened KdLine
  import opened KdAligned

  /** What the debugger has to send. */
  datatype Message = Message(ty: nat, payload: seq<byte>)

  /** The debugger's current message, both lines, the target's ids and what
      its calls have delivered so far. */
  datatype Net = Net(next: nat, line: seq<Chunk>, answers: seq<Control>, ids: Ids, delivered: seq<Message>)

  datatype Step =
    | Send                                 // the debugger sends its current message, again or for the first time
    | Say(bytes: seq<byte>)                // other bytes: control packets, break-ins, noise
    | Lose(k: nat)
    | Repeat(k: nat)
    | Garble(k: nat, tail: seq<byte>)      // a frame keeps its header and is betrayed by sum or trailer
    | Spoil(k: nat, bytes: seq<byte>)      // a chunk becomes any bytes
    | Call(want: Want, ev: seq<Event>)     // a call hears the start of the line, with timeouts and errors between
    | LoseAnswer(k: nat)
    | RepeatAnswer(k: nat)
    | TakeAnswer                           // the debugger reads a control packet

  /** The id of message i: the low bit flips with each one. */
  function Id(i: nat): (id: nat)
    ensures id < 0x1_0000_0000 && FlipLow(id) == if i % 2 == 0 then INITIAL_PACKET_ID + 1 else INITIAL_PACKET_ID
  {
    INITIAL_PACKET_ID + i % 2
  }

  function Ack(i: nat): Control { Control(ACKNOWLEDGE, Id(i)) }

  function FrameOf(m: Message, i: nat): Frame {
    Frame(m.ty, Id(i), m.payload, m.payload + [PACKET_TRAILING_BYTE])
  }

  function Drop<T>(s: seq<T>, k: nat): seq<T> requires k < |s| { s[..k] + s[k + 1..] }
  function Twice<T>(s: seq<T>, k: nat): seq<T> requires k < |s| { s[..k + 1] + s[k..] }

  function AfterCall(s: Net, want: Want, ev: seq<Event>): Net {
    var t := Receive(ev, 0, s.ids, want);
    s.(line := Unread(s.line, ReadBytes(ev, t.pos)), answers := s.answers + t.sent, ids := t.ids,
       delivered := s.delivered +
       if t.mail.Mail? then [Message(want.packetType, t.mail.header + t.mail.data)] else [])
  }

  function Next(msgs: seq<Message>, s: Net, step: Step): Option<Net> {
    match step
    case Send =>
      if s.next < |msgs| then Some(s.(line := s.line + [Flight(s.next, FrameOf(msgs[s.next], s.next))])) else None
    case Say(bytes) => Some(s.(line := s.line + [Noise(bytes)]))
    case Lose(k) => if k < |s.line| then Some(s.(line := Drop(s.line, k))) else None
    case Repeat(k) => if k < |s.line| then Some(s.(line := Twice(s.line, k))) else None
    case Garble(k, tail) =>
      if k < |s.line| && s.line[k].Flight? && s.line[k].frame.(tail := tail).Garbled()
      then Some(s.(line := s.line[k := Flight(s.line[k].index, s.line[k].frame.(tail := tail))])) else None
    case Spoil(k, bytes) => if k < |s.line| then Some(s.(line := s.line[k := Noise(bytes)])) else None
    case Call(want, ev) => if Heard(ev) <= Bytes(s.line) then Some(AfterCall(s, want, ev)) else None
    case LoseAnswer(k) => if k < |s.answers| then Some(s.(answers := Drop(s.answers, k))) else None
    case RepeatAnswer(k) => if k < |s.answers| then Some(s.(answers := Twice(s.answers, k))) else None
    case TakeAnswer =>
      if |s.answers| > 0 then Some(s.(answers := s.answers[1..], next := Heeded(s.next, s.answers[0]))) else None
  }

  /** The debugger moves on when its current message is acknowledged. */
  function Heeded(next: nat, answer: Control): nat { if answer == Ack(next) then next + 1 else next }

  function Run(msgs: seq<Message>, s: Net, steps: seq<Step>): Option<Net>
    decreases |steps|
  {
    if |steps| == 0 then Some(s)
    else match Run(msgs, s, steps[..|steps| - 1])
      case None => None
      case Some(t) => Next(msgs, t, steps[|steps| - 1])
  }

  /** Both ids as declared: the current one carries the sync bit. */
  const Start: Net := Net(0, [], [], Ids(INITIAL_PACKET_ID + 0x800, INITIAL_PACKET_ID), [])

  ghost predicate Sendable(msgs: seq<Message>) {
    forall i :: 0 <= i < |msgs| ==> msgs[i].ty < 0x1_0000 && |msgs[i].payload| <= PACKET_MAX_SIZE
  }

  // ----- Order -----

  /** A frame on the line carries its message, as sent or garbled. */
  ghost predicate Carries(msgs: seq<Message>, c: Chunk) {
    c.Flight? ==>
      && c.index < |msgs| && c.frame.Valid()
      && c.frame.ty == msgs[c.index].ty && c.frame.payload == msgs[c.index].payload && c.frame.id == Id(c.index)
  }

  /** The frames carry messages from low to high, in order. */
  ghost predicate FlightsOrdered(msgs: seq<Message>, line: seq<Chunk>, low: int, high: int) {
    && (forall k :: 0 <= k < |line| ==> Carries(msgs, line[k]))
    && (forall k :: 0 <= k < |line| && line[k].Flight? ==> low <= line[k].index <= high)
    && (forall j, k :: 0 <= j < k < |line| && line[j].Flight? && line[k].Flight? ==> line[j].index <= line[k].index)
  }

  /** The deliveries are the messages at these places, in order and none twice. */
  ghost predicate PickedAt(msgs: seq<Message>, delivered: seq<Message>, at: seq<nat>) {
    && |at| == |delivered|
    && (forall k :: 0 <= k < |at| ==> at[k] < |msgs| && delivered[k] == msgs[at[k]])
    && (forall j, k :: 0 <= j < k < |at| ==> at[j] < at[k])
  }

  function Last(at: seq<nat>): int { if |at| == 0 then -1 else at[|at| - 1] }

  ghost predicate Ordered(msgs: seq<Message>, s: Net, at: seq<nat>) {
    && FlightsOrdered(msgs, s.line, Last(at), s.next)
    && PickedAt(msgs, s.delivered, at)
    && Last(at) <= s.next
    && s.ids.remote == Id(Last(at) + 1)
  }

  /** Of what the call looks at, the packets it could deliver are intact frames,
      and none is a reset. */
  ghost predicate Sound(s: Net, step: Step) {
    step.Call? ==>
      && Genuine(s.line, step.ev, s.ids, step.want, step.want.packetType, s.ids.remote)
      && ReadsNoReset(step.ev, s.ids, step.want)
  }

  ghost predicate AllSound(msgs: seq<Message>, s: Net, steps: seq<Step>) {
    forall n :: 0 <= n < |steps| && Run(msgs, s, steps[..n]).Some? ==>
                  Sound(Run(msgs, s, steps[..n]).value, steps[n])
  }

  /** Nothing the call could deliver or take for a reset stands anywhere on the
      line but intact frames. */
  ghost predicate Clean(s: Net, step: Step) {
    step.Call? ==>
      && Unforged(s.line, step.want, step.want.packetType, s.ids.remote)
      && (step.want.packetType != POLL_BREAKIN ==> NoReset(s.line))
  }

  /** The call keeps in step with the frames. */
  ghost predicate InLine(s: Net, step: Step) {
    step.Call? ==> Aligned(s.line, step.ev, 0, s.ids, step.want)
  }

  /** Either condition, both of the line before the call. */
  ghost predicate AllSafe(msgs: seq<Message>, s: Net, steps: seq<Step>) {
    forall n :: 0 <= n < |steps| && Run(msgs, s, steps[..n]).Some? ==>
                  var t := Run(msgs, s, steps[..n]).value; Clean(t, steps[n]) || InLine(t, steps[n])
  }

  lemma {:induction false} CleanIsSound(s: Net, want: Want, ev: seq<Event>)
    requires Heard(ev) <= Bytes(s.line) && Clean(s, Call(want, ev))
    ensures Sound(s, Call(want, ev))
  {
    hide LooksAt, PacketAt, GoodAt, ResetAt, Unforged, NoReset, Heard, Bytes, HearsFrom;
    HearsAll(s.line, ev);
    var ty, id := want.packetType, s.ids.remote;
    forall q: nat, count: nat, payload |
      LooksAt(ev, 0, s.ids, want, q) && PacketAt(ev, q, want, ty, count, id, payload)
      ensures GoodAt(s.line, ReadBytes(ev, q))
    {
      UnforgedGood(s.line, 0, ev, q, want, ty, count, id, payload);
    }
    forall q: nat | LooksAt(ev, 0, s.ids, want, q) ensures !ResetAt(ev, q) {
      PollsLookAtNothing(ev, s.ids, want, q);
      if ResetAt(ev, q) { ResetOnLine(s.line, 0, ev, q); }
    }
  }

  lemma {:induction false} PollsLookAtNothing(ev: seq<Event>, ids: Ids, want: Want, q: nat)
    requires LooksAt(ev, 0, ids, want, q)
    ensures want.packetType != POLL_BREAKIN
  {
  }

  lemma {:induction false} InLineIsSound(s: Net, want: Want, ev: seq<Event>)
    requires FramesValid(s.line) && Heard(ev) <= Bytes(s.line) && InLine(s, Call(want, ev))
    ensures Sound(s, Call(want, ev))
  {
    hide Genuine, ReadsNoReset, Aligned, FramesValid, Heard, Bytes, HearsFrom;
    HearsAll(s.line, ev);
    AlignedIsGenuine(s.line, ev, s.ids, want);
  }

  /** What a delivering call delivers is the content of an intact frame of the
      expected id, and the chunks after it are left. */
  lemma {:induction false} DeliveredFlight(msgs: seq<Message>, s: Net, want: Want, ev: seq<Event>, low: int, high: int)
    returns (c: nat)
    requires FlightsOrdered(msgs, s.line, low, high) && s.ids.remote < 0x1_0000_0000
    requires Heard(ev) <= Bytes(s.line) && Genuine(s.line, ev, s.ids, want, want.packetType, s.ids.remote)
    requires Receive(ev, 0, s.ids, want).mail.Mail?
    ensures c < |s.line| && s.line[c].Flight? && s.line[c].frame.Good() && s.line[c].frame.id == s.ids.remote
    ensures var t := AfterCall(s, want, ev);
            && t.line == s.line[c + 1..] && t.ids == s.ids.(remote := FlipLow(s.ids.remote))
            && s.line[c].index < |msgs| && t.delivered == s.delivered + [msgs[s.line[c].index]]
  {
    hide Sum, Receive, Heard, Unread, Bytes, FlightAt, PacketAt, Carries, LooksAt, GoodAt, FlightsOrdered, HearsFrom;
    hide FramesValid;
    var q, count, payload := DeliveredStands(ev, 0, s.ids, want);
    PacketFits(ev, q, want, want.packetType, count, s.ids.remote, payload);
    FlightsValid(msgs, s.line, low, high);
    HearsAll(s.line, ev);
    c := PacketIsFrame(s.line, 0, ev, q, want, want.packetType, count, s.ids.remote, payload);
    CarriesMessage(msgs, s.line, c, low, high);
  }

  lemma PacketFits(ev: seq<Event>, q: nat, want: Want, ty: nat, count: nat, id: nat, payload: seq<byte>)
    requires PacketAt(ev, q, want, ty, count, id, payload)
    ensures q + |payload| + 17 <= |ev|
  {
    hide Fields, Sum;
  }

  lemma {:induction false} HearsAll(line: seq<Chunk>, ev: seq<Event>)
    requires Heard(ev) <= Bytes(line)
    ensures HearsFrom(line, 0, ev)
  {
  }

  lemma FlightsValid(msgs: seq<Message>, line: seq<Chunk>, low: int, high: int)
    requires FlightsOrdered(msgs, line, low, high)
    ensures FramesValid(line)
  {
    assert forall k :: 0 <= k < |line| ==> Carries(msgs, line[k]);
  }

  lemma CarriesMessage(msgs: seq<Message>, line: seq<Chunk>, c: nat, low: int, high: int)
    requires FlightsOrdered(msgs, line, low, high) && c < |line| && line[c].Flight?
    ensures line[c].index < |msgs| && msgs[line[c].index] == Message(line[c].frame.ty, line[c].frame.payload)
  {
    assert Carries(msgs, line[c]);
  }

  /** A call that delivers nothing leaves the expected id alone. */
  lemma {:induction false} OtherCall(s: Net, want: Want, ev: seq<Event>)
    requires s.ids.remote < 0x1_0000_0000 && ReadsNoReset(ev, s.ids, want)
    requires Receive(ev, 0, s.ids, want).mail == NoMail
    ensures var t := AfterCall(s, want, ev); t.ids.remote == s.ids.remote && t.delivered == s.delivered
  {
    hide Receive, Heard, Unread, LooksAt, ResetAt;
    ReceiveDelivers(ev, 0, s.ids, want);
    if Control(RESET, 0) in Receive(ev, 0, s.ids, want).sent {
      var q := ResetLookedAt(ev, 0, s.ids, want);
      assert false;
    }
  }

  lemma {:induction false} CallKeepsOrder(msgs: seq<Message>, s: Net, at: seq<nat>, want: Want, ev: seq<Event>)
    returns (at': seq<nat>)
    requires Ordered(msgs, s, at) && Heard(ev) <= Bytes(s.line) && Sound(s, Call(want, ev))
    ensures Ordered(msgs, AfterCall(s, want, ev), at')
    ensures if Receive(ev, 0, s.ids, want).mail.Mail? then |at'| == |at| + 1 && at'[..|at|] == at else at' == at
  {
    hide Sum, Receive, Heard, Unread, Bytes, Genuine, ReadsNoReset, Carries, Id;
    var t := AfterCall(s, want, ev);
    if Receive(ev, 0, s.ids, want).mail.Mail? {
      var c := DeliveredFlight(msgs, s, want, ev, Last(at), s.next);
      var i := s.line[c].index;
      at' := at + [i];
      assert Carries(msgs, s.line[c]);
      AheadOfLast(msgs, s, at, c);
      FlightsAfter(msgs, s.line, Last(at), s.next, c);
      FlipsTo(i, Last(at));
    } else {
      at' := at;
      OtherCall(s, want, ev);
      var m := UnreadRest(s.line, ReadBytes(ev, Receive(ev, 0, s.ids, want).pos));
      RestOrdered(msgs, s.line, t.line, m, Last(at), s.next);
    }
  }

  /** A frame with the expected id lies ahead of the last one delivered. */
  lemma AheadOfLast(msgs: seq<Message>, s: Net, at: seq<nat>, c: nat)
    requires Ordered(msgs, s, at) && c < |s.line| && s.line[c].Flight? && s.line[c].frame.id == s.ids.remote
    ensures s.line[c].index > Last(at) >= -1 && Id(s.line[c].index) == Id(Last(at) + 1)
  {
    hide Sum;
    assert Carries(msgs, s.line[c]);
  }

  lemma FlipsTo(i: nat, last: int)
    requires last >= -1 && Id(i) == Id(last + 1)
    ensures FlipLow(Id(last + 1)) == Id(i + 1)
  {
  }

  lemma FlightsAfter(msgs: seq<Message>, line: seq<Chunk>, low: int, high: int, c: nat)
    requires FlightsOrdered(msgs, line, low, high) && c < |line| && line[c].Flight?
    ensures FlightsOrdered(msgs, line[c + 1..], line[c].index, high)
  {
    hide Carries;
  }

  lemma RestOrdered(msgs: seq<Message>, line: seq<Chunk>, rest: seq<Chunk>, m: nat, low: int, high: int)
    requires FlightsOrdered(msgs, line, low, high) && Rest(line, rest, m)
    ensures FlightsOrdered(msgs, rest, low, high)
  {
    if rest != line[m..] {
      assert Carries(msgs, rest[0]);
      hide Carries;
      assert forall k :: 0 < k < |rest| ==> rest[k] == rest[1..][k - 1] == line[m + k - 1];
    } else {
      hide Carries;
    }
  }

  // ----- Other steps -----

  /** The elements of t are elements of s in order, each once or repeated. */
  ghost predicate Drawn<T>(s: seq<T>, t: seq<T>, from: seq<nat>) {
    && |from| == |t|
    && (forall k :: 0 <= k < |t| ==> from[k] < |s| && t[k] == s[from[k]])
    && (forall j, k :: 0 <= j < k < |t| ==> from[j] <= from[k])
  }

  lemma DropDrawn<T>(s: seq<T>, k: nat)
    requires k < |s|
    ensures Drawn(s, Drop(s, k), seq(|s| - 1, i => if i < k then i else i + 1))
  {
  }

  lemma TwiceDrawn<T>(s: seq<T>, k: nat)
    requires k < |s|
    ensures Drawn(s, Twice(s, k), seq(|s| + 1, i => if i <= k then i else i - 1))
  {
  }

  lemma DrawnOrdered(msgs: seq<Message>, line: seq<Chunk>, drawn: seq<Chunk>, from: seq<nat>, low: int, high: int)
    requires FlightsOrdered(msgs, line, low, high) && Drawn(line, drawn, from)
    ensures FlightsOrdered(msgs, drawn, low, high)
  {
    hide Carries;
    forall j, k | 0 <= j < k < |drawn| && drawn[j].Flight? && drawn[k].Flight?
      ensures drawn[j].index <= drawn[k].index
    {
      assert drawn[j] == line[from[j]] && drawn[k] == line[from[k]];
    }
  }

  lemma ReplacedOrdered(msgs: seq<Message>, line: seq<Chunk>, k: nat, c: Chunk, low: int, high: int)
    requires FlightsOrdered(msgs, line, low, high) && k < |line| && Carries(msgs, c)
    requires c.Flight? ==> line[k].Flight? && line[k].index == c.index
    ensures FlightsOrdered(msgs, line[k := c], low, high)
  {
    hide Carries;
  }

  lemma SendOrdered(msgs: seq<Message>, s: Net, at: seq<nat>)
    requires Sendable(msgs) && Ordered(msgs, s, at) && s.next < |msgs|
    ensures FlightsOrdered(msgs, s.line + [Flight(s.next, FrameOf(msgs[s.next], s.next))], Last(at), s.next)
  {
    assert Carries(msgs, Flight(s.next, FrameOf(msgs[s.next], s.next)));
    hide Carries, FrameOf;
  }

  lemma GarbledCarries(msgs: seq<Message>, c: Chunk, tail: seq<byte>)
    requires Carries(msgs, c) && c.Flight? && c.frame.(tail := tail).Garbled()
    ensures Carries(msgs, Flight(c.index, c.frame.(tail := tail)))
  {
    hide Sum;
  }

  lemma OtherStepKeepsOrder(msgs: seq<Message>, s: Net, at: seq<nat>, step: Step)
    requires Sendable(msgs) && Ordered(msgs, s, at) && Next(msgs, s, step).Some? && !step.Call?
    ensures Ordered(msgs, Next(msgs, s, step).value, at)
  {
    hide Drop, Twice, FrameOf, Drawn, Carries, FlightsOrdered, Receive, Id;
    match step
    case Send => SendOrdered(msgs, s, at);
    case Say(bytes) => SayOrdered(msgs, s.line, bytes, Last(at), s.next);
    case Lose(k) =>
      DropDrawn(s.line, k);
      DrawnOrdered(msgs, s.line, Drop(s.line, k), seq(|s.line| - 1, i => if i < k then i else i + 1), Last(at), s.next);
    case Repeat(k) =>
      TwiceDrawn(s.line, k);
      DrawnOrdered(msgs, s.line, Twice(s.line, k), seq(|s.line| + 1, i => if i <= k then i else i - 1),
                   Last(at), s.next);
    case Garble(k, tail) =>
      CarriesAt(msgs, s.line, k, Last(at), s.next);
      GarbledCarries(msgs, s.line[k], tail);
      ReplacedOrdered(msgs, s.line, k, Flight(s.line[k].index, s.line[k].frame.(tail := tail)), Last(at), s.next);
    case Spoil(k, bytes) =>
      NoiseCarries(msgs, bytes);
      ReplacedOrdered(msgs, s.line, k, Noise(bytes), Last(at), s.next);
    case LoseAnswer(k) =>
    case RepeatAnswer(k) =>
    case TakeAnswer => HigherOrdered(msgs, s.line, Last(at), s.next, Heeded(s.next, s.answers[0]));
  }

  lemma NoiseCarries(msgs: seq<Message>, bytes: seq<byte>)
    ensures Carries(msgs, Noise(bytes))
  {
  }

  lemma CarriesAt(msgs: seq<Message>, line: seq<Chunk>, k: nat, low: int, high: int)
    requires FlightsOrdered(msgs, line, low, high) && k < |line|
    ensures Carries(msgs, line[k])
  {
  }

  lemma SayOrdered(msgs: seq<Message>, line: seq<Chunk>, bytes: seq<byte>, low: int, high: int)
    requires FlightsOrdered(msgs, line, low, high)
    ensures FlightsOrdered(msgs, line + [Noise(bytes)], low, high)
  {
    NoiseCarries(msgs, bytes);
    hide Carries;
  }

  lemma HigherOrdered(msgs: seq<Message>, line: seq<Chunk>, low: int, high: int, high': int)
    requires FlightsOrdered(msgs, line, low, high) && high <= high'
    ensures FlightsOrdered(msgs, line, low, high')
  {
    hide Carries;
  }

  // ----- Runs -----

  lemma StartOrdered(msgs: seq<Message>)
    ensures Ordered(msgs, Start, [])
  {
  }

  lemma {:induction false} SoundPrefix(msgs: seq<Message>, s: Net, steps: seq<Step>, n: nat)
    requires n <= |steps| && AllSound(msgs, s, steps)
    ensures AllSound(msgs, s, steps[..n])
  {
    hide Run, Sound;
    var init := steps[..n];
    forall m | 0 <= m < n && Run(msgs, s, init[..m]).Some? ensures Sound(Run(msgs, s, init[..m]).value, init[m]) {
      assert init[..m] == steps[..m];
    }
  }

  lemma {:induction false} RunKeepsOrder(msgs: seq<Message>, s: Net, at: seq<nat>, steps: seq<Step>)
    returns (at': seq<nat>)
    requires Sendable(msgs) && Ordered(msgs, s, at) && Run(msgs, s, steps).Some? && AllSound(msgs, s, steps)
    ensures Ordered(msgs, Run(msgs, s, steps).value, at')
    decreases |steps|
  {
    hide Ordered, Sound, AfterCall, Heard, Bytes;
    if |steps| == 0 {
      at' := at;
    } else {
      var n := |steps| - 1;
      SoundPrefix(msgs, s, steps, n);
      at' := RunKeepsOrder(msgs, s, at, steps[..n]);
      var t := Run(msgs, s, steps[..n]).value;
      if steps[n].Call? {
        at' := CallKeepsOrder(msgs, t, at', steps[n].want, steps[n].ev);
      } else {
        OtherStepKeepsOrder(msgs, t, at', steps[n]);
      }
    }
  }

  /** Every run of sound calls delivers messages of the debugger, whole, in order
      and none twice. */
  lemma {:induction false} DeliveredInOrder(msgs: seq<Message>, steps: seq<Step>, s: Net)
    requires Sendable(msgs) && Run(msgs, Start, steps) == Some(s) && AllSound(msgs, Start, steps)
    ensures exists at :: PickedAt(msgs, s.delivered, at)
  {
    hide AllSound, Run;
    StartOrdered(msgs);
    var at := RunKeepsOrder(msgs, Start, [], steps);
  }

  /** Calls are sound that find nothing acceptable anywhere on the line but
      intact frames, and calls that keep in step with the frames. A call that
      could not hear what it is said to hear ends the run. */
  lemma {:induction false} SafeIsSound(msgs: seq<Message>, steps: seq<Step>)
    requires Sendable(msgs) && Run(msgs, Start, steps).Some? && AllSafe(msgs, Start, steps)
    ensures AllSound(msgs, Start, steps)
    decreases |steps|
  {
    hide Sound, Clean, InLine, Next;
    if |steps| > 0 {
      var n := |steps| - 1;
      var init := steps[..n];
      SafePrefix(msgs, steps, n);
      SafeIsSound(msgs, init);
      var t := Run(msgs, Start, init).value;
      StartOrdered(msgs);
      var at := RunKeepsOrder(msgs, Start, [], init);
      if steps[n].Call? { SafeStep(msgs, t, at, steps[n]); } else { NoCall(t, steps[n]); }
      forall m | 0 <= m < |steps| && Run(msgs, Start, steps[..m]).Some?
        ensures Sound(Run(msgs, Start, steps[..m]).value, steps[m])
      {
        if m < n { assert init[..m] == steps[..m] && init[m] == steps[m]; }
      }
    }
  }

  lemma NoCall(s: Net, step: Step)
    requires !step.Call?
    ensures Sound(s, step)
  {
  }

  lemma {:induction false} SafeStep(msgs: seq<Message>, s: Net, at: seq<nat>, step: Step)
    requires Ordered(msgs, s, at) && step.Call? && Next(msgs, s, step).Some?
    requires Clean(s, step) || InLine(s, step)
    ensures Sound(s, step)
  {
    hide Sound, Clean, InLine, FlightsOrdered, Heard, Bytes, AfterCall;
    FlightsValid(msgs, s.line, Last(at), s.next);
    if Clean(s, step) { CleanIsSound(s, step.want, step.ev); } else { InLineIsSound(s, step.want, step.ev); }
  }

  lemma {:induction false} SafePrefix(msgs: seq<Message>, steps: seq<Step>, n: nat)
    requires n <= |steps| && AllSafe(msgs, Start, steps)
    ensures AllSafe(msgs, Start, steps[..n])
  {
    hide Run, Clean, InLine;
    var init := steps[..n];
    assert forall m :: 0 <= m < n ==> init[..m] == steps[..m] && init[m] == steps[m];
  }
}
