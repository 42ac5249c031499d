/** When the debugger over its line never moves past a message that was not
    delivered: the exact condition over every run, and what happens otherwise. */
module KdSkips {
  import opened Basics
  import opened KdWire
  import opened KdReceive
  import opened KdFrames
  import opened KdCalls
  import opened KdLine
  import opened KdAligned
  import opened KdLink

  /** Of what the call looks at, all it accepts is intact frames, and none is a reset. */
  ghost predicate Candid(s: Net, step: Step) {
    step.Call? ==>
      && (forall ty, id :: Genuine(s.line, step.ev, s.ids, step.want, ty, id))
      && ReadsNoReset(step.ev, s.ids, step.want)
  }

  ghost predicate AllCandid(msgs: seq<Message>, s: Net, steps: seq<Step>) {
    forall n :: 0 <= n < |steps| && Run(msgs, s, steps[..n]).Some? ==>
                  Candid(Run(msgs, s, steps[..n]).value, steps[n])
  }

  /** An intact frame with the expected id stands at q, where the call looks and
      which it accepts. */
  ghost predicate ExpectedAt(s: Net, want: Want, ev: seq<Event>, q: nat) {
    && LooksAt(ev, 0, s.ids, want, q) && GoodAt(s.line, ReadBytes(ev, q))
    && var f := FlightAt(s.line, ReadBytes(ev, q)).value.frame;
    && f.id == s.ids.remote && PacketAt(ev, q, want, f.ty, |f.payload|, f.id, f.payload)
  }

  /** Such a frame has the type the call awaits. */
  ghost predicate Awaited(s: Net, step: Step) {
    step.Call? ==>
      forall q :: ExpectedAt(s, step.want, step.ev, q) ==>
                    FlightAt(s.line, ReadBytes(step.ev, q)).value.frame.ty == step.want.packetType
  }

  ghost predicate AllAwaited(msgs: seq<Message>, s: Net, steps: seq<Step>) {
    forall n :: 0 <= n < |steps| && Run(msgs, s, steps[..n]).Some? ==>
                  Awaited(Run(msgs, s, steps[..n]).value, steps[n])
  }

  /** Where the debugger is once it has read all answers on their way. */
  function NextAfter(next: nat, answers: seq<Control>): nat
    decreases |answers|
  {
    if |answers| == 0 then next else NextAfter(Heeded(next, answers[0]), answers[1..])
  }

  // ----- The invariant -----

  /** The answers between the debugger at message next and a target that has
      delivered d messages. */
  ghost predicate AnswersInStep(answers: seq<Control>, next: nat, d: nat) {
    && (d == next ==> forall k :: 0 <= k < |answers| ==> answers[k] != Ack(next))
    && (d == next + 1 ==>
          forall j, k :: 0 <= j < k < |answers| && answers[j] == Ack(next) ==> answers[k] != Ack(next + 1))
  }

  /** The target has delivered the messages up to the debugger's current one,
      and perhaps that one. */
  ghost predicate InStep(s: Net, at: seq<nat>) {
    && s.next <= |at| <= s.next + 1
    && (forall k :: 0 <= k < |at| ==> at[k] == k)
    && AnswersInStep(s.answers, s.next, |at|)
  }

  /** A frame on the line is that of the last delivered message or the next one. */
  lemma FlightIndex(msgs: seq<Message>, s: Net, at: seq<nat>, c: nat)
    requires Ordered(msgs, s, at) && InStep(s, at) && c < |s.line| && s.line[c].Flight?
    ensures var d, i := |at|, s.line[c].index;
            && |s.delivered| == d && s.ids.remote == Id(d) && d - 1 <= i <= s.next
            && i < |msgs| && s.line[c].frame.ty == msgs[i].ty
            && (s.line[c].frame.id == s.ids.remote ==> i == d == s.next)
  {
    hide AnswersInStep, Id;
    assert Carries(msgs, s.line[c]);
    NextIs(s.line[c].index, |at|);
    assert Last(at) == |at| - 1;
  }

  lemma NextIs(i: nat, d: nat)
    ensures d - 1 <= i <= d ==> (Id(i) == Id(d) <==> i == d)
    ensures Id(d) != Id(d + 1)
  {
  }

  /** A packet with the expected id that a candid call looks at and accepts is a
      frame of the next message. */
  lemma {:induction false} ExpectedIsNext(msgs: seq<Message>, s: Net, at: seq<nat>, want: Want, ev: seq<Event>,
                                          q: nat, ty: nat, count: nat, payload: seq<byte>)
    requires Ordered(msgs, s, at) && InStep(s, at) && Heard(ev) <= Bytes(s.line) && Candid(s, Call(want, ev))
    requires LooksAt(ev, 0, s.ids, want, q) && PacketAt(ev, q, want, ty, count, s.ids.remote, payload)
    ensures |at| == s.next < |msgs| && ty == msgs[|at|].ty && ExpectedAt(s, want, ev, q)
    ensures FlightAt(s.line, ReadBytes(ev, q)).value.frame.ty == ty
  {
    hide Sum, Heard, Unread, Bytes, FlightAt, PacketAt, LooksAt, HearsFrom, FramesValid, Ordered, InStep, Id;
    LineOf(msgs, s, at);
    FlightsValid(msgs, s.line, Last(at), s.next);
    HearsAll(s.line, ev);
    PacketFits(ev, q, want, ty, count, s.ids.remote, payload);
    assert Genuine(s.line, ev, s.ids, want, ty, s.ids.remote);
    var c := PacketIsFrame(s.line, 0, ev, q, want, ty, count, s.ids.remote, payload);
    FlightIndex(msgs, s, at, c);
  }

  lemma LineOf(msgs: seq<Message>, s: Net, at: seq<nat>)
    requires Ordered(msgs, s, at)
    ensures FlightsOrdered(msgs, s.line, Last(at), s.next)
  {
    hide FlightsOrdered;
  }

  /** An awaited call acknowledges the expected id only last, and only when it delivers. */
  lemma {:induction false} AwaitedAnswers(msgs: seq<Message>, s: Net, at: seq<nat>, want: Want, ev: seq<Event>)
    requires Ordered(msgs, s, at) && InStep(s, at) && Heard(ev) <= Bytes(s.line)
    requires Candid(s, Call(want, ev)) && Awaited(s, Call(want, ev))
    ensures OnlyDelivered(Receive(ev, 0, s.ids, want), s.ids.remote)
    ensures Receive(ev, 0, s.ids, want).mail.Mail? ==> |at| == s.next
  {
    hide *;
    RemoteId(msgs, s, at);
    if Receive(ev, 0, s.ids, want).mail.Mail? { DeliversNext(msgs, s, at, want, ev); }
    if !OnlyDelivered(Receive(ev, 0, s.ids, want), s.ids.remote) {
      var q, ty, count, payload := PassedOver(ev, 0, s.ids, want);
      ExpectedIsNext(msgs, s, at, want, ev, q, ty, count, payload);
      AwaitsType(s, want, ev, q);
      assert false;
    }
  }

  lemma AwaitsType(s: Net, want: Want, ev: seq<Event>, q: nat)
    requires Awaited(s, Call(want, ev)) && ExpectedAt(s, want, ev, q)
    ensures FlightAt(s.line, ReadBytes(ev, q)).Some?
    ensures FlightAt(s.line, ReadBytes(ev, q)).value.frame.ty == want.packetType
  {
    hide LooksAt, PacketAt, FlightAt, ReadBytes;
  }

  /** A call that delivers does so while the debugger waits, with the type of
      the message it waits for. */
  lemma {:induction false} DeliversNext(msgs: seq<Message>, s: Net, at: seq<nat>, want: Want, ev: seq<Event>)
    requires Ordered(msgs, s, at) && InStep(s, at) && Heard(ev) <= Bytes(s.line) && Candid(s, Call(want, ev))
    requires Receive(ev, 0, s.ids, want).mail.Mail?
    ensures |at| == s.next < |msgs| && want.packetType == msgs[|at|].ty
  {
    hide *;
    RemoteId(msgs, s, at);
    var q, count, payload := DeliveredStands(ev, 0, s.ids, want);
    ExpectedIsNext(msgs, s, at, want, ev, q, want.packetType, count, payload);
  }

  lemma RemoteId(msgs: seq<Message>, s: Net, at: seq<nat>)
    requires Ordered(msgs, s, at) && InStep(s, at)
    ensures |s.delivered| == |at| && s.ids.remote == Id(|at|)
  {
    hide AnswersInStep, Id;
    assert Last(at) == |at| - 1;
  }

  /** While the target is ahead, no call acknowledges the id it waits for. */
  lemma {:induction false} AheadAnswers(msgs: seq<Message>, s: Net, at: seq<nat>, want: Want, ev: seq<Event>)
    requires Ordered(msgs, s, at) && InStep(s, at) && Heard(ev) <= Bytes(s.line) && Candid(s, Call(want, ev))
    requires |at| == s.next + 1
    ensures Ack(|at|) !in Receive(ev, 0, s.ids, want).sent
  {
    hide Receive, Heard, Bytes, Ordered, InStep, Id, Candid, LooksAt, PacketAt;
    RemoteId(msgs, s, at);
    if Ack(|at|) in Receive(ev, 0, s.ids, want).sent {
      var q, ty, count, payload := AcknowledgedStands(ev, 0, s.ids, want, s.ids.remote);
      ExpectedIsNext(msgs, s, at, want, ev, q, ty, count, payload);
      assert false;
    }
  }

  lemma {:induction false} CallKeepsStep(msgs: seq<Message>, s: Net, at: seq<nat>, want: Want, ev: seq<Event>)
    returns (at': seq<nat>)
    requires Ordered(msgs, s, at) && InStep(s, at) && Heard(ev) <= Bytes(s.line)
    requires Candid(s, Call(want, ev)) && Awaited(s, Call(want, ev))
    ensures Ordered(msgs, AfterCall(s, want, ev), at') && InStep(AfterCall(s, want, ev), at')
  {
    hide Receive, Heard, Bytes, Ordered, Id, Candid, Sound, Unread, Awaited;
    var t := Receive(ev, 0, s.ids, want);
    CandidIsSound(s, Call(want, ev));
    RemoteId(msgs, s, at);
    at' := CallKeepsOrder(msgs, s, at, want, ev);
    AwaitedAnswers(msgs, s, at, want, ev);
    if |at| == s.next + 1 { AheadAnswers(msgs, s, at, want, ev); }
    AnswersAfter(s.answers, t.sent, s.next, |at|, t.mail.Mail?);
    if t.mail.Mail? { NewPlace(msgs, AfterCall(s, want, ev), at, at'); }
  }

  lemma CandidIsSound(s: Net, step: Step)
    requires Candid(s, step)
    ensures Sound(s, step)
  {
    hide Genuine, ReadsNoReset;
  }

  /** The place of a delivery in step with the debugger is the next one. */
  lemma NewPlace(msgs: seq<Message>, s: Net, at: seq<nat>, at': seq<nat>)
    requires Ordered(msgs, s, at') && |at'| == |at| + 1 && at'[..|at|] == at && |at| == s.next
    requires forall k :: 0 <= k < |at| ==> at[k] == k
    ensures forall k :: 0 <= k < |at'| ==> at'[k] == k
  {
    hide FlightsOrdered, Id;
    assert at'[|at|] <= s.next;
    assert forall k :: 0 <= k < |at| ==> at'[k] == at[k];
    if |at| > 0 { assert at'[|at| - 1] < at'[|at|]; }
  }

  lemma AnswersAfter(answers: seq<Control>, sent: seq<Control>, next: nat, d: nat, delivers: bool)
    requires next <= d <= next + 1 && AnswersInStep(answers, next, d)
    requires delivers ==> d == next && |sent| > 0 && sent[|sent| - 1] == Ack(d)
    requires forall k :: 0 <= k < |sent| && (delivers ==> k < |sent| - 1) ==> sent[k] != Ack(d)
    ensures AnswersInStep(answers + sent, next, if delivers then d + 1 else d)
  {
    hide Id, Ack;
    var all := answers + sent;
    assert forall k :: |answers| <= k < |all| ==> all[k] == sent[k - |answers|];
  }

  // ----- Other steps -----

  lemma AnswersDrawn(answers: seq<Control>, next: nat, d: nat, drawn: seq<Control>, from: seq<nat>)
    requires AnswersInStep(answers, next, d) && Drawn(answers, drawn, from)
    ensures AnswersInStep(drawn, next, d)
  {
    NextIs(next, next);
    hide Id;
    forall j, k | d == next + 1 && 0 <= j < k < |drawn| && drawn[j] == Ack(next) ensures drawn[k] != Ack(next + 1) {
      assert drawn[j] == answers[from[j]] && drawn[k] == answers[from[k]];
    }
  }

  lemma TakeAnswerInStep(s: Net, at: seq<nat>)
    requires InStep(s, at) && |s.answers| > 0
    ensures InStep(s.(answers := s.answers[1..], next := Heeded(s.next, s.answers[0])), at)
  {
    hide Id;
    assert forall k :: 0 <= k < |s.answers| - 1 ==> s.answers[1..][k] == s.answers[k + 1];
  }

  lemma OtherStepKeepsStep(msgs: seq<Message>, s: Net, at: seq<nat>, step: Step)
    requires InStep(s, at) && Next(msgs, s, step).Some? && !step.Call?
    ensures InStep(Next(msgs, s, step).value, at)
  {
    hide Drop, Twice, Drawn, AnswersInStep, Id, FrameOf, Receive;
    match step
    case Send =>
    case Say(bytes) =>
    case Lose(k) =>
    case Repeat(k) =>
    case Garble(k, tail) =>
    case Spoil(k, bytes) =>
    case LoseAnswer(k) =>
      DropDrawn(s.answers, k);
      AnswersDrawn(s.answers, s.next, |at|, Drop(s.answers, k),
                   seq(|s.answers| - 1, i => if i < k then i else i + 1));
    case RepeatAnswer(k) =>
      TwiceDrawn(s.answers, k);
      AnswersDrawn(s.answers, s.next, |at|, Twice(s.answers, k),
                   seq(|s.answers| + 1, i => if i <= k then i else i - 1));
    case TakeAnswer => TakeAnswerInStep(s, at);
  }

  // ----- Runs -----

  /** Both conditions, up to a step. */
  ghost predicate Steady(msgs: seq<Message>, steps: seq<Step>) {
    AllCandid(msgs, Start, steps) && AllAwaited(msgs, Start, steps)
  }

  lemma {:induction false} SteadyPrefix(msgs: seq<Message>, steps: seq<Step>, n: nat)
    requires n <= |steps|
    ensures AllCandid(msgs, Start, steps) ==> AllCandid(msgs, Start, steps[..n])
    ensures AllAwaited(msgs, Start, steps) ==> AllAwaited(msgs, Start, steps[..n])
  {
    hide Run, Awaited, Candid;
    var init := steps[..n];
    assert forall m :: 0 <= m < n ==> init[..m] == steps[..m] && init[m] == steps[m];
  }

  lemma {:induction false} RunKeepsStep(msgs: seq<Message>, steps: seq<Step>) returns (at: seq<nat>)
    requires Sendable(msgs) && Run(msgs, Start, steps).Some? && Steady(msgs, steps)
    ensures Ordered(msgs, Run(msgs, Start, steps).value, at) && InStep(Run(msgs, Start, steps).value, at)
    decreases |steps|
  {
    hide Ordered, InStep, Candid, Awaited, AfterCall, Heard, Bytes;
    if |steps| == 0 {
      at := [];
      StartInStep(msgs);
    } else {
      var n := |steps| - 1;
      SteadyPrefix(msgs, steps, n);
      at := RunKeepsStep(msgs, steps[..n]);
      var t := Run(msgs, Start, steps[..n]).value;
      if steps[n].Call? {
        at := CallKeepsStep(msgs, t, at, steps[n].want, steps[n].ev);
      } else {
        OtherStepKeepsOrder(msgs, t, at, steps[n]);
        OtherStepKeepsStep(msgs, t, at, steps[n]);
      }
    }
  }

  lemma StartInStep(msgs: seq<Message>)
    ensures Ordered(msgs, Start, []) && InStep(Start, [])
  {
    StartOrdered(msgs);
  }

  /** If calls are candid, and await the type of each intact frame with the
      expected id that they look at and accept, then nothing is skipped:
      the deliveries are a prefix of the messages, and the debugger never moves
      past an undelivered one. */
  lemma {:induction false} NothingSkipped(msgs: seq<Message>, steps: seq<Step>, s: Net)
    requires Sendable(msgs) && Run(msgs, Start, steps) == Some(s)
    requires AllCandid(msgs, Start, steps) && AllAwaited(msgs, Start, steps)
    ensures s.next <= |s.delivered| <= s.next + 1 && s.delivered <= msgs
  {
    hide Run, AllCandid, AllAwaited;
    var at := RunKeepsStep(msgs, steps);
    InStepDelivers(msgs, s, at);
  }

  lemma InStepDelivers(msgs: seq<Message>, s: Net, at: seq<nat>)
    requires Ordered(msgs, s, at) && InStep(s, at)
    ensures s.next <= |s.delivered| <= s.next + 1 && s.delivered <= msgs
  {
    hide FlightsOrdered, AnswersInStep, Id;
    if |at| > 0 { assert at[|at| - 1] < |msgs|; }
    assert forall k :: 0 <= k < |at| ==> s.delivered[k] == msgs[at[k]] == msgs[k];
  }

  // ----- The exact condition -----

  lemma {:induction false} InStepNext(answers: seq<Control>, next: nat, d: nat)
    requires next <= d <= next + 1 && AnswersInStep(answers, next, d)
    ensures NextAfter(next, answers) <= d
    decreases |answers|
  {
    hide Id;
    if |answers| > 0 {
      assert forall k :: 0 <= k < |answers| - 1 ==> answers[1..][k] == answers[k + 1];
      InStepNext(answers[1..], Heeded(next, answers[0]), d);
    }
  }

  lemma {:induction false} NextMovesOn(next: nat, answers: seq<Control>)
    ensures NextAfter(next, answers) >= next
    ensures Ack(next) in answers ==> NextAfter(next, answers) > next
    decreases |answers|
  {
    hide Id;
    if |answers| > 0 { NextMovesOn(Heeded(next, answers[0]), answers[1..]); }
  }

  /** A call of another type acknowledges the message it looks at, delivers
      nothing, and the debugger will move past it. */
  lemma {:induction false} UnawaitedSkips(msgs: seq<Message>, s: Net, at: seq<nat>, want: Want, ev: seq<Event>)
    requires Ordered(msgs, s, at) && InStep(s, at) && Heard(ev) <= Bytes(s.line)
    requires Candid(s, Call(want, ev)) && !Awaited(s, Call(want, ev))
    ensures var t := AfterCall(s, want, ev); NextAfter(t.next, t.answers) > |t.delivered|
  {
    hide Receive, Heard, Bytes, Ordered, InStep, Id, Unread, Candid, PacketAt, NextAfter, Awaited, LooksAt, FlightAt;
    RemoteId(msgs, s, at);
    var q := SomeUnawaited(s, want, ev);
    var t := Receive(ev, 0, s.ids, want);
    var f := FlightAt(s.line, ReadBytes(ev, q)).value.frame;
    LookedAtIsAnswered(ev, 0, s.ids, want, q, f.ty, |f.payload|, f.id, f.payload);
    ExpectedIsNext(msgs, s, at, want, ev, q, f.ty, |f.payload|, f.payload);
    if t.mail.Mail? {
      DeliversNext(msgs, s, at, want, ev);
      assert false;
    }
    var answers := s.answers + t.sent;
    assert Ack(s.next) in answers;
    NextMovesOn(s.next, answers);
  }

  lemma SomeUnawaited(s: Net, want: Want, ev: seq<Event>) returns (q: nat)
    requires !Awaited(s, Call(want, ev))
    ensures ExpectedAt(s, want, ev, q) && FlightAt(s.line, ReadBytes(ev, q)).value.frame.ty != want.packetType
  {
    hide LooksAt, PacketAt, FlightAt, ReadBytes;
    q :| ExpectedAt(s, want, ev, q) && FlightAt(s.line, ReadBytes(ev, q)).value.frame.ty != want.packetType;
  }

  lemma {:induction false} RunPrefix(msgs: seq<Message>, s: Net, steps: seq<Step>, n: nat)
    requires n <= |steps| && Run(msgs, s, steps).Some?
    ensures Run(msgs, s, steps[..n]).Some?
    decreases |steps|
  {
    hide Next;
    if n < |steps| {
      var init := steps[..|steps| - 1];
      RunPrefix(msgs, s, init, n);
      assert init[..n] == steps[..n];
    } else {
      assert steps[..n] == steps;
    }
  }

  /** With the answers on their way read, the debugger is past no undelivered message. */
  ghost predicate NoneSkipped(s: Net) { NextAfter(s.next, s.answers) <= |s.delivered| }

  /** The exact condition: throughout a run, the answers on their way never
      take the debugger past an undelivered message if and only if the calls
      await the type of each intact frame with the expected id that they look
      at and accept. */
  lemma {:induction false} AcknowledgedAreDelivered(msgs: seq<Message>, steps: seq<Step>)
    requires Sendable(msgs) && Run(msgs, Start, steps).Some? && AllCandid(msgs, Start, steps)
    ensures AllAwaited(msgs, Start, steps) <==>
            forall n :: 0 <= n <= |steps| && Run(msgs, Start, steps[..n]).Some? ==>
                          NoneSkipped(Run(msgs, Start, steps[..n]).value)
  {
    hide Next, Awaited, Candid, NoneSkipped;
    if AllAwaited(msgs, Start, steps) {
      forall n | 0 <= n <= |steps| && Run(msgs, Start, steps[..n]).Some?
        ensures NoneSkipped(Run(msgs, Start, steps[..n]).value)
      {
        SteadyPrefix(msgs, steps, n);
        SteadyNext(msgs, steps[..n]);
      }
    } else {
      assert steps[..|steps|] == steps;
      var n := FirstUnawaited(msgs, steps, |steps|);
      RunPrefix(msgs, Start, steps, n + 1);
      SteadyPrefix(msgs, steps, n);
      SkipsAt(msgs, steps, n);
    }
  }

  lemma {:induction false} SteadyNext(msgs: seq<Message>, steps: seq<Step>)
    requires Sendable(msgs) && Run(msgs, Start, steps).Some? && Steady(msgs, steps)
    ensures NoneSkipped(Run(msgs, Start, steps).value)
  {
    var at := RunKeepsStep(msgs, steps);
    var s := Run(msgs, Start, steps).value;
    hide Run;
    RemoteId(msgs, s, at);
    InStepNext(s.answers, s.next, |at|);
  }

  lemma {:induction false} SkipsAt(msgs: seq<Message>, steps: seq<Step>, n: nat)
    requires Sendable(msgs) && n < |steps| && Run(msgs, Start, steps[..n + 1]).Some?
    requires AllCandid(msgs, Start, steps) && Steady(msgs, steps[..n]) && Run(msgs, Start, steps[..n]).Some?
    requires !Awaited(Run(msgs, Start, steps[..n]).value, steps[n])
    ensures !NoneSkipped(Run(msgs, Start, steps[..n + 1]).value)
  {
    hide Run, AllCandid, Steady, Candid, Awaited, AfterCall, Heard, Bytes, Ordered, InStep, Receive, NextAfter;
    var at := RunKeepsStep(msgs, steps[..n]);
    var s := Run(msgs, Start, steps[..n]).value;
    CandidStep(msgs, steps, n);
    UnawaitedCall(s, steps[n]);
    RunCall(msgs, steps, n);
    UnawaitedSkips(msgs, s, at, steps[n].want, steps[n].ev);
  }

  lemma {:induction false} CandidStep(msgs: seq<Message>, steps: seq<Step>, n: nat)
    requires n < |steps| && AllCandid(msgs, Start, steps) && Run(msgs, Start, steps[..n]).Some?
    ensures Candid(Run(msgs, Start, steps[..n]).value, steps[n])
  {
    hide Run, Candid;
  }

  lemma UnawaitedCall(s: Net, step: Step)
    requires !Awaited(s, step)
    ensures step.Call? && step == Call(step.want, step.ev)
  {
    hide ExpectedAt;
  }

  lemma {:induction false} RunCall(msgs: seq<Message>, steps: seq<Step>, n: nat)
    requires n < |steps| && steps[n].Call? && Run(msgs, Start, steps[..n + 1]).Some?
    requires Run(msgs, Start, steps[..n]).Some?
    ensures var s, step := Run(msgs, Start, steps[..n]).value, steps[n];
            && Heard(step.ev) <= Bytes(s.line)
            && Run(msgs, Start, steps[..n + 1]).value == AfterCall(s, step.want, step.ev)
  {
    hide Heard, Bytes, AfterCall, Receive;
    var next := steps[..n + 1];
    assert next[..n] == steps[..n] && next[n] == steps[n];
  }

  /** The first step before the limit that is not awaited. */
  lemma {:induction false} FirstUnawaited(msgs: seq<Message>, steps: seq<Step>, limit: nat) returns (n: nat)
    requires limit <= |steps| && !AllAwaited(msgs, Start, steps[..limit])
    ensures n < limit && AllAwaited(msgs, Start, steps[..n])
    ensures Run(msgs, Start, steps[..n]).Some? && !Awaited(Run(msgs, Start, steps[..n]).value, steps[n])
    decreases limit
  {
    hide Run, Awaited;
    var init := steps[..limit];
    var m: nat :| && m < limit && Run(msgs, Start, init[..m]).Some?
                  && !Awaited(Run(msgs, Start, init[..m]).value, init[m]);
    n := m;
    assert init[..n] == steps[..n];
    if !AllAwaited(msgs, Start, steps[..n]) { n := FirstUnawaited(msgs, steps, n); }
  }

  // ----- Ways to meet the conditions -----

  /** Everything anywhere on the line that the call would accept is an intact
      frame, and no reset stands there. */
  ghost predicate Authentic(s: Net, step: Step) {
    step.Call? ==>
      && (forall ty, id :: Unforged(s.line, step.want, ty, id))
      && (step.want.packetType != POLL_BREAKIN ==> NoReset(s.line))
  }

  /** At each call this holds or the call keeps in step with the frames. */
  ghost predicate AllFair(msgs: seq<Message>, steps: seq<Step>) {
    forall n :: 0 <= n < |steps| && Run(msgs, Start, steps[..n]).Some? ==>
                  var t := Run(msgs, Start, steps[..n]).value; Authentic(t, steps[n]) || InLine(t, steps[n])
  }

  lemma {:induction false} AuthenticIsCandid(s: Net, want: Want, ev: seq<Event>)
    requires Heard(ev) <= Bytes(s.line) && Authentic(s, Call(want, ev))
    ensures Candid(s, Call(want, ev))
  {
    hide LooksAt, PacketAt, GoodAt, ResetAt, Unforged, NoReset, Heard, Bytes, HearsFrom;
    HearsAll(s.line, ev);
    forall ty: nat, id: nat, q: nat, count: nat, payload |
      LooksAt(ev, 0, s.ids, want, q) && PacketAt(ev, q, want, ty, count, id, payload)
      ensures GoodAt(s.line, ReadBytes(ev, q))
    {
      assert Unforged(s.line, want, ty, id);
      UnforgedGood(s.line, 0, ev, q, want, ty, count, id, payload);
    }
    forall q: nat | LooksAt(ev, 0, s.ids, want, q) ensures !ResetAt(ev, q) {
      PollsLookAtNothing(ev, s.ids, want, q);
      if ResetAt(ev, q) { ResetOnLine(s.line, 0, ev, q); }
    }
  }

  lemma {:induction false} FairStep(msgs: seq<Message>, s: Net, at: seq<nat>, step: Step)
    requires Ordered(msgs, s, at) && Next(msgs, s, step).Some? && (Authentic(s, step) || InLine(s, step))
    ensures Candid(s, step)
  {
    hide Authentic, FlightsOrdered, Heard, Bytes, AfterCall, Aligned, Genuine, ReadsNoReset, HearsFrom;
    if step.Call? {
      FlightsValid(msgs, s.line, Last(at), s.next);
      HearsAll(s.line, step.ev);
      if Authentic(s, step) {
        AuthenticIsCandid(s, step.want, step.ev);
      } else {
        AlignedIsGenuine(s.line, step.ev, s.ids, step.want);
      }
    }
  }

  /** Such runs are candid. */
  lemma {:induction false} FairIsCandid(msgs: seq<Message>, steps: seq<Step>)
    requires Sendable(msgs) && Run(msgs, Start, steps).Some? && AllFair(msgs, steps)
    ensures AllCandid(msgs, Start, steps)
    decreases |steps|
  {
    hide Candid, Authentic, InLine, Next;
    if |steps| > 0 {
      var n := |steps| - 1;
      var init := steps[..n];
      FairPrefix(msgs, steps, n);
      FairIsCandid(msgs, init);
      CandidRunIsSound(msgs, init);
      var t := Run(msgs, Start, init).value;
      StartOrdered(msgs);
      var at := RunKeepsOrder(msgs, Start, [], init);
      FairStep(msgs, t, at, steps[n]);
      forall m | 0 <= m < |steps| && Run(msgs, Start, steps[..m]).Some?
        ensures Candid(Run(msgs, Start, steps[..m]).value, steps[m])
      {
        if m < n { assert init[..m] == steps[..m] && init[m] == steps[m]; }
      }
    }
  }

  lemma {:induction false} FairPrefix(msgs: seq<Message>, steps: seq<Step>, n: nat)
    requires n <= |steps| && AllFair(msgs, steps)
    ensures AllFair(msgs, steps[..n])
  {
    hide Run, Authentic, InLine;
    var init := steps[..n];
    assert forall m :: 0 <= m < n ==> init[..m] == steps[..m] && init[m] == steps[m];
  }

  lemma {:induction false} CandidRunIsSound(msgs: seq<Message>, steps: seq<Step>)
    requires AllCandid(msgs, Start, steps)
    ensures AllSound(msgs, Start, steps)
  {
    hide Run, Candid, Sound;
    forall n | 0 <= n < |steps| && Run(msgs, Start, steps[..n]).Some?
      ensures Sound(Run(msgs, Start, steps[..n]).value, steps[n])
    {
      CandidIsSound(Run(msgs, Start, steps[..n]).value, steps[n]);
    }
  }

  /** Such runs deliver in order, and skip none exactly when the calls await the
      types of the expected frames they look at. */
  lemma {:induction false} FairRunsDeliver(msgs: seq<Message>, steps: seq<Step>, s: Net)
    requires Sendable(msgs) && Run(msgs, Start, steps) == Some(s) && AllFair(msgs, steps)
    ensures exists at :: PickedAt(msgs, s.delivered, at)
    ensures AllAwaited(msgs, Start, steps) <==>
            forall n :: 0 <= n <= |steps| && Run(msgs, Start, steps[..n]).Some? ==>
                          NoneSkipped(Run(msgs, Start, steps[..n]).value)
  {
    hide Run, AllFair, AllCandid, AllAwaited, AllSound, NoneSkipped, PickedAt;
    FairIsCandid(msgs, steps);
    CandidRunIsSound(msgs, steps);
    DeliveredInOrder(msgs, steps, s);
    AcknowledgedAreDelivered(msgs, steps);
  }

  /** If all messages have one type and every data call awaits it, the types are
      awaited, whatever else happens. */
  lemma {:induction false} OneTypeIsAwaited(msgs: seq<Message>, steps: seq<Step>, ty: nat)
    requires Sendable(msgs) && Run(msgs, Start, steps).Some? && AllCandid(msgs, Start, steps)
    requires forall i :: 0 <= i < |msgs| ==> msgs[i].ty == ty
    requires forall n :: 0 <= n < |steps| && steps[n].Call? && DataCall(steps[n].want) ==>
                           steps[n].want.packetType == ty
    ensures AllAwaited(msgs, Start, steps)
  {
    hide Next, Candid, Awaited, Ordered, DataCall;
    CandidRunIsSound(msgs, steps);
    forall n | 0 <= n < |steps| && Run(msgs, Start, steps[..n]).Some?
      ensures Awaited(Run(msgs, Start, steps[..n]).value, steps[n])
    {
      SoundPrefix(msgs, Start, steps, n);
      StartOrdered(msgs);
      var at := RunKeepsOrder(msgs, Start, [], steps[..n]);
      OneTypeStep(msgs, Run(msgs, Start, steps[..n]).value, at, steps[n], ty);
    }
  }

  lemma {:induction false} OneTypeStep(msgs: seq<Message>, s: Net, at: seq<nat>, step: Step, ty: nat)
    requires Ordered(msgs, s, at) && forall i :: 0 <= i < |msgs| ==> msgs[i].ty == ty
    requires step.Call? && DataCall(step.want) ==> step.want.packetType == ty
    ensures Awaited(s, step)
  {
    hide LooksAt, ReadBytes, FlightAt, Starts, Packet, FlightsOrdered, Frame.Bytes;
    if step.Call? {
      forall q: nat | ExpectedAt(s, step.want, step.ev, q)
        ensures FlightAt(s.line, ReadBytes(step.ev, q)).value.frame.ty == step.want.packetType
      {
        var c := FlightLeft(s.line, ReadBytes(step.ev, q));
        CarriesMessage(msgs, s.line, c, Last(at), s.next);
      }
    }
  }

  /** So over any line, with messages and data calls of one type and calls that
      keep in step with the frames or find nothing else acceptable, nothing is
      skipped. */
  lemma {:induction false} OneTypeSkipsNothing(msgs: seq<Message>, steps: seq<Step>, ty: nat, s: Net)
    requires Sendable(msgs) && Run(msgs, Start, steps) == Some(s) && AllFair(msgs, steps)
    requires forall i :: 0 <= i < |msgs| ==> msgs[i].ty == ty
    requires forall n :: 0 <= n < |steps| && steps[n].Call? && DataCall(steps[n].want) ==>
                           steps[n].want.packetType == ty
    ensures s.next <= |s.delivered| <= s.next + 1 && s.delivered <= msgs
  {
    hide Run, AllFair, AllCandid, AllAwaited;
    FairIsCandid(msgs, steps);
    OneTypeIsAwaited(msgs, steps, ty);
    NothingSkipped(msgs, steps, s);
  }
}
