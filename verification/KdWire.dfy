/** The serial line of the kernel debugger as a stream of events, the byte
    layout of its packets, and what KdpReceiveBuffer and KdpReceivePacketLeader
    (src/kdCom/kdserial.cpp) read from the line. */
module KdWire {
  import opened Basics

  const PACKET_LEADER_BYTE: byte := 0x30
  const CONTROL_PACKET_LEADER_BYTE: byte := 0x69
  const BREAKIN_PACKET_BYTE: byte := 0x62
  const PACKET_TRAILING_BYTE: byte := 0xAA

  /** What one KdpReceiveByte gives: a byte, a timeout or a line error. */
  datatype Event = Received(b: byte) | NoData | LineError

  /** KDP_STATUS */
  datatype Status = RECEIVED | TIMEOUT | RESEND

  /** The line is the listed events followed by timeouts for ever. */
  function EventAt(ev: seq<Event>, k: nat): Event {
    if k < |ev| then ev[k] else NoData
  }

  // ----- KdpReceiveBuffer -----

  datatype Taken = Taken(status: Status, pos: nat, bytes: seq<byte>)

  /** The next n bytes, or the status of the first event that is not a byte. */
  function Take(ev: seq<Event>, pos: nat, n: nat): (t: Taken)
    ensures pos <= t.pos <= pos + n && |t.bytes| <= n
    ensures t.status == RECEIVED <==> |t.bytes| == n
    ensures t.status == RECEIVED ==> t.pos == pos + n && (n > 0 ==> t.pos <= |ev|)
    decreases n
  {
    if n == 0 then Taken(RECEIVED, pos, [])
    else match EventAt(ev, pos)
      case NoData => Taken(TIMEOUT, pos + 1, [])
      case LineError => Taken(RESEND, pos + 1, [])
      case Received(b) =>
        var t := Take(ev, pos + 1, n - 1);
        t.(bytes := [b] + t.bytes)
  }

  lemma {:induction false} TakeNone(ev: seq<Event>, pos: nat)
    ensures Take(ev, pos, 0) == Taken(RECEIVED, pos, [])
  {
  }

  /** The given bytes are the next events of the line. */
  ghost predicate Starts(ev: seq<Event>, pos: nat, bytes: seq<byte>) {
    pos + |bytes| <= |ev| && forall i :: 0 <= i < |bytes| ==> ev[pos + i] == Received(bytes[i])
  }

  lemma {:induction false} TakenStarts(ev: seq<Event>, pos: nat, n: nat)
    ensures Take(ev, pos, n).bytes != [] ==> Starts(ev, pos, Take(ev, pos, n).bytes)
    decreases n
  {
    if n > 0 && EventAt(ev, pos).Received? {
      TakenStarts(ev, pos + 1, n - 1);
      var t, u := Take(ev, pos, n).bytes, Take(ev, pos + 1, n - 1).bytes;
      forall i | 0 <= i < |t| ensures pos + i < |ev| && ev[pos + i] == Received(t[i]) {
        if i > 0 { assert ev[pos + 1 + (i - 1)] == Received(u[i - 1]); }
      }
    }
  }

  lemma {:induction false} TakeStarts(ev: seq<Event>, pos: nat, bytes: seq<byte>)
    requires Starts(ev, pos, bytes)
    ensures Take(ev, pos, |bytes|) == Taken(RECEIVED, pos + |bytes|, bytes)
    decreases |bytes|
  {
    if |bytes| > 0 {
      assert ev[pos + 0] == Received(bytes[0]);
      forall i | 0 <= i < |bytes[1..]| ensures ev[pos + 1 + i] == Received(bytes[1..][i]) {
        assert ev[pos + (i + 1)] == Received(bytes[i + 1]);
      }
      TakeStarts(ev, pos + 1, bytes[1..]);
    }
  }

  // ----- KdpReceivePacketLeader -----

  predicate IsLeader(b: byte) { b == PACKET_LEADER_BYTE || b == CONTROL_PACKET_LEADER_BYTE }

  /** The four events before k, all after start, are one leader byte. */
  predicate FourLeaders(ev: seq<Event>, start: nat, k: nat) {
    && start + 4 <= k <= |ev|
    && ev[k - 1].Received? && IsLeader(ev[k - 1].b)
    && ev[k - 4] == ev[k - 1] && ev[k - 3] == ev[k - 1] && ev[k - 2] == ev[k - 1]
  }

  datatype Found = Found(status: Status, leader: byte, pos: nat)

  /** Looks from k on for the first point where the call ends: four equal
      leader bytes received since start, or a timeout. */
  function Scan(ev: seq<Event>, start: nat, k: nat): (f: Found)
    requires start <= k
    decreases |ev| - k
  {
    if EventAt(ev, k).NoData? then
      var breakin := start < k && EventAt(ev, k - 1) == Received(BREAKIN_PACKET_BYTE);
      Found(if breakin then RESEND else TIMEOUT, 0, k + 1)
    else if FourLeaders(ev, start, k + 1) then Found(RECEIVED, ev[k].b, k + 1)
    else Scan(ev, start, k + 1)
  }

  /** The event before k, of this call, is a break-in byte. */
  predicate BreakInBefore(ev: seq<Event>, start: nat, k: nat) {
    start < k && EventAt(ev, k - 1) == Received(BREAKIN_PACKET_BYTE)
  }

  /** The call goes on after event j. */
  predicate GoesOn(ev: seq<Event>, start: nat, j: nat) {
    !EventAt(ev, j).NoData? && !FourLeaders(ev, start, j + 1)
  }

  /** The synchroniser stops at p with RECEIVED exactly when p is the first
      point ending four equal leader bytes of this call and no timeout came
      before; with RESEND exactly when the first timeout is there, right after
      a break-in byte; with TIMEOUT when it is there after anything else. */
  lemma {:induction false} ScanIsFirst(ev: seq<Event>, start: nat, k: nat, p: nat)
    requires start <= k < p
    requires forall j :: start <= j < k ==> GoesOn(ev, start, j)
    ensures Scan(ev, start, k).pos == p <==>
            && (forall j :: start <= j < p - 1 ==> GoesOn(ev, start, j))
            && (EventAt(ev, p - 1).NoData? || FourLeaders(ev, start, p))
    ensures Scan(ev, start, k).pos == p ==>
            match Scan(ev, start, k).status
            case RECEIVED => FourLeaders(ev, start, p) && ev[p - 1] == Received(Scan(ev, start, k).leader)
            case RESEND => EventAt(ev, p - 1).NoData? && BreakInBefore(ev, start, p - 1)
            case TIMEOUT => EventAt(ev, p - 1).NoData? && !BreakInBefore(ev, start, p - 1)
    decreases |ev| - k
  {
    if GoesOn(ev, start, k) {
      if p > k + 1 {
        ScanIsFirst(ev, start, k + 1, p);
      } else {
        ScanAdvances(ev, start, k + 1);
      }
    }
  }

  lemma {:induction false} ScanAdvances(ev: seq<Event>, start: nat, k: nat)
    requires start <= k
    ensures Scan(ev, start, k).pos > k
    ensures Scan(ev, start, k).status == RECEIVED ==>
              FourLeaders(ev, start, Scan(ev, start, k).pos) && IsLeader(Scan(ev, start, k).leader)
    decreases |ev| - k
  {
    if !EventAt(ev, k).NoData? && !FourLeaders(ev, start, k + 1) { ScanAdvances(ev, start, k + 1); }
  }

  // ----- Packet layout -----

  /** Little-endian bytes of a number, and back. */
  function Little(x: nat, n: nat): (s: seq<byte>)
    ensures |s| == n
  {
    if n == 0 then [] else [x % 256] + Little(x / 256, n - 1)
  }

  function Value(s: seq<byte>): nat {
    if |s| == 0 then 0 else s[0] + 256 * Value(s[1..])
  }

  lemma {:induction false} LittleOfValue(s: seq<byte>)
    ensures Little(Value(s), |s|) == s
  {
    if |s| > 0 {
      LittleOfValue(s[1..]);
      var v := Value(s[1..]);
      DivMod(s[0] + 256 * v, 256, v, s[0]);
      assert s == [s[0]] + s[1..];
    }
  }

  lemma {:induction false} ValueOfLittle(x: nat, n: nat)
    requires (n == 2 && x < 0x1_0000) || (n == 4 && x < 0x1_0000_0000)
    ensures Value(Little(x, n)) == x
  {
    LittleUp(x, n);
  }

  lemma {:induction false} LittleTwo(x: nat)
    ensures Little(x, 2)[0] == x % 256 && Little(x, 2)[1] == x / 256 % 256
  {
    assert Little(x, 2)[1..] == Little(x / 256, 1);
  }

  lemma {:induction false} LittleFour(x: nat)
    ensures Little(x, 4)[0] == x % 256 && Little(x, 4)[3] == x / 256 / 256 / 256 % 256
  {
    assert Little(x, 4)[1..] == Little(x / 256, 3);
    assert Little(x / 256, 3)[1..] == Little(x / 256 / 256, 2);
    assert Little(x / 256 / 256, 2)[1..] == Little(x / 256 / 256 / 256, 1);
  }

  function Power256(n: nat): (p: nat)
    ensures p > 0
  {
    if n == 0 then 1 else 256 * Power256(n - 1)
  }

  /** Byte i of a field is the one of weight 256^i: least significant first. */
  lemma {:induction false} LittleAt(x: nat, n: nat, i: nat)
    requires i < n
    ensures Little(x, n)[i] == x / Power256(i) % 256
    decreases n
  {
    if i > 0 {
      LittleAt(x / 256, n - 1, i - 1);
      assert Little(x, n)[1..] == Little(x / 256, n - 1);
      DivTwice(x, Power256(i - 1));
    }
  }

  lemma DivTwice(x: nat, b: nat)
    requires b > 0
    ensures x / 256 / b == x / (256 * b)
  {
    var q, r := x / 256, x % 256;
    var s, t := q / b, q % b;
    var m := b * s;
    assert q == m + t;
    assert (256 * b) * s == 256 * m;
    DivMod(x, 256 * b, s, 256 * t + r);
  }

  lemma {:induction false} LittleUp(x: nat, n: nat)
    ensures x < Power256(n) ==> Value(Little(x, n)) == x
    ensures Power256(2) == 0x1_0000 && Power256(4) == 0x1_0000_0000
  {
    assert Power256(2) == 256 * (256 * 1);
    assert Power256(4) == 256 * (256 * Power256(2));
    if n > 0 {
      LittleUp(x / 256, n - 1);
      assert Little(x, n)[1..] == Little(x / 256, n - 1);
    }
  }

  lemma {:induction false} ValueBound(s: seq<byte>)
    ensures Value(s) < Power256(|s|)
  {
    if |s| > 0 { ValueBound(s[1..]); }
  }

  /** The sum of the bytes, as a natural number. */
  function Sum(s: seq<byte>): nat {
    if |s| == 0 then 0 else Sum(s[..|s| - 1]) + s[|s| - 1]
  }

  lemma {:induction false} SumBound(s: seq<byte>)
    ensures Sum(s) <= 255 * |s|
  {
    if |s| > 0 { SumBound(s[..|s| - 1]); }
  }

  lemma {:induction false} SumConcat(s: seq<byte>, t: seq<byte>)
    ensures Sum(s + t) == Sum(s) + Sum(t)
    decreases |t|
  {
    if |t| == 0 {
      assert s + t == s;
    } else {
      var u := t[..|t| - 1];
      SumConcat(s, u);
      assert (s + t)[..|s + t| - 1] == s + u;
    }
  }

  /** Changing one byte changes the sum by the difference. */
  lemma SumUpdate(s: seq<byte>, i: nat, b: byte)
    requires i < |s|
    ensures Sum(s[i := b]) == Sum(s) - s[i] + b
  {
    var l, r := s[..i], s[i + 1..];
    assert s == l + [s[i]] + r && s[i := b] == l + [b] + r;
    SumConcat(l, [s[i]]);
    SumConcat(l + [s[i]], r);
    SumConcat(l, [b]);
    SumConcat(l + [b], r);
    assert Sum([b]) == b && Sum([s[i]]) == s[i];
  }

  /** Adding the sum of no data changes nothing. */
  lemma SumOfNothing(x: nat)
    ensures (x % 0x1_0000_0000 + Sum([]) % 0x1_0000_0000) % 0x1_0000_0000 == x % 0x1_0000_0000
  {
  }

  /** KdpCalculateChecksum: a 32-bit sum. */
  method CalculateChecksum(buffer: seq<byte>) returns (checksum: nat)
    ensures checksum == Sum(buffer) % 0x1_0000_0000
  {
    checksum := 0;
    var i := 0;
    while i < |buffer|
      invariant 0 <= i <= |buffer|
      invariant checksum == Sum(buffer[..i]) % 0x1_0000_0000
    {
      assert buffer[..i + 1][..i] == buffer[..i];
      checksum := (checksum + buffer[i]) % 0x1_0000_0000;
      i := i + 1;
    }
    assert buffer[..i] == buffer;
  }
}
