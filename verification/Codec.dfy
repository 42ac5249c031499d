/** The CodeView compressed integers of ext/coreclr/cvinfo.h, the format of
    section II.23.2 of ECMA-335. */
module Codec {
  import opened Basics

  const Largest: nat := 0x1FFF_FFFF

  /** The bytes of a value, or none if it is too large. */
  function Compress(x: nat): (s: Option<seq<byte>>)
    ensures s.Some? <==> x <= Largest
    ensures s.Some? ==> |s.value| == if x <= 0x7F then 1 else if x <= 0x3FFF then 2 else 4
  {
    if x <= 0x7F then Some([x])
    else if x <= 0x3FFF then Some([x / 0x100 + 0x80, x % 0x100])
    else if x <= Largest then Some([x / 0x100_0000 + 0xC0, x / 0x1_0000 % 0x100, x / 0x100 % 0x100, x % 0x100])
    else None
  }

  /** CVCompressData: writes the bytes at the position and returns their number, or -1. */
  method CompressData(x: nat, out: array<byte>, at: nat) returns (n: int)
    requires UInt32(x) && (Compress(x).Some? ==> at + |Compress(x).value| <= out.Length)
    modifies out
    ensures match Compress(x)
            case None => n == -1 && out[..] == old(out[..])
            case Some(s) => n == |s| && out[..] == old(out[..at]) + s + old(out[at + |s|..])
  {
    if x <= 0x7F {
      out[at] := x;
      return 1;
    }
    if x <= 0x3FFF {
      out[at] := x / 0x100 + 0x80;
      out[at + 1] := x % 0x100;
      return 2;
    }
    if x <= Largest {
      out[at] := x / 0x100_0000 + 0xC0;
      out[at + 1] := x / 0x1_0000 % 0x100;
      out[at + 2] := x / 0x100 % 0x100;
      out[at + 3] := x % 0x100;
      return 4;
    }
    return -1;
  }

  /** CVUncompressData: the value at the position and the position behind it.
      A first byte of the form 111x xxxx gives 0xFFFFFFFF and does not advance; None
      stands for reading past the end of the data. */
  function Uncompress(s: seq<byte>, pos: nat): (r: Option<(int, nat)>)
    ensures r.Some? ==> pos <= r.value.1 <= |s| && UInt32(r.value.0)
  {
    if pos >= |s| then None
    else if s[pos] < 0x80 then Some((s[pos], pos + 1))
    else if s[pos] < 0xC0 then
      if pos + 2 > |s| then None else Some(((s[pos] as int - 0x80) * 0x100 + s[pos + 1], pos + 2))
    else if s[pos] < 0xE0 then
      if pos + 4 > |s| then None
      else
        var (a, b, c) := (s[pos] as int - 0xC0, s[pos + 1] as int, s[pos + 2] as int);
        Some((a * 0x100_0000 + b * 0x1_0000 + c * 0x100 + s[pos + 3], pos + 4))
    else Some((0xFFFF_FFFF, pos))
  }

  /** A compressed value is read back from wherever it stands, and the reader
      stops right behind it. */
  lemma UncompressCompressed(x: nat, before: seq<byte>, after: seq<byte>)
    requires x <= Largest
    ensures var c := Compress(x).value;
            Uncompress(before + c + after, |before|) == Some((x, |before| + |c|))
  {
    var c := Compress(x).value;
    var s := before + c + after;
    assert forall i :: 0 <= i < |c| ==> s[|before| + i] == c[i];
    assert s[|before| + 0] == c[0];
    FourBytes(x);
  }

  /** The number bytes stand for, most significant first. */
  function BigEndian(s: seq<byte>): nat {
    if |s| == 0 then 0 else 256 * BigEndian(s[..|s| - 1]) + s[|s| - 1]
  }

  lemma {:induction false} BigEndianOf(a: byte, b: byte, c: byte, d: byte)
    ensures BigEndian([a]) == a && BigEndian([a, b]) == 0x100 * a + b
    ensures BigEndian([a, b, c, d]) == 0x100_0000 * a + 0x1_0000 * b + 0x100 * c + d
  {
    assert [a][..0] == [] && [a, b][..1] == [a] && [a, b, c][..2] == [a, b] && [a, b, c, d][..3] == [a, b, c];
  }

  /** What the upper bits of an encoding of n bytes say about its length. */
  function LengthTag(n: nat): nat { if n == 1 then 0 else if n == 2 then 0x8000 else 0xC000_0000 }

  /** The bytes are the value, most significant first, under the bits that tell
      the length, and as few as can hold it. */
  lemma {:induction false} CompressedLayout(x: nat)
    requires x <= Largest
    ensures var s := Compress(x).value;
            && BigEndian(s) == LengthTag(|s|) + x
            && |s| == if x < 0x80 then 1 else if x < 0x4000 then 2 else 4
  {
    var s := Compress(x).value;
    FourBytes(x);
    BigEndianOf(s[0], if |s| > 1 then s[1] else 0, if |s| > 2 then s[2] else 0, if |s| > 3 then s[3] else 0);
    assert |s| == 1 ==> s == [s[0]];
    assert |s| == 2 ==> s == [s[0], s[1]];
    assert |s| == 4 ==> s == [s[0], s[1], s[2], s[3]];
  }

  /** Reading takes one, two or four bytes as the first one says and drops the
      bits that say so; a first byte from 0xE0 on is reported as all ones and not
      consumed; nothing else fails but running out of data. */
  lemma {:induction false} UncompressedLayout(s: seq<byte>, pos: nat)
    requires pos < |s|
    ensures var n := if s[pos] < 0x80 then 1 else if s[pos] < 0xC0 then 2 else 4;
            Uncompress(s, pos) ==
            if s[pos] >= 0xE0 then Some((0xFFFF_FFFF, pos))
            else if pos + n > |s| then None
            else Some((BigEndian(s[pos..pos + n]) - LengthTag(n), pos + n))
  {
    var n := if s[pos] < 0x80 then 1 else if s[pos] < 0xC0 then 2 else 4;
    if pos + n <= |s| {
      var t := s[pos..pos + n];
      BigEndianOf(t[0], if n > 1 then t[1] else 0, if n > 2 then t[2] else 0, if n > 3 then t[3] else 0);
      assert n == 1 ==> t == [t[0]];
      assert n == 2 ==> t == [t[0], t[1]];
      assert n == 4 ==> t == [t[0], t[1], t[2], t[3]];
    }
  }

  lemma FourBytes(x: nat)
    ensures x / 0x100_0000 * 0x100_0000 + x / 0x1_0000 % 0x100 * 0x1_0000 + x / 0x100 % 0x100 * 0x100 + x % 0x100 == x
  {
    var r0, y := x % 0x100, x / 0x100;
    var r1, z := y % 0x100, y / 0x100;
    var r2, t := z % 0x100, z / 0x100;
    DivMod(x, 0x1_0000, z, r1 * 0x100 + r0);
    DivMod(x, 0x100_0000, t, r2 * 0x1_0000 + r1 * 0x100 + r0);
  }

  /** The outputs of a list of values, one behind the other. */
  function CompressAll(xs: seq<nat>): seq<byte>
    requires forall i :: 0 <= i < |xs| ==> xs[i] <= Largest
  {
    if |xs| == 0 then [] else Compress(xs[0]).value + CompressAll(xs[1..])
  }

  /** n values read one after the other. */
  function UncompressAll(s: seq<byte>, pos: nat, n: nat): (r: Option<(seq<int>, nat)>)
    ensures r.Some? ==> |r.value.0| == n && forall i :: 0 <= i < n ==> UInt32(r.value.0[i])
    decreases n
  {
    if n == 0 then Some(([], pos))
    else match Uncompress(s, pos)
      case None => None
      case Some((x, p)) =>
        match UncompressAll(s, p, n - 1)
        case None => None
        case Some((xs, q)) => Some(([x] + xs, q))
  }

  /** Reading as many values as were written gives the same list and consumes
      exactly the bytes written. */
  lemma {:induction false} StreamRoundTrip(xs: seq<nat>, before: seq<byte>, after: seq<byte>)
    requires forall i :: 0 <= i < |xs| ==> xs[i] <= Largest
    ensures UncompressAll(before + CompressAll(xs) + after, |before|, |xs|) == Some((xs, |before| + |CompressAll(xs)|))
    decreases |xs|
  {
    if |xs| > 0 {
      hide Compress, Uncompress;
      var c, rest := Compress(xs[0]).value, CompressAll(xs[1..]);
      UncompressCompressed(xs[0], before, rest + after);
      StreamRoundTrip(xs[1..], before + c, after);
      Regroup(before, c, rest, after);
      assert [xs[0]] + xs[1..] == xs;
    }
  }

  lemma Regroup(before: seq<byte>, c: seq<byte>, rest: seq<byte>, after: seq<byte>)
    ensures before + (c + rest) + after == before + c + (rest + after) == before + c + rest + after
  {
  }

  // ----- Signed values -----

  /** EncodeSignedInt32, in 32-bit arithmetic. */
  function EncodeSigned(x: int): (e: nat)
    requires Int32(x)
    ensures UInt32(e)
  {
    if x >= 0 then x * 2
    else if x == -0x8000_0000 then 1  // the negation overflows to itself and is shifted out
    else -x * 2 + 1
  }

  function DecodeSigned(e: int): (x: int)
    requires UInt32(e)
    ensures Int32(x)
  {
    if e % 2 == 1 then -(e / 2) else e / 2
  }

  /** Every value but the most negative one survives the signed encoding. */
  lemma SignedRoundTrip(x: int)
    requires Int32(x)
    ensures DecodeSigned(EncodeSigned(x)) == x <==> x != -0x8000_0000
  {
  }

  /** The lowest bit is the sign and the others the magnitude, which the most
      negative value loses. */
  lemma SignedLayout(x: int)
    requires Int32(x)
    ensures EncodeSigned(x) % 2 == (if x < 0 then 1 else 0)
    ensures EncodeSigned(x) / 2 == if x == -0x8000_0000 then 0 else if x < 0 then -x else x
  {
  }

  function EncodeAll(xs: seq<int>): (es: seq<nat>)
    requires forall i :: 0 <= i < |xs| ==> Int32(xs[i])
    ensures |es| == |xs| && forall i :: 0 <= i < |xs| ==> es[i] == EncodeSigned(xs[i])
  {
    if |xs| == 0 then [] else [EncodeSigned(xs[0])] + EncodeAll(xs[1..])
  }

  function DecodeAll(es: seq<int>): (xs: seq<int>)
    requires forall i :: 0 <= i < |es| ==> UInt32(es[i])
    ensures |xs| == |es| && forall i :: 0 <= i < |es| ==> xs[i] == DecodeSigned(es[i])
  {
    if |es| == 0 then [] else [DecodeSigned(es[0])] + DecodeAll(es[1..])
  }

  /** Every value of the list can be written. */
  ghost predicate Writable(xs: seq<int>)
    requires forall i :: 0 <= i < |xs| ==> Int32(xs[i])
  {
    forall i :: 0 <= i < |xs| ==> Compress(EncodeSigned(xs[i])).Some?
  }

  /** The values read back are those written. */
  ghost predicate Restored(xs: seq<int>, before: seq<byte>, after: seq<byte>)
    requires (forall i :: 0 <= i < |xs| ==> Int32(xs[i])) && Writable(xs)
  {
    var bytes := CompressAll(EncodeAll(xs));
    var r := UncompressAll(before + bytes + after, |before|, |xs|);
    r.Some? && DecodeAll(r.value.0) == xs && r.value.1 == |before| + |bytes|
  }

  /** A list of signed values, written one behind the other, is read back
      exactly when no value's magnitude is above 0x0FFFFFFF. */
  lemma {:induction false} SignedStreamRoundTrip(xs: seq<int>, before: seq<byte>, after: seq<byte>)
    requires forall i :: 0 <= i < |xs| ==> Int32(xs[i])
    ensures (forall i :: 0 <= i < |xs| ==> -0x0FFF_FFFF <= xs[i] <= 0x0FFF_FFFF) <==>
            Writable(xs) && Restored(xs, before, after)
  {
    hide Compress, Uncompress, CompressAll, UncompressAll, EncodeAll, DecodeAll;
    forall i | 0 <= i < |xs|
      ensures -0x0FFF_FFFF <= xs[i] <= 0x0FFF_FFFF <==>
              Compress(EncodeSigned(xs[i])).Some? && DecodeSigned(EncodeSigned(xs[i])) == xs[i]
    {
      SignedRoundTrip(xs[i]);
    }
    if Writable(xs) {
      hide EncodeSigned, DecodeSigned;
      var es := EncodeAll(xs);
      StreamRoundTrip(es, before, after);
      if Restored(xs, before, after) {
        assert forall i :: 0 <= i < |xs| ==> DecodeAll(es)[i] == DecodeSigned(EncodeSigned(xs[i]));
      }
    }
  }
}
