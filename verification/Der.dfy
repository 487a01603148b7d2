/** The hand-written DER encoder for raw P1363 signatures, against a strict DER reader
    (section 8.3 of ITU-T X.690). */
module Der {
  import opened Common

  type Byte = b: int | 0 <= b < 256

  function Pow256(n: nat): nat { if n == 0 then 1 else 256 * Pow256(n - 1) }

  /** int.from_bytes(bs, "big"). */
  function FromBytes(bs: seq<Byte>): nat
  {
    if bs == [] then 0 else 256 * FromBytes(bs[..|bs| - 1]) + bs[|bs| - 1]
  }

  /** The last `n` base-256 digits of `v`, most significant first. */
  function ToBytes(v: nat, n: nat): (bs: seq<Byte>)
    ensures |bs| == n
  {
    if n == 0 then [] else ToBytes(v / 256, n - 1) + [v % 256]
  }

  function BitLength(v: nat): nat { if v == 0 then 0 else 1 + BitLength(v / 2) }

  function ByteLength(v: nat): nat
  {
    var n := (BitLength(v) + 7) / 8;
    if n < 1 then 1 else n
  }

  /** dpop._der_int; the one-byte length needs the content to stay under 256 bytes. */
  function DerInt(v: nat): seq<Byte>
    requires ByteLength(v) < 255
  {
    var digits := ToBytes(v, ByteLength(v));
    var raw := if digits[0] >= 0x80 then [0] + digits else digits;
    [0x02, |raw|] + raw
  }

  /** dpop._raw_to_der. */
  function RawToDer(signature: seq<Byte>): seq<Byte>
    requires |signature| == 64
  {
    var r, s := FromBytes(signature[..32]), FromBytes(signature[32..]);
    HalfFits(signature[..32]);
    HalfFits(signature[32..]);
    var body := DerInt(r) + DerInt(s);
    [0x30, |body|] + body
  }

  // ----- the reader -----

  /** One non-negative INTEGER in short form with a minimal content; the rest of the input. */
  function ReadInteger(bs: seq<Byte>): Option<(nat, seq<Byte>)>
  {
    if |bs| < 3 || bs[0] != 0x02 || bs[1] >= 0x80 || bs[1] == 0 || |bs| < 2 + bs[1] then None
    else
      var content := bs[2..2 + bs[1]];
      if content[0] >= 0x80 || (|content| > 1 && content[0] == 0 && content[1] < 0x80) then None
      else Some((FromBytes(content), bs[2 + bs[1]..]))
  }

  /** A SEQUENCE of exactly two such INTEGERs and nothing after it. */
  function ReadSignature(bs: seq<Byte>): Option<(nat, nat)>
  {
    if |bs| < 2 || bs[0] != 0x30 || bs[1] >= 0x80 || |bs| != 2 + bs[1] then None
    else match ReadInteger(bs[2..])
      case None => None
      case Some((r, rest)) =>
        match ReadInteger(rest)
        case None => None
        case Some((s, rest')) => if rest' == [] then Some((r, s)) else None
  }

  // ----- digits -----

  lemma BitLengthDrop(v: nat)
    requires v >= 256
    ensures BitLength(v) == BitLength(v / 256) + 8
  {
    var a, b := v / 16, v / 256;
    assert v / 2 / 2 / 2 / 2 == a && a / 2 / 2 / 2 / 2 == b;
    assert BitLength(v) == 4 + BitLength(a) by {
      assert BitLength(v) == 2 + BitLength(v / 2 / 2);
      assert BitLength(v / 2 / 2) == 2 + BitLength(a);
    }
    assert BitLength(a) == 4 + BitLength(b) by {
      assert BitLength(a) == 2 + BitLength(a / 2 / 2);
      assert BitLength(a / 2 / 2) == 2 + BitLength(b);
    }
  }

  lemma BitLengthSmall(v: nat, k: nat)
    requires v < 256 && k <= 8
    requires k == 8 || v < [1, 2, 4, 8, 16, 32, 64, 128, 256][k]
    ensures BitLength(v) <= k
    decreases k
  {
    if v > 0 {
      BitLengthSmall(v / 2, k - 1);
    }
  }

  /** One more byte per factor of 256, and never fewer than one. */
  lemma ByteLengthStep(v: nat)
    ensures ByteLength(v) == if v < 256 then 1 else ByteLength(v / 256) + 1
  {
    if v < 256 {
      BitLengthSmall(v, 8);
    } else {
      BitLengthDrop(v);
      assert BitLength(v / 256) > 0;
    }
  }

  /** The minimal digits denote the number, and the first is zero only for zero itself. */
  lemma {:induction false} MinimalDigits(v: nat)
    ensures var digits := ToBytes(v, ByteLength(v));
      && FromBytes(digits) == v
      && |digits| >= 1 && (digits[0] == 0 ==> v == 0 && |digits| == 1)
  {
    ByteLengthStep(v);
    if v < 256 {
      assert ToBytes(v, 1) == ToBytes(0, 0) + [v];
      assert [v][..0] == [];
    } else {
      var high := ToBytes(v / 256, ByteLength(v / 256));
      MinimalDigits(v / 256);
      assert ToBytes(v, ByteLength(v)) == high + [v % 256];
      assert (high + [v % 256])[..|high|] == high;
    }
  }

  lemma {:induction false} ByteLengthBound(v: nat, n: nat)
    requires n >= 1 && v < Pow256(n)
    ensures ByteLength(v) <= n
  {
    ByteLengthStep(v);
    if v >= 256 {
      assert n > 1 by { assert Pow256(1) == 256 * Pow256(0); }
      ByteLengthBound(v / 256, n - 1);
    }
  }

  lemma {:induction false} FromBytesBound(bs: seq<Byte>)
    ensures FromBytes(bs) < Pow256(|bs|)
    decreases |bs|
  {
    if bs != [] {
      FromBytesBound(bs[..|bs| - 1]);
    }
  }

  /** Half a signature needs at most 32 digits. */
  lemma HalfFits(half: seq<Byte>)
    requires |half| == 32
    ensures ByteLength(FromBytes(half)) <= 32
  {
    FromBytesBound(half);
    ByteLengthBound(FromBytes(half), 32);
  }

  lemma {:induction false} FromBytesInjective(a: seq<Byte>, b: seq<Byte>)
    requires |a| == |b| && FromBytes(a) == FromBytes(b)
    ensures a == b
    decreases |a|
  {
    if a != [] {
      FromBytesInjective(a[..|a| - 1], b[..|b| - 1]);
      assert a == a[..|a| - 1] + [a[|a| - 1]] && b == b[..|b| - 1] + [b[|b| - 1]];
    }
  }

  lemma FromBytesLeadingZero(bs: seq<Byte>)
    ensures FromBytes([0] + bs) == FromBytes(bs)
    decreases |bs|
  {
    if bs == [] {
      assert [0][..0] == [] && [0] + bs == [0];
    } else {
      FromBytesLeadingZero(bs[..|bs| - 1]);
      assert ([0] + bs)[..|bs|] == [0] + bs[..|bs| - 1];
    }
  }

  // ----- the results -----

  /** The reader takes back exactly the integer that was written, whatever follows it. */
  lemma DerIntReadsBack(v: nat, rest: seq<Byte>)
    requires ByteLength(v) <= 32
    ensures 3 <= |DerInt(v)| <= 35
    ensures ReadInteger(DerInt(v) + rest) == Some((v, rest))
  {
    var digits := ToBytes(v, ByteLength(v));
    MinimalDigits(v);
    FromBytesLeadingZero(digits);
    var raw := if digits[0] >= 0x80 then [0] + digits else digits;
    assert raw[0] < 0x80 && (|raw| > 1 && raw[0] == 0 ==> raw[1] >= 0x80) && FromBytes(raw) == v;
    assert DerInt(v) == [0x02, |raw|] + raw;
    ReadContent(raw, rest);
  }

  lemma ReadContent(raw: seq<Byte>, rest: seq<Byte>)
    requires 1 <= |raw| < 0x80 && raw[0] < 0x80
    requires |raw| > 1 && raw[0] == 0 ==> raw[1] >= 0x80
    ensures ReadInteger([0x02, |raw|] + raw + rest) == Some((FromBytes(raw), rest))
  {
    var bs := [0x02, |raw|] + raw + rest;
    assert bs[2..2 + |raw|] == raw && bs[2 + |raw|..] == rest;
  }

  /** Every 64-byte signature encodes to a strict DER sequence that reads back as its two halves. */
  lemma RawToDerDecodes(signature: seq<Byte>)
    requires |signature| == 64
    ensures |RawToDer(signature)| <= 72
    ensures ReadSignature(RawToDer(signature))
         == Some((FromBytes(signature[..32]), FromBytes(signature[32..])))
  {
    HalfFits(signature[..32]);
    HalfFits(signature[32..]);
    PairReadsBack(FromBytes(signature[..32]), FromBytes(signature[32..]));
  }

  lemma PairReadsBack(r: nat, s: nat)
    requires ByteLength(r) <= 32 && ByteLength(s) <= 32
    ensures |DerInt(r) + DerInt(s)| <= 70
    ensures ReadSignature([0x30, |DerInt(r) + DerInt(s)|] + (DerInt(r) + DerInt(s))) == Some((r, s))
  {
    DerIntReadsBack(r, DerInt(s));
    DerIntReadsBack(s, []);
    ReadTwo(DerInt(r), DerInt(s), r, s);
  }

  lemma ReadTwo(a: seq<Byte>, b: seq<Byte>, r: nat, s: nat)
    requires |a + b| <= 70
    requires ReadInteger(a + b) == Some((r, b)) && ReadInteger(b + []) == Some((s, []))
    ensures ReadSignature([0x30, |a + b|] + (a + b)) == Some((r, s))
  {
    assert b + [] == b;
    assert ([0x30, |a + b|] + (a + b))[2..] == a + b;
  }

  /** Distinct signatures have distinct encodings. */
  lemma RawToDerInjective(a: seq<Byte>, b: seq<Byte>)
    requires |a| == |b| == 64 && RawToDer(a) == RawToDer(b)
    ensures a == b
  {
    SameHalves(a, b);
    FromBytesInjective(a[..32], b[..32]);
    FromBytesInjective(a[32..], b[32..]);
    assert a == a[..32] + a[32..] && b == b[..32] + b[32..];
  }

  lemma SameHalves(a: seq<Byte>, b: seq<Byte>)
    requires |a| == |b| == 64 && RawToDer(a) == RawToDer(b)
    ensures FromBytes(a[..32]) == FromBytes(b[..32]) && FromBytes(a[32..]) == FromBytes(b[32..])
  {
    RawToDerDecodes(a);
    RawToDerDecodes(b);
  }
}
