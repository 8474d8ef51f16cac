/** Byte-level DDC/CI framing: the Set VCP Feature request, the Get VCP
    Feature request and the parser for the Get VCP Feature reply, as built
    by Sources/BrightnessControlCore/DDCManager.swift. */
module DdcFrame {
  import opened Common

  // MCCS feature codes for the three controls the application drives.
  const BrightnessCode: Byte := 0x10
  const ContrastCode: Byte := 0x12
  const VolumeCode: Byte := 0x62

  /** First byte of every request: the host's source address. */
  const SourceAddress: Byte := 0x51
  /** The monitor's I2C write address; also the seed of every checksum. */
  const DestinationAddress: Byte := 0x6E
  /** The address replies are read from. */
  const ReplyAddress: Byte := 0x6F

  const SetVcpOpcode: Byte := 0x03
  const GetVcpOpcode: Byte := 0x01
  const ReplyOpcode: Byte := 0x02

  /** Length bytes: 0x80 marks a length byte, the low bits count the payload. */
  const WriteLength: Byte := 0x84
  const ReadLength: Byte := 0x82

  const WriteFrameSize: nat := 7
  const ReadRequestSize: nat := 5
  const ReplySize: nat := 11
  /** Offsets 0..3 of the reply buffer are searched for the reply opcode. */
  const ReplyScanLimit: nat := 4

  /** `UInt8(value >> 8)` */
  function HighByte(v: U16): Byte { v / 256 }

  /** `UInt8(value & 0xFF)` */
  function LowByte(v: U16): Byte { v % 256 }

  /** `(UInt16(h) << 8) | UInt16(l)`: the high byte times 256 plus the low byte. */
  function Combine(h: Byte, l: Byte): U16 { h * 256 + l }

  /** Splitting a value into its big-endian bytes and combining them again
      gives the value back. */
  lemma CombineSplit(v: U16)
    ensures Combine(HighByte(v), LowByte(v)) == v
  {
  }

  /** Combining two bytes and splitting the result gives the bytes back. */
  lemma SplitCombine(h: Byte, l: Byte)
    ensures HighByte(Combine(h, l)) == h
    ensures LowByte(Combine(h, l)) == l
  {
  }

  function Pow2(n: nat): (p: nat)
    ensures 1 <= p
  {
    if n == 0 then 1 else 2 * Pow2(n - 1)
  }

  /** Exclusive or of the low `n` bits of `a` and `b`, bit by bit from
      the least significant. */
  function XorBits(a: nat, b: nat, n: nat): (r: nat)
    ensures r < Pow2(n)
  {
    if n == 0 then 0
    else 2 * XorBits(a / 2, b / 2, n - 1) + (if a % 2 == b % 2 then 0 else 1)
  }

  /** Swift's `^` on `UInt8`. */
  function Xor(a: Byte, b: Byte): Byte
  {
    assert Pow2(8) == ByteLimit;
    XorBits(a, b, 8)
  }

  lemma {:induction false} XorBitsSelf(a: nat, n: nat)
    ensures XorBits(a, a, n) == 0
  {
    if n > 0 { XorBitsSelf(a / 2, n - 1); }
  }

  lemma {:induction false} XorBitsCommutes(a: nat, b: nat, n: nat)
    ensures XorBits(a, b, n) == XorBits(b, a, n)
  {
    if n > 0 { XorBitsCommutes(a / 2, b / 2, n - 1); }
  }

  lemma {:induction false} XorBitsAssociates(a: nat, b: nat, c: nat, n: nat)
    ensures XorBits(XorBits(a, b, n), c, n) == XorBits(a, XorBits(b, c, n), n)
  {
    if n > 0 {
      var ab, bc := XorBits(a, b, n), XorBits(b, c, n);
      assert ab / 2 == XorBits(a / 2, b / 2, n - 1) && ab % 2 == (if a % 2 == b % 2 then 0 else 1);
      assert bc / 2 == XorBits(b / 2, c / 2, n - 1) && bc % 2 == (if b % 2 == c % 2 then 0 else 1);
      XorBitsAssociates(a / 2, b / 2, c / 2, n - 1);
    }
  }

  /** Zero is the identity of exclusive or on values below 2^n. */
  lemma {:induction false} XorBitsZeroLeft(b: nat, n: nat)
    requires b < Pow2(n)
    ensures XorBits(0, b, n) == b
  {
    if n > 0 { XorBitsZeroLeft(b / 2, n - 1); }
  }

  /** Two values below 2^n with a zero exclusive or are equal. */
  lemma {:induction false} XorBitsZero(a: nat, b: nat, n: nat)
    requires a < Pow2(n) && b < Pow2(n)
    requires XorBits(a, b, n) == 0
    ensures a == b
  {
    if n > 0 { XorBitsZero(a / 2, b / 2, n - 1); }
  }

  /** XOR is self-inverse, commutative and associative on bytes; only
      equal bytes XOR to zero. */
  lemma XorSelf(a: Byte)
    ensures Xor(a, a) == 0
  {
    XorBitsSelf(a, 8);
  }

  lemma XorCommutes(a: Byte, b: Byte)
    ensures Xor(a, b) == Xor(b, a)
  {
    XorBitsCommutes(a, b, 8);
  }

  lemma XorAssociates(a: Byte, b: Byte, c: Byte)
    ensures Xor(Xor(a, b), c) == Xor(a, Xor(b, c))
  {
    XorBitsAssociates(a, b, c, 8);
  }

  lemma XorZeroLeft(b: Byte)
    ensures Xor(0, b) == b
  {
    assert Pow2(8) == ByteLimit;
    XorBitsZeroLeft(b, 8);
  }

  /** The last two operands of a chain of XORs can be exchanged. */
  lemma XorSwap(a: Byte, b: Byte, c: Byte)
    ensures Xor(Xor(a, b), c) == Xor(Xor(a, c), b)
  {
    XorAssociates(a, b, c);
    XorCommutes(b, c);
    XorAssociates(a, c, b);
  }

  lemma XorZero(a: Byte, b: Byte)
    requires Xor(a, b) == 0
    ensures a == b
  {
    assert Pow2(8) == ByteLimit;
    XorBitsZero(a, b, 8);
  }

  /** `var checksum = acc; for b in bs { checksum ^= b }` */
  function XorFold(acc: Byte, bs: seq<Byte>): Byte
    decreases |bs|
  {
    if |bs| == 0 then acc else XorFold(Xor(acc, bs[0]), bs[1..])
  }

  /** The checksum of a request: the destination address XOR every byte before it. */
  function Checksum(bs: seq<Byte>): Byte { XorFold(DestinationAddress, bs) }

  lemma XorFoldSingle(acc: Byte, b: Byte)
    ensures XorFold(acc, [b]) == Xor(acc, b)
  {
    assert [b][1..] == [];
  }

  /** Folding one more byte in is one more XOR, whatever came before. */
  lemma {:induction false} XorFoldAppend(acc: Byte, bs: seq<Byte>, b: Byte)
    ensures XorFold(acc, bs + [b]) == Xor(XorFold(acc, bs), b)
    decreases |bs|
  {
    if |bs| == 0 {
      assert bs + [b] == [b];
      XorFoldSingle(acc, b);
    } else {
      XorFoldAppend(Xor(acc, bs[0]), bs[1..], b);
      assert (bs + [b])[1..] == bs[1..] + [b];
    }
  }

  /** The fold over four bytes, written out. */
  lemma XorFoldFour(acc: Byte, b0: Byte, b1: Byte, b2: Byte, b3: Byte)
    ensures XorFold(acc, [b0, b1, b2, b3]) == Xor(Xor(Xor(Xor(acc, b0), b1), b2), b3)
  {
    XorFoldSingle(acc, b0);
    assert [b0] + [b1] == [b0, b1];
    XorFoldAppend(acc, [b0], b1);
    assert [b0, b1] + [b2] == [b0, b1, b2];
    XorFoldAppend(acc, [b0, b1], b2);
    assert [b0, b1, b2] + [b3] == [b0, b1, b2, b3];
    XorFoldAppend(acc, [b0, b1, b2], b3);
  }

  /** The fold over six bytes, written out. */
  lemma XorFoldSix(acc: Byte, b0: Byte, b1: Byte, b2: Byte, b3: Byte, b4: Byte, b5: Byte)
    ensures XorFold(acc, [b0, b1, b2, b3, b4, b5])
              == Xor(Xor(Xor(Xor(Xor(Xor(acc, b0), b1), b2), b3), b4), b5)
  {
    XorFoldFour(acc, b0, b1, b2, b3);
    assert [b0, b1, b2, b3] + [b4] == [b0, b1, b2, b3, b4];
    XorFoldAppend(acc, [b0, b1, b2, b3], b4);
    assert [b0, b1, b2, b3, b4] + [b5] == [b0, b1, b2, b3, b4, b5];
    XorFoldAppend(acc, [b0, b1, b2, b3, b4], b5);
  }

  /** Appending the checksum of a byte string closes it: folding the seed
      over the whole frame, checksum included, yields zero. */
  lemma ChecksumClosesFrame(bs: seq<Byte>)
    ensures XorFold(DestinationAddress, bs + [Checksum(bs)]) == 0
  {
    XorFoldAppend(DestinationAddress, bs, Checksum(bs));
    XorSelf(Checksum(bs));
  }

  /** A frame whose checksum byte is right: seed XOR all bytes is zero. */
  predicate ChecksumValid(f: seq<Byte>) { XorFold(DestinationAddress, f) == 0 }

  /** The Set VCP Feature request (performWrite). */
  function WriteFrame(code: Byte, v: U16): (f: seq<Byte>)
    ensures |f| == WriteFrameSize
    ensures f[..6] == [SourceAddress, WriteLength, SetVcpOpcode, code, HighByte(v), LowByte(v)]
    ensures f[6] == Xor(Xor(Xor(Xor(Xor(Xor(DestinationAddress, f[0]), f[1]), f[2]), f[3]), f[4]), f[5])
    ensures ChecksumValid(f)
    ensures Combine(f[4], f[5]) == v
  {
    var header := [SourceAddress, WriteLength, SetVcpOpcode, code, HighByte(v), LowByte(v)];
    ChecksumClosesFrame(header);
    XorFoldSix(DestinationAddress, SourceAddress, WriteLength, SetVcpOpcode, code, HighByte(v), LowByte(v));
    CombineSplit(v);
    header + [Checksum(header)]
  }

  /** The Get VCP Feature request (performRead). */
  function ReadRequest(code: Byte): (f: seq<Byte>)
    ensures |f| == ReadRequestSize
    ensures f[..4] == [SourceAddress, ReadLength, GetVcpOpcode, code]
    ensures f[4] == Xor(Xor(Xor(Xor(DestinationAddress, f[0]), f[1]), f[2]), f[3])
    ensures ChecksumValid(f)
  {
    var header := [SourceAddress, ReadLength, GetVcpOpcode, code];
    ChecksumClosesFrame(header);
    XorFoldFour(DestinationAddress, SourceAddress, ReadLength, GetVcpOpcode, code);
    header + [Checksum(header)]
  }

  /** What a monitor decodes out of a Set VCP Feature request: the inverse of
      `WriteFrame`, rejecting anything with a wrong header or checksum. */
  function DecodeWriteFrame(f: seq<Byte>): Option<(Byte, U16)>
  {
    if |f| == WriteFrameSize && f[0] == SourceAddress && f[1] == WriteLength
       && f[2] == SetVcpOpcode && ChecksumValid(f)
    then Some((f[3], Combine(f[4], f[5])))
    else None
  }

  lemma WriteFrameRoundTrip(code: Byte, v: U16)
    ensures DecodeWriteFrame(WriteFrame(code, v)) == Some((code, v))
  {
  }

  lemma {:induction false} XorFoldDetermines(acc: Byte, bs: seq<Byte>, x: Byte, y: Byte)
    requires XorFold(acc, bs + [x]) == 0 && XorFold(acc, bs + [y]) == 0
    ensures x == y
  {
    XorFoldAppend(acc, bs, x);
    XorFoldAppend(acc, bs, y);
    XorZero(XorFold(acc, bs), x);
    XorZero(XorFold(acc, bs), y);
  }

  /** The only frame that decodes to a (code, value) pair is the one
      `WriteFrame` builds for it. */
  lemma DecodeWriteFrameExact(f: seq<Byte>)
    requires DecodeWriteFrame(f).Some?
    ensures f == WriteFrame(DecodeWriteFrame(f).value.0, DecodeWriteFrame(f).value.1)
  {
    var code := f[3];
    var v := Combine(f[4], f[5]);
    var g := WriteFrame(code, v);
    SplitCombine(f[4], f[5]);
    assert f[..6] == g[..6];
    assert f == f[..6] + [f[6]] && g == g[..6] + [g[6]];
    XorFoldDetermines(DestinationAddress, f[..6], f[6], g[6]);
  }

  /** What the parser reads out of a matching reply. */
  datatype VcpResult = VcpResult(current: U16, max: U16)

  /** Offset `i` of the reply buffer carries the reply opcode and, two bytes
      later, the requested feature code. */
  predicate MatchAt(buf: seq<Byte>, code: Byte, i: nat)
    requires |buf| == ReplySize && i < ReplyScanLimit
  {
    buf[i] == ReplyOpcode && buf[i + 2] == code
  }

  /** The values at a matching offset: maximum at i+4/i+5, current at i+6/i+7. */
  function ResultAt(buf: seq<Byte>, i: nat): VcpResult
    requires |buf| == ReplySize && i < ReplyScanLimit
  {
    VcpResult(Combine(buf[i + 6], buf[i + 7]), Combine(buf[i + 4], buf[i + 5]))
  }

  /** The scan of performRead from offset `i` on. */
  function ParseFrom(buf: seq<Byte>, code: Byte, i: nat): (r: Option<VcpResult>)
    requires |buf| == ReplySize && i <= ReplyScanLimit
    decreases ReplyScanLimit - i
    ensures r.None? <==> forall j :: i <= j < ReplyScanLimit ==> !MatchAt(buf, code, j)
    ensures r.Some? ==> exists j :: i <= j < ReplyScanLimit && MatchAt(buf, code, j)
                          && (forall k :: i <= k < j ==> !MatchAt(buf, code, k))
                          && r.value == ResultAt(buf, j)
  {
    if i == ReplyScanLimit then None
    else if MatchAt(buf, code, i) then Some(ResultAt(buf, i))
    else ParseFrom(buf, code, i + 1)
  }

  /** Parse an 11-byte Get VCP Feature reply: the result at the first offset
      0..3 that matches, nothing when none does. */
  function ParseReply(buf: seq<Byte>, code: Byte): (r: Option<VcpResult>)
    requires |buf| == ReplySize
    ensures r.None? <==> forall j :: 0 <= j < ReplyScanLimit ==> !MatchAt(buf, code, j)
    ensures forall j :: 0 <= j < ReplyScanLimit && MatchAt(buf, code, j)
                        && (forall k :: 0 <= k < j ==> !MatchAt(buf, code, k))
                        ==> r == Some(ResultAt(buf, j))
  {
    ParseFrom(buf, code, 0)
  }

  /** The byte after the reply opcode (the DDC/CI result code) and the byte
      after the feature code (the VCP type code) are never examined, and
      neither is the trailing checksum of a reply found at offset 0..2. */
  lemma ParseIgnoresUncheckedBytes(buf: seq<Byte>, code: Byte, i: nat, a: Byte, b: Byte, c: Byte)
    requires |buf| == ReplySize && i < ReplyScanLimit - 1
    requires MatchAt(buf, code, i)
    requires forall k :: 0 <= k < i ==> !MatchAt(buf, code, k)
    requires i == 0 || buf[i - 1] != ReplyOpcode
    ensures ParseReply(buf[i + 1 := a][i + 3 := b][ReplySize - 1 := c], code) == ParseReply(buf, code)
  {
    var buf' := buf[i + 1 := a][i + 3 := b][ReplySize - 1 := c];
    assert MatchAt(buf', code, i);
    forall k | 0 <= k < i
      ensures !MatchAt(buf', code, k)
    {
      assert !MatchAt(buf, code, k);
    }
    assert ResultAt(buf', i) == ResultAt(buf, i);
  }
}
