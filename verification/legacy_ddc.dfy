/** The older DDC/CI writer of Sources/BrightnessControl/DDCManager.swift:
    a fixed scale of 100 instead of the monitor's maximum, no bus cache,
    only buses 0, 1 and 2, and a Set VCP Feature checksum that leaves the
    source byte out. Service lookup and the I2C calls are the same oracles
    as for the Core writer. */
module LegacyDdc {
  import opened Common
  import opened DdcFrame
  import opened BusProbe
  import opened Transport
  import VcpChannel

  /** The older writer tries buses 0, 1 and 2. */
  const LegacyBusCount: nat := 3

  /** Fractions are scaled by a fixed 100, whatever the monitor's maximum. */
  const LegacyScale: real := 100.0

  /** `UInt16(value * 100)`: truncation toward zero. Swift traps on a
      negative product and on one of 65536 or more; here those write 0 and
      65535. */
  function LegacyRawValue(v: real): (raw: U16)
    ensures 0.0 <= v && v * LegacyScale < U16Limit as real ==>
              raw as real <= v * LegacyScale < raw as real + 1.0
    ensures v <= 0.0 ==> raw == 0
    ensures 0.0 <= v <= 1.0 ==> raw <= 100
  {
    if v <= 0.0 then 0
    else if v * LegacyScale >= U16Limit as real then U16Limit - 1
    else (v * LegacyScale).Floor
  }

  /** On the unit interval the fixed scale writes exactly what the Core
      writer writes for a monitor whose maximum could not be read (the
      default maximum of 100). */
  lemma LegacyScaleIsDefaultMax(v: real)
    requires 0.0 <= v <= 1.0
    ensures LegacyRawValue(v) == VcpChannel.RawValue(VcpChannel.DefaultMax, v)
  {
    var core := VcpChannel.RawValue(VcpChannel.DefaultMax, v);
    assert VcpChannel.U16Real(VcpChannel.DefaultMax) == LegacyScale;
    assert Min(LegacyScale, v * LegacyScale) == v * LegacyScale;
    var legacy := LegacyRawValue(v);
    assert legacy as real <= v * LegacyScale < legacy as real + 1.0;
    assert core as real <= v * LegacyScale < core as real + 1.0;
  }

  /** `0x6E ^ (0x80 | length) ^ command ^ control ^ hi ^ lo`: the 0x51
      source byte is not folded in. */
  function LegacyChecksum(code: Byte, v: U16): Byte
  {
    Xor(Xor(Xor(Xor(Xor(DestinationAddress, WriteLength), SetVcpOpcode), code), HighByte(v)), LowByte(v))
  }

  /** The older checksum differs from the one the Core writer sends by
      exactly the source byte. */
  lemma LegacyChecksumOffBySource(code: Byte, v: U16)
    ensures Xor(LegacyChecksum(code, v), SourceAddress) == WriteFrame(code, v)[6]
  {
    var a1 := Xor(DestinationAddress, WriteLength);
    var a2 := Xor(a1, SetVcpOpcode);
    var a3 := Xor(a2, code);
    var a4 := Xor(a3, HighByte(v));
    XorSwap(DestinationAddress, SourceAddress, WriteLength);
    XorSwap(a1, SourceAddress, SetVcpOpcode);
    XorSwap(a2, SourceAddress, code);
    XorSwap(a3, SourceAddress, HighByte(v));
    XorSwap(a4, SourceAddress, LowByte(v));
  }

  /** The older Set VCP Feature frame. */
  function LegacyWriteFrame(code: Byte, v: U16): (f: seq<Byte>)
    ensures |f| == WriteFrameSize
  {
    [SourceAddress, WriteLength, SetVcpOpcode, code, HighByte(v), LowByte(v), LegacyChecksum(code, v)]
  }

  /** The older frame carries the same six leading bytes as the Core frame;
      only the checksum differs, by the source byte. */
  lemma LegacyFrameMatchesCore(code: Byte, v: U16)
    ensures LegacyWriteFrame(code, v)[..6] == WriteFrame(code, v)[..6]
    ensures Xor(LegacyWriteFrame(code, v)[6], SourceAddress) == WriteFrame(code, v)[6]
  {
    LegacyChecksumOffBySource(code, v);
  }

  /** Every older frame fails the DDC/CI checksum test: the XOR of 0x6E
      with all seven bytes is the source byte 0x51 instead of zero, so a
      receiver that checks it rejects the frame and the decoder finds no
      request in it. */
  lemma LegacyFrameRejected(code: Byte, v: U16)
    ensures XorFold(DestinationAddress, LegacyWriteFrame(code, v)) == SourceAddress
    ensures !ChecksumValid(LegacyWriteFrame(code, v))
    ensures DecodeWriteFrame(LegacyWriteFrame(code, v)).None?
  {
    var f, g := LegacyWriteFrame(code, v), WriteFrame(code, v);
    LegacyFrameMatchesCore(code, v);
    var body := f[..6];
    assert f == body + [f[6]];
    XorFoldSix(DestinationAddress, body[0], body[1], body[2], body[3], body[4], body[5]);
    assert body == [body[0], body[1], body[2], body[3], body[4], body[5]];
    assert XorFold(DestinationAddress, body) == g[6];
    XorFoldAppend(DestinationAddress, body, f[6]);
    // (f6 ^ 0x51) ^ f6 == (f6 ^ f6) ^ 0x51 == 0x51
    XorSwap(f[6], SourceAddress, f[6]);
    XorSelf(f[6]);
    XorZeroLeft(SourceAddress);
  }

  /** Outcome of one older write: whether some bus took the frame, and the
      buses tried, in order. */
  datatype LegacyWrite = LegacyWrite(ok: bool, tried: seq<nat>)

  /** Open bus `bus` and send `frame`; either step failing moves the
      scan on to the next bus. */
  predicate Delivers(io: Io, d: DisplayId, bus: nat, frame: seq<Byte>)
  {
    io.open(d, bus) && io.send(d, bus, frame)
  }

  function SendAttempt(io: Io, d: DisplayId, frame: seq<Byte>): (attempt: nat -> Option<()>)
    ensures forall b :: attempt(b).Some? <==> Delivers(io, d, b, frame)
  {
    (b: nat) => if Delivers(io, d, b, frame) then Some(()) else None
  }

  /** The bus loop of the older writeVcp: no cache, so every call scans
      from bus 0, and the scan stops at the first bus that takes the frame. */
  function ScanSend(io: Io, d: DisplayId, frame: seq<Byte>): (w: LegacyWrite)
    ensures !io.serviceFound(d) ==> !w.ok && w.tried == []
    ensures w.ok <==> io.serviceFound(d) && exists b :: 0 <= b < LegacyBusCount && Delivers(io, d, b, frame)
    ensures w.ok ==>
              && 1 <= |w.tried| <= LegacyBusCount && w.tried == Range(0, |w.tried|)
              && Delivers(io, d, w.tried[|w.tried| - 1], frame)
              && forall b :: 0 <= b < |w.tried| - 1 ==> !Delivers(io, d, b, frame)
    ensures io.serviceFound(d) && !w.ok ==> w.tried == Range(0, LegacyBusCount)
  {
    if !io.serviceFound(d) then LegacyWrite(false, [])
    else
      var attempt := SendAttempt(io, d, frame);
      var s := ScanFrom(attempt, 0, LegacyBusCount);
      if s.found.Some? then
        assert attempt(s.found.value.bus).Some?;
        LegacyWrite(true, s.tried)
      else LegacyWrite(false, s.tried)
  }

  /** The older writeVcp: the older frame for `code` and `v`, sent on the
      first of buses 0..2 that takes it. */
  function LegacyWriteVcp(io: Io, d: DisplayId, code: Byte, v: U16): (w: LegacyWrite)
    ensures !io.serviceFound(d) ==> !w.ok && w.tried == []
    ensures w.ok <==>
              io.serviceFound(d) && exists b :: 0 <= b < LegacyBusCount && Delivers(io, d, b, LegacyWriteFrame(code, v))
    ensures w.ok ==>
              && 1 <= |w.tried| <= LegacyBusCount && w.tried == Range(0, |w.tried|)
              && Delivers(io, d, w.tried[|w.tried| - 1], LegacyWriteFrame(code, v))
              && forall b :: 0 <= b < |w.tried| - 1 ==> !Delivers(io, d, b, LegacyWriteFrame(code, v))
    ensures io.serviceFound(d) && !w.ok ==> w.tried == Range(0, LegacyBusCount)
  {
    ScanSend(io, d, LegacyWriteFrame(code, v))
  }

  /** The older setBrightness / setContrast / setVolume of DDCManager: a
      fraction scaled by 100 and written with the older frame. */
  function LegacySetVcp(io: Io, d: DisplayId, code: Byte, value: real): (w: LegacyWrite)
    ensures w.ok <==>
              io.serviceFound(d)
              && exists b :: 0 <= b < LegacyBusCount && Delivers(io, d, b, LegacyWriteFrame(code, LegacyRawValue(value)))
  {
    LegacyWriteVcp(io, d, code, LegacyRawValue(value))
  }
}
