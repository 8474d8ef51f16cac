/** The I2C transaction on one bus (performWrite / performRead of
    Sources/BrightnessControlCore/DDCManager.swift). The operating system's
    service lookup and I2C calls are oracles supplied by the caller. */
module Transport {
  import opened Common
  import opened DdcFrame

  /** What the platform answers. `open` is IOI2CInterfaceOpen on a bus;
      `send` is a request with no reply solicited; `exchange` is a request
      whose reply the device writes into the buffer, `None` when the send
      itself fails. */
  datatype Io = Io(
    serviceFound: DisplayId -> bool,
    open: (DisplayId, nat) -> bool,
    send: (DisplayId, nat, seq<Byte>) -> bool,
    exchange: (DisplayId, nat, seq<Byte>) -> Option<seq<Byte>>)

  /** The 11-byte reply buffer: zero-initialised, then overwritten by
      whatever prefix the device returned. */
  function ReplyBuffer(raw: seq<Byte>): (buf: seq<Byte>)
    ensures |buf| == ReplySize
    ensures forall k :: 0 <= k < ReplySize && k < |raw| ==> buf[k] == raw[k]
    ensures forall k :: |raw| <= k < ReplySize ==> buf[k] == 0
  {
    seq(ReplySize, k requires 0 <= k < ReplySize => if k < |raw| then raw[k] else 0)
  }

  /** Open the bus and send the Set VCP Feature frame for `v`. */
  function PerformWrite(io: Io, d: DisplayId, bus: nat, code: Byte, v: U16): bool
  {
    io.open(d, bus) && io.send(d, bus, WriteFrame(code, v))
  }

  /** Open the bus, send the Get VCP Feature request and parse the reply. */
  function PerformRead(io: Io, d: DisplayId, bus: nat, code: Byte): Option<VcpResult>
  {
    if !io.open(d, bus) then None
    else match io.exchange(d, bus, ReadRequest(code))
      case None => None
      case Some(raw) => ParseReply(ReplyBuffer(raw), code)
  }
}
