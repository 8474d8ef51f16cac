/** Get/set of VCP features through the bus cache, the feature-maximum cache
    and the conversion between the caller's [0,1] fraction and the raw
    16-bit value (Sources/BrightnessControlCore/DDCManager.swift). */
module VcpChannel {
  import opened Common
  import opened DdcFrame
  import opened BusProbe
  import opened Transport

  /** The two process-wide caches of DDCManager. The source nests the
      maximum cache by display, then feature code; a pair key is the same map. */
  datatype DdcState = DdcState(busCache: BusCache, maxCache: map<(DisplayId, Byte), U16>)

  const EmptyState := DdcState(map[], map[])

  /** The maximum assumed when none is cached and the read fails. */
  const DefaultMax: U16 := 100

  datatype WriteOutcome = WriteOutcome(ok: bool, state: DdcState, tried: seq<nat>)

  /** One performWrite as a bus attempt. */
  function WriteAttempt(io: Io, d: DisplayId, code: Byte, v: U16): (attempt: nat -> Option<()>)
    ensures forall b :: attempt(b).Some? <==> PerformWrite(io, d, b, code, v)
  {
    (b: nat) => if PerformWrite(io, d, b, code, v) then Some(()) else None
  }

  /** writeVcp: set a raw VCP value through the bus cache. */
  function WriteVcp(st: DdcState, io: Io, d: DisplayId, code: Byte, v: U16): (w: WriteOutcome)
    ensures w.state.maxCache == st.maxCache
    ensures !io.serviceFound(d) ==> !w.ok && w.state == st && w.tried == []
    ensures w.ok ==> io.serviceFound(d) && d in w.state.busCache
                     && PerformWrite(io, d, w.state.busCache[d], code, v)
    ensures io.serviceFound(d) && !w.ok ==>
              && d !in w.state.busCache
              && forall b :: 0 <= b < CoreBusCount ==> !PerformWrite(io, d, b, code, v)
    ensures OthersUnchanged(st.busCache, w.state.busCache, d)
  {
    var attempt := WriteAttempt(io, d, code, v);
    var o := WithBus(st.busCache, d, io.serviceFound(d), attempt);
    WriteOutcome(o.result.Some?, st.(busCache := o.cache), o.tried)
  }

  datatype ReadOutcome = ReadOutcome(result: Option<VcpResult>, state: DdcState, tried: seq<nat>)

  /** One performRead as a bus attempt. */
  function ReadAttempt(io: Io, d: DisplayId, code: Byte): (attempt: nat -> Option<VcpResult>)
    ensures forall b :: attempt(b) == PerformRead(io, d, b, code)
  {
    (b: nat) => PerformRead(io, d, b, code)
  }

  /** readVcpEx: read current and maximum through the bus cache. It does not
      touch the maximum cache. */
  function ReadVcpEx(st: DdcState, io: Io, d: DisplayId, code: Byte): (r: ReadOutcome)
    ensures r.state.maxCache == st.maxCache
    ensures !io.serviceFound(d) ==> r.result.None? && r.state == st && r.tried == []
    ensures r.result.Some? ==> io.serviceFound(d) && d in r.state.busCache
                               && r.result == PerformRead(io, d, r.state.busCache[d], code)
    ensures io.serviceFound(d) && r.result.None? ==>
              && d !in r.state.busCache
              && forall b :: 0 <= b < CoreBusCount ==> PerformRead(io, d, b, code).None?
    ensures OthersUnchanged(st.busCache, r.state.busCache, d)
  {
    var attempt := ReadAttempt(io, d, code);
    var o := WithBus(st.busCache, d, io.serviceFound(d), attempt);
    ReadOutcome(o.result, st.(busCache := o.cache), o.tried)
  }

  /** Every entry of `st`'s maximum cache is still in `st'` with its value. */
  predicate MaxCacheKept(st: DdcState, st': DdcState)
  {
    forall k :: k in st.maxCache ==> k in st'.maxCache && st'.maxCache[k] == st.maxCache[k]
  }

  datatype MaxOutcome = MaxOutcome(max: U16, state: DdcState)

  /** getMax: the cached maximum, else the maximum a read reports (and cache
      it), else 100 (and cache nothing). */
  function GetMax(st: DdcState, io: Io, d: DisplayId, code: Byte): (m: MaxOutcome)
    ensures (d, code) in st.maxCache ==> m.max == st.maxCache[(d, code)] && m.state == st
    ensures (d, code) !in st.maxCache ==>
              var r := ReadVcpEx(st, io, d, code);
              && m.state.busCache == r.state.busCache
              && (r.result.Some? ==> m.max == r.result.value.max
                                     && m.state.maxCache == st.maxCache[(d, code) := m.max])
              && (r.result.None? ==> m.max == DefaultMax && m.state.maxCache == st.maxCache)
    ensures MaxCacheKept(st, m.state)
  {
    if (d, code) in st.maxCache then MaxOutcome(st.maxCache[(d, code)], st)
    else
      var r := ReadVcpEx(st, io, d, code);
      match r.result
      case Some(res) => MaxOutcome(res.max, r.state.(maxCache := st.maxCache[(d, code) := res.max]))
      case None => MaxOutcome(DefaultMax, r.state)
  }

  function U16Real(x: U16): real { x as real }

  /** `UInt16(min(Double(max), value * Double(max)))`: the largest integer not
      above min(max, v * max). Swift traps on a negative operand; here a
      non-positive fraction writes 0. */
  function RawValue(max: U16, v: real): (raw: U16)
    ensures raw <= max
    ensures 0.0 <= v ==> U16Real(raw) <= Min(U16Real(max), v * U16Real(max)) < U16Real(raw) + 1.0
    ensures v <= 0.0 ==> raw == 0
    ensures 1.0 <= v ==> raw == max
  {
    if v <= 0.0 then 0
    else
      var x := Min(U16Real(max), v * U16Real(max));
      assert x <= U16Real(max);
      x.Floor as U16
  }

  /** `Double(current) / Double(max(1, max))`: never a division by zero. */
  function Normalised(current: U16, max: U16): (r: real)
    ensures 0.0 <= r
    ensures current <= max ==> r <= 1.0
    ensures 0 < max ==> r * U16Real(max) == U16Real(current)
    ensures max == 0 ==> r == U16Real(current)
  {
    if max == 0 then U16Real(current)
    else
      QuotientBounds(U16Real(current), U16Real(max));
      U16Real(current) / U16Real(max)
  }

  lemma QuotientBounds(c: real, m: real)
    requires 0.0 <= c && 0.0 < m
    ensures 0.0 <= c / m
    ensures c <= m ==> c / m <= 1.0
    ensures (c / m) * m == c
  {
  }

  /** Writing back a normalised reading reproduces the raw value exactly,
      for every maximum the monitor may report. */
  lemma NormaliseRoundTrip(x: U16, max: U16)
    requires x <= max
    ensures RawValue(max, Normalised(x, max)) == x
  {
    var v := Normalised(x, max);
    if max == 0 {
      assert x == 0;
    } else {
      assert v * U16Real(max) == U16Real(x);
    }
  }

  /** A monitor whose maximum is 100 and current value is 50 reads as 0.5. */
  lemma HalfwayReading()
    ensures Normalised(50, 100) == 0.5
  {
  }

  datatype SetOutcome = SetOutcome(ok: bool, max: U16, raw: U16, state: DdcState)

  /** setBrightness / setContrast / setVolume of DDCManager: look the maximum
      up, scale the fraction to it and write the raw value. */
  function SetNormalised(st: DdcState, io: Io, d: DisplayId, code: Byte, v: real): (s: SetOutcome)
    ensures s.raw <= s.max
    ensures (d, code) in st.maxCache ==> s.max == st.maxCache[(d, code)]
    // a cache miss scales to the maximum a fresh read reports, else to 100
    ensures (d, code) !in st.maxCache ==>
              var r := ReadVcpEx(st, io, d, code);
              s.max == (if r.result.Some? then r.result.value.max else DefaultMax)
    ensures s.raw == RawValue(s.max, v)
    ensures s.ok ==> io.serviceFound(d) && d in s.state.busCache
                     && PerformWrite(io, d, s.state.busCache[d], code, s.raw)
    ensures io.serviceFound(d) && !s.ok ==>
              && d !in s.state.busCache
              && forall b :: 0 <= b < CoreBusCount ==> !PerformWrite(io, d, b, code, s.raw)
    ensures !io.serviceFound(d) ==> !s.ok && s.state.busCache == st.busCache
    ensures MaxCacheKept(st, s.state)
  {
    var m := GetMax(st, io, d, code);
    var raw := RawValue(m.max, v);
    var w := WriteVcp(m.state, io, d, code, raw);
    SetOutcome(w.ok, m.max, raw, w.state)
  }

  datatype GetOutcome = GetOutcome(value: Option<real>, state: DdcState)

  /** getBrightness / getContrast / getVolume of DDCManager: a fresh read,
      normalised by the maximum that same reply reports. */
  function GetNormalised(st: DdcState, io: Io, d: DisplayId, code: Byte): (g: GetOutcome)
    ensures g.state.maxCache == st.maxCache
    ensures g.value.Some? ==> io.serviceFound(d) && d in g.state.busCache
    ensures g.value.Some? ==>
              var res := PerformRead(io, d, g.state.busCache[d], code);
              res.Some? && g.value.value == Normalised(res.value.current, res.value.max)
    ensures g.value.None? && io.serviceFound(d) ==>
              forall b :: 0 <= b < CoreBusCount ==> PerformRead(io, d, b, code).None?
  {
    var r := ReadVcpEx(st, io, d, code);
    match r.result
    case Some(res) => GetOutcome(Some(Normalised(res.current, res.max)), r.state)
    case None => GetOutcome(None, r.state)
  }
}
