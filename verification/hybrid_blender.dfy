/** The "true black" hybrid brightness split of setBrightness
    (Sources/BrightnessControlCore/BrightnessManager.swift): the top 90% of
    the logical range drives the monitor's backlight over DDC/CI, the bottom
    10% is reached by dimming the gamma ramp in software. */
module HybridBlender {

  /** Below this logical value the backlight stays at its minimum. */
  const HardwareFloor: real := 0.1

  /** The hardware fraction sent over DDC/CI and the software gamma factor. */
  datatype Split = Split(hardware: real, software: real)

  function SplitBrightness(v: real): (s: Split)
    ensures 0.0 <= v <= 1.0 ==> 0.0 <= s.hardware <= 1.0 && 0.0 <= s.software <= 1.0
    ensures v < HardwareFloor ==> s.hardware == 0.0 && s.software < 1.0
    ensures HardwareFloor <= v ==> s.software == 1.0
    ensures v == 0.0 ==> s == Split(0.0, 0.0)
    ensures v == 1.0 ==> s == Split(1.0, 1.0)
  {
    if v >= HardwareFloor then Split((v - HardwareFloor) / (1.0 - HardwareFloor), 1.0)
    else Split(0.0, v / HardwareFloor)
  }

  /** The logical value a split stands for: the software part covers the
      bottom `HardwareFloor` of the range, the hardware part the rest. */
  function Recompose(s: Split): real
  {
    HardwareFloor * s.software + (1.0 - HardwareFloor) * s.hardware
  }

  /** The split loses nothing: the logical value is recovered from it. */
  lemma SplitRecomposes(v: real)
    ensures Recompose(SplitBrightness(v)) == v
  {
  }

  /** Both fractions are non-decreasing in the logical value. */
  lemma SplitMonotone(v: real, w: real)
    requires v <= w
    ensures SplitBrightness(v).hardware <= SplitBrightness(w).hardware
    ensures SplitBrightness(v).software <= SplitBrightness(w).software
  {
  }

  /** The two branches meet at the floor with no jump in either fraction:
      within `e` of the floor, below it the software factor is within `e` of
      1, and above it the hardware fraction is within `e` of 0. */
  lemma SplitContinuousAtFloor(e: real, v: real)
    requires 0.0 < e
    ensures SplitBrightness(HardwareFloor) == Split(0.0, 1.0)
    ensures HardwareFloor * (1.0 - e) < v < HardwareFloor ==>
              SplitBrightness(v).hardware == 0.0 && 1.0 - e < SplitBrightness(v).software
    ensures HardwareFloor <= v < HardwareFloor + (1.0 - HardwareFloor) * e ==>
              SplitBrightness(v).software == 1.0 && SplitBrightness(v).hardware < e
  {
  }

  /** Worked cases: 0.05 is half-dimmed in software with the backlight at
      its minimum; 0.55 puts the backlight at half with no software dimming. */
  lemma SplitExamples()
    ensures SplitBrightness(0.05) == Split(0.0, 0.5)
    ensures SplitBrightness(0.55) == Split(0.5, 1.0)
  {
  }

  /** The flag setBrightness records: DDC failed, or the value is below the floor. */
  function SoftwareControlled(ddcOk: bool, v: real): (flag: bool)
    ensures !ddcOk ==> flag
    ensures ddcOk ==> (flag <==> SplitBrightness(v).software < 1.0)
  {
    !ddcOk || v < HardwareFloor
  }

  /** The factor handed to the gamma ramp: the raw logical value when DDC
      failed (hardware is absent), the blended software fraction otherwise. */
  function GammaLevel(ddcOk: bool, v: real): (g: real)
    ensures !ddcOk ==> g == v
    ensures ddcOk ==> g == SplitBrightness(v).software
    ensures ddcOk && 0.0 <= v <= 1.0 ==> 0.0 <= g <= 1.0
  {
    if ddcOk then SplitBrightness(v).software else v
  }

  /** Exactly at the floor, with DDC working, the display is not flagged as
      software-controlled although the backlight is at its minimum. */
  lemma FlagAtFloor()
    ensures !SoftwareControlled(true, HardwareFloor)
    ensures SplitBrightness(HardwareFloor).hardware == 0.0
  {
  }
}
