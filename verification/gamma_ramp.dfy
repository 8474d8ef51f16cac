/** Software dimming through the display's gamma transfer tables
    (Sources/BrightnessControlCore/SoftwareDimmingManager.swift). Installing
    the tables is platform I/O; the model builds them and records them per
    display. */
module GammaRamp {
  import opened Common

  const SampleCount: nat := 256

  /** Red, green and blue transfer tables. */
  datatype Ramp = Ramp(red: seq<real>, green: seq<real>, blue: seq<real>)

  /** Tables installed so far, per display. */
  type GammaState = map<DisplayId, Ramp>

  /** Entry `i` of a table dimmed by factor `b`: `i / 255 * b`. */
  function Entry(i: nat, b: real): real
  {
    (i as real) / ((SampleCount - 1) as real) * b
  }

  lemma EntryMonotone(i: nat, j: nat, b: real)
    requires i <= j < SampleCount && 0.0 <= b
    ensures 0.0 <= Entry(i, b) <= Entry(j, b) <= b
  {
    var x := (i as real) / 255.0;
    var y := (j as real) / 255.0;
    assert Entry(i, b) == x * b && Entry(j, b) == y * b;
    assert 0.0 <= x <= y <= 1.0;
    ScaleMonotone(0.0, x, b);
    ScaleMonotone(x, y, b);
    ScaleMonotone(y, 1.0, b);
    assert 0.0 * b == 0.0 && 1.0 * b == b;
    assert Entry(j, b) <= b;
  }

  /** Scaling by a non-negative factor keeps order. */
  lemma ScaleMonotone(x: real, y: real, b: real)
    requires x <= y && 0.0 <= b
    ensures x * b <= y * b
  {
    var d := y - x;
    assert y * b == x * b + d * b;
    assert d * b >= 0.0;
  }

  /** One 256-entry table for brightness `b`, clamped to [0,1] first. */
  function Table(b: real): (t: seq<real>)
    ensures |t| == SampleCount
    ensures t[0] == 0.0
    ensures t[SampleCount - 1] == Clamp01(b)
    ensures forall i :: 0 <= i < SampleCount ==> 0.0 <= t[i] <= Clamp01(b) <= 1.0
    ensures forall i, j :: 0 <= i <= j < SampleCount ==> t[i] <= t[j]
  {
    var f := Clamp01(b);
    var t := seq(SampleCount, i requires 0 <= i < SampleCount => Entry(i, f));
    assert forall i, j :: 0 <= i <= j < SampleCount ==> t[i] <= t[j] && 0.0 <= t[i] && t[j] <= f by {
      forall i, j | 0 <= i <= j < SampleCount
        ensures t[i] <= t[j] && 0.0 <= t[i] && t[j] <= f
      {
        EntryMonotone(i, j, f);
      }
    }
    t
  }

  /** applyGamma: the same table on all three channels; `contrast` is
      accepted and never read. */
  function ApplyGamma(brightness: real, contrast: real): (r: Ramp)
    ensures r.red == r.green == r.blue
    ensures |r.red| == SampleCount
    ensures forall i :: 0 <= i < SampleCount ==> r.red[i] == Entry(i, Clamp01(brightness))
  {
    var t := Table(brightness);
    Ramp(t, t, t)
  }

  /** The contrast argument has no effect on the tables. */
  lemma ContrastIgnored(b: real, c1: real, c2: real)
    ensures ApplyGamma(b, c1) == ApplyGamma(b, c2)
  {
  }

  /** Full brightness installs the neutral ramp `i / 255`. */
  lemma FullBrightnessIsIdentity(i: nat)
    requires i < SampleCount
    ensures ApplyGamma(1.0, 1.0).red[i] == (i as real) / 255.0
  {
  }

  /** setBrightness: install the tables for `b` on display `d`, contrast 1.0. */
  function SetBrightness(g: GammaState, d: DisplayId, b: real): (g': GammaState)
    ensures d in g' && g'[d] == ApplyGamma(b, 1.0)
    ensures forall e :: e in g && e != d ==> e in g' && g'[e] == g[e]
    ensures g'.Keys == g.Keys + {d}
  {
    g[d := ApplyGamma(b, 1.0)]
  }

  /** setContrast: software contrast is not implemented; nothing changes. */
  function SetContrast(g: GammaState, d: DisplayId, value: real): (g': GammaState)
  {
    g
  }

  /** Adjusting contrast leaves whatever brightness ramp is installed. */
  lemma SetContrastKeepsRamp(g: GammaState, d: DisplayId, b: real, c: real)
    ensures SetContrast(SetBrightness(g, d, b), d, c)[d] == ApplyGamma(b, 1.0)
  {
  }
}
