/** The display record of Sources/BrightnessControlCore/Display.swift, the
    in-place updates the manager applies to the display list, and the
    hardware effects an operation issues. */
module Displays {
  import opened Common

  /** Level given to every control of a display nothing is known about. */
  const DefaultLevel: real := 0.5

  /** `id`, `name` and `isInternal` are fixed at creation; the three levels
      and the two flags are the only mutable fields. */
  datatype Display = Display(
    id: DisplayId,
    name: string,
    brightness: real,
    contrast: real,
    volume: real,
    isInternal: bool,
    supportsDDC: bool,
    isSoftwareControl: bool)

  /** `Display(id:name:isInternal:)`. */
  function NewDisplay(id: DisplayId, name: string, isInternal: bool): (d: Display)
    ensures d.id == id && d.name == name && d.isInternal == isInternal
    ensures d.brightness == DefaultLevel && d.contrast == DefaultLevel && d.volume == DefaultLevel
    ensures !d.supportsDDC && !d.isSoftwareControl
  {
    Display(id, name, DefaultLevel, DefaultLevel, DefaultLevel, isInternal, false, false)
  }

  /** Two records describe the same physical display. */
  predicate SameIdentity(a: Display, b: Display)
  {
    a.id == b.id && a.name == b.name && a.isInternal == b.isInternal
  }

  /** Element-wise `SameIdentity` between two display lists of equal length. */
  predicate SameDisplays(ds: seq<Display>, ds': seq<Display>)
  {
    |ds| == |ds'| && forall k :: 0 <= k < |ds| ==> SameIdentity(ds[k], ds'[k])
  }

  predicate UniqueIds(ds: seq<Display>)
  {
    forall i, j :: 0 <= i < j < |ds| ==> ds[i].id != ds[j].id
  }

  /** The three controls a display exposes. */
  datatype Control = BrightnessControl | ContrastControl | VolumeControl

  function Level(d: Display, c: Control): real
  {
    match c
    case BrightnessControl => d.brightness
    case ContrastControl => d.contrast
    case VolumeControl => d.volume
  }

  /** The record with control `c` set to `v`; nothing else changes. */
  function WithLevel(d: Display, c: Control, v: real): (d': Display)
    ensures Level(d', c) == v
    ensures forall c' :: c' != c ==> Level(d', c') == Level(d, c')
    ensures SameIdentity(d, d') && d'.supportsDDC == d.supportsDDC
    ensures d'.isSoftwareControl == d.isSoftwareControl
  {
    match c
    case BrightnessControl => d.(brightness := v)
    case ContrastControl => d.(contrast := v)
    case VolumeControl => d.(volume := v)
  }

  /** `displays.firstIndex(where: { $0.id == id })`: the least index
      holding `id`, if any. */
  function IndexOf(ds: seq<Display>, id: DisplayId): (r: Option<nat>)
    decreases |ds|
    ensures r.None? <==> forall k :: 0 <= k < |ds| ==> ds[k].id != id
    ensures r.Some? ==> r.value < |ds| && ds[r.value].id == id
                        && forall k :: 0 <= k < r.value ==> ds[k].id != id
  {
    if |ds| == 0 then None
    else if ds[0].id == id then Some(0)
    else match IndexOf(ds[1..], id)
      case None => None
      case Some(i) => Some(i + 1)
  }

  /** In a list with unique identifiers, a display sits at its own index. */
  lemma IndexOfUnique(ds: seq<Display>, k: nat)
    requires UniqueIds(ds) && k < |ds|
    ensures IndexOf(ds, ds[k].id) == Some(k)
  {
  }

  /** Lists that hold the same displays in the same order find the same index. */
  lemma IndexOfSameDisplays(ds: seq<Display>, ds': seq<Display>, id: DisplayId)
    requires SameDisplays(ds, ds')
    ensures IndexOf(ds, id) == IndexOf(ds', id)
  {
    var a, b := IndexOf(ds, id), IndexOf(ds', id);
    if a.Some? && b.Some? {
      assert ds'[a.value].id == id && ds[b.value].id == id;
    }
  }

  /** `if let i = displays.firstIndex(where: { $0.id == id }) { displays[i].<c> = v }` */
  function SetLevelOf(ds: seq<Display>, id: DisplayId, c: Control, v: real): (ds': seq<Display>)
    ensures SameDisplays(ds, ds')
    ensures forall k :: 0 <= k < |ds| ==> ds'[k] == (if Some(k) == IndexOf(ds, id) then WithLevel(ds[k], c, v) else ds[k])
  {
    match IndexOf(ds, id)
    case None => ds
    case Some(i) => ds[i := WithLevel(ds[i], c, v)]
  }

  /** `if let i = displays.firstIndex(where: { $0.id == id }) { displays[i].isSoftwareControl = flag }` */
  function SetFlagOf(ds: seq<Display>, id: DisplayId, flag: bool): (ds': seq<Display>)
    ensures SameDisplays(ds, ds')
    ensures forall k :: 0 <= k < |ds| ==> ds'[k] == (if Some(k) == IndexOf(ds, id) then ds[k].(isSoftwareControl := flag) else ds[k])
  {
    match IndexOf(ds, id)
    case None => ds
    case Some(i) => ds[i := ds[i].(isSoftwareControl := flag)]
  }

  /** A hardware action issued by the manager, in order: the private panel
      brightness call, a DDC/CI write (fraction asked, raw value sent,
      whether it went through) and a gamma-ramp installation. */
  datatype Effect =
    | Panel(id: DisplayId, level: real)
    | Ddc(id: DisplayId, code: Byte, level: real, raw: U16, ok: bool)
    | Gamma(id: DisplayId, brightness: real)
}
