/** The display list and the brightness rules of
    Sources/BrightnessControlCore/BrightnessManager.swift: the hybrid
    setBrightness with display sync, contrast and volume, the hot-key
    adjustment, presets and the rebuild of the display list. Persistence is
    three maps keyed by display name; hardware actions are returned as an
    ordered list of effects. */
module BrightnessManager {
  import opened Common
  import opened DdcFrame
  import opened Transport
  import opened VcpChannel
  import opened HybridBlender
  import opened Displays
  import BusProbe

  /** Saved logical levels, keyed by display name. */
  type Saved = map<string, real>

  datatype Manager = Manager(
    displays: seq<Display>,
    syncAll: bool,
    savedBrightness: Saved,
    savedContrast: Saved,
    savedVolume: Saved,
    ddc: DdcState)

  /** A manager after an operation, with the hardware effects it issued. */
  datatype Step = Step(manager: Manager, effects: seq<Effect>)

  function FeatureCode(c: Control): Byte
  {
    match c
    case BrightnessControl => BrightnessCode
    case ContrastControl => ContrastCode
    case VolumeControl => VolumeCode
  }

  /** Every display keeps all its levels except brightness, and its capability flag. */
  predicate OnlyBrightnessMoves(ds: seq<Display>, ds': seq<Display>)
  {
    && SameDisplays(ds, ds')
    && forall k :: 0 <= k < |ds| ==>
         ds'[k].contrast == ds[k].contrast && ds'[k].volume == ds[k].volume
         && ds'[k].supportsDDC == ds[k].supportsDDC
  }

  lemma OnlyBrightnessMovesTrans(ds: seq<Display>, ds': seq<Display>, ds'': seq<Display>)
    requires OnlyBrightnessMoves(ds, ds') && OnlyBrightnessMoves(ds', ds'')
    ensures OnlyBrightnessMoves(ds, ds'')
  {
    forall k | 0 <= k < |ds| ensures SameIdentity(ds[k], ds''[k]) {
      assert SameIdentity(ds[k], ds'[k]) && SameIdentity(ds'[k], ds''[k]);
    }
  }

  /** Frame shared by the two drives of setBrightness: only the target's
      record changes, it keeps its other levels and takes the new brightness. */
  predicate BrightnessSetOn(ds: seq<Display>, ds': seq<Display>, id: DisplayId, value: real)
  {
    && OnlyBrightnessMoves(ds, ds')
    && (forall k :: 0 <= k < |ds| && Some(k) != IndexOf(ds, id) ==> ds'[k] == ds[k])
    && (IndexOf(ds, id).Some? ==> ds'[IndexOf(ds, id).value].brightness == value)
  }

  /** setBrightness on the built-in panel: the private panel call; the
      software-control flag is not touched. */
  function DrivePanel(m: Manager, target: Display, value: real): (s: Step)
    requires target.isInternal
    ensures BrightnessSetOn(m.displays, s.manager.displays, target.id, value)
    ensures s.manager == m.(displays := s.manager.displays)
    ensures s.effects == [Panel(target.id, value)]
    ensures forall k :: 0 <= k < |m.displays| ==>
              s.manager.displays[k].isSoftwareControl == m.displays[k].isSoftwareControl
  {
    Step(m.(displays := SetLevelOf(m.displays, target.id, BrightnessControl, value)), [Panel(target.id, value)])
  }

  /** The display-list half of the hybrid drive: brightness set and the
      software-control flag recorded on the target, nothing else moved. */
  lemma HybridDisplays(ds: seq<Display>, id: DisplayId, value: real, flag: bool)
    ensures var ds' := SetFlagOf(SetLevelOf(ds, id, BrightnessControl, value), id, flag);
            && BrightnessSetOn(ds, ds', id, value)
            && (IndexOf(ds, id).Some? ==> ds'[IndexOf(ds, id).value].isSoftwareControl == flag)
  {
    var ds1 := SetLevelOf(ds, id, BrightnessControl, value);
    var ds' := SetFlagOf(ds1, id, flag);
    IndexOfSameDisplays(ds, ds1, id);
    var at := IndexOf(ds, id);
    forall k | 0 <= k < |ds|
      ensures ds'[k] == (if Some(k) == at then ds[k].(brightness := value, isSoftwareControl := flag) else ds[k])
    {
      assert ds'[k] == (if Some(k) == at then ds1[k].(isSoftwareControl := flag) else ds1[k]);
    }
    assert SameDisplays(ds, ds') by {
      forall k | 0 <= k < |ds| ensures SameIdentity(ds[k], ds'[k]) { }
    }
  }

  /** setBrightness on an external display: the hardware part of the
      hybrid split goes over DDC/CI, the gamma ramp takes the software part
      (or the whole value when DDC failed), and the flag records whether
      software is in control. */
  function DriveHybrid(m: Manager, io: Io, target: Display, value: real): (s: Step)
    requires !target.isInternal
    ensures BrightnessSetOn(m.displays, s.manager.displays, target.id, value)
    ensures s.manager == m.(displays := s.manager.displays, ddc := s.manager.ddc)
    ensures |s.effects| == 2 && s.effects[0].Ddc?
    ensures s.effects[0].id == target.id && s.effects[0].code == BrightnessCode
    ensures s.effects[0].level == SplitBrightness(value).hardware
    ensures s.effects[1] == Gamma(target.id, GammaLevel(s.effects[0].ok, value))
    ensures s.effects[0].ok ==> io.serviceFound(target.id)
    ensures IndexOf(m.displays, target.id).Some? ==>
              s.manager.displays[IndexOf(m.displays, target.id).value].isSoftwareControl
                == SoftwareControlled(s.effects[0].ok, value)
  {
    var ds := SetLevelOf(m.displays, target.id, BrightnessControl, value);
    var split := SplitBrightness(value);
    var w := SetNormalised(m.ddc, io, target.id, BrightnessCode, split.hardware);
    var ds' := SetFlagOf(ds, target.id, SoftwareControlled(w.ok, value));
    HybridDisplays(m.displays, target.id, value, SoftwareControlled(w.ok, value));
    Step(m.(displays := ds', ddc := w.state),
         [Ddc(target.id, BrightnessCode, split.hardware, w.raw, w.ok), Gamma(target.id, GammaLevel(w.ok, value))])
  }

  /** The hardware actions setBrightness issues for its target, at the head
      of its effect list: the panel call at the value for the built-in panel;
      for an external display, the DDC/CI write of the hardware fraction
      followed by the gamma ramp at the gamma factor that write's outcome
      selects. */
  predicate TargetDriven(io: Io, target: Display, value: real, effects: seq<Effect>)
  {
    if target.isInternal then 1 <= |effects| && effects[0] == Panel(target.id, value)
    else
      && 2 <= |effects| && effects[0].Ddc?
      && effects[0].id == target.id && effects[0].code == BrightnessCode
      && effects[0].level == SplitBrightness(value).hardware
      && effects[1] == Gamma(target.id, GammaLevel(effects[0].ok, value))
      && (effects[0].ok ==> io.serviceFound(target.id))
  }

  /** The target's software-control flag after setBrightness: untouched on
      the built-in panel; on an external display, set exactly when DDC/CI
      failed or the value lies in the software-dimmed band. */
  predicate TargetFlagged(ds: seq<Display>, ds': seq<Display>, target: Display, value: real, effects: seq<Effect>)
  {
    && |ds'| == |ds|
    && (!target.isInternal ==> 1 <= |effects| && effects[0].Ddc?)
    && (IndexOf(ds, target.id).Some? ==>
          var k := IndexOf(ds, target.id).value;
          ds'[k].isSoftwareControl
            == if target.isInternal then ds[k].isSoftwareControl else SoftwareControlled(effects[0].ok, value))
  }

  /** The body of setBrightness for one display, without the sync loop and
      without saving: update the logical value, then drive the hardware. */
  method ApplyBrightness(m: Manager, io: Io, target: Display, value: real) returns (s: Step)
    ensures BrightnessSetOn(m.displays, s.manager.displays, target.id, value)
    ensures s.manager == m.(displays := s.manager.displays, ddc := s.manager.ddc)
    ensures TargetDriven(io, target, value, s.effects)
    ensures |s.effects| == (if target.isInternal then 1 else 2)
    ensures TargetFlagged(m.displays, s.manager.displays, target, value, s.effects)
  {
    if target.isInternal {
      s := DrivePanel(m, target, value);
    } else {
      s := DriveHybrid(m, io, target, value);
    }
  }

  /** A nested setBrightness as the sync loop issues it: the body for that
      display and the save of its name, but no sync loop of its own. */
  method NestedSetBrightness(m: Manager, io: Io, d: Display, value: real) returns (s: Step)
    ensures BrightnessSetOn(m.displays, s.manager.displays, d.id, value)
    ensures s.manager.syncAll == m.syncAll
    ensures s.manager.savedBrightness == m.savedBrightness[d.name := value]
    ensures s.manager.savedContrast == m.savedContrast && s.manager.savedVolume == m.savedVolume
  {
    var a := ApplyBrightness(m, io, d, value);
    s := Step(a.manager.(savedBrightness := a.manager.savedBrightness[d.name := value]), a.effects);
  }

  /** Names of the displays before index `i` whose id is not `id`, in list
      order: the names the sync loop has saved once it reaches `i`. */
  function SyncedNames(ds: seq<Display>, id: DisplayId, i: nat): (ns: seq<string>)
    requires i <= |ds|
    ensures forall n :: n in ns <==> exists k :: 0 <= k < i && ds[k].id != id && ds[k].name == n
  {
    if i == 0 then []
    else SyncedNames(ds, id, i - 1) + (if ds[i - 1].id != id then [ds[i - 1].name] else [])
  }

  /** Lists holding the same displays yield the same synced names. */
  lemma {:induction false} SyncedNamesSame(ds: seq<Display>, ds': seq<Display>, id: DisplayId, i: nat)
    requires SameDisplays(ds, ds') && i <= |ds|
    ensures SyncedNames(ds, id, i) == SyncedNames(ds', id, i)
  {
    if i > 0 {
      SyncedNamesSame(ds, ds', id, i - 1);
      assert SameIdentity(ds[i - 1], ds'[i - 1]);
    }
  }

  /** `saved` after storing `value` under each name of `names`, in order. */
  function SaveEach(saved: Saved, names: seq<string>, value: real): (r: Saved)
    ensures forall n :: n in r <==> n in saved || n in names
    ensures forall n :: n in names ==> r[n] == value
    ensures forall n :: n in saved && n !in names ==> r[n] == saved[n]
  {
    if |names| == 0 then saved
    else SaveEach(saved, names[..|names| - 1], value)[names[|names| - 1] := value]
  }

  /** Storing one more name extends the sequence of stores. */
  lemma SaveEachSnoc(saved: Saved, names: seq<string>, name: string, value: real)
    ensures SaveEach(saved, names + [name], value) == SaveEach(saved, names, value)[name := value]
  {
    assert (names + [name])[..|names|] == names;
  }

  /** Every entry of `ds` whose id is `origin` is still in `ds'` unchanged. */
  predicate OriginKept(ds: seq<Display>, ds': seq<Display>, origin: DisplayId)
  {
    |ds'| == |ds| && forall k :: 0 <= k < |ds| && ds[k].id == origin ==> ds'[k] == ds[k]
  }

  /** What the sync loop has achieved once it has visited every index
      below `i`: brightness is the only level that moved, every visited
      display other than `origin` holds `value` (under unique ids), the
      `origin` display kept its brightness and the visited names are saved. */
  predicate SyncedBelow(m: Manager, cur: Manager, origin: DisplayId, value: real, i: nat)
    requires i <= |m.displays|
  {
    && OnlyBrightnessMoves(m.displays, cur.displays)
    && cur.syncAll == m.syncAll
    && cur.savedContrast == m.savedContrast && cur.savedVolume == m.savedVolume
    && cur.savedBrightness == SavedAfter(m, origin, value, i)
    && OriginKept(m.displays, cur.displays, origin)
    && (UniqueIds(m.displays) ==>
          forall k :: 0 <= k < |m.displays| ==>
            cur.displays[k].brightness
              == (if k < i && m.displays[k].id != origin then value else m.displays[k].brightness))
  }

  /** The display-list half of one iteration of the sync loop. */
  lemma SyncDisplaysStep(m: Manager, cur: Manager, next: Manager, origin: DisplayId, value: real, i: nat)
    requires i < |m.displays| && SyncedBelow(m, cur, origin, value, i)
    requires cur.displays[i].id != origin
    requires BrightnessSetOn(cur.displays, next.displays, cur.displays[i].id, value)
    ensures OnlyBrightnessMoves(m.displays, next.displays)
    ensures OriginKept(m.displays, next.displays, origin)
    ensures UniqueIds(m.displays) ==>
              forall k :: 0 <= k < |m.displays| ==>
                next.displays[k].brightness
                  == (if k < i + 1 && m.displays[k].id != origin then value else m.displays[k].brightness)
  {
    var d := cur.displays[i];
    OnlyBrightnessMovesTrans(m.displays, cur.displays, next.displays);
    forall k | 0 <= k < |m.displays| && m.displays[k].id == origin
      ensures next.displays[k] == m.displays[k]
    {
      assert Some(k) != IndexOf(cur.displays, d.id);
    }
    if UniqueIds(m.displays) {
      assert UniqueIds(cur.displays);
      IndexOfUnique(cur.displays, i);
      forall k | 0 <= k < |m.displays|
        ensures next.displays[k].brightness
                  == (if k < i + 1 && m.displays[k].id != origin then value else m.displays[k].brightness)
      {
        if k != i { assert next.displays[k] == cur.displays[k]; }
      }
    }
  }

  /** The saved brightness map once the sync loop has visited every
      index below `i`: each visited display other than `origin` stored
      `value` under its name, one store after the other. */
  function SavedAfter(m: Manager, origin: DisplayId, value: real, i: nat): (r: Saved)
    requires i <= |m.displays|
  {
    if i == 0 then m.savedBrightness
    else
      var prev := SavedAfter(m, origin, value, i - 1);
      if m.displays[i - 1].id != origin then prev[m.displays[i - 1].name := value] else prev
  }

  /** The stores of the sync loop are the stores of its synced names. */
  lemma {:induction false} SavedAfterIsSaveEach(m: Manager, origin: DisplayId, value: real, i: nat)
    requires i <= |m.displays|
    ensures SavedAfter(m, origin, value, i) == SaveEach(m.savedBrightness, SyncedNames(m.displays, origin, i), value)
  {
    if i > 0 {
      var d, names := m.displays[i - 1], SyncedNames(m.displays, origin, i - 1);
      SavedAfterIsSaveEach(m, origin, value, i - 1);
      if d.id != origin {
        assert SyncedNames(m.displays, origin, i) == names + [d.name];
        SaveEachSnoc(m.savedBrightness, names, d.name, value);
      } else {
        assert SyncedNames(m.displays, origin, i) == names;
      }
    }
  }

  /** The saved-map half of one iteration of the sync loop. */
  lemma SyncSavedStep(m: Manager, cur: Manager, origin: DisplayId, value: real, i: nat)
    requires i < |m.displays| && SameDisplays(m.displays, cur.displays)
    requires cur.savedBrightness == SavedAfter(m, origin, value, i)
    ensures cur.displays[i].id == origin ==> cur.savedBrightness == SavedAfter(m, origin, value, i + 1)
    ensures cur.displays[i].id != origin ==>
              cur.savedBrightness[cur.displays[i].name := value] == SavedAfter(m, origin, value, i + 1)
  {
    assert SameIdentity(m.displays[i], cur.displays[i]);
  }

  /** One iteration of the sync loop keeps `SyncedBelow`: a display with
      the origin's id is skipped, any other gets a nested setBrightness. */
  lemma SyncStep(m: Manager, cur: Manager, next: Manager, origin: DisplayId, value: real, i: nat)
    requires i < |m.displays| && SyncedBelow(m, cur, origin, value, i)
    requires cur.displays[i].id == origin ==> next == cur
    requires cur.displays[i].id != origin ==>
               && BrightnessSetOn(cur.displays, next.displays, cur.displays[i].id, value)
               && next.syncAll == cur.syncAll
               && next.savedBrightness == cur.savedBrightness[cur.displays[i].name := value]
               && next.savedContrast == cur.savedContrast && next.savedVolume == cur.savedVolume
    ensures SyncedBelow(m, next, origin, value, i + 1)
  {
    SyncSavedStep(m, cur, origin, value, i);
    if cur.displays[i].id != origin {
      SyncDisplaysStep(m, cur, next, origin, value, i);
    }
  }

  /** Before the sync loop visits anything, nothing has moved. */
  lemma SyncedBelowStart(m: Manager, origin: DisplayId, value: real)
    ensures SyncedBelow(m, m, origin, value, 0)
  {
    assert SameDisplays(m.displays, m.displays) by {
      forall k | 0 <= k < |m.displays| ensures SameIdentity(m.displays[k], m.displays[k]) { }
    }
  }

  /** One iteration of the sync loop: a display with the origin's id is
      skipped, any other gets a nested setBrightness. */
  method SyncVisit(m: Manager, cur: Manager, io: Io, origin: DisplayId, value: real, i: nat) returns (s: Step)
    requires i < |m.displays| && SyncedBelow(m, cur, origin, value, i)
    ensures SyncedBelow(m, s.manager, origin, value, i + 1)
  {
    var d := cur.displays[i];
    s := Step(cur, []);
    if d.id != origin {
      s := NestedSetBrightness(cur, io, d, value);
    }
    SyncStep(m, cur, s.manager, origin, value, i);
  }

  /** The sync loop of setBrightness: each display whose id differs from
      `origin` gets a nested setBrightness without further sync. */
  method SyncOthers(m: Manager, io: Io, origin: DisplayId, value: real) returns (s: Step)
    ensures OnlyBrightnessMoves(m.displays, s.manager.displays)
    ensures s.manager.syncAll == m.syncAll
    ensures s.manager.savedContrast == m.savedContrast && s.manager.savedVolume == m.savedVolume
    ensures s.manager.savedBrightness == SaveEach(m.savedBrightness, SyncedNames(m.displays, origin, |m.displays|), value)
    ensures OriginKept(m.displays, s.manager.displays, origin)
    ensures UniqueIds(m.displays) ==>
              forall k :: 0 <= k < |m.displays| && m.displays[k].id != origin ==>
                s.manager.displays[k].brightness == value
  {
    SyncedBelowStart(m, origin, value);
    s := SyncFrom(m, m, io, origin, value, 0);
    SyncedBelowDone(m, s.manager, origin, value);
  }

  /** The loop itself, from index `i` on: one visit per index, keeping
      `SyncedBelow`; the effects are those of the visits in index order. */
  method SyncFrom(m: Manager, cur: Manager, io: Io, origin: DisplayId, value: real, i: nat) returns (s: Step)
    requires i <= |m.displays| && SyncedBelow(m, cur, origin, value, i)
    ensures SyncedBelow(m, s.manager, origin, value, |m.displays|)
    decreases |m.displays| - i
  {
    if i == |m.displays| {
      s := Step(cur, []);
    } else {
      var visit := SyncVisit(m, cur, io, origin, value, i);
      var rest := SyncFrom(m, visit.manager, io, origin, value, i + 1);
      s := Step(rest.manager, visit.effects + rest.effects);
    }
  }

  /** The sync loop's invariant at its end is the loop's promise. */
  lemma SyncedBelowDone(m: Manager, cur: Manager, origin: DisplayId, value: real)
    requires SyncedBelow(m, cur, origin, value, |m.displays|)
    ensures OnlyBrightnessMoves(m.displays, cur.displays)
    ensures cur.syncAll == m.syncAll
    ensures cur.savedContrast == m.savedContrast && cur.savedVolume == m.savedVolume
    ensures cur.savedBrightness == SaveEach(m.savedBrightness, SyncedNames(m.displays, origin, |m.displays|), value)
    ensures OriginKept(m.displays, cur.displays, origin)
    ensures UniqueIds(m.displays) ==>
              forall k :: 0 <= k < |m.displays| && m.displays[k].id != origin ==>
                cur.displays[k].brightness == value
  {
    SavedAfterIsSaveEach(m, origin, value, |m.displays|);
  }

  /** setBrightness with sync off: the body for the target and the save
      of its name; no other display changes. */
  method SetBrightnessAlone(m: Manager, io: Io, target: Display, value: real) returns (s: Step)
    requires !m.syncAll
    ensures OnlyBrightnessMoves(m.displays, s.manager.displays)
    ensures s.manager.syncAll == m.syncAll
    ensures s.manager.savedContrast == m.savedContrast && s.manager.savedVolume == m.savedVolume
    ensures IndexOf(m.displays, target.id).Some? ==>
              s.manager.displays[IndexOf(m.displays, target.id).value].brightness == value
    ensures target.name in s.manager.savedBrightness && s.manager.savedBrightness[target.name] == value
    ensures m.savedBrightness.Keys <= s.manager.savedBrightness.Keys
    ensures BrightnessSetOn(m.displays, s.manager.displays, target.id, value)
    ensures s.manager.savedBrightness == m.savedBrightness[target.name := value]
    ensures TargetDriven(io, target, value, s.effects)
    ensures TargetFlagged(m.displays, s.manager.displays, target, value, s.effects)
    ensures |s.effects| == (if target.isInternal then 1 else 2)
  {
    var a := ApplyBrightness(m, io, target, value);
    s := Step(a.manager.(savedBrightness := a.manager.savedBrightness[target.name := value]), a.effects);
  }

  /** With unique ids, the target set first and every other display set by
      the sync loop leave the whole list at the value. */
  lemma SyncReachesAll(ds: seq<Display>, after: seq<Display>, synced: seq<Display>, id: DisplayId, value: real)
    requires UniqueIds(ds) && UniqueIds(after)
    requires BrightnessSetOn(ds, after, id, value) && SameDisplays(after, synced)
    requires forall k :: 0 <= k < |after| && after[k].id == id ==> synced[k].brightness == after[k].brightness
    requires forall k :: 0 <= k < |after| && after[k].id != id ==> synced[k].brightness == value
    ensures forall k :: 0 <= k < |ds| ==> synced[k].brightness == value
  {
    forall k | 0 <= k < |ds| ensures synced[k].brightness == value {
      if ds[k].id == id { IndexOfUnique(ds, k); }
    }
  }

  /** The sync loop leaves the target's record as the body left it, and its
      effects come after the target's own hardware actions. */
  lemma SyncKeepsTarget(io: Io, target: Display, value: real, ds: seq<Display>, after: seq<Display>,
                        synced: seq<Display>, effects: seq<Effect>, more: seq<Effect>)
    requires BrightnessSetOn(ds, after, target.id, value) && OriginKept(after, synced, target.id)
    requires TargetDriven(io, target, value, effects)
    requires TargetFlagged(ds, after, target, value, effects)
    ensures TargetDriven(io, target, value, effects + more)
    ensures TargetFlagged(ds, synced, target, value, effects + more)
    ensures IndexOf(ds, target.id).Some? ==> synced[IndexOf(ds, target.id).value].brightness == value
  {
    assert (effects + more)[0] == effects[0];
    if !target.isInternal {
      assert (effects + more)[1] == effects[1];
    }
    if IndexOf(ds, target.id).Some? {
      var k := IndexOf(ds, target.id).value;
      assert SameIdentity(ds[k], after[k]);
    }
  }

  /** setBrightness with sync on: the body for the target, then the sync
      loop over every other display, then the save of the target's name. */
  method SetBrightnessSynced(m: Manager, io: Io, target: Display, value: real) returns (s: Step)
    requires m.syncAll
    ensures OnlyBrightnessMoves(m.displays, s.manager.displays)
    ensures s.manager.syncAll == m.syncAll
    ensures s.manager.savedContrast == m.savedContrast && s.manager.savedVolume == m.savedVolume
    ensures IndexOf(m.displays, target.id).Some? ==>
              s.manager.displays[IndexOf(m.displays, target.id).value].brightness == value
    ensures target.name in s.manager.savedBrightness && s.manager.savedBrightness[target.name] == value
    ensures m.savedBrightness.Keys <= s.manager.savedBrightness.Keys
    ensures s.manager.savedBrightness
              == SaveEach(m.savedBrightness, SyncedNames(m.displays, target.id, |m.displays|) + [target.name], value)
    ensures UniqueIds(m.displays) ==>
              forall k :: 0 <= k < |m.displays| ==> s.manager.displays[k].brightness == value
    ensures TargetDriven(io, target, value, s.effects)
    ensures TargetFlagged(m.displays, s.manager.displays, target, value, s.effects)
  {
    var a := ApplyBrightness(m, io, target, value);
    var p := SyncOthers(a.manager, io, target.id, value);
    OnlyBrightnessMovesTrans(m.displays, a.manager.displays, p.manager.displays);
    SyncedNamesSame(m.displays, a.manager.displays, target.id, |m.displays|);
    SaveEachSnoc(m.savedBrightness, SyncedNames(m.displays, target.id, |m.displays|), target.name, value);
    SyncKeepsTarget(io, target, value, m.displays, a.manager.displays, p.manager.displays, a.effects, p.effects);
    if UniqueIds(m.displays) {
      assert UniqueIds(a.manager.displays);
      SyncReachesAll(m.displays, a.manager.displays, p.manager.displays, target.id, value);
    }
    s := Step(p.manager.(savedBrightness := p.manager.savedBrightness[target.name := value]), a.effects + p.effects);
  }

  /** setBrightness. With sync on, every other display gets a nested
      setBrightness that does not sync again; see `SyncRecursionCycles` for
      why the source's own nested call cannot terminate. */
  method SetBrightness(m: Manager, io: Io, target: Display, value: real) returns (s: Step)
    ensures OnlyBrightnessMoves(m.displays, s.manager.displays)
    ensures s.manager.syncAll == m.syncAll
    ensures s.manager.savedContrast == m.savedContrast && s.manager.savedVolume == m.savedVolume
    ensures IndexOf(m.displays, target.id).Some? ==>
              s.manager.displays[IndexOf(m.displays, target.id).value].brightness == value
    ensures target.name in s.manager.savedBrightness && s.manager.savedBrightness[target.name] == value
    ensures m.savedBrightness.Keys <= s.manager.savedBrightness.Keys
    // sync off: no other display changes, and only the target's name is saved
    ensures !m.syncAll ==>
              && BrightnessSetOn(m.displays, s.manager.displays, target.id, value)
              && s.manager.savedBrightness == m.savedBrightness[target.name := value]
    // sync on: every display takes the value, every other display's name is saved too
    ensures m.syncAll ==>
              s.manager.savedBrightness
                == SaveEach(m.savedBrightness, SyncedNames(m.displays, target.id, |m.displays|) + [target.name], value)
    ensures m.syncAll && UniqueIds(m.displays) ==>
              forall k :: 0 <= k < |m.displays| ==> s.manager.displays[k].brightness == value
    // the target's own hardware actions come first, and its flag follows the hybrid rule
    ensures TargetDriven(io, target, value, s.effects)
    ensures TargetFlagged(m.displays, s.manager.displays, target, value, s.effects)
    ensures !m.syncAll ==> |s.effects| == (if target.isInternal then 1 else 2)
  {
    if m.syncAll {
      s := SetBrightnessSynced(m, io, target, value);
    } else {
      s := SetBrightnessAlone(m, io, target, value);
    }
  }

  /** The identifiers present in a display list. */
  function IdsOf(ds: seq<Display>): set<DisplayId>
  {
    set k | 0 <= k < |ds| :: ds[k].id
  }

  /** The ids the source's sync loop calls setBrightness on, in order. */
  function SyncCallees(ds: seq<Display>, id: DisplayId): (r: seq<DisplayId>)
    decreases |ds|
    ensures forall x :: x in r <==> x != id && x in IdsOf(ds)
  {
    if |ds| == 0 then []
    else
      var rest := SyncCallees(ds[1..], id);
      assert IdsOf(ds) == {ds[0].id} + IdsOf(ds[1..]) by {
        forall x | x in IdsOf(ds) ensures x in {ds[0].id} + IdsOf(ds[1..]) {
          var k :| 0 <= k < |ds| && ds[k].id == x;
          if k > 0 { assert ds[1..][k - 1].id == x; }
        }
        forall x | x in IdsOf(ds[1..]) ensures x in IdsOf(ds) {
          var k :| 0 <= k < |ds[1..]| && ds[1..][k].id == x;
          assert ds[k + 1].id == x;
        }
      }
      (if ds[0].id != id then [ds[0].id] else []) + rest
  }

  /** The source's setBrightness, with sync on and two displays `a` and
      `b`, calls itself for `b` from `a`; the nested call leaves a list
      holding the same displays (`after`: every operation here keeps
      `SameDisplays`), from which it calls itself for `a` again. The chain
      a, b, a, b, ... never ends, so no termination measure exists. */
  lemma SyncRecursionCycles(ds: seq<Display>, after: seq<Display>, a: Display, b: Display)
    requires a in ds && b in ds && a.id != b.id
    requires SameDisplays(ds, after)
    ensures b.id in SyncCallees(ds, a.id)
    ensures a.id in SyncCallees(after, b.id)
  {
    var i :| 0 <= i < |ds| && ds[i] == a;
    var j :| 0 <= j < |ds| && ds[j] == b;
    assert ds[j].id in IdsOf(ds);
    assert after[i].id == a.id;
    assert after[i].id in IdsOf(after);
  }

  /** The DDC/CI write setContrast and setVolume issue for an external
      display; its outcome is ignored (there is no software fallback for
      either control). The built-in panel gets no hardware action. */
  function WriteLevel(ddc: DdcState, io: Io, target: Display, c: Control, value: real): (r: (DdcState, seq<Effect>))
    ensures target.isInternal ==> r == (ddc, [])
    ensures !target.isInternal ==>
              && |r.1| == 1 && r.1[0].Ddc? && r.1[0].id == target.id
              && r.1[0].code == FeatureCode(c) && r.1[0].level == value
              && (r.1[0].ok ==> io.serviceFound(target.id))
    ensures MaxCacheKept(ddc, r.0)
  {
    if target.isInternal then (ddc, [])
    else
      var w := SetNormalised(ddc, io, target.id, FeatureCode(c), value);
      (w.state, [Ddc(target.id, FeatureCode(c), value, w.raw, w.ok)])
  }

  /** setContrast: update the level, write it over DDC/CI for an external
      display, save it under the display's name. */
  function SetContrast(m: Manager, io: Io, target: Display, value: real): (s: Step)
    ensures |s.manager.displays| == |m.displays|
    ensures forall k :: 0 <= k < |m.displays| ==>
              s.manager.displays[k] == (if Some(k) == IndexOf(m.displays, target.id)
                                        then m.displays[k].(contrast := value) else m.displays[k])
    ensures s.manager.savedContrast == m.savedContrast[target.name := value]
    ensures s.manager == m.(displays := s.manager.displays, savedContrast := s.manager.savedContrast, ddc := s.manager.ddc)
    ensures target.isInternal ==> s.effects == [] && s.manager.ddc == m.ddc
    ensures !target.isInternal ==>
              && |s.effects| == 1 && s.effects[0].Ddc? && s.effects[0].id == target.id
              && s.effects[0].code == ContrastCode && s.effects[0].level == value
              && (s.effects[0].ok ==> io.serviceFound(target.id))
  {
    var w := WriteLevel(m.ddc, io, target, ContrastControl, value);
    Step(m.(displays := SetLevelOf(m.displays, target.id, ContrastControl, value),
            savedContrast := m.savedContrast[target.name := value],
            ddc := w.0), w.1)
  }

  /** setVolume: as setContrast, for the audio volume. */
  function SetVolume(m: Manager, io: Io, target: Display, value: real): (s: Step)
    ensures |s.manager.displays| == |m.displays|
    ensures forall k :: 0 <= k < |m.displays| ==>
              s.manager.displays[k] == (if Some(k) == IndexOf(m.displays, target.id)
                                        then m.displays[k].(volume := value) else m.displays[k])
    ensures s.manager.savedVolume == m.savedVolume[target.name := value]
    ensures s.manager == m.(displays := s.manager.displays, savedVolume := s.manager.savedVolume, ddc := s.manager.ddc)
    ensures target.isInternal ==> s.effects == [] && s.manager.ddc == m.ddc
    ensures !target.isInternal ==>
              && |s.effects| == 1 && s.effects[0].Ddc? && s.effects[0].id == target.id
              && s.effects[0].code == VolumeCode && s.effects[0].level == value
              && (s.effects[0].ok ==> io.serviceFound(target.id))
  {
    var w := WriteLevel(m.ddc, io, target, VolumeControl, value);
    Step(m.(displays := SetLevelOf(m.displays, target.id, VolumeControl, value),
            savedVolume := m.savedVolume[target.name := value],
            ddc := w.0), w.1)
  }

  /** What adjustAllBrightness has achieved once it has visited every
      display below `i` of the list `m` it started from. */
  predicate AdjustedBelow(m: Manager, cur: Manager, delta: real, i: nat)
    requires i <= |m.displays|
  {
    && OnlyBrightnessMoves(m.displays, cur.displays)
    && cur.syncAll == m.syncAll
    && (forall j :: 0 <= j < i ==> m.displays[j].name in cur.savedBrightness)
    && (!m.syncAll && UniqueIds(m.displays) ==>
          forall j :: 0 <= j < |m.displays| ==>
            cur.displays[j].brightness
              == (if j < i then Clamp01(m.displays[j].brightness + delta) else m.displays[j].brightness))
    && (m.syncAll && UniqueIds(m.displays) && 0 < i ==>
          forall j :: 0 <= j < |m.displays| ==>
            cur.displays[j].brightness == Clamp01(m.displays[i - 1].brightness + delta))
  }

  /** One iteration of adjustAllBrightness: display `i`, as it stood when
      the adjustment started, is set to its brightness plus `delta`, clamped. */
  method AdjustVisit(m: Manager, cur: Manager, io: Io, delta: real, i: nat) returns (s: Step)
    requires i < |m.displays| && AdjustedBelow(m, cur, delta, i)
    ensures AdjustedBelow(m, s.manager, delta, i + 1)
  {
    var d := m.displays[i];
    if UniqueIds(m.displays) {
      assert UniqueIds(cur.displays);
      IndexOfUnique(cur.displays, i);
    }
    var v := Clamp01(d.brightness + delta);
    s := SetBrightness(cur, io, d, v);
    OnlyBrightnessMovesTrans(m.displays, cur.displays, s.manager.displays);
    if !m.syncAll && UniqueIds(m.displays) {
      forall j | 0 <= j < |m.displays|
        ensures s.manager.displays[j].brightness
                  == (if j < i + 1 then Clamp01(m.displays[j].brightness + delta) else m.displays[j].brightness)
      {
        if j != i { assert s.manager.displays[j] == cur.displays[j]; }
      }
    }
  }

  /** adjustAllBrightness: each display of the list as it stood when the
      adjustment started is set to its own brightness plus `delta`, clamped
      to [0, 1]; `requested` holds those values in order, and `osd` the
      first of them, which the on-screen display shows. */
  method AdjustAllBrightness(m: Manager, io: Io, delta: real) returns (s: Step, requested: seq<real>, osd: Option<real>)
    ensures |requested| == |m.displays|
    ensures forall j :: 0 <= j < |requested| ==>
              requested[j] == Clamp01(m.displays[j].brightness + delta) && 0.0 <= requested[j] <= 1.0
    ensures osd.Some? <==> |m.displays| > 0
    ensures osd.Some? ==> osd.value == requested[0]
    ensures OnlyBrightnessMoves(m.displays, s.manager.displays)
    ensures s.manager.syncAll == m.syncAll
    ensures forall j :: 0 <= j < |m.displays| ==> m.displays[j].name in s.manager.savedBrightness
    // sync off: display j ends at the value requested for it
    ensures !m.syncAll && UniqueIds(m.displays) ==>
              forall j :: 0 <= j < |m.displays| ==> s.manager.displays[j].brightness == requested[j]
    // sync on: the last request reaches every display
    ensures m.syncAll && UniqueIds(m.displays) && |m.displays| > 0 ==>
              forall j :: 0 <= j < |m.displays| ==>
                s.manager.displays[j].brightness == requested[|requested| - 1]
  {
    var cur := m;
    var effects: seq<Effect> := [];
    requested := [];
    osd := None;
    var i := 0;
    while i < |m.displays|
      invariant i <= |m.displays| && |requested| == i
      invariant forall j :: 0 <= j < i ==> requested[j] == Clamp01(m.displays[j].brightness + delta)
      invariant osd.Some? <==> i > 0
      invariant osd.Some? ==> osd.value == requested[0]
      invariant AdjustedBelow(m, cur, delta, i)
    {
      var v := Clamp01(m.displays[i].brightness + delta);
      var visit := AdjustVisit(m, cur, io, delta, i);
      cur := visit.manager;
      effects := effects + visit.effects;
      requested := requested + [v];
      if osd.None? { osd := Some(v); }
      i := i + 1;
    }
    s := Step(cur, effects);
  }

  datatype Preset = Cinema | Reading | Night | Outdoor | Focus

  function PresetBrightness(p: Preset): (b: real)
    ensures HardwareFloor <= b <= 1.0
  {
    match p
    case Cinema => 0.8
    case Reading => 0.4
    case Night => 0.1
    case Outdoor => 1.0
    case Focus => 0.6
  }

  function PresetIcon(p: Preset): string
  {
    match p
    case Cinema => "film"
    case Reading => "book"
    case Night => "moon.fill"
    case Outdoor => "sun.max"
    case Focus => "brain"
  }

  /** The immediate part of applyPreset: every display's logical brightness
      takes the preset value at once; nothing is saved. */
  function ApplyPreset(m: Manager, p: Preset): (m': Manager)
    ensures OnlyBrightnessMoves(m.displays, m'.displays)
    ensures forall k :: 0 <= k < |m'.displays| ==> m'.displays[k].brightness == PresetBrightness(p)
    ensures forall k :: 0 <= k < |m'.displays| ==>
              m'.displays[k] == m.displays[k].(brightness := PresetBrightness(p))
    ensures m' == m.(displays := m'.displays)
  {
    m.(displays := seq(|m.displays|, k requires 0 <= k < |m.displays| => m.displays[k].(brightness := PresetBrightness(p))))
  }

  /** setHardwareBrightnessAsync: the raw value goes to DDC/CI with no hybrid
      split; the gamma ramp is reset to 1.0 when DDC worked and dimmed to the
      value when it did not. The software-control flag is not touched. */
  function SetHardwareBrightness(ddc: DdcState, io: Io, d: Display, value: real): (r: (DdcState, seq<Effect>))
    ensures d.isInternal ==> r == (ddc, [Panel(d.id, value)])
    ensures !d.isInternal ==>
              && |r.1| == 2 && r.1[0].Ddc? && r.1[0].id == d.id
              && r.1[0].code == BrightnessCode && r.1[0].level == value
              && r.1[1] == Gamma(d.id, if r.1[0].ok then 1.0 else value)
              && (r.1[0].ok ==> io.serviceFound(d.id))
    ensures MaxCacheKept(ddc, r.0)
  {
    if d.isInternal then (ddc, [Panel(d.id, value)])
    else
      var w := SetNormalised(ddc, io, d.id, BrightnessCode, value);
      (w.state, [Ddc(d.id, BrightnessCode, value, w.raw, w.ok), Gamma(d.id, if w.ok then 1.0 else value)])
  }

  /** The hardware actions of the preset pass, display by display in list
      order: the panel call at the value for the built-in panel; for an
      external display, the DDC/CI write of the value, then the gamma ramp
      reset to 1 when that write went through and dimmed to the value when
      it did not. */
  predicate PresetDriven(io: Io, ds: seq<Display>, value: real, effects: seq<Effect>)
    decreases |ds|
  {
    if |ds| == 0 then effects == []
    else if ds[0].isInternal then
      && 1 <= |effects| && effects[0] == Panel(ds[0].id, value)
      && PresetDriven(io, ds[1..], value, effects[1..])
    else
      && 2 <= |effects| && effects[0].Ddc?
      && effects[0].id == ds[0].id && effects[0].code == BrightnessCode && effects[0].level == value
      && effects[1] == Gamma(ds[0].id, if effects[0].ok then 1.0 else value)
      && (effects[0].ok ==> io.serviceFound(ds[0].id))
      && PresetDriven(io, ds[1..], value, effects[2..])
  }

  /** The actions for the first display followed by those for the rest
      are the actions for the whole list. */
  lemma PresetDrivenCons(io: Io, ds: seq<Display>, value: real, first: seq<Effect>, rest: seq<Effect>)
    requires |ds| > 0 && PresetDriven(io, ds[1..], value, rest)
    requires ds[0].isInternal ==> first == [Panel(ds[0].id, value)]
    requires !ds[0].isInternal ==>
               && |first| == 2 && first[0].Ddc? && first[0].id == ds[0].id
               && first[0].code == BrightnessCode && first[0].level == value
               && first[1] == Gamma(ds[0].id, if first[0].ok then 1.0 else value)
               && (first[0].ok ==> io.serviceFound(ds[0].id))
    ensures PresetDriven(io, ds, value, first + rest)
  {
    assert (first + rest)[|first|..] == rest;
  }

  /** The hardware pass of applyPreset over the displays, one after the other. */
  function PresetHardwarePass(ddc: DdcState, io: Io, ds: seq<Display>, value: real): (r: (DdcState, seq<Effect>))
    decreases |ds|
    ensures PresetDriven(io, ds, value, r.1)
    ensures MaxCacheKept(ddc, r.0)
  {
    if |ds| == 0 then (ddc, [])
    else
      var first := SetHardwareBrightness(ddc, io, ds[0], value);
      var rest := PresetHardwarePass(first.0, io, ds[1..], value);
      PresetDrivenCons(io, ds, value, first.1, rest.1);
      (rest.0, first.1 + rest.1)
  }

  /** Every display of the list gets a hardware action at the preset level;
      every panel call and DDC/CI write carries that level, and every gamma
      ramp is either the reset to 1 or the dim to that level. */
  lemma {:induction false} PresetDrivesEveryDisplay(io: Io, ds: seq<Display>, value: real, effects: seq<Effect>)
    requires PresetDriven(io, ds, value, effects)
    decreases |ds|
    ensures |ds| <= |effects|
    ensures forall k :: 0 <= k < |ds| ==>
              exists e :: e in effects && e.id == ds[k].id && (e.Panel? || e.Ddc?) && e.level == value
    ensures forall e :: e in effects && (e.Panel? || e.Ddc?) ==> e.level == value
    ensures forall e :: e in effects && e.Gamma? ==> e.brightness == 1.0 || e.brightness == value
  {
    if |ds| > 0 {
      var n := if ds[0].isInternal then 1 else 2;
      PresetDrivesEveryDisplay(io, ds[1..], value, effects[n..]);
      assert effects == effects[..n] + effects[n..];
      forall e | e in effects
        ensures (e.Panel? || e.Ddc?) ==> e.level == value
        ensures e.Gamma? ==> e.brightness == 1.0 || e.brightness == value
      {
        if e !in effects[n..] {
          assert e in effects[..n];
        }
      }
      forall k | 0 <= k < |ds|
        ensures exists e :: e in effects && e.id == ds[k].id && (e.Panel? || e.Ddc?) && e.level == value
      {
        if k == 0 {
          assert effects[0] in effects;
        } else {
          assert ds[k] == ds[1..][k - 1];
          var e :| e in effects[n..] && e.id == ds[k].id && (e.Panel? || e.Ddc?) && e.level == value;
          assert e in effects;
        }
      }
    }
  }

  /** A screen as the platform enumerates it; screens without a display
      number are skipped. */
  datatype Screen = Screen(number: Option<DisplayId>, name: string, isInternal: bool)

  /** The saved level for a name, else the default 0.5. */
  function SavedOr(saved: Saved, name: string): (r: real)
    ensures name in saved ==> r == saved[name]
    ensures name !in saved ==> r == DefaultLevel
  {
    if name in saved then saved[name] else DefaultLevel
  }

  /** One display as refreshDisplays builds it, with the three hardware reads
      and the initial write it performed. */
  datatype Refreshed = Refreshed(
    display: Display,
    readBrightness: Option<real>,
    readContrast: Option<real>,
    readVolume: Option<real>,
    ddc: DdcState,
    effects: seq<Effect>)

  /** The fields refreshDisplays starts every display from: the saved
      levels (default 0.5), and DDC support exactly for external displays. */
  function RefreshBase(m: Manager, id: DisplayId, name: string, isInternal: bool): (d: Display)
    ensures d.id == id && d.name == name && d.isInternal == isInternal
    ensures d.supportsDDC == !isInternal && !d.isSoftwareControl
    ensures d.brightness == SavedOr(m.savedBrightness, name)
    ensures d.contrast == SavedOr(m.savedContrast, name)
    ensures d.volume == SavedOr(m.savedVolume, name)
  {
    NewDisplay(id, name, isInternal).(
      brightness := SavedOr(m.savedBrightness, name),
      contrast := SavedOr(m.savedContrast, name),
      volume := SavedOr(m.savedVolume, name),
      supportsDDC := !isInternal)
  }

  /** The three DDC reads of refreshDisplays for an external display:
      each level that could be read replaces the saved one, and the display
      starts under software control exactly when brightness could not be read. */
  function ReadLevels(m: Manager, io: Io, ddc: DdcState, id: DisplayId, name: string): (r: Refreshed)
    ensures r.display.id == id && r.display.name == name && !r.display.isInternal && r.display.supportsDDC
    ensures r.display.brightness == (if r.readBrightness.Some? then r.readBrightness.value else SavedOr(m.savedBrightness, name))
    ensures r.display.contrast == (if r.readContrast.Some? then r.readContrast.value else SavedOr(m.savedContrast, name))
    ensures r.display.volume == (if r.readVolume.Some? then r.readVolume.value else SavedOr(m.savedVolume, name))
    ensures r.display.isSoftwareControl <==> r.readBrightness.None?
    ensures !io.serviceFound(id) ==> r.readBrightness.None? && r.readContrast.None? && r.readVolume.None?
    ensures ReadBack(io, id, BrightnessCode, r.readBrightness) && ReadBack(io, id, ContrastCode, r.readContrast)
            && ReadBack(io, id, VolumeCode, r.readVolume)
    ensures r.effects == []
    ensures r.ddc.maxCache == ddc.maxCache
  {
    var base := RefreshBase(m, id, name, false);
    var gb := GetNormalised(ddc, io, id, BrightnessCode);
    GetNormalisedReadBack(ddc, io, id, BrightnessCode);
    var d1 := if gb.value.Some? then base.(brightness := gb.value.value, isSoftwareControl := false)
              else base.(isSoftwareControl := true);
    var gc := GetNormalised(gb.state, io, id, ContrastCode);
    GetNormalisedReadBack(gb.state, io, id, ContrastCode);
    var d2 := if gc.value.Some? then d1.(contrast := gc.value.value) else d1;
    var gv := GetNormalised(gc.state, io, id, VolumeCode);
    GetNormalisedReadBack(gc.state, io, id, VolumeCode);
    var d3 := if gv.value.Some? then d2.(volume := gv.value.value) else d2;
    Refreshed(d3, gb.value, gc.value, gv.value, gv.state, [])
  }

  /** What a refresh read means in terms of the platform: nothing without a
      service; a value is the normalised reply of some bus; no value with a
      service means every bus 0..14 failed to answer. */
  ghost predicate ReadBack(io: Io, id: DisplayId, code: Byte, v: Option<real>)
  {
    && (!io.serviceFound(id) ==> v.None?)
    && (v.Some? ==> exists b :: PerformRead(io, id, b, code).Some?
                                && v.value == Normalised(PerformRead(io, id, b, code).value.current,
                                                         PerformRead(io, id, b, code).value.max))
    && (v.None? && io.serviceFound(id) ==> forall b :: 0 <= b < BusProbe.CoreBusCount ==> PerformRead(io, id, b, code).None?)
  }

  /** A `GetNormalised` value is a `ReadBack` of its code. */
  lemma GetNormalisedReadBack(st: DdcState, io: Io, id: DisplayId, code: Byte)
    ensures ReadBack(io, id, code, GetNormalised(st, io, id, code).value)
  {
    var g := GetNormalised(st, io, id, code);
    if g.value.Some? {
      var b := g.state.busCache[id];
      assert PerformRead(io, id, b, code).Some?;
    }
  }

  /** An external display during refreshDisplays, as the source runs it:
      the levels read back, then the brightness written over DDC/CI with the
      gamma ramp as fallback when that write fails. The record is appended
      to the new list before the fallback sets the flag on the local copy,
      so the listed display is flagged exactly when its brightness could not
      be read; a failed initial write leaves no trace in the list. */
  function RefreshExternal(m: Manager, io: Io, ddc: DdcState, id: DisplayId, name: string): (r: Refreshed)
    ensures r.display.id == id && r.display.name == name && !r.display.isInternal && r.display.supportsDDC
    ensures r.display.brightness == (if r.readBrightness.Some? then r.readBrightness.value else SavedOr(m.savedBrightness, name))
    ensures r.display.contrast == (if r.readContrast.Some? then r.readContrast.value else SavedOr(m.savedContrast, name))
    ensures r.display.volume == (if r.readVolume.Some? then r.readVolume.value else SavedOr(m.savedVolume, name))
    ensures ReadBack(io, id, BrightnessCode, r.readBrightness) && ReadBack(io, id, ContrastCode, r.readContrast)
            && ReadBack(io, id, VolumeCode, r.readVolume)
    ensures 1 <= |r.effects| && r.effects[0].Ddc? && r.effects[0].id == id
    ensures r.effects[0].code == BrightnessCode && r.effects[0].level == r.display.brightness
    ensures r.effects[0].ok ==> io.serviceFound(id)
    ensures r.effects[1..] == (if r.effects[0].ok then [] else [Gamma(id, r.display.brightness)])
    ensures r.display.isSoftwareControl <==> r.readBrightness.None?
    ensures MaxCacheKept(ddc, r.ddc)
  {
    var read := ReadLevels(m, io, ddc, id, name);
    var d := read.display;
    var w := SetNormalised(read.ddc, io, id, BrightnessCode, d.brightness);
    var effects := [Ddc(id, BrightnessCode, d.brightness, w.raw, w.ok)]
                   + (if w.ok then [] else [Gamma(id, d.brightness)]);
    read.(ddc := w.state, effects := effects)
  }

  /** The same step with the fallback flag recorded on the listed display,
      as the comment and the flag's other uses intend: software is in
      control exactly when the brightness read failed or the gamma fallback
      was installed. */
  function RefreshExternalIntended(m: Manager, io: Io, ddc: DdcState, id: DisplayId, name: string): (r: Refreshed)
    ensures 1 <= |r.effects| && r.effects[0].Ddc?
    ensures r.display.isSoftwareControl <==> r.readBrightness.None? || |r.effects| == 2
    ensures r.display.isSoftwareControl <==> r.readBrightness.None? || !r.effects[0].ok
    // apart from the flag, the step is the as-written one
    ensures var a := RefreshExternal(m, io, ddc, id, name);
            r.(display := r.display.(isSoftwareControl := false)) == a.(display := a.display.(isSoftwareControl := false))
  {
    var a := RefreshExternal(m, io, ddc, id, name);
    a.(display := a.display.(isSoftwareControl := a.display.isSoftwareControl || !a.effects[0].ok))
  }

  /** A platform on which every display has a service, every bus opens and
      answers a Get VCP Feature request with maximum 100 and current 50, and
      every write fails. */
  function ReadOnlyIo(): Io
  {
    Io(d => true, (d, b) => true, (d, b, f) => false,
       (d, b, f: seq<Byte>) => if |f| == ReadRequestSize then Some([ReplyOpcode, 0, f[3], 0, 0, 100, 0, 50]) else None)
  }

  /** On such a platform the initial write of an external display fails and
      its ramp is dimmed, yet the listed display is not flagged: the source
      loses the fallback flag, where the intended step records it. */
  lemma RefreshDropsFallbackFlag(m: Manager, ddc: DdcState, id: DisplayId, name: string)
    ensures var r := RefreshExternal(m, ReadOnlyIo(), ddc, id, name);
            && r.readBrightness.Some? && !r.effects[0].ok && |r.effects| == 2 && r.effects[1].Gamma?
            && !r.display.isSoftwareControl
    ensures RefreshExternalIntended(m, ReadOnlyIo(), ddc, id, name).display.isSoftwareControl
  {
    var io := ReadOnlyIo();
    var buf := ReplyBuffer([ReplyOpcode, 0, BrightnessCode, 0, 0, 100, 0, 50]);
    assert MatchAt(buf, BrightnessCode, 0);
    assert PerformRead(io, id, 0, BrightnessCode).Some?;
  }

  /** One display as refreshDisplays builds it: the built-in panel gets its
      saved brightness through the panel call; an external display is read
      and written over DDC/CI. */
  function RefreshOne(m: Manager, io: Io, ddc: DdcState, id: DisplayId, name: string, isInternal: bool): (r: Refreshed)
    ensures r.display.id == id && r.display.name == name && r.display.isInternal == isInternal
    ensures r.display.supportsDDC == !isInternal
    ensures isInternal ==>
              && r.display == NewDisplay(id, name, true).(
                   brightness := SavedOr(m.savedBrightness, name),
                   contrast := SavedOr(m.savedContrast, name),
                   volume := SavedOr(m.savedVolume, name))
              && r.effects == [Panel(id, r.display.brightness)] && r.ddc == ddc
    ensures !isInternal ==>
              && r.display.brightness == (if r.readBrightness.Some? then r.readBrightness.value else SavedOr(m.savedBrightness, name))
              && r.display.contrast == (if r.readContrast.Some? then r.readContrast.value else SavedOr(m.savedContrast, name))
              && r.display.volume == (if r.readVolume.Some? then r.readVolume.value else SavedOr(m.savedVolume, name))
              && ReadBack(io, id, BrightnessCode, r.readBrightness) && ReadBack(io, id, ContrastCode, r.readContrast)
              && ReadBack(io, id, VolumeCode, r.readVolume)
              && 1 <= |r.effects| && r.effects[0].Ddc? && r.effects[0].id == id
              && r.effects[0].code == BrightnessCode && r.effects[0].level == r.display.brightness
              && (r.effects[0].ok ==> io.serviceFound(id))
              && r.effects[1..] == (if r.effects[0].ok then [] else [Gamma(id, r.display.brightness)])
              && (r.display.isSoftwareControl <==> r.readBrightness.None?)
    ensures !isInternal && !io.serviceFound(id) ==>
              && r.readBrightness.None? && r.readContrast.None? && r.readVolume.None?
              && r.display.isSoftwareControl
              && r.display.brightness == SavedOr(m.savedBrightness, name)
    ensures MaxCacheKept(ddc, r.ddc)
  {
    if isInternal then
      var base := RefreshBase(m, id, name, true);
      Refreshed(base, None, None, None, ddc, [Panel(id, base.brightness)])
    else RefreshExternal(m, io, ddc, id, name)
  }

  /** The screens that have a display number, in order. */
  function Numbered(screens: seq<Screen>): (r: seq<Screen>)
    ensures forall s :: s in r <==> s in screens && s.number.Some?
    ensures forall k :: 0 <= k < |r| ==> r[k].number.Some?
    ensures |r| <= |screens|
    ensures multiset(r) <= multiset(screens)
  {
    if |screens| == 0 then []
    else
      var rest := Numbered(screens[1..]);
      assert screens == [screens[0]] + screens[1..];
      (if screens[0].number.Some? then [screens[0]] else []) + rest
  }

  /** Where each numbered screen sits in the screen list: strictly
      increasing positions, so `Numbered` keeps the screens' order, and
      every position of a numbered screen is among them. */
  function NumberedPositions(screens: seq<Screen>): (idx: seq<nat>)
    ensures |idx| == |Numbered(screens)|
    ensures forall k :: 0 <= k < |idx| ==> idx[k] < |screens| && screens[idx[k]] == Numbered(screens)[k]
    ensures Increasing(idx)
    ensures forall p :: 0 <= p < |screens| && screens[p].number.Some? ==> p in idx
  {
    if |screens| == 0 then []
    else
      var rest := NumberedPositions(screens[1..]);
      var shifted := seq(|rest|, k requires 0 <= k < |rest| => rest[k] + 1);
      var idx := if screens[0].number.Some? then [0] + shifted else shifted;
      PositionsEntries(screens, rest, idx);
      PositionsIncreasing(rest, idx, if screens[0].number.Some? then 1 else 0);
      PositionsCover(screens, rest, idx);
      idx
  }

  predicate Increasing(idx: seq<nat>)
  {
    forall k, l :: 0 <= k < l < |idx| ==> idx[k] < idx[l]
  }

  /** The step of `NumberedPositions` for its entries: each position, in
      the whole list, holds the screen `Numbered` lists there. */
  lemma PositionsEntries(screens: seq<Screen>, rest: seq<nat>, idx: seq<nat>)
    requires 0 < |screens| && |rest| == |Numbered(screens[1..])|
    requires forall k :: 0 <= k < |rest| ==> rest[k] < |screens| - 1 && screens[1..][rest[k]] == Numbered(screens[1..])[k]
    requires idx == if screens[0].number.Some? then [0] + seq(|rest|, k requires 0 <= k < |rest| => rest[k] + 1)
                    else seq(|rest|, k requires 0 <= k < |rest| => rest[k] + 1)
    ensures |idx| == |Numbered(screens)|
    ensures forall k :: 0 <= k < |idx| ==> idx[k] < |screens| && screens[idx[k]] == Numbered(screens)[k]
  {
    var tail := Numbered(screens[1..]);
    var n := if screens[0].number.Some? then 1 else 0;
    assert Numbered(screens) == (if screens[0].number.Some? then [screens[0]] else []) + tail;
    forall k | 0 <= k < |idx|
      ensures idx[k] < |screens| && screens[idx[k]] == Numbered(screens)[k]
    {
      if n <= k {
        assert idx[k] == rest[k - n] + 1;
        assert screens[1..][rest[k - n]] == screens[rest[k - n] + 1];
      }
    }
  }

  /** The step of `NumberedPositions` for order: positions moved up by one,
      led by 0 when `n` is 1, stay increasing. */
  lemma PositionsIncreasing(rest: seq<nat>, idx: seq<nat>, n: nat)
    requires Increasing(rest) && n <= 1
    requires idx == (if n == 1 then [0] else []) + seq(|rest|, k requires 0 <= k < |rest| => rest[k] + 1)
    ensures Increasing(idx)
  {
    forall k, l | 0 <= k < l < |idx|
      ensures idx[k] < idx[l]
    {
      if k < n {
        assert idx[k] == 0 && 0 < idx[l];
      } else {
        assert idx[k] == rest[k - n] + 1 && idx[l] == rest[l - n] + 1;
      }
    }
  }

  /** The step of `NumberedPositions` for coverage: every numbered screen's
      position is listed. */
  lemma PositionsCover(screens: seq<Screen>, rest: seq<nat>, idx: seq<nat>)
    requires 0 < |screens|
    requires forall p :: 0 <= p < |screens| - 1 && screens[1..][p].number.Some? ==> p in rest
    requires idx == if screens[0].number.Some? then [0] + seq(|rest|, k requires 0 <= k < |rest| => rest[k] + 1)
                    else seq(|rest|, k requires 0 <= k < |rest| => rest[k] + 1)
    ensures forall p :: 0 <= p < |screens| && screens[p].number.Some? ==> p in idx
  {
    var n := if screens[0].number.Some? then 1 else 0;
    forall p | 0 <= p < |screens| && screens[p].number.Some?
      ensures p in idx
    {
      if p == 0 {
        assert idx[0] == 0;
      } else {
        assert screens[1..][p - 1] == screens[p];
        assert p - 1 in rest;
        var k :| 0 <= k < |rest| && rest[k] == p - 1;
        assert idx[k + n] == p;
      }
    }
  }

  /** What refreshDisplays promises of the step it takes for a numbered
      screen: identity from the screen and DDC support exactly for external
      displays. The built-in panel keeps its saved levels, is not flagged
      and gets the panel call. An external display takes each level read
      back from it and the saved one otherwise, is flagged exactly when its
      brightness could not be read, and gets the DDC/CI write of the
      brightness it ends with, followed by a gamma dim when that write fails. */
  ghost predicate Rebuilt(m: Manager, io: Io, sc: Screen, r: Refreshed)
  {
    var d := r.display;
    && sc.number == Some(d.id) && d.name == sc.name && d.isInternal == sc.isInternal
    && d.supportsDDC == !sc.isInternal
    && (sc.isInternal ==>
          && d.brightness == SavedOr(m.savedBrightness, sc.name)
          && d.contrast == SavedOr(m.savedContrast, sc.name)
          && d.volume == SavedOr(m.savedVolume, sc.name)
          && !d.isSoftwareControl
          && r.effects == [Panel(d.id, d.brightness)])
    && (!sc.isInternal ==>
          && ReadBack(io, d.id, BrightnessCode, r.readBrightness)
          && ReadBack(io, d.id, ContrastCode, r.readContrast)
          && ReadBack(io, d.id, VolumeCode, r.readVolume)
          && d.brightness == (if r.readBrightness.Some? then r.readBrightness.value else SavedOr(m.savedBrightness, sc.name))
          && d.contrast == (if r.readContrast.Some? then r.readContrast.value else SavedOr(m.savedContrast, sc.name))
          && d.volume == (if r.readVolume.Some? then r.readVolume.value else SavedOr(m.savedVolume, sc.name))
          && (d.isSoftwareControl <==> r.readBrightness.None?)
          && 1 <= |r.effects| && r.effects[0].Ddc? && r.effects[0].id == d.id
          && r.effects[0].code == BrightnessCode && r.effects[0].level == d.brightness
          && (r.effects[0].ok ==> io.serviceFound(d.id))
          && r.effects[1..] == (if r.effects[0].ok then [] else [Gamma(d.id, d.brightness)]))
  }

  /** The effects of a run of refresh steps, step after step. */
  function EffectsOf(visits: seq<Refreshed>): seq<Effect>
  {
    if |visits| == 0 then [] else EffectsOf(visits[..|visits| - 1]) + visits[|visits| - 1].effects
  }

  /** Each of `visits` is the step refreshDisplays takes for the screen at
      the same position of `ns`. */
  ghost predicate AllRebuilt(m: Manager, io: Io, ns: seq<Screen>, visits: seq<Refreshed>)
  {
    |visits| <= |ns| && forall k :: 0 <= k < |visits| ==> Rebuilt(m, io, ns[k], visits[k])
  }

  lemma AllRebuiltSnoc(m: Manager, io: Io, ns: seq<Screen>, visits: seq<Refreshed>, r: Refreshed)
    requires AllRebuilt(m, io, ns, visits) && |visits| < |ns|
    requires Rebuilt(m, io, ns[|visits|], r)
    ensures AllRebuilt(m, io, ns, visits + [r])
  {
    var v' := visits + [r];
    forall k | 0 <= k < |v'|
      ensures Rebuilt(m, io, ns[k], v'[k])
    {
      if k < |visits| {
        assert v'[k] == visits[k];
      } else {
        assert v'[k] == r;
      }
    }
  }

  lemma EffectsOfSnoc(visits: seq<Refreshed>, r: Refreshed)
    ensures EffectsOf(visits + [r]) == EffectsOf(visits) + r.effects
  {
    assert (visits + [r])[..|visits|] == visits;
  }

  /** One iteration of refreshDisplays, for a numbered screen. */
  method RefreshVisit(m: Manager, io: Io, ddc: DdcState, sc: Screen) returns (r: Refreshed)
    requires sc.number.Some?
    ensures Rebuilt(m, io, sc, r)
    ensures MaxCacheKept(ddc, r.ddc)
  {
    r := RefreshOne(m, io, ddc, sc.number.value, sc.name, sc.isInternal);
  }

  /** refreshDisplays: replace the display list with one display per
      numbered screen, in screen order, each built by its own step; the
      hardware actions are those of the steps, in the same order. The saved
      maps are read, not written. */
  method RefreshDisplays(m: Manager, io: Io, screens: seq<Screen>) returns (s: Step, visits: seq<Refreshed>)
    ensures |visits| == |Numbered(screens)| == |s.manager.displays|
    ensures forall k :: 0 <= k < |visits| ==>
              s.manager.displays[k] == visits[k].display && Rebuilt(m, io, Numbered(screens)[k], visits[k])
    ensures s.effects == EffectsOf(visits)
    ensures MaxCacheKept(m.ddc, s.manager.ddc)
    ensures s.manager == m.(displays := s.manager.displays, ddc := s.manager.ddc)
  {
    var ns := Numbered(screens);
    var ddc := m.ddc;
    var effects: seq<Effect> := [];
    visits := [];
    var i := 0;
    while i < |ns|
      invariant i <= |ns| && |visits| == i
      invariant AllRebuilt(m, io, ns, visits)
      invariant effects == EffectsOf(visits)
      invariant MaxCacheKept(m.ddc, ddc)
    {
      var r := RefreshVisit(m, io, ddc, ns[i]);
      AllRebuiltSnoc(m, io, ns, visits, r);
      EffectsOfSnoc(visits, r);
      visits := visits + [r];
      ddc := r.ddc;
      effects := effects + r.effects;
      i := i + 1;
    }
    var built := seq(|visits|, k requires 0 <= k < |visits| => visits[k].display);
    s := Step(m.(displays := built, ddc := ddc), effects);
  }
}
