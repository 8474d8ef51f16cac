/** The older display manager of
    Sources/BrightnessControl/BrightnessManager.swift and its display record
    (Sources/BrightnessControl/Display.swift). The older record has the
    Core record's fields except the software-control flag; it is modelled
    with the Core `Display` whose flag stays false throughout. Hardware
    actions are returned as an ordered list of effects, written with the
    older DDC/CI writer. */
module LegacyManager {
  import opened Common
  import opened DdcFrame
  import opened Transport
  import opened Displays
  import opened LegacyDdc
  import BM = BrightnessManager

  /** The manager's state: the display list, the sync switch and the three
      saved-level maps, keyed by display name. */
  datatype State = State(
    displays: seq<Display>,
    syncAll: bool,
    savedBrightness: BM.Saved,
    savedContrast: BM.Saved,
    savedVolume: BM.Saved)

  /** A state after an operation, with the hardware effects it issued. */
  datatype Step = Step(state: State, effects: seq<Effect>)

  /** The older record never carries the software-control flag. */
  predicate NoFallback(ds: seq<Display>)
  {
    forall k :: 0 <= k < |ds| ==> !ds[k].isSoftwareControl
  }

  /** `Display(id:name:isInternal:)` of the older record: every level 0.5,
      no DDC support, and (by construction) no software-control flag. */
  lemma LegacyDisplayDefaults(id: DisplayId, name: string, isInternal: bool)
    ensures var d := NewDisplay(id, name, isInternal);
            && d.brightness == 0.5 && d.contrast == 0.5 && d.volume == 0.5
            && !d.supportsDDC && NoFallback([d])
  {
  }

  /** The hardware call for one display's brightness: the private panel
      call for the built-in panel, an older DDC/CI write otherwise. */
  function Drive(io: Io, d: Display, value: real): (e: Effect)
    ensures e.id == d.id
    ensures d.isInternal <==> e.Panel?
    ensures (e.Panel? || e.Ddc?) && e.level == value
    ensures !d.isInternal ==> e.Ddc? && e.code == BrightnessCode && e.raw == LegacyRawValue(value)
  {
    if d.isInternal then Panel(d.id, value)
    else Ddc(d.id, BrightnessCode, value, LegacyRawValue(value), LegacySetVcp(io, d.id, BrightnessCode, value).ok)
  }

  /** The display half of the older sync loop over `displays.indices`:
      every display whose id differs from `id` takes `value`. */
  function SyncDisplays(ds: seq<Display>, id: DisplayId, value: real): (r: seq<Display>)
    ensures BM.OnlyBrightnessMoves(ds, r)
    ensures forall k :: 0 <= k < |ds| ==> r[k].isSoftwareControl == ds[k].isSoftwareControl
    ensures forall k :: 0 <= k < |ds| && ds[k].id != id ==> r[k].brightness == value
    ensures forall k :: 0 <= k < |ds| && ds[k].id == id ==> r[k] == ds[k]
  {
    seq(|ds|, k requires 0 <= k < |ds| => if ds[k].id != id then ds[k].(brightness := value) else ds[k])
  }

  /** One brightness call, as the calling loop sees it: for the display's
      id, at `value`, the panel call exactly for the built-in panel, and a
      DDC/CI write reported done only when a service was found. */
  method DriveCall(io: Io, d: Display, value: real) returns (e: Effect)
    ensures e.id == d.id
    ensures d.isInternal <==> e.Panel?
    ensures (e.Panel? || e.Ddc?) && e.level == value
    ensures !d.isInternal ==>
              e.Ddc? && e.code == BrightnessCode && e.raw == LegacyRawValue(value) && (e.ok ==> io.serviceFound(d.id))
  {
    e := Drive(io, d, value);
  }

  /** What the older setBrightness promises of the state `s` it leaves
      behind: the matching display takes the value, with sync on every
      display of another id follows, the value is saved under the target's
      name, and nothing else changes. */
  predicate BrightenedFrom(m: State, s: State, target: Display, value: real)
  {
    && BM.OnlyBrightnessMoves(m.displays, s.displays)
    && (forall k :: 0 <= k < |m.displays| ==>
          s.displays[k].isSoftwareControl == m.displays[k].isSoftwareControl)
    && (IndexOf(m.displays, target.id).Some? ==>
          s.displays[IndexOf(m.displays, target.id).value].brightness == value)
    // sync off: every other entry is untouched
    && (!m.syncAll ==>
          forall k :: 0 <= k < |m.displays| && Some(k) != IndexOf(m.displays, target.id) ==>
            s.displays[k] == m.displays[k])
    // sync on: every display of another id takes the value too, and
    // entries sharing the target's id past the first are untouched
    && (m.syncAll ==>
          forall k :: 0 <= k < |m.displays| ==>
            s.displays[k].brightness
              == (if m.displays[k].id != target.id || Some(k) == IndexOf(m.displays, target.id) then value
                  else m.displays[k].brightness))
    && s.savedBrightness == m.savedBrightness[target.name := value]
    && s == m.(displays := s.displays, savedBrightness := s.savedBrightness)
  }

  /** The state after the older setBrightness. */
  function Brightened(m: State, target: Display, value: real): (s: State)
    ensures BrightenedFrom(m, s, target, value)
  {
    var ds := SetLevelOf(m.displays, target.id, BrightnessControl, value);
    m.(displays := if m.syncAll then SyncDisplays(ds, target.id, value) else ds,
       savedBrightness := m.savedBrightness[target.name := value])
  }

  /** Setting the same brightness twice is setting it once. */
  lemma BrightenedIdempotent(m: State, target: Display, value: real)
    ensures Brightened(Brightened(m, target, value), target, value) == Brightened(m, target, value)
  {
    var once := Brightened(m, target, value);
    var twice := Brightened(once, target, value);
    IndexOfSameDisplays(m.displays, once.displays, target.id);
    forall k | 0 <= k < |m.displays| ensures twice.displays[k] == once.displays[k] {
      assert twice.displays[k].brightness == once.displays[k].brightness;
    }
    assert twice.displays == once.displays;
  }

  /** The sync test's walk-through on a built-in panel (id 1) and an
      external display (id 2): with sync off, setting the panel to 0.3
      leaves the other display at its default 0.5; with sync on, setting
      the panel to 0.8 reaches both. */
  lemma SyncTestScenario(saved: BM.Saved, s0: BM.Saved, s1: BM.Saved)
    ensures var d1, d2 := NewDisplay(1, "Int", true), NewDisplay(2, "Ext", false);
            var m := State([d1, d2], false, saved, s0, s1);
            var off := Brightened(m, d1, 0.3);
            var on := Brightened(off.(syncAll := true), d1, 0.8);
            && off.displays[0].brightness == 0.3 && off.displays[1].brightness == 0.5
            && on.displays[0].brightness == 0.8 && on.displays[1].brightness == 0.8
  {
  }

  /** `e` is the brightness call for display `d` at `value`: the panel call
      for the built-in panel, otherwise a DDC/CI write of the fixed-scale
      raw value, reported done only with a service. */
  predicate CallFor(io: Io, d: Display, value: real, e: Effect)
  {
    && e.id == d.id && (d.isInternal <==> e.Panel?) && (e.Panel? || e.Ddc?) && e.level == value
    && (!d.isInternal ==> e.Ddc? && e.code == BrightnessCode && e.raw == LegacyRawValue(value)
                          && (e.ok ==> io.serviceFound(d.id)))
  }

  /** `calls` holds one call per display of `ds` whose id is not `id`, in
      the order of `ds`, and nothing else. */
  predicate SyncCallsInOrder(io: Io, ds: seq<Display>, id: DisplayId, value: real, calls: seq<Effect>)
    decreases |ds|
  {
    if |ds| == 0 then calls == []
    else if ds[|ds| - 1].id == id then SyncCallsInOrder(io, ds[..|ds| - 1], id, value, calls)
    else && 1 <= |calls| && CallFor(io, ds[|ds| - 1], value, calls[|calls| - 1])
         && SyncCallsInOrder(io, ds[..|ds| - 1], id, value, calls[..|calls| - 1])
  }

  /** Every call the sync loop makes is for a display of the list whose id
      is not the origin's. */
  lemma {:induction false} SyncCallsInList(io: Io, ds: seq<Display>, id: DisplayId, value: real, calls: seq<Effect>)
    requires SyncCallsInOrder(io, ds, id, value, calls)
    ensures |calls| <= |ds|
    ensures forall j :: 0 <= j < |calls| ==>
              exists k :: 0 <= k < |ds| && ds[k].id != id && CallFor(io, ds[k], value, calls[j])
    decreases |ds|
  {
    if |ds| > 0 {
      var init := ds[..|ds| - 1];
      if ds[|ds| - 1].id == id {
        SyncCallsInList(io, init, id, value, calls);
        forall j | 0 <= j < |calls|
          ensures exists k :: 0 <= k < |ds| && ds[k].id != id && CallFor(io, ds[k], value, calls[j])
        {
          var k :| 0 <= k < |init| && init[k].id != id && CallFor(io, init[k], value, calls[j]);
          assert ds[k] == init[k];
        }
      } else {
        var before := calls[..|calls| - 1];
        SyncCallsInList(io, init, id, value, before);
        forall j | 0 <= j < |calls|
          ensures exists k :: 0 <= k < |ds| && ds[k].id != id && CallFor(io, ds[k], value, calls[j])
        {
          if j == |calls| - 1 {
            assert CallFor(io, ds[|ds| - 1], value, calls[j]);
          } else {
            assert calls[j] == before[j];
            var k :| 0 <= k < |init| && init[k].id != id && CallFor(io, init[k], value, before[j]);
            assert ds[k] == init[k];
          }
        }
      }
    }
  }

  /** The hardware calls of the older setBrightness: the target's call
      first, then (sync on) one call per display of another id, in list
      order. */
  method BrightnessDrives(m: State, io: Io, target: Display, value: real) returns (effects: seq<Effect>)
    ensures 1 <= |effects| && effects[0].id == target.id
    ensures target.isInternal <==> effects[0].Panel?
    ensures forall e :: e in effects ==> (e.Panel? || e.Ddc?) && e.level == value
    ensures forall e :: e in effects[1..] ==> e.id != target.id
    ensures !m.syncAll ==> |effects| == 1
    ensures m.syncAll ==>
              forall k :: 0 <= k < |m.displays| && m.displays[k].id != target.id ==>
                exists e :: e in effects && e.id == m.displays[k].id
    ensures CallFor(io, target, value, effects[0])
    ensures m.syncAll ==> SyncCallsInOrder(io, m.displays, target.id, value, effects[1..])
  {
    var first := DriveCall(io, target, value);
    var calls: seq<Effect> := [];
    if m.syncAll {
      // A call reads only the display's id and kind, which setBrightness
      // never changes, so the list before or after the update drives alike.
      var i := 0;
      while i < |m.displays|
        invariant i <= |m.displays|
        invariant forall e :: e in calls ==> (e.Panel? || e.Ddc?) && e.level == value && e.id != target.id
        invariant forall k :: 0 <= k < i && m.displays[k].id != target.id ==>
                    exists e :: e in calls && e.id == m.displays[k].id
        invariant SyncCallsInOrder(io, m.displays[..i], target.id, value, calls)
      {
        if m.displays[i].id != target.id {
          var e := DriveCall(io, m.displays[i], value);
          SyncCallsSnoc(io, m.displays, i, target.id, value, calls, Some(e));
          calls := calls + [e];
        } else {
          SyncCallsSnoc(io, m.displays, i, target.id, value, calls, None);
        }
        i := i + 1;
      }
      assert m.displays[..i] == m.displays;
    }
    effects := [first] + calls;
    assert effects[1..] == calls;
  }

  /** One iteration of the older sync loop: a display of another id adds
      its call at the end, one with the origin's id adds nothing. */
  lemma SyncCallsSnoc(io: Io, ds: seq<Display>, i: nat, id: DisplayId, value: real, calls: seq<Effect>, e: Option<Effect>)
    requires i < |ds| && SyncCallsInOrder(io, ds[..i], id, value, calls)
    requires ds[i].id == id <==> e.None?
    requires e.Some? ==> CallFor(io, ds[i], value, e.value)
    ensures e.None? ==> SyncCallsInOrder(io, ds[..i + 1], id, value, calls)
    ensures e.Some? ==> SyncCallsInOrder(io, ds[..i + 1], id, value, calls + [e.value])
  {
    var upto := ds[..i + 1];
    assert upto[|upto| - 1] == ds[i] && upto[..|upto| - 1] == ds[..i];
    if e.Some? {
      var more := calls + [e.value];
      assert more[|more| - 1] == e.value && more[..|more| - 1] == calls;
    }
  }

  /** setBrightness of the older manager: the state as `BrightenedFrom`
      promises, the target's hardware call first, then (sync on) one call
      per display of another id. */
  method SetBrightness(m: State, io: Io, target: Display, value: real) returns (s: Step)
    ensures BrightenedFrom(m, s.state, target, value)
    ensures 1 <= |s.effects| && s.effects[0].id == target.id
    ensures target.isInternal <==> s.effects[0].Panel?
    ensures forall e :: e in s.effects ==> (e.Panel? || e.Ddc?) && e.level == value
    ensures forall e :: e in s.effects[1..] ==> e.id != target.id
    ensures !m.syncAll ==> |s.effects| == 1
    ensures m.syncAll ==>
              forall k :: 0 <= k < |m.displays| && m.displays[k].id != target.id ==>
                exists e :: e in s.effects && e.id == m.displays[k].id
    ensures CallFor(io, target, value, s.effects[0])
    ensures m.syncAll ==> SyncCallsInOrder(io, m.displays, target.id, value, s.effects[1..])
  {
    var effects := BrightnessDrives(m, io, target, value);
    s := Step(Brightened(m, target, value), effects);
  }

  /** The state after the older setContrast / setVolume: the matching
      display takes the level and the value is saved under the target's
      name; nothing else changes. */
  function Leveled(m: State, target: Display, c: Control, value: real): (s: State)
    requires c != BrightnessControl
    ensures |s.displays| == |m.displays|
    ensures forall k :: 0 <= k < |m.displays| ==>
              s.displays[k] == (if Some(k) == IndexOf(m.displays, target.id)
                                then WithLevel(m.displays[k], c, value) else m.displays[k])
    ensures c == ContrastControl ==>
              s == m.(displays := s.displays, savedContrast := m.savedContrast[target.name := value])
    ensures c == VolumeControl ==>
              s == m.(displays := s.displays, savedVolume := m.savedVolume[target.name := value])
  {
    var ds := SetLevelOf(m.displays, target.id, c, value);
    if c == ContrastControl then m.(displays := ds, savedContrast := m.savedContrast[target.name := value])
    else m.(displays := ds, savedVolume := m.savedVolume[target.name := value])
  }

  /** setContrast / setVolume of the older manager: the state as `Leveled`
      describes it, and an older DDC/CI write for an external target only. */
  method SetLevel(m: State, io: Io, target: Display, c: Control, value: real) returns (s: Step)
    requires c != BrightnessControl
    ensures s.state == Leveled(m, target, c, value)
    ensures target.isInternal ==> s.effects == []
    ensures !target.isInternal ==>
              && |s.effects| == 1 && s.effects[0].Ddc? && s.effects[0].id == target.id
              && s.effects[0].code == BM.FeatureCode(c) && s.effects[0].raw == LegacyRawValue(value)
              && (s.effects[0].ok ==> io.serviceFound(target.id))
  {
    var effects := [];
    if !target.isInternal {
      var code := BM.FeatureCode(c);
      var w := LegacySetVcp(io, target.id, code, value);
      effects := [Ddc(target.id, code, value, LegacyRawValue(value), w.ok)];
    }
    s := Step(Leveled(m, target, c, value), effects);
  }

  /** What adjustAllBrightness has achieved once it has visited every
      snapshot index below `i`. */
  predicate AdjustedBelow(m: State, cur: State, delta: real, i: nat)
    requires i <= |m.displays|
  {
    && BM.OnlyBrightnessMoves(m.displays, cur.displays)
    && cur.syncAll == m.syncAll
    && (forall j :: 0 <= j < i ==> m.displays[j].name in cur.savedBrightness)
    && (!m.syncAll && UniqueIds(m.displays) ==>
          forall j :: 0 <= j < |m.displays| ==>
            cur.displays[j].brightness
              == (if j < i then Clamp01(m.displays[j].brightness + delta) else m.displays[j].brightness))
    && (m.syncAll && UniqueIds(m.displays) && 0 < i ==>
          forall j :: 0 <= j < |m.displays| ==>
            cur.displays[j].brightness == Clamp01(m.displays[i - 1].brightness + delta))
  }

  /** The frame half of one adjustment step: levels other than brightness,
      the sync switch and the saved names carry over. */
  lemma AdjustFrameStep(m: State, cur: State, next: State, delta: real, i: nat)
    requires i < |m.displays| && AdjustedBelow(m, cur, delta, i)
    requires BrightenedFrom(cur, next, m.displays[i], Clamp01(m.displays[i].brightness + delta))
    ensures BM.OnlyBrightnessMoves(m.displays, next.displays)
    ensures next.syncAll == m.syncAll
    ensures forall j :: 0 <= j < i + 1 ==> m.displays[j].name in next.savedBrightness
  {
    BM.OnlyBrightnessMovesTrans(m.displays, cur.displays, next.displays);
  }

  /** With sync off and unique ids, step `i` moves display `i` alone. */
  lemma AdjustOffStep(m: State, cur: State, next: State, delta: real, i: nat)
    requires i < |m.displays| && AdjustedBelow(m, cur, delta, i)
    requires BrightenedFrom(cur, next, m.displays[i], Clamp01(m.displays[i].brightness + delta))
    requires !m.syncAll && UniqueIds(m.displays)
    ensures forall j :: 0 <= j < |m.displays| ==>
              next.displays[j].brightness
                == (if j < i + 1 then Clamp01(m.displays[j].brightness + delta) else m.displays[j].brightness)
  {
    assert UniqueIds(cur.displays);
    IndexOfUnique(cur.displays, i);
    forall j | 0 <= j < |m.displays|
      ensures next.displays[j].brightness
                == (if j < i + 1 then Clamp01(m.displays[j].brightness + delta) else m.displays[j].brightness)
    {
      if j != i { assert next.displays[j] == cur.displays[j]; }
    }
  }

  /** With sync on and unique ids, step `i` sets every display to the value
      requested for display `i`. */
  lemma AdjustOnStep(m: State, cur: State, next: State, delta: real, i: nat)
    requires i < |m.displays| && AdjustedBelow(m, cur, delta, i)
    requires BrightenedFrom(cur, next, m.displays[i], Clamp01(m.displays[i].brightness + delta))
    requires m.syncAll && UniqueIds(m.displays)
    ensures forall j :: 0 <= j < |m.displays| ==>
              next.displays[j].brightness == Clamp01(m.displays[i].brightness + delta)
  {
    assert UniqueIds(cur.displays);
    IndexOfUnique(cur.displays, i);
    forall j | 0 <= j < |m.displays| ensures next.displays[j].brightness == Clamp01(m.displays[i].brightness + delta) {
      assert SameIdentity(m.displays[j], cur.displays[j]);
    }
  }

  /** One iteration of adjustAllBrightness over the snapshot. */
  method AdjustVisit(m: State, cur: State, io: Io, delta: real, i: nat) returns (s: Step)
    requires i < |m.displays| && AdjustedBelow(m, cur, delta, i)
    ensures AdjustedBelow(m, s.state, delta, i + 1)
  {
    var d := m.displays[i];
    s := SetBrightness(cur, io, d, Clamp01(d.brightness + delta));
    AdjustFrameStep(m, cur, s.state, delta, i);
    if UniqueIds(m.displays) {
      if m.syncAll {
        AdjustOnStep(m, cur, s.state, delta, i);
      } else {
        AdjustOffStep(m, cur, s.state, delta, i);
      }
    }
  }

  /** adjustAllBrightness of the older manager: each display of the list
      as it stood when the adjustment started is set to its brightness plus
      `delta`, clamped to [0, 1]; `requested` holds those values in order. */
  method AdjustAllBrightness(m: State, io: Io, delta: real) returns (s: Step, requested: seq<real>)
    ensures |requested| == |m.displays|
    ensures forall j :: 0 <= j < |requested| ==>
              requested[j] == Clamp01(m.displays[j].brightness + delta) && 0.0 <= requested[j] <= 1.0
    ensures BM.OnlyBrightnessMoves(m.displays, s.state.displays)
    ensures s.state.syncAll == m.syncAll
    ensures forall j :: 0 <= j < |m.displays| ==> m.displays[j].name in s.state.savedBrightness
    ensures !m.syncAll && UniqueIds(m.displays) ==>
              forall j :: 0 <= j < |m.displays| ==> s.state.displays[j].brightness == requested[j]
    ensures m.syncAll && UniqueIds(m.displays) && |m.displays| > 0 ==>
              forall j :: 0 <= j < |m.displays| ==>
                s.state.displays[j].brightness == requested[|requested| - 1]
  {
    var cur := m;
    var effects: seq<Effect> := [];
    requested := [];
    var i := 0;
    while i < |m.displays|
      invariant i <= |m.displays| && |requested| == i
      invariant forall j :: 0 <= j < i ==> requested[j] == Clamp01(m.displays[j].brightness + delta)
      invariant AdjustedBelow(m, cur, delta, i)
    {
      var v := Clamp01(m.displays[i].brightness + delta);
      var visit := AdjustVisit(m, cur, io, delta, i);
      cur := visit.state;
      effects := effects + visit.effects;
      requested := requested + [v];
      i := i + 1;
    }
    s := Step(cur, effects);
  }

  /** What the older refreshDisplays builds for a numbered screen: identity
      from the screen, the saved levels (default 0.5), DDC support exactly
      for external displays, and no software-control flag. */
  predicate Rebuilt(m: State, sc: BM.Screen, d: Display)
  {
    && sc.number == Some(d.id) && d.name == sc.name && d.isInternal == sc.isInternal
    && d.brightness == BM.SavedOr(m.savedBrightness, sc.name)
    && d.contrast == BM.SavedOr(m.savedContrast, sc.name)
    && d.volume == BM.SavedOr(m.savedVolume, sc.name)
    && d.supportsDDC == !sc.isInternal
    && !d.isSoftwareControl
  }

  /** The display list of the older refreshDisplays: one display per
      numbered screen, in screen order. */
  function Rebuild(m: State, screens: seq<BM.Screen>): (ds: seq<Display>)
    ensures |ds| == |BM.Numbered(screens)|
    ensures forall k :: 0 <= k < |ds| ==> Rebuilt(m, BM.Numbered(screens)[k], ds[k])
  {
    if |screens| == 0 then []
    else
      var rest := Rebuild(m, screens[1..]);
      var sc := screens[0];
      match sc.number
      case None =>
        assert BM.Numbered(screens) == BM.Numbered(screens[1..]);
        rest
      case Some(id) =>
        var d := NewDisplay(id, sc.name, sc.isInternal).(
                   brightness := BM.SavedOr(m.savedBrightness, sc.name),
                   contrast := BM.SavedOr(m.savedContrast, sc.name),
                   volume := BM.SavedOr(m.savedVolume, sc.name),
                   supportsDDC := !sc.isInternal);
        assert BM.Numbered(screens) == [sc] + BM.Numbered(screens[1..]);
        RebuiltCons(m, sc, d, BM.Numbered(screens[1..]), rest);
        [d] + rest
  }

  lemma RebuiltCons(m: State, sc: BM.Screen, d: Display, ns: seq<BM.Screen>, rest: seq<Display>)
    requires Rebuilt(m, sc, d) && |rest| == |ns|
    requires forall k :: 0 <= k < |rest| ==> Rebuilt(m, ns[k], rest[k])
    ensures forall k :: 0 <= k < |rest| + 1 ==> Rebuilt(m, ([sc] + ns)[k], ([d] + rest)[k])
  {
    forall k | 0 <= k < |rest| + 1
      ensures Rebuilt(m, ([sc] + ns)[k], ([d] + rest)[k])
    {
      if 0 < k {
        assert ([sc] + ns)[k] == ns[k - 1] && ([d] + rest)[k] == rest[k - 1];
      }
    }
  }

  /** The initial brightness calls of the older refreshDisplays, one per
      rebuilt display, in order. */
  function InitialDrives(io: Io, ds: seq<Display>): (r: seq<Effect>)
    ensures |r| == |ds|
    ensures forall k :: 0 <= k < |ds| ==>
              && r[k].id == ds[k].id && (r[k].Panel? || r[k].Ddc?) && r[k].level == ds[k].brightness
              && (r[k].Panel? <==> ds[k].isInternal)
              && (r[k].Ddc? ==> r[k].code == BrightnessCode && r[k].raw == LegacyRawValue(ds[k].brightness))
  {
    seq(|ds|, k requires 0 <= k < |ds| => Drive(io, ds[k], ds[k].brightness))
  }

  /** refreshDisplays of the older manager: the list is replaced, nothing
      else changes, no rebuilt display is flagged, and each display gets the
      hardware call for its initial brightness. */
  function RefreshDisplays(m: State, io: Io, screens: seq<BM.Screen>): (s: Step)
    ensures s.state == m.(displays := s.state.displays)
    ensures |s.state.displays| == |BM.Numbered(screens)| == |s.effects|
    ensures forall k :: 0 <= k < |s.state.displays| ==> Rebuilt(m, BM.Numbered(screens)[k], s.state.displays[k])
    ensures NoFallback(s.state.displays)
    ensures forall k :: 0 <= k < |s.effects| ==>
              && s.effects[k].id == s.state.displays[k].id
              && (s.effects[k].Panel? || s.effects[k].Ddc?)
              && s.effects[k].level == s.state.displays[k].brightness
              && (s.effects[k].Panel? <==> s.state.displays[k].isInternal)
  {
    var ds := Rebuild(m, screens);
    Step(m.(displays := ds), InitialDrives(io, ds))
  }

  /** No operation of the older manager ever raises the software-control
      flag: starting from a rebuilt list, it stays clear. */
  lemma NoFallbackKept(m: State, target: Display, c: Control, value: real)
    requires NoFallback(m.displays)
    ensures NoFallback(Brightened(m, target, value).displays)
    ensures c != BrightnessControl ==> NoFallback(Leveled(m, target, c, value).displays)
  {
  }
}
