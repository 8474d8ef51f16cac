/** The battery presentation rules of
    Sources/BrightnessControlCore/BatteryManager.swift: which symbol the
    menu bar shows and which colour it is drawn in, as pure functions of
    the power status. Reading the status from the power-source API is not
    part of this model; the status is an input. */
module Battery {

  /** What `updatePowerStatus` leaves in the manager's published fields. */
  datatype PowerStatus = PowerStatus(
    percentage: int,
    isCharging: bool,
    isOnAC: bool,
    isLowPowerMode: bool)

  /** The menu-bar symbol: the charging bolt, or a fill level. */
  datatype Icon = Bolt | Fill(level: nat)

  /** The fill levels the symbol set offers, in increasing order. */
  const FillStep: nat := 25
  const FullLevel: nat := 100

  /** The fill level shown for a percentage: the largest of 0, 25, 50, 75
      and 100 that does not exceed it (0 when none does). */
  function FillLevel(percentage: int): (level: nat)
    ensures level % FillStep == 0 && level <= FullLevel
    ensures level == 0 || level <= percentage
    ensures level == FullLevel || percentage < level + FillStep
  {
    if percentage >= 100 then 100
    else if percentage >= 75 then 75
    else if percentage >= 50 then 50
    else if percentage >= 25 then 25
    else 0
  }

  /** A fuller battery never shows an emptier symbol. */
  lemma FillLevelMonotone(p: int, q: int)
    requires p <= q
    ensures FillLevel(p) <= FillLevel(q)
  {
  }

  /** `batteryIconName` as a symbol: charging overrides the percentage. */
  function IconOf(st: PowerStatus): (icon: Icon)
    ensures st.isCharging <==> icon == Bolt
    ensures icon.Fill? ==> icon.level == FillLevel(st.percentage)
  {
    if st.isCharging then Bolt else Fill(FillLevel(st.percentage))
  }

  /** The SF Symbols name of a symbol. */
  function IconName(icon: Icon): (name: string)
    ensures icon == Bolt ==> name == "battery.100.bolt"
    ensures icon == Fill(100) ==> name == "battery.100"
    ensures icon == Fill(75) ==> name == "battery.75"
    ensures icon == Fill(50) ==> name == "battery.50"
    ensures icon == Fill(25) ==> name == "battery.25"
    ensures icon.Fill? && icon.level !in {25, 50, 75, 100} ==> name == "battery.0"
  {
    match icon
    case Bolt => "battery.100.bolt"
    case Fill(level) =>
      if level == 100 then "battery.100"
      else if level == 75 then "battery.75"
      else if level == 50 then "battery.50"
      else if level == 25 then "battery.25"
      else "battery.0"
  }

  /** `batteryIconName`. */
  function BatteryIconName(st: PowerStatus): (name: string)
    ensures st.isCharging <==> name == "battery.100.bolt"
    ensures st.percentage >= 100 ==> name in {"battery.100.bolt", "battery.100"}
    ensures !st.isCharging && 100 <= st.percentage ==> name == "battery.100"
    ensures !st.isCharging && 75 <= st.percentage < 100 ==> name == "battery.75"
    ensures !st.isCharging && 50 <= st.percentage < 75 ==> name == "battery.50"
    ensures !st.isCharging && 25 <= st.percentage < 50 ==> name == "battery.25"
    ensures st.percentage < 25 && !st.isCharging ==> name == "battery.0"
  {
    IconName(IconOf(st))
  }

  /** Different symbols have different names, so the name shown tells the
      symbol apart: the name determines the charging flag and the level. */
  lemma IconNameInjective(a: Icon, b: Icon)
    requires a == Bolt || a.level in {0, 25, 50, 75, 100}
    requires b == Bolt || b.level in {0, 25, 50, 75, 100}
    requires IconName(a) == IconName(b)
    ensures a == b
  {
  }

  /** A colour: the system's primary label colour or an explicit RGB. */
  datatype Color = Primary | Rgb(red: real, green: real, blue: real)

  const LowPowerYellow: Color := Rgb(1.0, 0.8, 0.0)
  const OnAcGreen: Color := Rgb(0.0, 0.85, 0.1)
  const LowBatteryRed: Color := Rgb(1.0, 0.2, 0.2)

  /** At or below this percentage an unplugged battery is drawn red. */
  const LowBatteryThreshold: int := 10

  /** `isSpecialState`: low-power mode, mains power or a low battery. */
  predicate IsSpecialState(st: PowerStatus)
  {
    st.isLowPowerMode || st.isOnAC || st.percentage <= LowBatteryThreshold
  }

  /** `batteryColor`: low-power mode wins over mains power, which wins over
      a low charge; otherwise the standard look. */
  function BatteryColor(st: PowerStatus): (c: Color)
    ensures st.isLowPowerMode ==> c == LowPowerYellow
    ensures c == OnAcGreen <==> !st.isLowPowerMode && st.isOnAC
    ensures c == LowBatteryRed <==> !st.isLowPowerMode && !st.isOnAC && st.percentage <= LowBatteryThreshold
    ensures c in {Primary, LowPowerYellow, OnAcGreen, LowBatteryRed}
  {
    if st.isLowPowerMode then LowPowerYellow
    else if st.isOnAC then OnAcGreen
    else if st.percentage <= LowBatteryThreshold then LowBatteryRed
    else Primary
  }

  /** `batteryTextColor`, written out separately in the source. */
  function BatteryTextColor(st: PowerStatus): Color
  {
    if st.isLowPowerMode then LowPowerYellow
    else if st.isOnAC then OnAcGreen
    else if st.percentage <= LowBatteryThreshold then LowBatteryRed
    else Primary
  }

  /** The text is always drawn in the symbol's colour. */
  lemma TextColorMatchesIcon(st: PowerStatus)
    ensures BatteryTextColor(st) == BatteryColor(st)
  {
  }

  /** The special state is exactly the state drawn in an explicit colour. */
  lemma SpecialStateIsColored(st: PowerStatus)
    ensures IsSpecialState(st) <==> BatteryColor(st) != Primary
    ensures IsSpecialState(st) <==> BatteryColor(st).Rgb?
  {
  }

  /** The four situations the colour test walks through, in its order. */
  lemma ColorScenarios(charging: bool)
    ensures BatteryColor(PowerStatus(100, charging, true, false)) == OnAcGreen
    ensures BatteryColor(PowerStatus(100, charging, false, true)) == LowPowerYellow
    ensures BatteryColor(PowerStatus(10, charging, false, false)) == LowBatteryRed
    ensures BatteryColor(PowerStatus(50, charging, false, false)) == Primary
  {
  }
}
