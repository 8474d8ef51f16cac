# Monitor brightness control over DDC/CI — a verified model

This project models the core of a macOS menu-bar utility. The utility
controls the brightness, contrast and volume of external monitors over
DDC/CI, and the brightness of the built-in panel through the system's
private panel call. It covers:

- **The DDC/CI byte layer** (`DdcFrame`, `Transport`). This is the 7-byte
  Set VCP Feature request and the 5-byte Get VCP Feature request, each
  closed by an XOR checksum seeded with the 0x6E destination address. It
  also covers the parser that finds a VCP Feature Reply in an 11-byte
  buffer.
- **The bus probe and its caches** (`BusProbe`, `VcpChannel`). The bus
  cache keeps one bus per display: the cached bus is tried first and
  evicted on failure, then buses 0..14 are scanned and the first that
  answers is cached. The feature-maximum cache works like this:
  - a cached maximum is used without a read;
  - a successful read stores the maximum it reports;
  - a failed read falls back to 100.

  Caller fractions in [0, 1] are converted to raw 16-bit VCP values and
  back.
- **The "true black" hybrid brightness** (`HybridBlender`, `GammaRamp`).
  The top 90% of the logical range goes to the monitor's backlight. The
  bottom 10% is reached by dimming the display's 256-entry gamma tables
  in software.
- **The display manager** (`Displays`, `BrightnessManager`). This covers:
  - setBrightness with display sync;
  - setContrast and setVolume;
  - the hot-key adjustment of every display;
  - presets and their hardware pass;
  - the rebuild of the display list from the screens the system reports.
- **The older generation of the same program** (`LegacyDdc`,
  `LegacyManager`). Its writer scales by a fixed 100, tries only buses
  0..2, keeps no cache, and computes its checksum without the source
  byte. Its manager syncs displays with a plain loop.
- **The battery indicator's presentation rules** (`Battery`).

The operating system is not modelled. Its service lookup and its I2C
open, send and exchange calls are oracle functions in `Transport.Io`,
supplied by the caller. Hardware actions (panel call, DDC/CI write,
gamma-table installation) are returned as an ordered list of
`Displays.Effect` values. Persistent settings are maps from display name
to level. Fractions are `real`, and bytes and 16-bit values are bounded
naturals.

## Model

| member | source | states |
|---|---|---|
| Common.Clamp01 | Sources/BrightnessControlCore/BrightnessManager.swift:93 | the result lies in [0, 1]; it equals the input inside the interval, 0 below it and 1 above it |
| DdcFrame.CombineSplit | Sources/BrightnessControlCore/DDCManager.swift:114-115 | splitting a 16-bit value into its high and low bytes and recombining them as the reply parser does gives the value back |
| DdcFrame.SplitCombine | Sources/BrightnessControlCore/DDCManager.swift:197-202 | combining two reply bytes into a 16-bit value and splitting it again gives both bytes back |
| DdcFrame.ChecksumClosesFrame | Sources/BrightnessControlCore/DDCManager.swift:117-119 | appending the 0x6E-seeded XOR checksum to any payload makes the XOR of 0x6E with the whole frame zero |
| DdcFrame.WriteFrame | Sources/BrightnessControlCore/DDCManager.swift:110-119 | the Set VCP Feature request is exactly 51 84 03 code hi lo ck: seven bytes, the value big-endian in bytes 4-5, the checksum is the XOR of 0x6E with bytes 0-5, and the frame passes the DDC/CI checksum test |
| DdcFrame.ReadRequest | Sources/BrightnessControlCore/DDCManager.swift:168-175 | the Get VCP Feature request is exactly 51 82 01 code ck, with the checksum the XOR of 0x6E with bytes 0-3, and it passes the checksum test |
| DdcFrame.WriteFrameRoundTrip | Sources/BrightnessControlCore/DDCManager.swift:110-119 | a receiver that checks the header and the checksum decodes every Core write frame back to the code and value it was built from |
| DdcFrame.DecodeWriteFrameExact | Sources/BrightnessControlCore/DDCManager.swift:110-119 | the only frame that decodes to a (code, value) pair is the Core frame for that pair, so the decoder is the exact inverse of the builder |
| DdcFrame.ParseFrom | Sources/BrightnessControlCore/DDCManager.swift:195-204 | the scan from offset i finds nothing exactly when no offset i..3 matches; otherwise it returns the values at the first matching offset |
| DdcFrame.ParseReply | Sources/BrightnessControlCore/DDCManager.swift:185-206 | a reply is found exactly when some offset 0..3 holds opcode 0x02 with the requested code two bytes later; the result is read from the first such offset, the maximum from bytes i+4/i+5 and the current value from i+6/i+7 |
| DdcFrame.ParseIgnoresUncheckedBytes | Sources/BrightnessControlCore/DDCManager.swift:195-203 | changing the result-code byte, the VCP type byte or the trailing checksum of the reply does not change what is parsed: none of them is ever checked |
| Transport.ReplyBuffer | Sources/BrightnessControlCore/DDCManager.swift:185-191 | the reply buffer is 11 bytes, holds the device's bytes where it wrote them and zero elsewhere |
| BusProbe.ScanFrom | Sources/BrightnessControlCore/DDCManager.swift:90-96 | the scan fails exactly when every bus in range fails, and then it tried them all in ascending order; on success it stops at the least bus that answers, having tried exactly the buses up to it |
| BusProbe.WithBus | Sources/BrightnessControlCore/DDCManager.swift:74-97 | no service: nothing is tried or cached. A cached bus that answers is the only bus tried and the cache stays. Otherwise the stale bus is tried first, then 0, 1, 2, ...; a success then caches the least bus in 0..14 that answers, and it is the last bus tried; a failure leaves the display uncached after every bus failed. Other displays' entries are never touched |
| BusProbe.Rescan | Sources/BrightnessControlCore/DDCManager.swift:87-96 | the miss path: the stale bus (if any) is tried first, then 0, 1, 2, ...; a success caches the least bus that answers, which is the last bus tried; a failure means every bus in 0..14 failed and the display is left uncached; other displays keep their entries |
| BusProbe.CachedBusReused | Sources/BrightnessControlCore/DDCManager.swift:81-86 | after a success, the next transaction for the same display tries only the cached bus and leaves the cache as it was |
| BusProbe.ScanCachesLeastBus | Sources/BrightnessControlCore/DDCManager.swift:87-94 | with no cached bus or a stale one, the bus cached after the scan is at most any bus that answers, and the scan stops there |
| VcpChannel.WriteVcp | Sources/BrightnessControlCore/DDCManager.swift:74-97 | writeVcp reports success only with a service and a cached bus on which the frame went through; failure with a service means every bus 0..14 failed and the display is uncached; the maximum cache and other displays' buses are untouched |
| VcpChannel.ReadVcpEx | Sources/BrightnessControlCore/DDCManager.swift:133-156 | readVcpEx returns the reply read on the bus it leaves cached, or nothing after every bus failed; it never touches the maximum cache |
| VcpChannel.GetMax | Sources/BrightnessControlCore/DDCManager.swift:43-57 | a cached maximum is returned with no read; otherwise a successful read's maximum is returned and stored, and a failed read returns 100 and stores nothing; no cached maximum is ever lost |
| VcpChannel.RawValue | Sources/BrightnessControlCore/DDCManager.swift:25 | the raw value is the floor of min(max, v·max); it never exceeds max, is 0 for v ≤ 0 and max for v ≥ 1 |
| VcpChannel.Normalised | Sources/BrightnessControlCore/DDCManager.swift:61 | the reading is current / max(1, max): never a division by zero, non-negative, at most 1 when current ≤ max; times a non-zero max it gives current back, and with a zero max it is current itself |
| VcpChannel.NormaliseRoundTrip | Sources/BrightnessControlCore/DDCManager.swift:23-27 | writing back a normalised reading reproduces the raw value exactly, for every maximum |
| VcpChannel.HalfwayReading | Sources/BrightnessControlCore/DDCManager.swift:59-62 | a monitor reporting 50 of 100 reads as 0.5 |
| VcpChannel.SetNormalised | Sources/BrightnessControlCore/DDCManager.swift:23-41 | the maximum is the cached one, else the one a fresh read reports, else 100, and the raw value written is the fraction scaled to it, never above it; success means the frame went through on the display's cached bus; with a service, failure means every bus 0..14 refused the frame and the display has no cached bus; no service means failure with the bus cache unchanged; no cached maximum is lost |
| VcpChannel.GetNormalised | Sources/BrightnessControlCore/DDCManager.swift:59-72 | a reading is the normalised value of the reply on the cached bus; no reading with a service means every bus failed; the maximum cache is untouched |
| HybridBlender.SplitBrightness | Sources/BrightnessControlCore/BrightnessManager.swift:192-201 | both fractions stay in [0, 1]; below 0.1 the backlight is at 0 and software dims; from 0.1 up software is at 1; 0 and 1 map to (0, 0) and (1, 1) |
| HybridBlender.SplitRecomposes | Sources/BrightnessControlCore/BrightnessManager.swift:192-201 | the split loses nothing: 0.1·software + 0.9·hardware is the logical value, for every input |
| HybridBlender.SplitMonotone | Sources/BrightnessControlCore/BrightnessManager.swift:192-201 | both fractions are non-decreasing in the logical value |
| HybridBlender.SplitContinuousAtFloor | Sources/BrightnessControlCore/BrightnessManager.swift:195-201 | the two branches meet at 0.1 with no jump: the floor splits to (0, 1); within e below it the hardware fraction is 0 and the software factor exceeds 1 − e; within e above it (in hardware units) the software factor is 1 and the hardware fraction is below e |
| HybridBlender.SplitExamples | Sources/BrightnessControlCore/BrightnessManager.swift:195-201 | 0.05 gives backlight 0 and software 0.5; 0.55 gives backlight 0.5 and software 1 |
| HybridBlender.SoftwareControlled | Sources/BrightnessControlCore/BrightnessManager.swift:206 | the flag is set when DDC failed; with DDC working it is set exactly when software dimming is active |
| HybridBlender.GammaLevel | Sources/BrightnessControlCore/BrightnessManager.swift:209-213 | the gamma factor is the whole logical value when DDC failed and the software fraction otherwise, inside [0, 1] |
| HybridBlender.FlagAtFloor | Sources/BrightnessControlCore/BrightnessManager.swift:195-206 | at exactly 0.1 with DDC working, the flag is clear although the backlight is at its minimum |
| GammaRamp.EntryMonotone | Sources/BrightnessControlCore/SoftwareDimmingManager.swift:24-25 | table entries are non-negative, non-decreasing in the index and bounded by the factor |
| GammaRamp.Table | Sources/BrightnessControlCore/SoftwareDimmingManager.swift:16-29 | a table has 256 entries from 0 up to the clamped factor, non-decreasing |
| GammaRamp.ApplyGamma | Sources/BrightnessControlCore/SoftwareDimmingManager.swift:15-32 | the red, green and blue tables are the same table, entry i being i/255 times the clamped brightness |
| GammaRamp.ContrastIgnored | Sources/BrightnessControlCore/SoftwareDimmingManager.swift:15-29 | the contrast argument has no effect on the tables |
| GammaRamp.FullBrightnessIsIdentity | Sources/BrightnessControlCore/SoftwareDimmingManager.swift:22-25 | full brightness installs the neutral ramp i/255 |
| GammaRamp.SetBrightness | Sources/BrightnessControlCore/SoftwareDimmingManager.swift:5-7 | the display gets the tables for the brightness at contrast 1; every other display keeps its tables |
| GammaRamp.SetContrastKeepsRamp | Sources/BrightnessControlCore/SoftwareDimmingManager.swift:9-13 | adjusting contrast leaves the installed brightness tables as they were |
| Displays.NewDisplay | Sources/BrightnessControlCore/Display.swift:5-19 | a new display has its identity, every level at 0.5, no DDC support and no software-control flag |
| Displays.WithLevel | Sources/BrightnessControlCore/BrightnessManager.swift:181-183 | the chosen control takes the value and every other level, the identity and both flags stay |
| Displays.IndexOf | Sources/BrightnessControlCore/BrightnessManager.swift:181 | the lookup finds nothing exactly when no display has the id, and otherwise the least index holding it |
| Displays.SetLevelOf | Sources/BrightnessControlCore/BrightnessManager.swift:230-232 | only the first display with the id changes, in that one control; the list holds the same displays |
| Displays.SetFlagOf | Sources/BrightnessControlCore/BrightnessManager.swift:205-207 | only the first display with the id changes, in its software-control flag |
| BrightnessManager.DrivePanel | Sources/BrightnessControlCore/BrightnessManager.swift:181-186 | on the built-in panel, only the target's brightness changes and the one hardware action is the panel call at the value; no flag moves |
| BrightnessManager.HybridDisplays | Sources/BrightnessControlCore/BrightnessManager.swift:205-207 | brightness and flag recorded on the target leave every other display and every other level as they were |
| BrightnessManager.DriveHybrid | Sources/BrightnessControlCore/BrightnessManager.swift:187-214 | an external target gets a DDC/CI brightness write of the hardware fraction and then a gamma installation of the gamma factor; its flag records the software-control rule; nothing but the display list and the DDC caches changes |
| BrightnessManager.ApplyBrightness | Sources/BrightnessControlCore/BrightnessManager.swift:181-214 | the target's entry takes the value and nothing else moves; the panel gets exactly one call at the value; an external display gets exactly the DDC/CI write of the hybrid hardware level, then the gamma level the hybrid rule picks for that outcome (the value after a failure), and its flag becomes "write failed or value below 0.1"; a reported success needed a service |
| BrightnessManager.NestedSetBrightness | Sources/BrightnessControlCore/BrightnessManager.swift:219 | a call the sync loop makes sets that display and saves its name, without syncing again |
| BrightnessManager.SyncedNames | Sources/BrightnessControlCore/BrightnessManager.swift:217-219 | the names the loop has saved on reaching index i are exactly those of the displays before i with another id |
| BrightnessManager.SaveEach | Sources/BrightnessControlCore/BrightnessManager.swift:224-226 | storing a value under each name keeps every old key, maps every stored name to the value and leaves other names alone |
| BrightnessManager.SyncStep | Sources/BrightnessControlCore/BrightnessManager.swift:217-221 | one sync iteration skips a display with the origin's id and otherwise sets and saves it, keeping the loop invariant |
| BrightnessManager.SavedAfterIsSaveEach | Sources/BrightnessControlCore/BrightnessManager.swift:216-222 | the names the sync loop saves one visit at a time are exactly the stores of the synced names, in index order |
| BrightnessManager.SyncOthers | Sources/BrightnessControlCore/BrightnessManager.swift:216-222 | the sync loop moves brightness only; every display of another id ends at the value (unique ids), displays with the origin's id are left exactly as they were, and the visited names are saved |
| BrightnessManager.SetBrightnessAlone | Sources/BrightnessControlCore/BrightnessManager.swift:180-227 | with sync off only the target's brightness changes and only its name is saved; the actions are exactly the target's own, as ApplyBrightness states them, and its flag follows the hybrid rule |
| BrightnessManager.SyncReachesAll | Sources/BrightnessControlCore/BrightnessManager.swift:216-222 | the target set first plus every other display set by the loop leave the whole list at the value |
| BrightnessManager.SetBrightnessSynced | Sources/BrightnessControlCore/BrightnessManager.swift:180-227 | with sync on every display ends at the value (unique ids), and the other displays' names then the target's are saved; the first actions are the target's own and its flag follows the hybrid rule |
| BrightnessManager.SetBrightness | Sources/BrightnessControlCore/BrightnessManager.swift:180-227 | setBrightness: the target takes the value and its name is saved; its own panel call, or DDC/CI write of the hybrid level followed by the matching gamma level, come first, and its flag is "write failed or value below 0.1"; with sync off nothing else moves and those are the only actions; with sync on every display takes the value; contrast, volume and their saved maps never change |
| BrightnessManager.SyncCallees | Sources/BrightnessControlCore/BrightnessManager.swift:216-222 | the loop calls setBrightness for exactly the ids present other than the origin's |
| BrightnessManager.SyncRecursionCycles | Sources/BrightnessControlCore/BrightnessManager.swift:216-222 | with two displays of different ids, a call for one calls itself for the other, which calls itself for the first again: the recursion never ends |
| BrightnessManager.WriteLevel | Sources/BrightnessControlCore/BrightnessManager.swift:233-237 | contrast and volume go over DDC/CI for an external display only, with no software fallback; the panel gets no hardware action |
| BrightnessManager.SetContrast | Sources/BrightnessControlCore/BrightnessManager.swift:229-241 | only the first matching display's contrast changes, the value is saved under its name, and an external display gets one DDC contrast write |
| BrightnessManager.SetVolume | Sources/BrightnessControlCore/BrightnessManager.swift:243-255 | only the first matching display's volume changes, the value is saved under its name, and an external display gets one DDC volume write |
| BrightnessManager.AdjustVisit | Sources/BrightnessControlCore/BrightnessManager.swift:92-95 | one adjustment step sets the display as it stood at the start to its brightness plus delta, clamped, keeping the loop invariant |
| BrightnessManager.AdjustAllBrightness | Sources/BrightnessControlCore/BrightnessManager.swift:90-100 | each display is asked for its own brightness plus delta clamped to [0, 1]; the on-screen display shows the first request; with sync off each display ends at its request, with sync on every display ends at the last one |
| BrightnessManager.PresetBrightness | Sources/BrightnessControlCore/BrightnessManager.swift:260-268 | every preset level lies between the hardware floor 0.1 and 1 |
| BrightnessManager.ApplyPreset | Sources/BrightnessControlCore/BrightnessManager.swift:287-291 | every display's brightness takes the preset level at once and nothing else changes |
| BrightnessManager.SetHardwareBrightness | Sources/BrightnessControlCore/BrightnessManager.swift:311-329 | the panel gets its call; an external display gets a DDC write of the value without the hybrid split, then a gamma reset to 1 when it worked and a dim to the value when it failed |
| BrightnessManager.PresetHardwarePass | Sources/BrightnessControlCore/BrightnessManager.swift:302-307 | the displays are driven in list order: the panel gets one call at the preset level; an external display gets a DDC/CI write of the level followed at once by a gamma reset to 1 when the write worked or a dim to the level when it failed; a reported success needed a service; no cached maximum is lost |
| BrightnessManager.PresetDrivesEveryDisplay | Sources/BrightnessControlCore/BrightnessManager.swift:302-329 | after a preset pass every display has received a panel call or DDC/CI write at the preset level, every such action carries that level, and every gamma action is a reset to 1 or a dim to the level |
| BrightnessManager.SavedOr | Sources/BrightnessControlCore/BrightnessManager.swift:142-144 | a saved level when there is one, else 0.5 |
| BrightnessManager.RefreshBase | Sources/BrightnessControlCore/BrightnessManager.swift:141-145 | a rebuilt display starts from its saved levels, with DDC support exactly when external |
| BrightnessManager.ReadLevels | Sources/BrightnessControlCore/BrightnessManager.swift:148-163 | each level that was read back is the normalised reply of a bus that answered, and replaces the saved one; a level not read despite a service means every bus 0..14 failed to answer; the flag is set exactly when brightness could not be read; without a service nothing is read; the maximum cache is untouched |
| BrightnessManager.RefreshExternal | Sources/BrightnessControlCore/BrightnessManager.swift:148-175 | as the code runs it: levels read back as ReadLevels states; the first action is the DDC/CI write of the brightness the display ends with, followed by a gamma dim to that level exactly when the write fails; the listed display is flagged exactly when its brightness could not be read, since the fallback flag is set on a copy that is already in the list |
| BrightnessManager.RefreshExternalIntended | Sources/BrightnessControlCore/BrightnessManager.swift:165-174 | the step with the fallback recorded: the listed display is flagged exactly when its brightness could not be read or the initial write failed, i.e. when the gamma fallback was installed; everything else is the as-written step |
| BrightnessManager.RefreshDropsFallbackFlag | Sources/BrightnessControlCore/BrightnessManager.swift:165-174 | on a platform where reads answer and writes fail, the as-written step installs the gamma fallback but leaves the listed display unflagged, while the intended step flags it |
| BrightnessManager.RefreshOne | Sources/BrightnessControlCore/BrightnessManager.swift:138-175 | the panel keeps its saved levels, is not read, is not flagged and gets its panel call; an external display takes each level read back from it (as ReadLevels states), the saved one otherwise, gets the DDC/CI write of the level it ends with plus a gamma dim exactly when that fails, and is flagged exactly when its brightness could not be read; without a service it is read nothing and ends flagged at its saved brightness |
| BrightnessManager.Numbered | Sources/BrightnessControlCore/BrightnessManager.swift:135-136 | a screen is kept exactly when it has a display number, none is added, and no screen is kept more often than it occurs |
| BrightnessManager.NumberedPositions | Sources/BrightnessControlCore/BrightnessManager.swift:135-136 | the kept screens sit at strictly increasing positions of the screen list, and every numbered screen's position is among them: the loop keeps the screens in order and skips only unnumbered ones |
| BrightnessManager.RefreshDisplays | Sources/BrightnessControlCore/BrightnessManager.swift:128-178 | the list is replaced by one display per numbered screen, in order, each rebuilt as Rebuilt states (panel: saved levels, unflagged, one panel call; external: levels read back or saved, flagged exactly when brightness was not read, the DDC/CI write then a gamma dim on failure); the actions are each screen's actions in screen order; only the list and the DDC caches change, and no cached maximum is lost |
| LegacyDdc.LegacyRawValue | Sources/BrightnessControl/DDCManager.swift:13-23 | the raw value is the floor of 100·v; 0 for v ≤ 0 and at most 100 on [0, 1] |
| LegacyDdc.LegacyScaleIsDefaultMax | Sources/BrightnessControl/DDCManager.swift:13-15 | on [0, 1] the fixed scale writes what the Core writer writes for a monitor whose maximum defaulted to 100 |
| LegacyDdc.LegacyChecksumOffBySource | Sources/BrightnessControl/DDCManager.swift:43 | the older checksum XOR 0x51 is the Core checksum: they differ by exactly the source byte |
| LegacyDdc.LegacyFrameMatchesCore | Sources/BrightnessControl/DDCManager.swift:45-51 | the older frame's first six bytes equal the Core frame's, and its checksum is the Core checksum XOR 0x51 |
| LegacyDdc.LegacyFrameRejected | Sources/BrightnessControl/DDCManager.swift:43-51 | every older frame XORs with 0x6E to 0x51 instead of 0, so it fails the DDC/CI checksum test and no request decodes from it |
| LegacyDdc.ScanSend | Sources/BrightnessControl/DDCManager.swift:30-72 | no service: nothing tried. Success exactly when some bus 0..2 opens and takes the frame; the buses tried are 0, 1, ... up to the first that does. A failure with a service tried all three |
| LegacyDdc.LegacyWriteVcp | Sources/BrightnessControl/DDCManager.swift:25-76 | the older writeVcp succeeds exactly when some bus 0..2 takes the older frame, trying buses in ascending order from 0 every time |
| LegacyDdc.LegacySetVcp | Sources/BrightnessControl/DDCManager.swift:13-23 | a fraction is written at the older scale and succeeds exactly when some bus 0..2 takes that frame |
| LegacyManager.LegacyDisplayDefaults | Sources/BrightnessControl/Display.swift:5-13 | an older record starts with every level at 0.5, no DDC support and no software-control flag |
| LegacyManager.Drive | Sources/BrightnessControl/BrightnessManager.swift:118-122 | the panel gets its call; any other display gets an older DDC/CI brightness write of the value at the fixed scale |
| LegacyManager.SyncDisplays | Sources/BrightnessControl/BrightnessManager.swift:125-127 | only brightness moves and no flag changes; every display of another id ends at the value, whatever the list holds; every display with the origin's id is left exactly as it was |
| LegacyManager.Brightened | Sources/BrightnessControl/BrightnessManager.swift:113-140 | only brightness moves. The target takes the value. With sync off nothing else changes; with sync on every display of another id takes it too. Only the target's name is saved |
| LegacyManager.BrightenedIdempotent | Sources/BrightnessControl/BrightnessManager.swift:113-140 | setting the same brightness twice is setting it once |
| LegacyManager.SyncTestScenario | Tests/BrightnessControlTests/BrightnessControlTests.swift:82-99 | the sync test's walk-through holds of the older manager: sync off leaves the second display at 0.5, sync on takes both to 0.8 |
| LegacyManager.DriveCall | Sources/BrightnessControl/BrightnessManager.swift:128-132 | one call is for the display's id at the value: the panel call exactly for the built-in panel, otherwise a DDC/CI write reported done only with a service |
| LegacyManager.BrightnessDrives | Sources/BrightnessControl/BrightnessManager.swift:118-135 | the target's call comes first; with sync on, the remaining calls are exactly one per display of another id, in list order, each the panel call or the fixed-scale DDC/CI write that display needs; with sync off there is only the first |
| LegacyManager.SyncCallsInList | Sources/BrightnessControl/BrightnessManager.swift:124-134 | every sync call is for a display in the list whose id is not the target's, so there are no more sync calls than displays |
| LegacyManager.SetBrightness | Sources/BrightnessControl/BrightnessManager.swift:113-140 | the older setBrightness: the state as Brightened describes it; the target's call first, then one call per display of another id in list order; the loop ends after one pass |
| LegacyManager.Leveled | Sources/BrightnessControl/BrightnessManager.swift:142-164 | only the first matching display changes, in contrast or volume, and the value is saved under the target's name |
| LegacyManager.SetLevel | Sources/BrightnessControl/BrightnessManager.swift:142-164 | an external target gets one older DDC/CI write of the contrast or volume code at the fixed scale; the panel gets none |
| LegacyManager.AdjustVisit | Sources/BrightnessControl/BrightnessManager.swift:53-56 | one adjustment step sets the display as it stood at the start to its brightness plus delta, clamped |
| LegacyManager.AdjustAllBrightness | Sources/BrightnessControl/BrightnessManager.swift:52-57 | each display is asked for its own brightness plus delta clamped to [0, 1]; with sync off each ends at its request, with sync on all end at the last |
| LegacyManager.Rebuild | Sources/BrightnessControl/BrightnessManager.swift:89-101 | one display per numbered screen, in order, with its saved levels, DDC support exactly when external and no flag |
| LegacyManager.InitialDrives | Sources/BrightnessControl/BrightnessManager.swift:103-108 | one call per rebuilt display, in order, at that display's own brightness: a panel call exactly for the built-in display, otherwise a DDC/CI brightness write of the fixed-scale raw value |
| LegacyManager.RefreshDisplays | Sources/BrightnessControl/BrightnessManager.swift:82-111 | the list is replaced and nothing else changes; no display is flagged; the hardware calls match the displays one to one |
| LegacyManager.NoFallbackKept | Sources/BrightnessControl/Display.swift:5-13 | the older record has no software-control flag: no operation of the older manager raises it |
| Battery.FillLevel | Sources/BrightnessControlCore/BatteryManager.swift:89-93 | the level is a multiple of 25 up to 100, at most the percentage unless 0, and within 25 below it unless 100 |
| Battery.FillLevelMonotone | Sources/BrightnessControlCore/BatteryManager.swift:89-93 | a fuller battery never shows an emptier symbol |
| Battery.IconOf | Sources/BrightnessControlCore/BatteryManager.swift:84-94 | charging shows the bolt whatever the percentage; otherwise the fill level of the percentage |
| Battery.BatteryIconName | Sources/BrightnessControlCore/BatteryManager.swift:84-94 | the name is "battery.100.bolt" exactly when charging; when not charging it is "battery.100" from 100%, "battery.75" on [75, 100), "battery.50" on [50, 75), "battery.25" on [25, 50) and "battery.0" below 25% |
| Battery.IconName | Sources/BrightnessControlCore/BatteryManager.swift:85-93 | each symbol level has its own SF Symbol name, the bolt variant for charging |
| Battery.IconNameInjective | Sources/BrightnessControlCore/BatteryManager.swift:85-93 | different symbols have different names |
| Battery.BatteryColor | Sources/BrightnessControlCore/BatteryManager.swift:97-102 | low-power mode always shows yellow; green exactly on mains power outside low-power mode; red exactly at 10% or less otherwise; else the primary colour |
| Battery.TextColorMatchesIcon | Sources/BrightnessControlCore/BatteryManager.swift:108-113 | the text colour equals the symbol colour in every state |
| Battery.SpecialStateIsColored | Sources/BrightnessControlCore/BatteryManager.swift:104-106 | the special state holds exactly when the colour is not the primary colour |
| Battery.ColorScenarios | Tests/BrightnessControlTests/BrightnessControlTests.swift:48-69 | the colour test's four situations: mains green, low-power yellow, 10% red, 50% primary |

## Left out

- Service lookup through the I/O registry (`findFramebuffer`, `match`, `getProperties` in both writers) is an oracle, `Io.serviceFound`. It walks untyped platform dictionaries.
- The I2C calls (interface open, send, the 50 ms reply delay, close) are oracles `Io.open`, `Io.send` and `Io.exchange`.
- The lock around the caches, and every form of concurrency, is left out: operations run one after another.
- The preset debounce and its cancellation, the detached background task, the one-second polling timer and `syncWithPhysicalBrightness` are asynchronous scheduling. `ApplyPreset` and `PresetHardwarePass` model the immediate update and one uncancelled hardware pass.
- The private panel call (`dlopen`/`dlsym`) and `CGSetDisplayTransferByTable` are foreign calls. They appear as `Panel` and `Gamma` effects.
- Floating point is modelled as exact `real` arithmetic, including `Float` conversions and the gamma entries.
- VcpChannel.RawValue: does not model Swift's trap when a negative fraction is converted to `UInt16`; a non-positive fraction writes 0.
- LegacyDdc.LegacyRawValue: does not model Swift's traps on a negative product or one of 65536 or more; those write 0 and 65535.
- User defaults, screen enumeration and the reconfiguration callback are platform I/O. The saved levels are maps from display name to level, and the screens are an input list.
- The Core sync recursion cannot terminate (`BrightnessManager.SyncRecursionCycles`). `BrightnessManager.SetBrightness` models each nested call as setting and saving one display, without a sync loop of its own.
- BrightnessManager.SetBrightness: with sync on, the actions of the nested calls after the target's own are not stated one by one; `SyncOthers` states the levels and names they leave.
- The platform oracle `Io` answers the same way every time for the same display, bus and frame, so transient I2C failures, and a retry on the same bus succeeding, are not modelled.
- BrightnessManager.SetBrightness: the sync-on postcondition that every display takes the value is stated for lists with unique ids. With repeated ids, later entries sharing the target's id keep their brightness.
- BrightnessManager.AdjustAllBrightness: the per-display end values are stated for lists with unique ids only.
- LegacyManager.AdjustAllBrightness: the per-display end values are stated for lists with unique ids only.
- LegacyManager.DriveCall: states only that a reported DDC/CI success needed a service. Which bus took the frame is stated by `LegacyDdc.LegacySetVcp`.
- The older writer's result is discarded by its callers. The `ok` field of its effects is informational.
- `readVcp` (the current value alone) is not modelled; nothing in the core calls it.
- The user interface, the on-screen display, the menu bar, hot-key registration, the dock icon, autostart, `toggleSync` and the preset names and icons other than as data are left out. They are presentation or platform integration.
- `updatePowerStatus` and the power-source notifications are platform I/O with a floating-point percentage. The battery rules take the status as input.
- `readVcpEx` does not store the maximum it reads; only `getMax` fills the maximum cache (Sources/BrightnessControlCore/DDCManager.swift:43-57 and 133-156).
- The software-control flag is `!success \|\| value < 0.1` (Sources/BrightnessControlCore/BrightnessManager.swift:206). At exactly 0.1 with a working write it is clear, although the backlight is then at its minimum (`HybridBlender.FlagAtFloor`).
- `BrightnessManager.RefreshDisplays` follows the code as written: a failed initial write during the rebuild dims the gamma ramp but leaves the listed display unflagged (see Findings).

## Findings

| source | as written | input that shows it | evidently intended | confidence | as-written member | corrected member |
|---|---|---|---|---|---|---|
| Sources/BrightnessControl/DDCManager.swift:43 | the Set VCP Feature checksum is 0x6E ^ 0x84 ^ 0x03 ^ code ^ hi ^ lo, leaving out the 0x51 source byte that the frame carries | any code and value, e.g. brightness 0x10 at 50: the XOR of 0x6E with the seven bytes sent is 0x51 instead of 0 | the DDC/CI checksum covers every byte sent after the destination address, including 0x51, as the Core writer computes it | high (not executed) | LegacyDdc.LegacyFrameRejected | DdcFrame.WriteFrame |
| Sources/BrightnessControlCore/BrightnessManager.swift:216-222 | with sync on, setBrightness calls itself for every other display, and that call loops over all displays again, including the original | two displays with ids 1 and 2 and sync on: 1 calls 2, 2 calls 1, and so on without end | each other display is set once, as the older manager's loop does | high (not executed) | BrightnessManager.SyncRecursionCycles | BrightnessManager.SetBrightness |
| Sources/BrightnessControlCore/BrightnessManager.swift:165-174 | `Display` is a struct: the rebuilt display is appended to the new list before the failed initial write sets `isSoftwareControl` on the local copy, so the flag never reaches the list | a display whose reads answer and whose writes all fail: the ramp is dimmed, the listed display is not flagged | the listed display is flagged whenever the gamma fallback is installed, as setBrightness does | high (not executed) | BrightnessManager.RefreshDropsFallbackFlag | BrightnessManager.RefreshExternalIntended |
