# Waveshare 7-inch touch report decoder

A model of the Waveshare 7-inch capacitive panel's 25-byte touch report
decoder. The repository contains it twice, and both copies are modelled.

- `wsh7tsc.c` is the in-kernel HID driver. `wsh7_raw_event` turns each raw
  report into calls on a multi-touch input device, using the slot-based
  ("type B") protocol. It keeps the pressed mask of the last active report
  in `was_pressed`.
- `waveshare.c` is the userspace daemon. Its `device_loop` reads reports
  from a hidraw node. It replays them on a virtual device in the legacy
  ("type A") protocol: X, Y and an MT-report marker for each pressed point,
  then a sync. It keeps a boolean `waspressed`. The loop ends at the first
  short read.

Files:

- `report.dfy` (module `Report`): the wire format, written independently
  of both drivers. It covers the report length, where each of the five points
  lies (offsets 2, 8, 12, 16, 20), their byte order (slot 0 stores X then Y;
  slots 1 to 4 store Y then X), and big-endian 16-bit values. It also defines
  bits, masks and popcount on non-negative integers.
- `wsh7tsc.dfy` (module `Wsh7`): the kernel driver.
  - Class `Wsh7Device` holds `was_pressed` and the log of input-device calls.
  - `RawEventOutcome` is the specification of one `wsh7_raw_event` call.
  - `Replay` is a type-B consumer: it tracks the selected slot and each slot's
    state. The decoded slots are checked against it.
- `waveshare.dfy` (module `Waveshare`): the userspace session.
  - Class `TouchSession` holds the 25-byte `buffer` (an array), `waspressed`
    and the log of calls on the virtual device and the device node.
  - `ReportStep`, `StreamStep` and `LoopCalls` specify one report, a run of
    reports and the whole loop.
  - `Contacts` is a type-A consumer: it collects the contacts that the
    MT-report markers close. The emitted points are checked against it.

Each call into an input sink (`input_mt_slot`, `input_report_abs`,
`suinput_emit`, `suinput_syn`, `suinput_destroy`, `fclose`, …) is modelled
as appending a datatype value to a log field. The event codes are plain
constructors.

C bit operations on bytes are written arithmetically:
- `hi << 8 | lo` is `hi * 256 + lo`, since the two parts do not overlap.
- `b & (1 << k)` being nonzero is `HasBit(b, k)`: bit k of the base-2
  expansion of `b`.
- `b & 0x1F` is `b % 32`. `Report.LowBitsMask` proves that this keeps bits
  0 to 4 and clears every higher bit.
- The u16 and unsigned-short casts are written out as `% 0x1_0000`, and
  `ReadPoint` proves that they never truncate.

## Behaviour worth noting

- The kernel driver reports all five slots on every active cycle. It
  empties every slot whose bit is clear, whether or not that slot was
  pressed before (`ReleaseAfterTouch`).
- The userspace loop treats a report as pressed only when `buffer[1] == 0x01`
  exactly. The kernel driver never reads offset 1: it decides on
  `pressed_bits || was_pressed`.
- The kernel driver reports a set slot at (0, 0) as released.

## Model

| member | source | states |
|---|---|---|
| Wsh7.ReadPoint | wsh7tsc.c:40-44 | The u16 read is the big-endian value `buf[off]*256 + buf[off+1]` of the two bytes, so it lies in 0..65535 and the cast loses nothing |
| Wsh7.RawEventOutcome | wsh7tsc.c:75-114 | Any length other than 25: returns 0, sends nothing, keeps the history. Length 25: returns 1 whether or not anything is sent. No bit now and none before: nothing is sent (no slot call, no frame sync, no sync) and the history stays 0. Active cycle: the history becomes `pressed_bits & 0x1F` and the calls end with a frame sync followed by a sync. A history below 32 stays below 32 |
| Wsh7.Wsh7Device.constructor | wsh7tsc.c:122 | The device state starts zeroed: history 0, no calls sent |
| Wsh7.Wsh7Device.SlotFilled | wsh7tsc.c:46-54 | Selects the slot; if x or y is nonzero, reports it pressed and then its X and Y; otherwise reports it released with no coordinates |
| Wsh7.Wsh7Device.PointDirect | wsh7tsc.c:56-61 | Fills the slot with X read at the offset and Y at offset+2 |
| Wsh7.Wsh7Device.PointReverse | wsh7tsc.c:63-68 | Fills the slot with X read at offset+2 and Y at the offset |
| Wsh7.Wsh7Device.EmptySlot | wsh7tsc.c:70-73 | Selects the slot and reports it released |
| Wsh7.Wsh7Device.ReportSlots | wsh7tsc.c:87-106 | Sends slots 0 to 4 in order: slot 0 direct from offset 2, slots 1 to 4 reversed from offsets 8/12/16/20, and an empty slot for each clear bit |
| Wsh7.Wsh7Device.RawEvent | wsh7tsc.c:75-114 | Returns, stores and sends exactly what RawEventOutcome gives for the old history, and keeps the history within 0..31 |
| Wsh7.ActiveCycleVisitsEverySlot | wsh7tsc.c:87-109 | On an active cycle the selected slots are exactly 0,1,2,3,4 in that order, followed by exactly one frame sync and then exactly one sync |
| Wsh7.SlotFilledEffect | wsh7tsc.c:46-54 | For a type-B consumer, a slot's calls select that slot. They make it pressed at (x, y) when x or y is nonzero, else released with its old position. No other slot changes |
| Wsh7.SlotGroupEffect | wsh7tsc.c:56-73 | One slot's calls change only that slot, leaving it as the report layout dictates: pressed at the slot's point if the bit is set and the point is not (0, 0), else released |
| Wsh7.GroupsFromEffect | wsh7tsc.c:87-106 | The calls for slots k..4 leave slots k..4 as the report dictates and every other slot as it was |
| Wsh7.ActiveCycleSlotStates | wsh7tsc.c:84-106 | After an active cycle, slot k (0..4) is pressed iff its bit is set and its point is not (0, 0). A pressed slot sits at the layout's X and Y: slot 0 takes X from offset 2 and Y from offset 4; slot k in 1..4 takes X from its offset+2 and Y from its offset. A released slot receives no coordinate. Slots outside 0..4 are untouched |
| Wsh7.HighBitsReleaseEverySlot | wsh7tsc.c:84-106 | A mask with only bits above 0x10 set makes the cycle active (calls are sent) but releases all five slots and sets the history to 0 |
| Wsh7.ReleaseAfterTouch | wsh7tsc.c:84-110 | Mask 1 and then mask 0: the second report still runs a cycle. It empties all five slots and syncs, and clears the history. A further empty report sends nothing |
| Wsh7.RepeatedReportRepeatsEvents | wsh7tsc.c:84-109 | A report with a nonzero mask, delivered twice, sends the same calls both times and leaves the same history: no release in between |
| Report.LowBitsMask | wsh7tsc.c:85 | Masking with 2^k-1 keeps bits 0..k-1 and clears every higher bit (the meaning of `& 0x1F`) |
| Report.PopCountOfLowBits | waveshare.c:152-163 | The popcount of the low k bits of n equals the number of set bits among bits 0..k-1 |
| Waveshare.ReadPoint | waveshare.c:44-47 | The unsigned-short read is `buf[off]*256 + buf[off+1]`, in 0..65535, and the truncation loses nothing |
| Waveshare.ReportStep | waveshare.c:150-171 | Press flag exactly 0x01: `waspressed` becomes set and the calls end with exactly one sync. Flag not 0x01 while pressed: exactly one empty MT-report marker and one sync, and `waspressed` becomes clear. Flag not 0x01 while idle: no call, state unchanged |
| Waveshare.PressedReportContacts | waveshare.c:150-164 | For a type-A consumer, a pressed report carries exactly the points of the set bits among 0x01..0x10, in ascending slot order. Slot 0 is read X then Y, slots 1 to 4 Y then X. Their number is the popcount of `bitmask & 0x1F`, so higher bits are ignored |
| Waveshare.PressedWithoutPointsOnlySyncs | waveshare.c:150-164 | A pressed report with no slot bit among the low five makes the single sync and nothing else |
| Waveshare.ContactsOfPoint | waveshare.c:55-59 | X, Y and an MT-report marker describe one contact at (X, Y) |
| Waveshare.ContactsOfSlot | waveshare.c:154-163 | A slot's calls describe that slot's point when its bit is set, and nothing otherwise |
| Waveshare.CallsFromHaveNoSync | waveshare.c:152-163 | The point calls of a report contain no sync and no teardown call |
| Waveshare.ReportsPartitionStream | waveshare.c:142-148 | The reports the loop consumes are the stream cut into consecutive 25-byte pieces, each byte in exactly one, with fewer than 25 bytes left for the final short read |
| Waveshare.StreamStepAppend | waveshare.c:142-172 | Two runs of reports back to back do what the first does, then what the second does from the state the first leaves: each report is processed once, in read order |
| Waveshare.IdleReportsAreSilent | waveshare.c:165-171 | Any number of idle reports fed to an idle session produce no call at all, in particular no sync |
| Waveshare.StreamHasNoTeardown | waveshare.c:150-171 | Decoding reports never destroys the virtual device or closes the node |
| Waveshare.TeardownExactlyOnce | waveshare.c:144-148 | The loop's last two calls are `suinput_destroy` and then `fclose`, and neither occurs anywhere before |
| Waveshare.TouchSession.constructor | waveshare.c:138-140 | A 25-byte buffer, `waspressed` clear, no calls yet |
| Waveshare.TouchSession.Fread | waveshare.c:144 | Copies the next min(25, remaining) bytes of the stream into the buffer and returns how many |
| Waveshare.TouchSession.EmitPoint | waveshare.c:55-59 | Emits X read at the offset, then Y at offset+2, then an MT-report marker |
| Waveshare.TouchSession.EmitPointReversed | waveshare.c:67-71 | Emits X read at offset+2, then Y at the offset, then an MT-report marker |
| Waveshare.TouchSession.EmitPressedPoints | waveshare.c:154-163 | Emits the points of the set bits 0x01..0x10 in ascending order: slot 0 direct, slots 1 to 4 reversed, nothing for a clear bit |
| Waveshare.TouchSession.DecodeReport | waveshare.c:150-171 | Makes exactly the calls and leaves exactly the `waspressed` that ReportStep gives for the buffer and the old state |
| Waveshare.TouchSession.DeviceLoop | waveshare.c:138-175 | Starting from `waspressed` clear, makes exactly LoopCalls(stream): each complete report's calls in read order, then one `suinput_destroy` and one `fclose`, and nothing after |

## Left out

- Device pool (`try_start_device_loop`, `DEVICES`, waveshare.c:74-81, 183-203): thread creation and a shared table. The code also reads `DEVICES[MAX_DEVICES_SIMULTANEONUSLY]`, one past the end of the array, and clears a copy of the table entry. Modelling it would mean modelling undefined behaviour and concurrency.
- udev discovery, the vendor/product string match and the `select` monitor loop (waveshare.c:210-297): I/O through a foreign library.
- Opening the node and creating the virtual device, with their failure exits (waveshare.c:88-136): foreign calls. `DeviceLoop` starts from a session whose setup succeeded.
- Kernel `wsh7_probe`, `wsh7_remove`, `wsh7_input_mapping` and module registration (wsh7tsc.c:116-223): glue to the HID and input subsystems.
- The meaning of the input events: the ABS, MT and SYN codes are bare constructors. `MT_TOOL_FINGER` is implicit in `MtReportSlotState`.
- The `hdev` and `report` arguments of `wsh7_raw_event`: `size` is the length of the buffer sequence.
- Read errors and an endless device: the device node is a finite byte stream, and a failed read is the end of that stream. A device that never fails keeps the C loop running forever; the model covers every finite prefix that ends in a short read.
- Wsh7.Wsh7Device.RawEvent and the userspace active branch: the chain of five bit tests is a method of its own (`ReportSlots`, `EmitPressedPoints`) called from the branch, so that each of the two methods is verified separately. The sequence of calls is the same as in the inline C code.
