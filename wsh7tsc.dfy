/** The in-kernel HID driver for the Waveshare 7-inch touch panel. Each raw
    HID report is decoded into calls on a multi-touch input device using the
    slot-based ("type B") multi-touch protocol: select a slot, report whether
    a finger is in it, report its position, and close the frame with a
    multi-touch frame sync and an input sync. The driver keeps one piece of
    state, the pressed mask of the last report that changed anything. */
module Wsh7 {
  import opened Report

  const MsgLength: nat := 25
  const FirstPointOffset: nat := 2
  const PressedBitsOffset: nat := 7
  const SecondPointOffset: nat := 8
  const ThirdPointOffset: nat := 12
  const FourthPointOffset: nat := 16
  const FifthPointOffset: nat := 20
  const FingerCount: nat := 5

  /** Offset of each slot's point in a report, in slot order. */
  const SlotOffset: seq<nat> :=
    [FirstPointOffset, SecondPointOffset, ThirdPointOffset, FourthPointOffset, FifthPointOffset]

  /** The two absolute axes the driver reports. */
  datatype Axis = AbsMtPositionX | AbsMtPositionY

  /** One call the driver makes on its input device. */
  datatype InputEvent =
    | MtSlot(slot: int)                   // input_mt_slot
    | MtReportSlotState(active: bool)     // input_mt_report_slot_state with MT_TOOL_FINGER
    | ReportAbs(axis: Axis, value: int)   // input_report_abs
    | MtSyncFrame                         // input_mt_sync_frame
    | Sync                                // input_sync

  /** Big-endian 16-bit read: the high byte shifted left by eight, combined
      with the low byte, cast to u16. */
  function ReadPoint(buffer: seq<byte>, offset: int): (r: int)
    requires 0 <= offset && offset + 1 < |buffer|
    ensures 0 <= r < 0x1_0000
    ensures r == Be16(buffer[offset], buffer[offset + 1])
  {
    (buffer[offset] as int * 256 + buffer[offset + 1]) % 0x1_0000
  }

  // ---------------------------------------------------------------------
  // What each helper sends to the input device.

  /** A slot with its bit set: pressed at (x, y), unless both are zero, in
      which case it is reported released. */
  function SlotFilledEvents(slotNum: int, x: int, y: int): seq<InputEvent>
  {
    if x != 0 || y != 0 then
      [MtSlot(slotNum), MtReportSlotState(true), ReportAbs(AbsMtPositionX, x), ReportAbs(AbsMtPositionY, y)]
    else
      [MtSlot(slotNum), MtReportSlotState(false)]
  }

  /** A slot whose bit is clear: reported released. */
  function EmptySlotEvents(slot: int): seq<InputEvent>
  {
    [MtSlot(slot), MtReportSlotState(false)]
  }

  /** Point stored X then Y. */
  function PointDirectEvents(slotNum: int, buffer: seq<byte>, offset: int): seq<InputEvent>
    requires 0 <= offset && offset + 3 < |buffer|
  {
    SlotFilledEvents(slotNum, ReadPoint(buffer, offset), ReadPoint(buffer, offset + 2))
  }

  /** Point stored Y then X. */
  function PointReverseEvents(slotNum: int, buffer: seq<byte>, offset: int): seq<InputEvent>
    requires 0 <= offset && offset + 3 < |buffer|
  {
    SlotFilledEvents(slotNum, ReadPoint(buffer, offset + 2), ReadPoint(buffer, offset))
  }

  /** The calls for slot k on an active cycle: slot 0 reads its point in
      direct order, slots 1 to 4 in reverse order, and a clear bit empties
      the slot. */
  function SlotGroup(buffer: seq<byte>, pressedBits: nat, k: nat): seq<InputEvent>
    requires |buffer| == MsgLength && k < FingerCount
  {
    if !HasBit(pressedBits, k) then EmptySlotEvents(k)
    else if k == 0 then PointDirectEvents(k, buffer, SlotOffset[k])
    else PointReverseEvents(k, buffer, SlotOffset[k])
  }

  /** The calls for slots k .. 4, in ascending order. */
  function GroupsFrom(buffer: seq<byte>, pressedBits: nat, k: nat): seq<InputEvent>
    requires |buffer| == MsgLength && k <= FingerCount
    decreases FingerCount - k
  {
    if k == FingerCount then [] else SlotGroup(buffer, pressedBits, k) + GroupsFrom(buffer, pressedBits, k + 1)
  }

  /** The calls of an active cycle: all five slots, then the two syncs. */
  function CycleEvents(buffer: seq<byte>, pressedBits: nat): seq<InputEvent>
    requires |buffer| == MsgLength
  {
    GroupsFrom(buffer, pressedBits, 0) + [MtSyncFrame, Sync]
  }

  /** What handling one raw report does: the value returned to the HID
      core, the new history and the calls made on the input device. */
  datatype Outcome = Outcome(handled: int, wasPressed: int, events: seq<InputEvent>)

  predicate ActiveCycle(wasPressed: int, buffer: seq<byte>)
    requires |buffer| == MsgLength
  {
    buffer[PressedBitsOffset] != 0 || wasPressed != 0
  }

  function RawEventOutcome(wasPressed: int, buffer: seq<byte>): (r: Outcome)
    // a report of any other length is not ours: 0, nothing sent, history kept
    ensures |buffer| != MsgLength ==> r == Outcome(0, wasPressed, [])
    // a report of the right length is always consumed
    ensures |buffer| == MsgLength ==> r.handled == 1
    // nothing pressed now or before: no slot calls, no syncs, history stays 0
    ensures |buffer| == MsgLength && !ActiveCycle(wasPressed, buffer) ==>
              r.events == [] && r.wasPressed == 0
    // an active cycle stores the five slot bits and ends with the two syncs
    ensures |buffer| == MsgLength && ActiveCycle(wasPressed, buffer) ==>
              r.wasPressed == buffer[PressedBitsOffset] % 32 &&
              |r.events| >= 2 && r.events[|r.events| - 2..] == [MtSyncFrame, Sync]
    ensures 0 <= wasPressed < 32 ==> 0 <= r.wasPressed < 32
  {
    if |buffer| == MsgLength then
      var pressedBits := buffer[PressedBitsOffset];
      if ActiveCycle(wasPressed, buffer) then
        Outcome(1, pressedBits % 32, CycleEvents(buffer, pressedBits))
      else
        Outcome(1, wasPressed, [])
    else
      Outcome(0, wasPressed, [])
  }

  // ---------------------------------------------------------------------
  // The driver state and its operations.

  /** The per-device state: was_pressed, and the calls the input device has
      received so far. */
  class Wsh7Device {
    var wasPressed: int
    var events: seq<InputEvent>

    ghost predicate Valid()
      reads this
    {
      0 <= wasPressed < 32
    }

    /** The state is allocated zeroed. */
    constructor ()
      ensures Valid() && wasPressed == 0 && events == []
    {
      wasPressed := 0;
      events := [];
    }

    method SlotFilled(slotNum: int, x: int, y: int)
      modifies this`events
      ensures events == old(events) + SlotFilledEvents(slotNum, x, y)
    {
      events := events + [MtSlot(slotNum)];
      if x != 0 || y != 0 {
        events := events + [MtReportSlotState(true)];
        events := events + [ReportAbs(AbsMtPositionX, x)];
        events := events + [ReportAbs(AbsMtPositionY, y)];
      } else {
        events := events + [MtReportSlotState(false)];
      }
    }

    method PointDirect(slotNum: int, buffer: seq<byte>, offset: int)
      requires 0 <= offset && offset + 3 < |buffer|
      modifies this`events
      ensures events == old(events) + PointDirectEvents(slotNum, buffer, offset)
    {
      var x := ReadPoint(buffer, offset);
      var y := ReadPoint(buffer, offset + 2);
      SlotFilled(slotNum, x, y);
    }

    method PointReverse(slotNum: int, buffer: seq<byte>, offset: int)
      requires 0 <= offset && offset + 3 < |buffer|
      modifies this`events
      ensures events == old(events) + PointReverseEvents(slotNum, buffer, offset)
    {
      var x := ReadPoint(buffer, offset + 2);
      var y := ReadPoint(buffer, offset);
      SlotFilled(slotNum, x, y);
    }

    method EmptySlot(slot: int)
      modifies this`events
      ensures events == old(events) + EmptySlotEvents(slot)
    {
      events := events + [MtSlot(slot)];
      events := events + [MtReportSlotState(false)];
    }

    /** The five slot reports of an active cycle, slot 0 first: the chain of
        tests on the pressed bits inside RawEvent's active branch, kept as a
        method of its own so that each of the two is verified separately. */
    method ReportSlots(buffer: seq<byte>, pressedBits: byte)
      requires |buffer| == MsgLength
      modifies this`events
      ensures events == old(events) + GroupsFrom(buffer, pressedBits, 0)
    {
      ghost var before, done := events, [];
      if HasBit(pressedBits, 0) {
        PointDirect(0, buffer, FirstPointOffset);
      } else {
        EmptySlot(0);
      }
      AppendAssoc(before, done, SlotGroup(buffer, pressedBits, 0));
      done := done + SlotGroup(buffer, pressedBits, 0);
      assert events == before + done;
      if HasBit(pressedBits, 1) {
        PointReverse(1, buffer, SecondPointOffset);
      } else {
        EmptySlot(1);
      }
      AppendAssoc(before, done, SlotGroup(buffer, pressedBits, 1));
      done := done + SlotGroup(buffer, pressedBits, 1);
      assert events == before + done;
      if HasBit(pressedBits, 2) {
        PointReverse(2, buffer, ThirdPointOffset);
      } else {
        EmptySlot(2);
      }
      AppendAssoc(before, done, SlotGroup(buffer, pressedBits, 2));
      done := done + SlotGroup(buffer, pressedBits, 2);
      assert events == before + done;
      if HasBit(pressedBits, 3) {
        PointReverse(3, buffer, FourthPointOffset);
      } else {
        EmptySlot(3);
      }
      AppendAssoc(before, done, SlotGroup(buffer, pressedBits, 3));
      done := done + SlotGroup(buffer, pressedBits, 3);
      assert events == before + done;
      if HasBit(pressedBits, 4) {
        PointReverse(4, buffer, FifthPointOffset);
      } else {
        EmptySlot(4);
      }
      AppendAssoc(before, done, SlotGroup(buffer, pressedBits, 4));
      done := done + SlotGroup(buffer, pressedBits, 4);
      assert events == before + done;
      assert done == GroupsFrom(buffer, pressedBits, 0) by {
        UnfoldGroups(buffer, pressedBits);
      }
    }

    /** Handles one raw HID report of `|buffer|` bytes. */
    method RawEvent(buffer: seq<byte>) returns (handled: int)
      requires Valid()
      modifies this
      ensures Valid()
      ensures var r := RawEventOutcome(old(wasPressed), buffer);
              handled == r.handled && wasPressed == r.wasPressed && events == old(events) + r.events
    {
      if |buffer| == MsgLength {
        var pressedBits := buffer[PressedBitsOffset];
        if pressedBits != 0 || wasPressed != 0 {
          wasPressed := pressedBits % 32;
          ReportSlots(buffer, pressedBits);
          events := events + [MtSyncFrame];
          events := events + [Sync];
        }
        return 1;
      }
      return 0;
    }
  }

  lemma UnfoldGroups(buffer: seq<byte>, pressedBits: nat)
    requires |buffer| == MsgLength
    ensures GroupsFrom(buffer, pressedBits, 0) ==
      [] + SlotGroup(buffer, pressedBits, 0) + SlotGroup(buffer, pressedBits, 1) + SlotGroup(buffer, pressedBits, 2)
      + SlotGroup(buffer, pressedBits, 3) + SlotGroup(buffer, pressedBits, 4)
  {
    var s0, s1, s2 := SlotGroup(buffer, pressedBits, 0), SlotGroup(buffer, pressedBits, 1), SlotGroup(buffer, pressedBits, 2);
    var s3, s4 := SlotGroup(buffer, pressedBits, 3), SlotGroup(buffer, pressedBits, 4);
    assert GroupsFrom(buffer, pressedBits, 5) == [];
    assert GroupsFrom(buffer, pressedBits, 4) == s4;
    assert GroupsFrom(buffer, pressedBits, 3) == s3 + s4;
    AppendAssoc(s2, s3, s4);
    assert GroupsFrom(buffer, pressedBits, 2) == s2 + s3 + s4;
    AppendAssoc(s1, s2 + s3, s4);
    AppendAssoc(s1, s2, s3);
    assert GroupsFrom(buffer, pressedBits, 1) == s1 + s2 + s3 + s4;
    AppendAssoc(s0, s1 + s2 + s3, s4);
    AppendAssoc(s0, s1 + s2, s3);
    AppendAssoc(s0, s1, s2);
    assert [] + s0 == s0;
  }

  // ---------------------------------------------------------------------
  // Which slots a call sequence selects, and in what order.

  function SelectedSlots(events: seq<InputEvent>): seq<int>
  {
    if events == [] then []
    else (if events[0].MtSlot? then [events[0].slot] else []) + SelectedSlots(events[1..])
  }

  function Occurrences(events: seq<InputEvent>, e: InputEvent): nat
  {
    if events == [] then 0 else (if events[0] == e then 1 else 0) + Occurrences(events[1..], e)
  }

  lemma {:induction false} SelectedSlotsAppend(a: seq<InputEvent>, b: seq<InputEvent>)
    ensures SelectedSlots(a + b) == SelectedSlots(a) + SelectedSlots(b)
  {
    if a == [] {
      assert a + b == b;
    } else {
      var ab := a + b;
      assert ab[0] == a[0] && ab[1..] == a[1..] + b;
      SelectedSlotsAppend(a[1..], b);
      var head := if a[0].MtSlot? then [a[0].slot] else [];
      assert SelectedSlots(ab) == head + SelectedSlots(a[1..] + b);
      AppendAssoc(head, SelectedSlots(a[1..]), SelectedSlots(b));
    }
  }

  lemma {:induction false} OccurrencesAppend(a: seq<InputEvent>, b: seq<InputEvent>, e: InputEvent)
    ensures Occurrences(a + b, e) == Occurrences(a, e) + Occurrences(b, e)
  {
    if a == [] {
      assert a + b == b;
    } else {
      assert (a + b)[1..] == a[1..] + b;
      OccurrencesAppend(a[1..], b, e);
    }
  }

  /** Slots k .. 4 are each selected once, in ascending order, and no sync is
      issued among their calls. */
  lemma {:induction false} GroupsFromSelectInOrder(buffer: seq<byte>, pressedBits: nat, k: nat)
    requires |buffer| == MsgLength && k <= FingerCount
    ensures SelectedSlots(GroupsFrom(buffer, pressedBits, k)) == Range(k, FingerCount)
    ensures Occurrences(GroupsFrom(buffer, pressedBits, k), MtSyncFrame) == 0
    ensures Occurrences(GroupsFrom(buffer, pressedBits, k), Sync) == 0
    decreases FingerCount - k
  {
    if k < FingerCount {
      var g := SlotGroup(buffer, pressedBits, k);
      var rest := GroupsFrom(buffer, pressedBits, k + 1);
      GroupsFromSelectInOrder(buffer, pressedBits, k + 1);
      SelectedSlotsAppend(g, rest);
      OccurrencesAppend(g, rest, MtSyncFrame);
      OccurrencesAppend(g, rest, Sync);
      SlotGroupShape(buffer, pressedBits, k);
    }
  }

  lemma SingletonCounts(e: InputEvent)
    ensures SelectedSlots([e]) == if e.MtSlot? then [e.slot] else []
    ensures Occurrences([e], MtSyncFrame) == (if e == MtSyncFrame then 1 else 0)
    ensures Occurrences([e], Sync) == (if e == Sync then 1 else 0)
  {
    assert [e][1..] == [];
  }

  /** One slot's calls select that slot once and issue no sync. */
  lemma SlotFilledShape(slot: int, x: int, y: int)
    ensures var g := SlotFilledEvents(slot, x, y);
            SelectedSlots(g) == [slot] && Occurrences(g, MtSyncFrame) == 0 && Occurrences(g, Sync) == 0
  {
    var g := SlotFilledEvents(slot, x, y);
    SingletonCounts(g[0]);
    SingletonCounts(g[1]);
    SelectedSlotsAppend([g[0]], [g[1]]);
    OccurrencesAppend([g[0]], [g[1]], MtSyncFrame);
    OccurrencesAppend([g[0]], [g[1]], Sync);
    if |g| == 4 {
      SingletonCounts(g[2]);
      SingletonCounts(g[3]);
      SelectedSlotsAppend([g[2]], [g[3]]);
      OccurrencesAppend([g[2]], [g[3]], MtSyncFrame);
      OccurrencesAppend([g[2]], [g[3]], Sync);
      assert g == [g[0]] + [g[1]] + ([g[2]] + [g[3]]);
      SelectedSlotsAppend([g[0]] + [g[1]], [g[2]] + [g[3]]);
      OccurrencesAppend([g[0]] + [g[1]], [g[2]] + [g[3]], MtSyncFrame);
      OccurrencesAppend([g[0]] + [g[1]], [g[2]] + [g[3]], Sync);
    } else {
      assert g == [g[0]] + [g[1]];
    }
  }

  lemma SlotGroupShape(buffer: seq<byte>, pressedBits: nat, k: nat)
    requires |buffer| == MsgLength && k < FingerCount
    ensures var g := SlotGroup(buffer, pressedBits, k);
            SelectedSlots(g) == [k] && Occurrences(g, MtSyncFrame) == 0 && Occurrences(g, Sync) == 0
  {
    var off := SlotOffset[k];
    if !HasBit(pressedBits, k) {
      SlotFilledShape(k, 0, 0);
    } else if k == 0 {
      SlotFilledShape(k, ReadPoint(buffer, off), ReadPoint(buffer, off + 2));
    } else {
      SlotFilledShape(k, ReadPoint(buffer, off + 2), ReadPoint(buffer, off));
    }
  }

  /** The integers lo, lo+1, ..., hi-1. */
  function Range(lo: int, hi: int): seq<int>
    decreases hi - lo
  {
    if lo >= hi then [] else [lo] + Range(lo + 1, hi)
  }

  /** On an active cycle every slot 0 .. 4 is selected exactly once, in
      ascending order, followed by exactly one multi-touch frame sync and
      then exactly one input sync. */
  lemma ActiveCycleVisitsEverySlot(wasPressed: int, buffer: seq<byte>)
    requires |buffer| == MsgLength && ActiveCycle(wasPressed, buffer)
    ensures var evs := RawEventOutcome(wasPressed, buffer).events;
            SelectedSlots(evs) == [0, 1, 2, 3, 4] &&
            Occurrences(evs, MtSyncFrame) == 1 && Occurrences(evs, Sync) == 1 &&
            evs[|evs| - 2] == MtSyncFrame && evs[|evs| - 1] == Sync
  {
    var pressedBits := buffer[PressedBitsOffset];
    var groups := GroupsFrom(buffer, pressedBits, 0);
    var tail: seq<InputEvent> := [MtSyncFrame, Sync];
    GroupsFromSelectInOrder(buffer, pressedBits, 0);
    SelectedSlotsAppend(groups, tail);
    OccurrencesAppend(groups, tail, MtSyncFrame);
    OccurrencesAppend(groups, tail, Sync);
    assert tail[1..][1..] == [];
    SlotRange();
  }

  lemma SlotRange()
    ensures Range(0, FingerCount) == [0, 1, 2, 3, 4]
  {
    assert Range(5, 5) == [];
    assert Range(4, 5) == [4];
  }

  // ---------------------------------------------------------------------
  // What a type-B consumer sees: the state of every slot after a sequence
  // of calls.

  /** A slot as the consumer tracks it; the position is kept across
      releases, as the input subsystem keeps the last absolute values. */
  datatype SlotView = SlotView(active: bool, x: int, y: int)

  /** The consumer's state: the selected slot and every slot's view. */
  datatype MtState = MtState(current: int, slots: map<int, SlotView>)

  function View(st: MtState, k: int): SlotView
  {
    if k in st.slots then st.slots[k] else SlotView(false, 0, 0)
  }

  function Apply(st: MtState, e: InputEvent): MtState
  {
    match e
    case MtSlot(s) => st.(current := s)
    case MtReportSlotState(a) =>
      st.(slots := st.slots[st.current := View(st, st.current).(active := a)])
    case ReportAbs(axis, v) =>
      var w := View(st, st.current);
      st.(slots := st.slots[st.current := if axis == AbsMtPositionX then w.(x := v) else w.(y := v)])
    case MtSyncFrame => st
    case Sync => st
  }

  function Replay(st: MtState, events: seq<InputEvent>): MtState
    decreases |events|
  {
    if events == [] then st else Replay(Apply(st, events[0]), events[1..])
  }

  lemma {:induction false} ReplayAppend(st: MtState, a: seq<InputEvent>, b: seq<InputEvent>)
    ensures Replay(st, a + b) == Replay(Replay(st, a), b)
    decreases |a|
  {
    if a == [] {
      assert a + b == b;
    } else {
      assert (a + b)[1..] == a[1..] + b;
      ReplayAppend(Apply(st, a[0]), a[1..], b);
    }
  }

  /** What slot k looks like after an active cycle, given how it looked
      before: pressed at the reported point when its bit is set and the
      point is not (0, 0); otherwise released with its position untouched. */
  function SlotAfter(buffer: seq<byte>, pressedBits: nat, k: nat, before: SlotView): SlotView
    requires |buffer| == ReportLength && k < SlotCount
  {
    if HasBit(pressedBits, k) && (ContactX(buffer, k) != 0 || ContactY(buffer, k) != 0) then
      SlotView(true, ContactX(buffer, k), ContactY(buffer, k))
    else
      before.(active := false)
  }

  lemma ReplayOne(st: MtState, events: seq<InputEvent>)
    requires |events| == 1
    ensures Replay(st, events) == Apply(st, events[0])
  {
    assert events[1..] == [];
  }

  /** The calls for one slot select that slot and change only that slot's view. */
  lemma SlotFilledEffect(st: MtState, slot: int, x: int, y: int, j: int)
    ensures Replay(st, SlotFilledEvents(slot, x, y)).current == slot
    ensures View(Replay(st, SlotFilledEvents(slot, x, y)), j) ==
            if j != slot then View(st, j)
            else if x != 0 || y != 0 then SlotView(true, x, y)
            else View(st, slot).(active := false)
  {
    var e := SlotFilledEvents(slot, x, y);
    var s1 := Apply(st, e[0]);
    var s2 := Apply(s1, e[1]);
    ReplayAppend(st, [e[0]], e[1..]);
    ReplayOne(st, [e[0]]);
    ReplayAppend(s1, [e[1]], e[2..]);
    ReplayOne(s1, [e[1]]);
    if |e| == 4 {
      var s3 := Apply(s2, e[2]);
      ReplayAppend(s2, [e[2]], e[3..]);
      ReplayOne(s2, [e[2]]);
      ReplayOne(s3, e[3..]);
    } else {
      assert e[2..] == [];
    }
  }

  /** The calls for slot k select slot k and change only slot k's view. */
  lemma SlotGroupEffect(st: MtState, buffer: seq<byte>, pressedBits: nat, k: nat, j: int)
    requires |buffer| == MsgLength && k < FingerCount
    ensures View(Replay(st, SlotGroup(buffer, pressedBits, k)), j) ==
            if j == k then SlotAfter(buffer, pressedBits, k, View(st, k)) else View(st, j)
  {
    SlotGroupPoint(buffer, pressedBits, k);
    if HasBit(pressedBits, k) {
      SlotFilledEffect(st, k, ContactX(buffer, k), ContactY(buffer, k), j);
    } else {
      SlotFilledEffect(st, k, 0, 0, j);
    }
  }

  /** Slot k's calls fill the slot with the point the layout gives for it
      when its bit is set, and with (0, 0), which reads as released, when
      the bit is clear. */
  lemma SlotGroupPoint(buffer: seq<byte>, pressedBits: nat, k: nat)
    requires |buffer| == MsgLength && k < FingerCount
    ensures SlotGroup(buffer, pressedBits, k) ==
            if HasBit(pressedBits, k) then SlotFilledEvents(k, ContactX(buffer, k), ContactY(buffer, k))
            else SlotFilledEvents(k, 0, 0)
  {
    assert SlotOffset[k] == PointOffset(k);
  }

  lemma {:induction false} GroupsFromEffect(st: MtState, buffer: seq<byte>, pressedBits: nat, k: nat, j: int)
    requires |buffer| == MsgLength && k <= FingerCount
    ensures View(Replay(st, GroupsFrom(buffer, pressedBits, k)), j) ==
            if k <= j < FingerCount then SlotAfter(buffer, pressedBits, j, View(st, j)) else View(st, j)
    decreases FingerCount - k
  {
    if k < FingerCount {
      var g := SlotGroup(buffer, pressedBits, k);
      var rest := GroupsFrom(buffer, pressedBits, k + 1);
      ReplayAppend(st, g, rest);
      var mid := Replay(st, g);
      GroupsFromEffect(mid, buffer, pressedBits, k + 1, j);
      SlotGroupEffect(st, buffer, pressedBits, k, j);
    }
  }

  /** On an active cycle a type-B consumer ends up with slot k pressed at
      the point the report carries for it exactly when the slot's bit is set
      and that point is not (0, 0); otherwise the slot is released, and no
      coordinate of it is reported. Slots outside 0 .. 4 are not touched. */
  lemma ActiveCycleSlotStates(st: MtState, wasPressed: int, buffer: seq<byte>, k: int)
    requires |buffer| == MsgLength && ActiveCycle(wasPressed, buffer)
    ensures var after := View(Replay(st, RawEventOutcome(wasPressed, buffer).events), k);
            if 0 <= k < 5 then
              (after.active <==> HasBit(buffer[7], k) && (ContactX(buffer, k) != 0 || ContactY(buffer, k) != 0)) &&
              (after.active ==> after.x == ContactX(buffer, k) && after.y == ContactY(buffer, k)) &&
              (!after.active ==> after.x == View(st, k).x && after.y == View(st, k).y)
            else after == View(st, k)
  {
    var pressedBits := buffer[PressedBitsOffset];
    var groups := GroupsFrom(buffer, pressedBits, 0);
    ReplayAppend(st, groups, [MtSyncFrame, Sync]);
    SyncsKeepSlots(Replay(st, groups));
    GroupsFromEffect(st, buffer, pressedBits, 0, k);
  }

  /** The two syncs closing a cycle change no slot. */
  lemma SyncsKeepSlots(st: MtState)
    ensures Replay(st, [MtSyncFrame, Sync]) == st
  {
    ReplayAppend(st, [MtSyncFrame], [Sync]);
    ReplayOne(st, [MtSyncFrame]);
    ReplayOne(st, [Sync]);
  }

  /** Bits above the fifth make a cycle active, but with no slot bit set
      all five slots are released and the history becomes 0. */
  lemma HighBitsReleaseEverySlot(st: MtState, wasPressed: int, buffer: seq<byte>, k: int)
    requires |buffer| == MsgLength && buffer[7] >= 32 && buffer[7] % 32 == 0 && 0 <= k < 5
    ensures var r := RawEventOutcome(wasPressed, buffer);
            r.events != [] && r.wasPressed == 0 && !View(Replay(st, r.events), k).active
  {
    LowBitsMask(buffer[7], 5, k);
    assert Pow2(5) == 32;
    ZeroHasNoBits(k);
    ActiveCycleSlotStates(st, wasPressed, buffer, k);
  }

  /** A finger lifted after a touch: the next report with an empty mask is
      still an active cycle, because the history remembers the touch; it
      releases all five slots, clears the history, and a further empty
      report is then silent. */
  lemma ReleaseAfterTouch(first: seq<byte>, second: seq<byte>)
    requires |first| == MsgLength && |second| == MsgLength
    requires first[7] == 1 && second[7] == 0
    ensures var r1 := RawEventOutcome(0, first);
            var r2 := RawEventOutcome(r1.wasPressed, second);
            var r3 := RawEventOutcome(r2.wasPressed, second);
            r1.wasPressed == 1 && r2.wasPressed == 0 &&
            r2.events == EmptySlotEvents(0) + EmptySlotEvents(1) + EmptySlotEvents(2) + EmptySlotEvents(3)
                         + EmptySlotEvents(4) + [MtSyncFrame, Sync] &&
            r3.events == []
  {
    assert RawEventOutcome(0, first).wasPressed == 1;
    EmptyMaskAfterTouch(second);
    assert RawEventOutcome(0, second).events == [];
  }

  lemma EmptyMaskAfterTouch(buffer: seq<byte>)
    requires |buffer| == MsgLength && buffer[7] == 0
    ensures var r := RawEventOutcome(1, buffer);
            r.wasPressed == 0 &&
            r.events == EmptySlotEvents(0) + EmptySlotEvents(1) + EmptySlotEvents(2) + EmptySlotEvents(3)
                        + EmptySlotEvents(4) + [MtSyncFrame, Sync]
  {
    assert RawEventOutcome(1, buffer).events == CycleEvents(buffer, 0);
    EmptyMaskGroups(buffer);
  }

  /** With no bit set, the five slot groups are five empty-slot calls. */
  lemma EmptyMaskGroups(buffer: seq<byte>)
    requires |buffer| == MsgLength
    ensures GroupsFrom(buffer, 0, 0) == [] + EmptySlotEvents(0) + EmptySlotEvents(1) + EmptySlotEvents(2)
                                        + EmptySlotEvents(3) + EmptySlotEvents(4)
  {
    UnfoldGroups(buffer, 0);
    ZeroHasNoBits(0);
    ZeroHasNoBits(1);
    ZeroHasNoBits(2);
    ZeroHasNoBits(3);
    ZeroHasNoBits(4);
  }

  /** The same touch reported twice in a row: with a nonzero mask, what is
      sent does not depend on the history, so the second report repeats the
      first one's calls (slots stay pressed, with no release in between)
      and leaves the same history. */
  lemma RepeatedReportRepeatsEvents(wasPressed: int, buffer: seq<byte>)
    requires |buffer| == MsgLength && buffer[PressedBitsOffset] != 0
    ensures var r1 := RawEventOutcome(wasPressed, buffer);
            var r2 := RawEventOutcome(r1.wasPressed, buffer);
            r2 == r1 && r1.events == CycleEvents(buffer, buffer[PressedBitsOffset])
  {
  }
}
