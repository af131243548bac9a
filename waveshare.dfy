/** The userspace daemon's per-device session: it reads 25-byte reports
    from a hidraw device node and replays them on a virtual input device in
    the legacy ("type A") multi-touch protocol: for every pressed point an X
    event, a Y event and an MT-report marker, then one sync. When the panel
    stops reporting a press, one empty MT-report marker and a sync tell the
    consumer that every finger is up. The session ends at the first short
    read, destroying the virtual device and closing the node. */
module Waveshare {
  import opened Report

  const MessageLength: nat := 25
  const IsPressedOffset: nat := 1
  const FirstPointOffset: nat := 2
  const SecondPointOffset: nat := 8
  const ThirdPointOffset: nat := 12
  const FourthPointOffset: nat := 16
  const FifthPointOffset: nat := 20
  const PressedCountOffset: nat := 7

  /** Offset of each slot's point in a report, in slot order. */
  const SlotOffset: seq<nat> :=
    [FirstPointOffset, SecondPointOffset, ThirdPointOffset, FourthPointOffset, FifthPointOffset]

  datatype EventType = EvAbs | EvSyn
  datatype EventCode = AbsMtPositionX | AbsMtPositionY | SynMtReport

  /** One call the session makes on the virtual device or the device node. */
  datatype Call =
    | Emit(evType: EventType, code: EventCode, value: int)   // suinput_emit
    | Syn                                                    // suinput_syn
    | Destroy                                                // suinput_destroy
    | Close                                                  // fclose

  /** The MT-report marker that closes one contact, or, on its own, says
      that there is no contact. */
  const MtReport: Call := Emit(EvSyn, SynMtReport, 0)

  /** Big-endian 16-bit read: the high byte (promoted to int) shifted left
      by eight, or'ed with the low byte, truncated to unsigned short. */
  function ReadPoint(buffer: seq<byte>, offset: int): (r: int)
    requires 0 <= offset && offset + 1 < |buffer|
    ensures 0 <= r < 0x1_0000
    ensures r == Be16(buffer[offset], buffer[offset + 1])
  {
    (buffer[offset] as int * 256 + buffer[offset + 1]) % 0x1_0000
  }

  /** A point stored X then Y. */
  function PointCalls(buffer: seq<byte>, offset: int): seq<Call>
    requires 0 <= offset && offset + 3 < |buffer|
  {
    [Emit(EvAbs, AbsMtPositionX, ReadPoint(buffer, offset)),
     Emit(EvAbs, AbsMtPositionY, ReadPoint(buffer, offset + 2)),
     MtReport]
  }

  /** A point stored Y then X. */
  function PointReversedCalls(buffer: seq<byte>, offset: int): seq<Call>
    requires 0 <= offset && offset + 3 < |buffer|
  {
    [Emit(EvAbs, AbsMtPositionX, ReadPoint(buffer, offset + 2)),
     Emit(EvAbs, AbsMtPositionY, ReadPoint(buffer, offset)),
     MtReport]
  }

  /** The calls for slot k of a pressed report: none when its bit is clear;
      slot 0 in direct order, slots 1 to 4 in reversed order. */
  function SlotCalls(buffer: seq<byte>, pressedCount: nat, k: nat): seq<Call>
    requires |buffer| == MessageLength && k < SlotCount
  {
    if !HasBit(pressedCount, k) then []
    else if k == 0 then PointCalls(buffer, SlotOffset[k])
    else PointReversedCalls(buffer, SlotOffset[k])
  }

  /** The calls for slots k .. 4, in ascending order. */
  function CallsFrom(buffer: seq<byte>, pressedCount: nat, k: nat): seq<Call>
    requires |buffer| == MessageLength && k <= SlotCount
    decreases SlotCount - k
  {
    if k == SlotCount then [] else SlotCalls(buffer, pressedCount, k) + CallsFrom(buffer, pressedCount, k + 1)
  }

  predicate IsPressed(buffer: seq<byte>)
    requires |buffer| == MessageLength
  {
    buffer[IsPressedOffset] == 0x01
  }

  /** What one report does: the calls it makes and the new waspressed. */
  datatype Step = Step(calls: seq<Call>, wasPressed: bool)

  function ReportStep(wasPressed: bool, buffer: seq<byte>): (r: Step)
    requires |buffer| == MessageLength
    // a press: the points, closed by exactly one sync, and waspressed set
    ensures IsPressed(buffer) ==> r.wasPressed && r.calls != [] && r.calls[|r.calls| - 1] == Syn &&
                                  Syn !in r.calls[..|r.calls| - 1]
    // the press ends: one empty marker and one sync, waspressed cleared
    ensures !IsPressed(buffer) && wasPressed ==> r == Step([MtReport, Syn], false)
    // still idle: nothing at all
    ensures !IsPressed(buffer) && !wasPressed ==> r == Step([], false)
  {
    if IsPressed(buffer) then
      CallsFromHaveNoSync(buffer, buffer[PressedCountOffset], 0);
      Step(CallsFrom(buffer, buffer[PressedCountOffset], 0) + [Syn], true)
    else if wasPressed then
      Step([MtReport, Syn], false)
    else
      Step([], wasPressed)
  }

  /** A pressed report: the points of its mask, then one sync. */
  lemma PressedStep(wasPressed: bool, buffer: seq<byte>)
    requires |buffer| == MessageLength && IsPressed(buffer)
    ensures ReportStep(wasPressed, buffer) == Step(CallsFrom(buffer, buffer[PressedCountOffset], 0) + [Syn], true)
  {
  }

  lemma {:induction false} CallsFromHaveNoSync(buffer: seq<byte>, pressedCount: nat, k: nat)
    requires |buffer| == MessageLength && k <= SlotCount
    ensures Syn !in CallsFrom(buffer, pressedCount, k)
    ensures Destroy !in CallsFrom(buffer, pressedCount, k) && Close !in CallsFrom(buffer, pressedCount, k)
    decreases SlotCount - k
  {
    if k < SlotCount {
      CallsFromHaveNoSync(buffer, pressedCount, k + 1);
      SlotCallsAreEmits(buffer, pressedCount, k);
    }
  }

  /** A slot's calls are all suinput_emit calls. */
  lemma SlotCallsAreEmits(buffer: seq<byte>, pressedCount: nat, k: nat)
    requires |buffer| == MessageLength && k < SlotCount
    ensures Syn !in SlotCalls(buffer, pressedCount, k)
    ensures Destroy !in SlotCalls(buffer, pressedCount, k) && Close !in SlotCalls(buffer, pressedCount, k)
  {
    var g := SlotCalls(buffer, pressedCount, k);
    assert forall i :: 0 <= i < |g| ==> g[i].Emit?;
  }

  // ---------------------------------------------------------------------
  // The byte stream read from the device node.

  /** The complete 25-byte reports a stream holds, in order; what follows
      the last of them is shorter than a report. */
  function Reports(stream: seq<byte>): seq<RawReport>
    decreases |stream|
  {
    if |stream| < MessageLength then [] else [stream[..MessageLength]] + Reports(stream[MessageLength..])
  }

  function Flatten(reports: seq<RawReport>): seq<byte>
  {
    if reports == [] then [] else reports[0] + Flatten(reports[1..])
  }

  /** The reports are the stream cut into consecutive 25-byte pieces, each
      byte in exactly one of them, with fewer than 25 bytes left over. */
  lemma {:induction false} ReportsPartitionStream(stream: seq<byte>)
    ensures var rs := Reports(stream);
            |stream| - MessageLength < MessageLength * |rs| <= |stream| &&
            Flatten(rs) == stream[..MessageLength * |rs|]
    decreases |stream|
  {
    if |stream| >= MessageLength {
      var rest := stream[MessageLength..];
      ReportsPartitionStream(rest);
      var rs := Reports(stream);
      assert rs[1..] == Reports(rest);
      assert stream[..MessageLength * |rs|] == stream[..MessageLength] + rest[..MessageLength * |Reports(rest)|];
    }
  }

  /** The calls of a run of reports and the waspressed it leaves. */
  function StreamStep(wasPressed: bool, reports: seq<RawReport>): Step
    decreases |reports|
  {
    if reports == [] then Step([], wasPressed)
    else
      var first := ReportStep(wasPressed, reports[0]);
      var rest := StreamStep(first.wasPressed, reports[1..]);
      Step(first.calls + rest.calls, rest.wasPressed)
  }

  /** Everything the read/decode/emit loop does on a stream: each complete
      report once, in read order, then one teardown. */
  function LoopCalls(stream: seq<byte>): seq<Call>
  {
    StreamStep(false, Reports(stream)).calls + [Destroy, Close]
  }

  /** Two runs of reports back to back do what the first does, then what
      the second does from the state the first leaves. */
  lemma {:induction false} StreamStepAppend(wasPressed: bool, a: seq<RawReport>, b: seq<RawReport>)
    ensures var sa := StreamStep(wasPressed, a);
            var sb := StreamStep(sa.wasPressed, b);
            StreamStep(wasPressed, a + b) == Step(sa.calls + sb.calls, sb.wasPressed)
    decreases |a|
  {
    if a == [] {
      assert a + b == b;
    } else {
      var first := ReportStep(wasPressed, a[0]);
      assert (a + b)[0] == a[0];
      assert (a + b)[1..] == a[1..] + b;
      StreamStepAppend(first.wasPressed, a[1..], b);
      var sa' := StreamStep(first.wasPressed, a[1..]);
      var sb := StreamStep(sa'.wasPressed, b);
      assert StreamStep(wasPressed, a).calls == first.calls + sa'.calls;
      AppendAssoc(first.calls, sa'.calls, sb.calls);
    }
  }

  /** Reports that never carry the press flag, fed to an idle session,
      produce no call at all, in particular no sync. */
  lemma {:induction false} IdleReportsAreSilent(reports: seq<RawReport>)
    requires forall i :: 0 <= i < |reports| ==> reports[i][IsPressedOffset] != 0x01
    ensures StreamStep(false, reports) == Step([], false)
  {
    if reports != [] {
      IdleReportsAreSilent(reports[1..]);
    }
  }

  lemma {:induction false} StreamHasNoTeardown(wasPressed: bool, reports: seq<RawReport>)
    ensures Destroy !in StreamStep(wasPressed, reports).calls && Close !in StreamStep(wasPressed, reports).calls
    decreases |reports|
  {
    if reports != [] {
      var first := ReportStep(wasPressed, reports[0]);
      StreamHasNoTeardown(first.wasPressed, reports[1..]);
      if IsPressed(reports[0]) {
        CallsFromHaveNoSync(reports[0], reports[0][PressedCountOffset], 0);
      }
    }
  }

  /** The loop destroys the virtual device exactly once and closes the
      device node exactly once, and these are its last two calls. */
  lemma TeardownExactlyOnce(stream: seq<byte>)
    ensures var calls := LoopCalls(stream);
            |calls| >= 2 && calls[|calls| - 2..] == [Destroy, Close] &&
            Destroy !in calls[..|calls| - 2] && Close !in calls[..|calls| - 2]
  {
    var body := StreamStep(false, Reports(stream)).calls;
    StreamHasNoTeardown(false, Reports(stream));
    assert LoopCalls(stream)[..|LoopCalls(stream)| - 2] == body;
  }

  // ---------------------------------------------------------------------
  // What a type-A consumer sees: the contacts a call sequence describes.

  datatype Point = Point(x: int, y: int)

  /** Axis values seen since the last marker. */
  datatype Pending = Pending(hasData: bool, x: int, y: int)

  const NoData: Pending := Pending(false, 0, 0)

  /** One call as the consumer reads it: axis events fill in the pending
      contact, a marker closes it (an empty marker closes nothing). */
  function Feed(p: Pending, c: Call): (Pending, seq<Point>)
  {
    match c
    case Emit(t, code, v) =>
      if t == EvAbs && code == AbsMtPositionX then (p.(hasData := true, x := v), [])
      else if t == EvAbs && code == AbsMtPositionY then (p.(hasData := true, y := v), [])
      else if t == EvSyn && code == SynMtReport then (NoData, if p.hasData then [Point(p.x, p.y)] else [])
      else (p, [])
    case _ => (NoData, [])
  }

  function ContactsFrom(calls: seq<Call>, p: Pending): seq<Point>
    decreases |calls|
  {
    if calls == [] then [] else
      var (q, out) := Feed(p, calls[0]);
      out + ContactsFrom(calls[1..], q)
  }

  function Contacts(calls: seq<Call>): seq<Point>
  {
    ContactsFrom(calls, NoData)
  }

  /** The contacts a pressed report carries, from the report layout: the
      points of the slots k .. 4 whose bit is set, in slot order. */
  function PressedContacts(buffer: seq<byte>, pressedCount: nat, k: nat): seq<Point>
    requires |buffer| == ReportLength && k <= SlotCount
    decreases SlotCount - k
  {
    if k == SlotCount then [] else SlotContacts(buffer, pressedCount, k) + PressedContacts(buffer, pressedCount, k + 1)
  }

  /** The contact slot k of a pressed report carries: its point when its
      bit is set, none otherwise. */
  function SlotContacts(buffer: seq<byte>, pressedCount: nat, k: nat): seq<Point>
    requires |buffer| == ReportLength && k < SlotCount
  {
    if HasBit(pressedCount, k) then [Point(ContactX(buffer, k), ContactY(buffer, k))] else []
  }

  lemma ContactsOfPoint(x: int, y: int, rest: seq<Call>)
    ensures ContactsFrom([Emit(EvAbs, AbsMtPositionX, x), Emit(EvAbs, AbsMtPositionY, y), MtReport] + rest, NoData)
            == [Point(x, y)] + ContactsFrom(rest, NoData)
  {
    var c := [Emit(EvAbs, AbsMtPositionX, x), Emit(EvAbs, AbsMtPositionY, y), MtReport] + rest;
    var p1 := Pending(true, x, 0);
    var p2 := Pending(true, x, y);
    assert c[1..] == [Emit(EvAbs, AbsMtPositionY, y), MtReport] + rest;
    assert c[1..][1..] == [MtReport] + rest;
    assert c[1..][1..][1..] == rest;
    assert Feed(NoData, c[0]) == (p1, []);
    assert Feed(p1, c[1..][0]) == (p2, []);
    assert Feed(p2, c[1..][1..][0]) == (NoData, [Point(x, y)]);
    assert ContactsFrom(c[1..][1..], p2) == [Point(x, y)] + ContactsFrom(rest, NoData);
    assert ContactsFrom(c[1..], p1) == [Point(x, y)] + ContactsFrom(rest, NoData);
  }

  /** The calls of one slot describe that slot's point when its bit is
      set, and nothing otherwise. */
  lemma ContactsOfSlot(buffer: seq<byte>, pressedCount: nat, k: nat, rest: seq<Call>)
    requires |buffer| == MessageLength && k < SlotCount
    ensures ContactsFrom(SlotCalls(buffer, pressedCount, k) + rest, NoData) ==
            SlotContacts(buffer, pressedCount, k) + ContactsFrom(rest, NoData)
  {
    assert SlotOffset[k] == PointOffset(k);
    var off := SlotOffset[k];
    if !HasBit(pressedCount, k) {
      assert SlotCalls(buffer, pressedCount, k) + rest == rest;
    } else if k == 0 {
      ContactsOfPoint(ReadPoint(buffer, off), ReadPoint(buffer, off + 2), rest);
    } else {
      ContactsOfPoint(ReadPoint(buffer, off + 2), ReadPoint(buffer, off), rest);
    }
  }

  lemma {:induction false} ContactsOfSlots(buffer: seq<byte>, pressedCount: nat, k: nat, tail: seq<Call>)
    requires |buffer| == MessageLength && k <= SlotCount
    ensures ContactsFrom(CallsFrom(buffer, pressedCount, k) + tail, NoData) ==
            PressedContacts(buffer, pressedCount, k) + ContactsFrom(tail, NoData)
    decreases SlotCount - k
  {
    if k == SlotCount {
      assert CallsFrom(buffer, pressedCount, k) + tail == tail;
    } else {
      var g, rest := SlotCalls(buffer, pressedCount, k), CallsFrom(buffer, pressedCount, k + 1);
      var here, later := SlotContacts(buffer, pressedCount, k), PressedContacts(buffer, pressedCount, k + 1);
      assert CallsFrom(buffer, pressedCount, k) == g + rest;
      assert PressedContacts(buffer, pressedCount, k) == here + later;
      AppendAssoc(g, rest, tail);
      ContactsOfSlots(buffer, pressedCount, k + 1, tail);
      ContactsOfSlot(buffer, pressedCount, k, rest + tail);
      AppendAssoc(here, later, ContactsFrom(tail, NoData));
    }
  }

  lemma {:induction false} PressedContactsCount(buffer: seq<byte>, pressedCount: nat, k: nat)
    requires |buffer| == ReportLength && k <= SlotCount
    ensures |PressedContacts(buffer, pressedCount, k)| + LowBitCount(pressedCount, k) == LowBitCount(pressedCount, SlotCount)
    decreases SlotCount - k
  {
    if k < SlotCount {
      PressedContactsCount(buffer, pressedCount, k + 1);
    }
  }

  /** A pressed report describes, in slot order, exactly the points of the
      slots whose bit is set among the low five (slot 0 read X then Y, the
      others Y then X), one contact per set bit: as many as there are one
      bits in `pressed_count & 0x1F`. Higher bits are ignored. */
  lemma PressedReportContacts(wasPressed: bool, buffer: seq<byte>)
    requires |buffer| == MessageLength && IsPressed(buffer)
    ensures var calls := ReportStep(wasPressed, buffer).calls;
            Contacts(calls) == PressedContacts(buffer, buffer[PressedCountOffset], 0) &&
            |Contacts(calls)| == PopCount(buffer[PressedCountOffset] % 32)
  {
    var bits := buffer[PressedCountOffset];
    ContactsOfSlots(buffer, bits, 0, [Syn]);
    assert ContactsFrom([Syn], NoData) == [] by { assert [Syn][1..] == []; }
    PressedContactsCount(buffer, bits, 0);
    PopCountOfLowBits(bits, SlotCount);
    assert Pow2(SlotCount) == 32;
  }

  /** A pressed report with none of the five slot bits set makes a single
      sync and no other call. */
  lemma PressedWithoutPointsOnlySyncs(wasPressed: bool, buffer: seq<byte>)
    requires |buffer| == MessageLength && IsPressed(buffer) && buffer[PressedCountOffset] % 32 == 0
    ensures ReportStep(wasPressed, buffer) == Step([Syn], true)
  {
    var bits := buffer[PressedCountOffset];
    assert Pow2(5) == 32;
    forall k | 0 <= k < SlotCount ensures SlotCalls(buffer, bits, k) == [] {
      LowBitsMask(bits, 5, k);
      ZeroHasNoBits(k);
    }
    assert CallsFrom(buffer, bits, 5) == [];
  }

  // ---------------------------------------------------------------------
  // The session state and the loop.

  /** The state of one device session once the virtual device exists: the
      report buffer, waspressed, and the calls made so far. */
  class TouchSession {
    const buffer: array<byte>
    var wasPressed: bool
    var calls: seq<Call>

    ghost predicate Valid()
      reads this
    {
      buffer.Length == MessageLength
    }

    constructor ()
      ensures Valid() && fresh(buffer) && !wasPressed && calls == []
    {
      buffer := new byte[MessageLength];
      wasPressed := false;
      calls := [];
    }

    /** fread(buffer, 1, 25, file) on a file whose unread bytes are
        stream[pos..]: copies as many bytes as are there, up to 25, and
        returns how many. */
    method Fread(stream: seq<byte>, pos: nat) returns (n: nat)
      requires Valid() && pos <= |stream|
      modifies buffer
      ensures n == if |stream| - pos < MessageLength then |stream| - pos else MessageLength
      ensures buffer[..n] == stream[pos..pos + n]
      ensures buffer[n..] == old(buffer[n..])
    {
      n := if |stream| - pos < MessageLength then |stream| - pos else MessageLength;
      forall i | 0 <= i < n {
        buffer[i] := stream[pos + i];
      }
    }

    method EmitPoint(offset: int)
      requires Valid() && 0 <= offset && offset + 3 < MessageLength
      modifies this`calls
      ensures calls == old(calls) + PointCalls(buffer[..], offset)
    {
      calls := calls + [Emit(EvAbs, AbsMtPositionX, ReadPoint(buffer[..], offset))];
      calls := calls + [Emit(EvAbs, AbsMtPositionY, ReadPoint(buffer[..], offset + 2))];
      calls := calls + [Emit(EvSyn, SynMtReport, 0)];
    }

    method EmitPointReversed(offset: int)
      requires Valid() && 0 <= offset && offset + 3 < MessageLength
      modifies this`calls
      ensures calls == old(calls) + PointReversedCalls(buffer[..], offset)
    {
      calls := calls + [Emit(EvAbs, AbsMtPositionX, ReadPoint(buffer[..], offset + 2))];
      calls := calls + [Emit(EvAbs, AbsMtPositionY, ReadPoint(buffer[..], offset))];
      calls := calls + [Emit(EvSyn, SynMtReport, 0)];
    }

    /** The points of a pressed report, slot 0 first: the chain of tests on
        pressed_count inside DecodeReport, kept as a method of its own so
        that each of the two is verified separately. */
    method EmitPressedPoints(pressedCount: byte)
      requires Valid()
      modifies this`calls
      ensures calls == old(calls) + CallsFrom(buffer[..], pressedCount, 0)
    {
      ghost var b, before, done := buffer[..], calls, [];
      if HasBit(pressedCount, 0) {
        EmitPoint(FirstPointOffset);
      }
      AppendAssoc(before, done, SlotCalls(b, pressedCount, 0));
      done := done + SlotCalls(b, pressedCount, 0);
      assert calls == before + done;
      if HasBit(pressedCount, 1) {
        EmitPointReversed(SecondPointOffset);
      }
      AppendAssoc(before, done, SlotCalls(b, pressedCount, 1));
      done := done + SlotCalls(b, pressedCount, 1);
      assert calls == before + done;
      if HasBit(pressedCount, 2) {
        EmitPointReversed(ThirdPointOffset);
      }
      AppendAssoc(before, done, SlotCalls(b, pressedCount, 2));
      done := done + SlotCalls(b, pressedCount, 2);
      assert calls == before + done;
      if HasBit(pressedCount, 3) {
        EmitPointReversed(FourthPointOffset);
      }
      AppendAssoc(before, done, SlotCalls(b, pressedCount, 3));
      done := done + SlotCalls(b, pressedCount, 3);
      assert calls == before + done;
      if HasBit(pressedCount, 4) {
        EmitPointReversed(FifthPointOffset);
      }
      AppendAssoc(before, done, SlotCalls(b, pressedCount, 4));
      done := done + SlotCalls(b, pressedCount, 4);
      assert calls == before + done;
      assert done == CallsFrom(b, pressedCount, 0) by {
        UnfoldCalls(b, pressedCount);
        assert [] + SlotCalls(b, pressedCount, 0) == SlotCalls(b, pressedCount, 0);
      }
    }

    /** Decodes the report in the buffer and emits its calls. */
    method DecodeReport()
      requires Valid()
      modifies this`calls, this`wasPressed
      ensures var r := ReportStep(old(wasPressed), buffer[..]);
              calls == old(calls) + r.calls && wasPressed == r.wasPressed
    {
      ghost var b, before := buffer[..], calls;
      ghost var r := ReportStep(wasPressed, b);
      if buffer[IsPressedOffset] == 0x01 {
        PressedStep(wasPressed, b);
        wasPressed := true;
        var pressedCount := buffer[PressedCountOffset];
        EmitPressedPoints(pressedCount);
        calls := calls + [Syn];
        AppendAssoc(before, CallsFrom(b, pressedCount, 0), [Syn]);
      } else {
        if wasPressed {
          wasPressed := false;
          calls := calls + [Emit(EvSyn, SynMtReport, 0)];
          calls := calls + [Syn];
        }
      }
    }

    /** The read/decode/emit loop of a session, from the point where the
        virtual device has been created; `stream` is everything the device
        node delivers before a read comes back short. */
    method DeviceLoop(stream: seq<byte>)
      requires Valid()
      modifies this, buffer
      ensures calls == old(calls) + LoopCalls(stream)
    {
      wasPressed := false;
      var pos: nat := 0;
      while true
        invariant Valid() && pos <= |stream|
        invariant old(calls) + StreamStep(false, Reports(stream)).calls ==
                  calls + StreamStep(wasPressed, Reports(stream[pos..])).calls
        decreases |stream| - pos
      {
        var n := Fread(stream, pos);
        if n != MessageLength {
          ShortRestHasNoReport(stream, pos);
          ghost var body := calls;
          calls := calls + [Destroy];
          calls := calls + [Close];
          TeardownAppends(old(calls), StreamStep(false, Reports(stream)).calls, body);
          break;
        }
        assert buffer[..] == stream[pos..pos + MessageLength] by { assert buffer[..] == buffer[..n]; }
        NextReport(wasPressed, stream, pos);
        ghost var step := ReportStep(wasPressed, buffer[..]);
        AppendAssoc(calls, step.calls, StreamStep(step.wasPressed, Reports(stream[pos + MessageLength..])).calls);
        pos := pos + n;
        DecodeReport();
      }
    }
  }

  /** Fewer than 25 bytes left: no further report. */
  lemma ShortRestHasNoReport(stream: seq<byte>, pos: nat)
    requires pos <= |stream| && |stream| - pos < MessageLength
    ensures Reports(stream[pos..]) == []
  {
  }

  /** A full read at pos: the first remaining report is the 25 bytes read,
      and what the rest of the stream does follows from the state it leaves. */
  lemma NextReport(wasPressed: bool, stream: seq<byte>, pos: nat)
    requires pos + MessageLength <= |stream|
    ensures var step := ReportStep(wasPressed, stream[pos..pos + MessageLength]);
            StreamStep(wasPressed, Reports(stream[pos..])).calls ==
            step.calls + StreamStep(step.wasPressed, Reports(stream[pos + MessageLength..])).calls
  {
    var rest := stream[pos..];
    assert rest[..MessageLength] == stream[pos..pos + MessageLength];
    assert rest[MessageLength..] == stream[pos + MessageLength..];
  }

  lemma TeardownAppends(before: seq<Call>, body: seq<Call>, current: seq<Call>)
    requires before + body == current + []
    ensures current + [Destroy] + [Close] == before + (body + [Destroy, Close])
  {
    AppendAssoc(before, body, [Destroy, Close]);
  }

  lemma UnfoldCalls(buffer: seq<byte>, pressedCount: nat)
    requires |buffer| == MessageLength
    ensures CallsFrom(buffer, pressedCount, 0) ==
      SlotCalls(buffer, pressedCount, 0) + SlotCalls(buffer, pressedCount, 1) + SlotCalls(buffer, pressedCount, 2)
      + SlotCalls(buffer, pressedCount, 3) + SlotCalls(buffer, pressedCount, 4)
  {
    var s0, s1, s2 := SlotCalls(buffer, pressedCount, 0), SlotCalls(buffer, pressedCount, 1), SlotCalls(buffer, pressedCount, 2);
    var s3, s4 := SlotCalls(buffer, pressedCount, 3), SlotCalls(buffer, pressedCount, 4);
    assert CallsFrom(buffer, pressedCount, 5) == [];
    assert CallsFrom(buffer, pressedCount, 4) == s4;
    assert CallsFrom(buffer, pressedCount, 3) == s3 + s4;
    AppendAssoc(s2, s3, s4);
    assert CallsFrom(buffer, pressedCount, 2) == s2 + s3 + s4;
    AppendAssoc(s1, s2 + s3, s4);
    AppendAssoc(s1, s2, s3);
    assert CallsFrom(buffer, pressedCount, 1) == s1 + s2 + s3 + s4;
    AppendAssoc(s0, s1 + s2 + s3, s4);
    AppendAssoc(s0, s1 + s2, s3);
    AppendAssoc(s0, s1, s2);
  }
}
