/**
 * The event cycle of the application (main.c): at boot the FRAM record is
 * loaded, the payload built and the first advertisement submitted at once;
 * a periodic timer then stamps the frame's repeat counter and submits one
 * advertisement per tick until the event's maximum is passed, after which
 * the next event is scheduled (the payload rebuilt and the timer restarted)
 * or, with no sleep between events, the remaining energy is burnt.
 *
 * Timer periods and delays are not modelled: a tick is one call of the
 * handler, and `fuel` bounds how many ticks are looked at. Submitting an
 * advertisement is recorded as the repeat counter the frame carried.
 */
module EventCycle {
  import opened MachineInt
  import opened FramLayout
  import opened FramRecord
  import opened FramStore
  import opened ConfigCommands
  import opened Payload
  import opened ManufData

  /** What the handler leaves behind: the timer still running, the next
      event scheduled after `delay` milliseconds, or the energy burnt. */
  datatype After = Running | Reschedule(delay: uint16) | Burn

  /** What a burst ends with when the timer stops. */
  function Stop(sleepBetween: uint16): (a: After)
    ensures a != Running
    ensures a.Reschedule? <==> sleepBetween != 0
  {
    if sleepBetween != 0 then Reschedule(sleepBetween) else Burn
  }

  datatype TickResult = TickResult(counter: uint8, frame: seq<uint8>, submitted: bool, after: After)

  /** timer_event_handler. The uint8 repeat counter is raised, wrapping at
      256; while it does not exceed the event's maximum it is stamped into
      the frame and one advertisement is submitted. Otherwise the counter
      goes back to 1, the timer stops, and the burst ends. Only the frame's
      repeat byte ever changes. */
  function Tick(counter: uint8, frame: seq<uint8>, maxPackets: uint16, sleepBetween: uint16): (r: TickResult)
    requires |frame| == FrameLength
    ensures |r.frame| == FrameLength
    ensures SameOutside(frame, r.frame, RepeatIndex, 1)
    ensures r.submitted <==> U8(counter + 1) <= maxPackets
    ensures r.submitted ==> r.counter == U8(counter + 1) && r.frame[RepeatIndex] == r.counter && r.after == Running
    ensures !r.submitted ==> r.counter == RepeatDefault && r.frame == frame && r.after == Stop(sleepBetween)
  {
    var c := U8(counter + 1);
    if c <= maxPackets then TickResult(c, Splice(frame, RepeatIndex, [c]), true, Running)
    else
      assert SameOutside(frame, frame, RepeatIndex, 1);
      TickResult(RepeatDefault, frame, false, Stop(sleepBetween))
  }

  /** The ticks of one burst: the repeat counters submitted, and the state
      the burst leaves. */
  datatype Burst = Burst(stamps: seq<uint8>, counter: uint8, frame: seq<uint8>, after: After)

  /** Ticks from `counter` on, until the timer stops or `fuel` ticks have
      passed. The frame's repeat byte is the only byte any tick changes. */
  function RunTicks(counter: uint8, frame: seq<uint8>, maxPackets: uint16, sleepBetween: uint16, fuel: nat): (r: Burst)
    requires |frame| == FrameLength
    ensures |r.frame| == FrameLength
    ensures SameOutside(frame, r.frame, RepeatIndex, 1)
    ensures |r.stamps| <= fuel
    decreases fuel
  {
    if fuel == 0 then
      assert SameOutside(frame, frame, RepeatIndex, 1);
      Burst([], counter, frame, Running)
    else
      var t := Tick(counter, frame, maxPackets, sleepBetween);
      if !t.submitted then Burst([], t.counter, t.frame, t.after)
      else
        var rest := RunTicks(t.counter, t.frame, maxPackets, sleepBetween, fuel - 1);
        Burst([t.counter] + rest.stamps, rest.counter, rest.frame, rest.after)
  }

  /** The repeat counters lo, lo + 1, ..., hi; none when lo > hi. */
  function Stamps(lo: nat, hi: nat): (s: seq<uint8>)
    requires hi <= 0xFF
    ensures |s| == if lo <= hi then hi - lo + 1 else 0
    ensures forall i :: 0 <= i < |s| ==> s[i] == lo + i
    decreases hi + 1 - lo
  {
    if lo > hi then [] else [lo as uint8] + Stamps(lo + 1, hi)
  }

  /** With a maximum of at most 254 a burst ends: from counter c it submits
      c + 1, ..., max and then stops, with the counter back at 1 and the
      frame's repeat byte at the last stamp. */
  lemma {:induction false} BurstStops(counter: uint8, frame: seq<uint8>, maxPackets: uint16, sleepBetween: uint16, fuel: nat)
    requires |frame| == FrameLength
    requires counter <= 254 && maxPackets <= 254
    requires fuel >= 1 && fuel > maxPackets - counter
    ensures var r := RunTicks(counter, frame, maxPackets, sleepBetween, fuel);
            r.stamps == Stamps(counter + 1, maxPackets) && r.counter == RepeatDefault &&
            r.after == Stop(sleepBetween) &&
            (counter < maxPackets ==> r.frame[RepeatIndex] == maxPackets) &&
            (counter >= maxPackets ==> r.frame == frame)
    decreases fuel
  {
    var t := Tick(counter, frame, maxPackets, sleepBetween);
    assert U8(counter + 1) == counter + 1;
    if counter < maxPackets {
      var rest := RunTicks(t.counter, t.frame, maxPackets, sleepBetween, fuel - 1);
      BurstStops(t.counter, t.frame, maxPackets, sleepBetween, fuel - 1);
      if counter + 1 == maxPackets {
        assert rest.frame == t.frame;
      }
    }
  }

  /** With a maximum of 255 or more the uint8 counter can never exceed it:
      every tick submits, the counter wraps from 255 to 0, and the timer
      never stops. */
  lemma {:induction false} BurstNeverStops(counter: uint8, frame: seq<uint8>, maxPackets: uint16, sleepBetween: uint16, fuel: nat)
    requires |frame| == FrameLength && maxPackets >= 0xFF
    ensures var r := RunTicks(counter, frame, maxPackets, sleepBetween, fuel);
            |r.stamps| == fuel && r.after == Running &&
            forall i :: 0 <= i < fuel ==> r.stamps[i] == U8(counter + 1 + i)
    decreases fuel
  {
    if fuel > 0 {
      var t := Tick(counter, frame, maxPackets, sleepBetween);
      var r := RunTicks(counter, frame, maxPackets, sleepBetween, fuel);
      var rest := RunTicks(t.counter, t.frame, maxPackets, sleepBetween, fuel - 1);
      BurstNeverStops(t.counter, t.frame, maxPackets, sleepBetween, fuel - 1);
      assert r.stamps == [t.counter] + rest.stamps;
      forall i | 1 <= i < fuel
        ensures r.stamps[i] == U8(counter + 1 + i)
      {
        assert r.stamps[i] == rest.stamps[i - 1];
        WrapAdd(counter + 1, i);
      }
    }
  }

  /** Wrapping to 8 bits before an addition or after it comes to the same. */
  lemma WrapAdd(a: int, i: int)
    ensures U8(U8(a) + i) == U8(a + i)
  {
    ModCongruent(U8(a) + i, a + i, 0x100);
  }

  /** A burst from 254 with no maximum submits 255 and then 0: the counter
      wraps. */
  lemma CounterWraps(frame: seq<uint8>, sleepBetween: uint16)
    requires |frame| == FrameLength
    ensures RunTicks(254, frame, 0xFFFF, sleepBetween, 2).stamps == [255, 0]
  {
    BurstNeverStops(254, frame, 0xFFFF, sleepBetween, 2);
  }

  // ---------------------------------------------------------------------
  // Events

  datatype EventResult = EventResult(beacon: Beacon, packets: seq<uint8>, after: After)

  /** One event as the end of main runs it, and as
      update_frame_work_fn is meant to: the payload is built, the timer
      started and the first advertisement submitted at once with repeat
      counter 1; the ticks then carry on. The record, the FRAM and the block
      are the ones the build left, and of the frame only the repeat byte
      moves during the burst. */
  function Event(b: Beacon, polarity: uint8, s: Sensors, aes: Cipher, counterBus: Bus, fuel: nat): (e: EventResult)
    requires BeaconShape(b) && SensorsShape(s) && CipherShape(aes)
    ensures var u := UpdateManufactureData(b, polarity, s, aes, counterBus);
            BeaconShape(e.beacon) && e.beacon.ram == u.ram && e.beacon.mem == u.mem && e.beacon.block == u.block &&
            SameOutside(u.frame, e.beacon.frame, RepeatIndex, 1) &&
            |e.packets| >= 1 && e.packets[0] == RepeatDefault
  {
    var u := UpdateManufactureData(b, polarity, s, aes, counterBus);
    UpdateOutcome(b, polarity, s, aes, counterBus);
    var run := RunTicks(u.repeat, u.frame, u.ram.eventMaxPackets, u.ram.sleepBetweenEvents, fuel);
    EventResult(u.(repeat := run.counter, frame := run.frame), [u.frame[RepeatIndex]] + run.stamps, run.after)
  }

  /** update_frame_work_fn as written: the payload is rebuilt and the timer
      started, but no advertisement goes out before the first tick. */
  function RescheduledEventAsWritten(b: Beacon, polarity: uint8, s: Sensors, aes: Cipher, counterBus: Bus, fuel: nat): (e: EventResult)
    requires BeaconShape(b) && SensorsShape(s) && CipherShape(aes)
    ensures var u := UpdateManufactureData(b, polarity, s, aes, counterBus);
            BeaconShape(e.beacon) && e.beacon.ram == u.ram && e.beacon.mem == u.mem &&
            SameOutside(u.frame, e.beacon.frame, RepeatIndex, 1)
  {
    var u := UpdateManufactureData(b, polarity, s, aes, counterBus);
    var run := RunTicks(u.repeat, u.frame, u.ram.eventMaxPackets, u.ram.sleepBetweenEvents, fuel);
    EventResult(u.(repeat := run.counter, frame := run.frame), run.stamps, run.after)
  }

  /** An event with a maximum from 1 to 254 submits exactly that many
      advertisements, stamped 1 to max, and then schedules the next event or
      burns; a maximum of 0 still sends the one submitted at once. The event
      counter goes up by exactly one whatever the number of packets. */
  lemma EventSendsMax(b: Beacon, polarity: uint8, s: Sensors, aes: Cipher, counterBus: Bus, fuel: nat)
    requires BeaconShape(b) && SensorsShape(s) && CipherShape(aes)
    requires b.ram.eventMaxPackets <= 254 && fuel >= 1 && fuel >= b.ram.eventMaxPackets
    ensures var e := Event(b, polarity, s, aes, counterBus, fuel);
            e.beacon.ram.eventCounter == U32(b.ram.eventCounter + 1) &&
            e.after == Stop(b.ram.sleepBetweenEvents) && e.beacon.repeat == RepeatDefault &&
            (b.ram.eventMaxPackets >= 1 ==> e.packets == Stamps(1, b.ram.eventMaxPackets) && |e.packets| == b.ram.eventMaxPackets) &&
            (b.ram.eventMaxPackets == 0 ==> e.packets == [RepeatDefault])
  {
    var u := UpdateManufactureData(b, polarity, s, aes, counterBus);
    EventParts(b, polarity, s, aes, counterBus, fuel);
    UpdateOutcome(b, polarity, s, aes, counterBus);
    BurstStops(u.repeat, u.frame, u.ram.eventMaxPackets, u.ram.sleepBetweenEvents, fuel);
  }

  /** An event is the payload build followed by the burst of ticks. */
  lemma EventParts(b: Beacon, polarity: uint8, s: Sensors, aes: Cipher, counterBus: Bus, fuel: nat)
    requires BeaconShape(b) && SensorsShape(s) && CipherShape(aes)
    ensures var u := UpdateManufactureData(b, polarity, s, aes, counterBus);
            var run := RunTicks(u.repeat, u.frame, u.ram.eventMaxPackets, u.ram.sleepBetweenEvents, fuel);
            Event(b, polarity, s, aes, counterBus, fuel) ==
              EventResult(u.(repeat := run.counter, frame := run.frame), [u.frame[RepeatIndex]] + run.stamps, run.after)
  {
  }

  /** The burst of a rescheduled event as written sends one advertisement
      fewer than the maximum, stamped 2 to max: with a maximum of 1 it sends
      none, though the handler's comment says one. */
  lemma RescheduledEventSendsOneFewer(b: Beacon, polarity: uint8, s: Sensors, aes: Cipher, counterBus: Bus, fuel: nat)
    requires BeaconShape(b) && SensorsShape(s) && CipherShape(aes)
    requires 1 <= b.ram.eventMaxPackets <= 254 && fuel >= b.ram.eventMaxPackets
    ensures var e := RescheduledEventAsWritten(b, polarity, s, aes, counterBus, fuel);
            e.packets == Stamps(2, b.ram.eventMaxPackets) && |e.packets| == b.ram.eventMaxPackets - 1 &&
            (b.ram.eventMaxPackets == 1 ==> e.packets == [])
  {
    var u := UpdateManufactureData(b, polarity, s, aes, counterBus);
    RescheduledEventParts(b, polarity, s, aes, counterBus, fuel);
    UpdateOutcome(b, polarity, s, aes, counterBus);
    BurstStops(u.repeat, u.frame, u.ram.eventMaxPackets, u.ram.sleepBetweenEvents, fuel);
  }

  /** A rescheduled event as written is the payload build followed by the
      burst of ticks, with nothing submitted in between. */
  lemma RescheduledEventParts(b: Beacon, polarity: uint8, s: Sensors, aes: Cipher, counterBus: Bus, fuel: nat)
    requires BeaconShape(b) && SensorsShape(s) && CipherShape(aes)
    ensures var u := UpdateManufactureData(b, polarity, s, aes, counterBus);
            var run := RunTicks(u.repeat, u.frame, u.ram.eventMaxPackets, u.ram.sleepBetweenEvents, fuel);
            RescheduledEventAsWritten(b, polarity, s, aes, counterBus, fuel) ==
              EventResult(u.(repeat := run.counter, frame := run.frame), run.stamps, run.after)
  {
  }

  /** With a maximum of 255 or more an event never ends: every tick sends. */
  lemma EventNeverEnds(b: Beacon, polarity: uint8, s: Sensors, aes: Cipher, counterBus: Bus, fuel: nat)
    requires BeaconShape(b) && SensorsShape(s) && CipherShape(aes)
    requires b.ram.eventMaxPackets >= 0xFF
    ensures var e := Event(b, polarity, s, aes, counterBus, fuel);
            e.after == Running && |e.packets| == fuel + 1
  {
    var u := UpdateManufactureData(b, polarity, s, aes, counterBus);
    BurstNeverStops(u.repeat, u.frame, u.ram.eventMaxPackets, u.ram.sleepBetweenEvents, fuel);
  }

  // ---------------------------------------------------------------------
  // main

  /** What main sees: the mode comparator, the UART, the FRAM bulk read's
      bus outcome, the polarity comparator, and what the first event sees. */
  datatype BootInputs = BootInputs(configMode: bool, uartOk: bool, dumpBus: Bus, polarity: uint8,
                                   sensors: Sensors, aes: Cipher, counterBus: Bus)

  ghost predicate BootShape(b: Beacon, key: seq<uint8>, i: BootInputs)
  {
    BeaconShape(b) && |key| == Width(EncryptedKey) && SensorsShape(i.sensors) && CipherShape(i.aes)
  }

  /** What main leaves: the beacon, the AES key, the polarity byte, whether
      energy was burnt, whether the payload was built and the timer started,
      and the advertisements submitted at once. */
  datatype BootResult = BootResult(beacon: Beacon, key: seq<uint8>, polarity: uint8, burned: bool, started: bool,
                                   packets: seq<uint8>)

  /** main. In configuration mode the UART command line is started and the
      FRAM record loaded, and nothing else happens. Otherwise the record is
      loaded; on success the polarity is read and the key copied, on failure
      the event counter is set to 0 and the energy burnt, and in both cases
      the payload is built, the timer started and the first advertisement
      submitted. `key` is the key before main runs; the polarity byte starts
      at 0. `layout` is the RAM record's layout the bulk read fills: the
      firmware's padded struct (`CStruct`) or the packed image. */
  function MainBoot(b: Beacon, key: seq<uint8>, i: BootInputs, layout: Placement): (r: BootResult)
    requires BootShape(b, key, i)
    ensures BeaconShape(r.beacon) && |r.key| == Width(EncryptedKey)
    ensures r.started <==> !i.configMode
  {
    if i.configMode then
      var ram := if i.uartOk then Dump(b.mem, b.ram, i.dumpBus, layout) else b.ram;
      assert i.dumpBus.ready && i.dumpBus.transferOk ==> i.dumpBus == BusOk;
      BootResult(b.(ram := ram), key, 0, false, false, [])
    else
      var ok := i.dumpBus.ready && i.dumpBus.transferOk;
      assert ok ==> i.dumpBus == BusOk;
      var dumped := Dump(b.mem, b.ram, i.dumpBus, layout);
      var ram := if ok then dumped else dumped.(eventCounter := 0);
      var polarity: uint8 := if ok then i.polarity else 0;
      var newKey := if ok then ram.encryptedKey else key;
      var u := UpdateManufactureData(b.(ram := ram), polarity, i.sensors, i.aes, i.counterBus);
      BootResult(u, newKey, polarity, !ok, true, [u.frame[RepeatIndex]])
  }

  /** Configuration mode never starts the timer, the radio or a payload
      build: the block, the frame and the FRAM are untouched. */
  lemma ConfigModeStartsNothing(b: Beacon, key: seq<uint8>, i: BootInputs, layout: Placement)
    requires BootShape(b, key, i) && i.configMode
    ensures var r := MainBoot(b, key, i, layout);
            !r.started && !r.burned && r.packets == [] &&
            r.beacon.block == b.block && r.beacon.frame == b.frame && r.beacon.mem == b.mem && r.key == key
  {
  }

  /** A FRAM record that loads: its key is copied, the measured polarity is
      kept, the stored counter goes up by one, and one advertisement with
      repeat counter 1 goes out. The RAM copy is what the layout loads of the
      record: with the firmware's struct, its polarity counters come from the
      bytes two past their fields. */
  lemma BootWithRecord(b: Beacon, key: seq<uint8>, i: BootInputs, layout: Placement, d: FramData)
    requires BootShape(b, key, i) && !i.configMode && i.dumpBus == BusOk
    requires WellFormed(d) && b.mem[..LayoutSize] == Encode(d)
    ensures var r := MainBoot(b, key, i, layout);
            r.started && !r.burned && r.key == d.encryptedKey && r.polarity == i.polarity &&
            r.beacon.ram == Loaded(d, b.mem, layout).(eventCounter := U32(d.eventCounter + 1)) &&
            r.packets == [RepeatDefault]
  {
    DumpLoads(b.mem, b.ram, d, layout);
    BootLoaded(b, key, i, layout, d);
  }

  /** The success path of main, for a dump that loads what `d` loads. */
  lemma BootLoaded(b: Beacon, key: seq<uint8>, i: BootInputs, layout: Placement, d: FramData)
    requires BootShape(b, key, i) && !i.configMode && i.dumpBus == BusOk
    requires WellFormed(d) && Dump(b.mem, b.ram, BusOk, layout) == Loaded(d, b.mem, layout)
    ensures var r := MainBoot(b, key, i, layout);
            r.started && !r.burned && r.key == d.encryptedKey && r.polarity == i.polarity &&
            r.beacon.ram == Loaded(d, b.mem, layout).(eventCounter := U32(d.eventCounter + 1)) &&
            r.packets == [RepeatDefault]
  {
    var e := Loaded(d, b.mem, layout);
    var be := b.(ram := e);
    var u := UpdateManufactureData(be, i.polarity, i.sensors, i.aes, i.counterBus);
    UpdateOutcome(be, i.polarity, i.sensors, i.aes, i.counterBus);
    assert MainBoot(b, key, i, layout) == BootResult(u, e.encryptedKey, i.polarity, false, true, [u.frame[RepeatIndex]]);
  }

  /** What one payload update leaves: the RAM record with its counter
      raised, the raised count in the FRAM when the write goes through, and
      a frame whose repeat counter is the default. */
  lemma UpdateOutcome(b: Beacon, polarity: uint8, s: Sensors, aes: Cipher, counterBus: Bus)
    requires BeaconShape(b) && SensorsShape(s) && CipherShape(aes)
    ensures var u := UpdateManufactureData(b, polarity, s, aes, counterBus);
            u.ram == b.ram.(eventCounter := U32(b.ram.eventCounter + 1)) &&
            (counterBus.ready && counterBus.transferOk ==> StoredCounter(u.mem) == u.ram.eventCounter) &&
            u.frame[RepeatIndex] == RepeatDefault
  {
    BuildParse(UpdateManufactureData(b, polarity, s, aes, counterBus).frame);
  }

  /** A FRAM record that fails to load: the energy is burnt and the key and
      polarity are left alone, yet the payload is still built and one
      advertisement with repeat counter 1 goes out. */
  lemma BootWithoutRecord(b: Beacon, key: seq<uint8>, i: BootInputs, layout: Placement)
    requires BootShape(b, key, i) && !i.configMode && !(i.dumpBus.ready && i.dumpBus.transferOk)
    ensures var r := MainBoot(b, key, i, layout);
            r.started && r.burned && r.key == key && r.polarity == 0 && r.packets == [RepeatDefault]
  {
    BootWithoutRecordRuns(b, key, i, layout);
    UpdateOutcome(b.(ram := b.ram.(eventCounter := 0)), 0, i.sensors, i.aes, i.counterBus);
  }

  /** After a failed load the payload is built from the RAM record with its
      counter restarted, so the counter becomes 1 and, if the counter write
      goes through, the FRAM's stored count is overwritten with 1. */
  lemma BootWithoutRecordCounter(b: Beacon, key: seq<uint8>, i: BootInputs, layout: Placement)
    requires BootShape(b, key, i) && !i.configMode && !(i.dumpBus.ready && i.dumpBus.transferOk)
    ensures var r := MainBoot(b, key, i, layout);
            r.beacon.ram.eventCounter == 1 &&
            (i.counterBus.ready && i.counterBus.transferOk ==> StoredCounter(r.beacon.mem) == 1)
  {
    BootWithoutRecordRuns(b, key, i, layout);
    BootRestarted(b, key, i, layout, b.(ram := b.ram.(eventCounter := 0)));
  }

  /** The failure path of main, for a payload built from a record whose
      counter was restarted. */
  lemma BootRestarted(b: Beacon, key: seq<uint8>, i: BootInputs, layout: Placement, restarted: Beacon)
    requires BootShape(b, key, i) && !i.configMode && !(i.dumpBus.ready && i.dumpBus.transferOk)
    requires BeaconShape(restarted) && restarted.ram.eventCounter == 0
    requires MainBoot(b, key, i, layout).beacon == UpdateManufactureData(restarted, 0, i.sensors, i.aes, i.counterBus)
    ensures var r := MainBoot(b, key, i, layout);
            r.beacon.ram.eventCounter == 1 &&
            (i.counterBus.ready && i.counterBus.transferOk ==> StoredCounter(r.beacon.mem) == 1)
  {
    RestartedUpdate(restarted, i);
  }

  /** The failure path of main, step by step. */
  lemma BootWithoutRecordRuns(b: Beacon, key: seq<uint8>, i: BootInputs, layout: Placement)
    requires BootShape(b, key, i) && !i.configMode && !(i.dumpBus.ready && i.dumpBus.transferOk)
    ensures var u := UpdateManufactureData(b.(ram := b.ram.(eventCounter := 0)), 0, i.sensors, i.aes, i.counterBus);
            MainBoot(b, key, i, layout) == BootResult(u, key, 0, true, true, [u.frame[RepeatIndex]])
  {
    assert Dump(b.mem, b.ram, i.dumpBus, layout) == b.ram;
  }

  /** A payload update from a record whose counter was restarted at 0
      leaves 1 in RAM, writes 1 when the counter write goes through, and
      stamps repeat counter 1. */
  lemma RestartedUpdate(b: Beacon, i: BootInputs)
    requires BeaconShape(b) && SensorsShape(i.sensors) && CipherShape(i.aes) && b.ram.eventCounter == 0
    ensures var u := UpdateManufactureData(b, 0, i.sensors, i.aes, i.counterBus);
            u.ram.eventCounter == 1 && u.frame[RepeatIndex] == RepeatDefault &&
            (i.counterBus.ready && i.counterBus.transferOk ==> StoredCounter(u.mem) == 1)
  {
    RaisedFromZero(b.ram.eventCounter);
    UpdateOutcome(b, 0, i.sensors, i.aes, i.counterBus);
  }

  /** A restarted counter raised once is 1. */
  lemma RaisedFromZero(c: uint32)
    requires c == 0
    ensures U32(c + 1) == 1
  {
  }
}
