/**
 * Building the advertising payload once per event (`update_manufacture_data`
 * and `measure_sensor_data`): the type-dependent block bytes, the event
 * counter raised and written back to the FRAM, the type, counter and id
 * stamped into the block, then the frame's repeat counter, cipher bytes,
 * status byte and id bytes.
 *
 * The firmware keeps the RAM copy of the FRAM record, the FRAM, the block,
 * the frame and the repeat counter in globals; here they are the fields of a
 * `Beacon` and each call returns the next one. The accelerometer's bus
 * behaviour, the comparator's polarity byte, the cipher and the FRAM write's
 * bus outcome are parameters.
 */
module ManufData {
  import opened Optional
  import opened MachineInt
  import opened FramLayout
  import opened FramRecord
  import opened FramStore
  import opened DataReady
  import opened Accel
  import opened Payload

  /** DATA_TYPE_SENSOR_DATA_0 .. _2 are the types up to this one. */
  const SensorDataMax: uint8 := 2
  const PolarityAndName9: uint8 := 3
  const Name10: uint8 := 4

  // ---------------------------------------------------------------------
  // measure_sensor_data

  /** What the accelerometer's bus does during one read, and the DRDY
      timeout test the driver applies (the firmware's is AsWritten). */
  datatype Sensors = Sensors(test: TimeoutTest, busy: nat -> bool, deviceReady: bool, read: Option<seq<uint8>>)

  predicate SensorsShape(s: Sensors)
  {
    s.read.Some? ==> |s.read.value| == Accel.ReadSize
  }

  /** The axes measure_sensor_data reports: app_accel_read's output when it
      starts from the missing value on all three axes. A failed read reports
      all three missing; a successful one reports none missing. */
  function MeasuredAxes(s: Sensors): (d: AccelData)
    requires SensorsShape(s)
    ensures AccelRead(s.test, s.busy, s.deviceReady, s.read, MissingAxes).status != AccelSuccess ==> d == MissingAxes
    ensures AccelRead(s.test, s.busy, s.deviceReady, s.read, MissingAxes).status == AccelSuccess ==>
              d.x != Missing && d.y != Missing && d.z != Missing
  {
    AccelRead(s.test, s.busy, s.deviceReady, s.read, MissingAxes).data
  }

  /** Three axes as the block stores them: little-endian int16, x first. */
  function AxesBytes(d: AccelData): (bs: seq<uint8>)
    ensures |bs| == 6
  {
    LeBytes(d.x, 2) + LeBytes(d.y, 2) + LeBytes(d.z, 2)
  }

  /** measure_sensor_data: the three accelerometer members of the block get
      the measured axes, and nothing else in the block changes; in
      particular the temperature and pressure members are not written. */
  function MeasureSensorData(block: seq<uint8>, s: Sensors): (r: seq<uint8>)
    requires |block| == DataSize && SensorsShape(s)
    ensures |r| == DataSize
    ensures SameOutside(block, r, BlockOffset(AccelX), 6)
    ensures r[BlockOffset(AccelX)..BlockOffset(TempValue)] == AxesBytes(MeasuredAxes(s))
    ensures var d := BlockFields(r);
            d.accelX == MeasuredAxes(s).x && d.accelY == MeasuredAxes(s).y && d.accelZ == MeasuredAxes(s).z
  {
    AxesSpliced(block, MeasuredAxes(s));
    Splice(block, 4, AxesBytes(MeasuredAxes(s)))
  }

  /** Splicing three axes into the block puts them, and only them, where
      the block's accelerometer members are decoded from. */
  lemma AxesSpliced(block: seq<uint8>, axes: AccelData)
    requires |block| == DataSize
    ensures var r := Splice(block, 4, AxesBytes(axes));
            |r| == DataSize && SameOutside(block, r, BlockOffset(AccelX), 6) &&
            r[BlockOffset(AccelX)..BlockOffset(TempValue)] == AxesBytes(axes) &&
            BlockFields(r).accelX == axes.x && BlockFields(r).accelY == axes.y && BlockFields(r).accelZ == axes.z
  {
    var r := Splice(block, 4, AxesBytes(axes));
    assert r[4..6] == LeBytes(axes.x, 2) && r[6..8] == LeBytes(axes.y, 2) && r[8..10] == LeBytes(axes.z, 2);
    I16RoundTrip(axes.x);
    I16RoundTrip(axes.y);
    I16RoundTrip(axes.z);
  }

  /** After a measurement the block reports either three decoded axes or
      three missing ones: a failed read never leaves an axis from an earlier
      event in place. */
  lemma MeasureReportsFailure(block: seq<uint8>, s: Sensors)
    requires |block| == DataSize && SensorsShape(s)
    ensures var d := BlockFields(MeasureSensorData(block, s));
            var ok := AccelRead(s.test, s.busy, s.deviceReady, s.read, MissingAxes).status == AccelSuccess;
            (!ok ==> d.accelX == Missing && d.accelY == Missing && d.accelZ == Missing) &&
            (ok ==> d.accelX != Missing && d.accelY != Missing && d.accelZ != Missing)
  {
  }

  // ---------------------------------------------------------------------
  // update_manufacture_data

  /** The switch on the FRAM type: block bytes 4..13 get the sensor data
      (types 0-2), the polarity byte and nine name bytes (type 3), or ten
      name bytes (type 4); any other type leaves them as they were. */
  function TypeBytes(block: seq<uint8>, dataType: uint8, polarity: uint8, name: seq<uint8>, s: Sensors): (r: seq<uint8>)
    requires |block| == DataSize && |name| == Width(Name) && SensorsShape(s)
    ensures |r| == DataSize
    ensures SameOutside(block, r, 4, 10)
    ensures dataType <= SensorDataMax ==>
              r[4..10] == AxesBytes(MeasuredAxes(s)) && r[10..14] == block[10..14]
    ensures dataType == PolarityAndName9 ==> r[4] == polarity && r[5..14] == name[..9]
    ensures dataType == Name10 ==> r[4..14] == name
    ensures dataType > Name10 ==> r == block
  {
    if dataType <= SensorDataMax then
      var r := MeasureSensorData(block, s);
      SameOutsideCompose(block, r, r, 4, 6, 4);
      SliceOutside(block, r, 4, 6, 10, 14);
      r
    else if dataType == PolarityAndName9 then
      var r := Splice(block, 4, [polarity] + name[..9]);
      assert r[5..14] == r[4..14][1..];
      r
    else if dataType == Name10 then Splice(block, 4, name)
    else
      assert SameOutside(block, block, 4, 10);
      block
  }

  /** `(x & (256^(k+1) - 1)) >> 8k` for a non-negative x: byte k of x. */
  lemma MaskShiftByte(x: nat, k: nat)
    ensures (x % Pow256(k + 1)) / Pow256(k) == (x / Pow256(k)) % 0x100
  {
    var p := Pow256(k);
    var q, r := x / p, x % p;
    var a, b := q / 0x100, q % 0x100;
    SplitProduct(p, q, a, b);
    DivModUnique(x, 0x100 * p, a, p * b + r);
    DivModUnique(p * b + r, p, b, r);
  }

  /** p * (256a + b) regrouped, with the low part below 256p. */
  lemma SplitProduct(p: nat, q: nat, a: nat, b: nat)
    requires p >= 1 && q == 0x100 * a + b && b < 0x100
    ensures p * q == (0x100 * p) * a + p * b
    ensures p * b <= (0x100 * p) - p
  {
    assert p * (0x100 * a + b) == p * (0x100 * a) + p * b;
    assert p * b <= p * 0xFF;
  }

  /** The three event-counter bytes as update_manufacture_data extracts
      them, by mask and shift: the counter's low 24 bits, least significant first. */
  function CounterBytesOf(counter: uint32): (bs: seq<uint8>)
    ensures bs == LeBytes(counter, CounterBytes)
    ensures LeValue(bs) == counter % 0x100_0000
  {
    var bs := [U8(counter % 0x100), U8((counter % 0x1_0000) / 0x100), U8((counter % 0x100_0000) / 0x1_0000)];
    Pow256Values();
    CounterByte(counter, 0);
    CounterByte(counter, 1);
    CounterByte(counter, 2);
    LeValueOfBytes(counter, 3);
    bs
  }

  /** Masking out byte k of the counter and shifting it down gives byte k
      of its little-endian store. */
  lemma CounterByte(counter: uint32, k: nat)
    requires k < CounterBytes
    ensures U8((counter % Pow256(k + 1)) / Pow256(k)) == LeBytes(counter, CounterBytes)[k]
  {
    MaskShiftByte(counter, k);
    LeBytesDigit(counter, CounterBytes, k);
  }

  /** The stamp: the type at byte 0, the counter's low three bytes at
      1..3 and the serial number's low 16 bits at 14..15. Bytes 4..13 are
      kept, so the type-dependent bytes written before survive. */
  function StampBlock(block: seq<uint8>, dataType: uint8, counter: uint32, serial: uint32): (r: seq<uint8>)
    requires |block| == DataSize
    ensures |r| == DataSize
    ensures r[4..14] == block[4..14]
    ensures BlockFields(r).dataType == dataType
    ensures BlockFields(r).counter24 == LeBytes(counter, CounterBytes)
    ensures LeValue(BlockFields(r).counter24) == counter % 0x100_0000
    ensures BlockFields(r).id == serial % 0x1_0000
  {
    var id := serial % 0x1_0000;
    var r := [dataType] + CounterBytesOf(counter) + block[4..14] + LeBytes(id, 2);
    assert r[1..4] == CounterBytesOf(counter);
    assert r[14..16] == LeBytes(id, 2);
    assert r[4..14] == block[4..14];
    LeRoundTrip(id, 2);
    r
  }

  /** The byte the code copies from: the data part when the cipher
      succeeded, the clear block when it failed. */
  function Sealed(block: seq<uint8>, result: Option<seq<uint8>>): seq<uint8>
  {
    match result
    case Some(cipher) => cipher
    case None => block
  }

  function SealStatus(result: Option<seq<uint8>>): uint8
  {
    if result.Some? then StatusEncrypted else StatusClear
  }

  /** The seal: the repeat counter is reset to 1 in the frame, the block
      goes through encrypt_data, and the result and the serial number's low
      two bytes are copied in. A receiver's split of the frame finds the
      company bytes unchanged, the sealed block, the serial number's low 16
      bits, the status and a repeat counter of 1. */
  function SealFrame(frame: seq<uint8>, block: seq<uint8>, result: Option<seq<uint8>>, serial: uint32): (f: seq<uint8>)
    requires |frame| == FrameLength && |block| == DataSize
    requires result.Some? ==> |result.value| == DataSize
    ensures |f| == FrameLength
    ensures ParseFrame(f) ==
              FrameView(frame[..DataStart], Sealed(block, result), serial % 0x1_0000, SealStatus(result), RepeatDefault)
  {
    var stamped := Splice(frame, RepeatIndex, [RepeatDefault]);
    var e := EncryptData(block, result, stamped);
    var withData := Splice(e.frame, DataStart, e.out);
    var idBytes := LeBytes(serial, 4)[..SerialSize];
    var f := Splice(withData, DeviceIdIndex, idBytes);
    SealFrameParts(frame, stamped, e.frame, withData, f, idBytes);
    LeBytesPrefix(serial, 2, 4);
    LeValueOfBytes(serial, 2);
    assert f[DataStart..DeviceIdIndex] == e.out;
    f
  }

  /** The bookkeeping behind SealFrame: which of the four writes each part
      of the frame last saw. */
  lemma SealFrameParts(frame: seq<uint8>, stamped: seq<uint8>, encrypted: seq<uint8>, withData: seq<uint8>, f: seq<uint8>, idBytes: seq<uint8>)
    requires |frame| == FrameLength && |idBytes| == SerialSize
    requires SameOutside(frame, stamped, RepeatIndex, 1) && stamped[RepeatIndex] == RepeatDefault
    requires SameOutside(stamped, encrypted, StatusIndex, 1)
    requires SameOutside(encrypted, withData, DataStart, DataSize)
    requires SameOutside(withData, f, DeviceIdIndex, SerialSize) && f[DeviceIdIndex..StatusIndex] == idBytes
    ensures f[..DataStart] == frame[..DataStart]
    ensures f[DataStart..DeviceIdIndex] == withData[DataStart..DeviceIdIndex]
    ensures f[StatusIndex] == encrypted[StatusIndex]
    ensures f[RepeatIndex] == RepeatDefault
  {
    SliceOutside(frame, stamped, RepeatIndex, 1, 0, DataStart);
    SliceOutside(stamped, encrypted, StatusIndex, 1, 0, DataStart);
    SliceOutside(withData, f, DeviceIdIndex, SerialSize, 0, DataStart);
    SliceOutside(withData, f, DeviceIdIndex, SerialSize, DataStart, DeviceIdIndex);
    SliceOutside(withData, f, DeviceIdIndex, SerialSize, StatusIndex, FrameLength);
    SliceOutside(encrypted, withData, DataStart, DataSize, StatusIndex, FrameLength);
    SliceOutside(stamped, encrypted, StatusIndex, 1, RepeatIndex, FrameLength);
    assert f[StatusIndex] == f[StatusIndex..FrameLength][0];
    assert f[RepeatIndex] == f[StatusIndex..FrameLength][1];
    assert encrypted[StatusIndex] == encrypted[StatusIndex..FrameLength][0];
    assert encrypted[RepeatIndex] == encrypted[StatusIndex..FrameLength][1];
    assert stamped[RepeatIndex] == stamped[RepeatIndex..FrameLength][0];
  }

  /** The beacon's state between events: the RAM record, the FRAM, the
      block, the frame and the repeat counter. */
  datatype Beacon = Beacon(ram: FramData, mem: Memory, block: seq<uint8>, frame: seq<uint8>, repeat: uint8)

  predicate BeaconShape(b: Beacon)
  {
    WellFormed(b.ram) && Holds(b.mem) && |b.block| == DataSize && |b.frame| == FrameLength
  }

  /** The block one call builds: the type-dependent bytes, then the stamp
      with the raised counter. */
  function BuildBlock(b: Beacon, polarity: uint8, s: Sensors): (block: seq<uint8>)
    requires BeaconShape(b) && SensorsShape(s)
    ensures |block| == DataSize
    ensures BlockFields(block).dataType == b.ram.devType
    ensures LeValue(BlockFields(block).counter24) == U32(b.ram.eventCounter + 1) % 0x100_0000
    ensures BlockFields(block).id == b.ram.serialNumber % 0x1_0000
  {
    StampBlock(TypeBytes(b.block, b.ram.devType, polarity, b.ram.name, s), b.ram.devType,
               U32(b.ram.eventCounter + 1), b.ram.serialNumber)
  }

  /** update_manufacture_data. The RAM event counter goes up by one modulo
      2^32 and nothing else in the record changes; the FRAM's counter field
      gets the new value when its write goes through and nothing else in
      the FRAM changes; the block carries the type, the counter's low 24
      bits and the serial number's low 16 bits; the repeat counter is 1; and
      the frame holds the company bytes it held, the sealed block, the id,
      the status and a repeat counter of 1. */
  function UpdateManufactureData(b: Beacon, polarity: uint8, s: Sensors, aes: Cipher, counterBus: Bus): (r: Beacon)
    requires BeaconShape(b) && SensorsShape(s) && CipherShape(aes)
    ensures BeaconShape(r)
    ensures r.ram == b.ram.(eventCounter := U32(b.ram.eventCounter + 1))
    ensures counterBus.ready && counterBus.transferOk ==> StoredCounter(r.mem) == r.ram.eventCounter
    ensures !(counterBus.ready && counterBus.transferOk) ==> r.mem == b.mem
    ensures SameOutside(b.mem, r.mem, Addr(EvCtr), Width(EvCtr))
    ensures r.repeat == RepeatDefault
    ensures r.block == BuildBlock(b, polarity, s)
    ensures ParseFrame(r.frame) ==
              FrameView(b.frame[..DataStart], Sealed(r.block, aes(r.block)), b.ram.serialNumber % 0x1_0000,
                        SealStatus(aes(r.block)), RepeatDefault)
  {
    var counter := U32(b.ram.eventCounter + 1);
    var ram := b.ram.(eventCounter := counter);
    var written := WriteCounter(b.mem, counter, counterBus);
    assert !(counterBus.ready && counterBus.transferOk) ==> written.status == Error;
    var block := BuildBlock(b, polarity, s);
    var frame := SealFrame(b.frame, block, aes(block), ram.serialNumber);
    Beacon(ram, written.mem, block, frame, RepeatDefault)
  }

  /** Block bytes 4..13 after a call, by type: the measured axes with the
      temperature and pressure members left as they were (types 0-2), the
      polarity and nine name bytes (type 3), ten name bytes (type 4), or the
      bytes the block already held. */
  lemma UpdateTypeDependent(b: Beacon, polarity: uint8, s: Sensors)
    requires BeaconShape(b) && SensorsShape(s)
    ensures var block := BuildBlock(b, polarity, s);
            (b.ram.devType <= SensorDataMax ==> block[4..10] == AxesBytes(MeasuredAxes(s)) && block[10..14] == b.block[10..14]) &&
            (b.ram.devType == PolarityAndName9 ==> block[4] == polarity && block[5..14] == b.ram.name[..9]) &&
            (b.ram.devType == Name10 ==> block[4..14] == b.ram.name) &&
            (b.ram.devType > Name10 ==> block[4..14] == b.block[4..14])
  {
    var t := TypeBytes(b.block, b.ram.devType, polarity, b.ram.name, s);
    var block := BuildBlock(b, polarity, s);
    assert block[4..14] == t[4..14];
    TypeBytesAgree(block, t);
  }

  /** Two blocks that agree on bytes 4..13 agree on every part of them. */
  lemma TypeBytesAgree(x: seq<uint8>, y: seq<uint8>)
    requires |x| == DataSize && |y| == DataSize && x[4..14] == y[4..14]
    ensures x[4..10] == y[4..10] && x[10..14] == y[10..14] && x[5..14] == y[5..14] && x[4] == y[4]
  {
    assert x[4..10] == x[4..14][..6] && y[4..10] == y[4..14][..6];
    assert x[10..14] == x[4..14][6..] && y[10..14] == y[4..14][6..];
    assert x[5..14] == x[4..14][1..] && y[5..14] == y[4..14][1..];
    assert x[4] == x[4..14][0] && y[4] == y[4..14][0];
  }

  /** The id bytes of the frame are the block's id member: both are the
      serial number's low 16 bits. */
  lemma FrameIdIsBlockId(b: Beacon, polarity: uint8, s: Sensors, aes: Cipher, counterBus: Bus)
    requires BeaconShape(b) && SensorsShape(s) && CipherShape(aes)
    ensures var r := UpdateManufactureData(b, polarity, s, aes, counterBus);
            ParseFrame(r.frame).serialLow == BlockFields(r.block).id
  {
  }

  /** A receiver that finds the status byte clear reads the block straight
      from the frame: the type, the counter's low 24 bits, and an id equal
      to the one outside the block. */
  lemma ReceiverReadsClearFrame(b: Beacon, polarity: uint8, s: Sensors, aes: Cipher, counterBus: Bus)
    requires BeaconShape(b) && SensorsShape(s) && CipherShape(aes)
    ensures var r := UpdateManufactureData(b, polarity, s, aes, counterBus);
            var v := ParseFrame(r.frame);
            v.status == StatusClear ==>
              BlockFields(v.data).dataType == b.ram.devType &&
              LeValue(BlockFields(v.data).counter24) == U32(b.ram.eventCounter + 1) % 0x100_0000 &&
              BlockFields(v.data).id == v.serialLow
  {
  }

  /** For the sensor types the temperature and pressure members are never
      written, contrary to the block's description: zero bytes there, as in
      the zeroed global at boot, stay zero through every event. */
  lemma TempPressureNeverReported(b: Beacon, polarity: uint8, s: Sensors, aes: Cipher, counterBus: Bus)
    requires BeaconShape(b) && SensorsShape(s) && CipherShape(aes)
    requires b.ram.devType <= SensorDataMax && b.block[10..14] == [0, 0, 0, 0]
    ensures var r := UpdateManufactureData(b, polarity, s, aes, counterBus);
            r.ram.devType == b.ram.devType && r.block[10..14] == [0, 0, 0, 0] &&
            BlockFields(r.block).temp == 0 && BlockFields(r.block).pressure == 0
  {
    SensorBlockKeepsZeros(b, polarity, s);
  }

  lemma SensorBlockKeepsZeros(b: Beacon, polarity: uint8, s: Sensors)
    requires BeaconShape(b) && SensorsShape(s)
    requires b.ram.devType <= SensorDataMax && b.block[10..14] == [0, 0, 0, 0]
    ensures var block := BuildBlock(b, polarity, s);
            block[10..14] == [0, 0, 0, 0] && BlockFields(block).temp == 0 && BlockFields(block).pressure == 0
  {
    var block := BuildBlock(b, polarity, s);
    UpdateTypeDependent(b, polarity, s);
    assert block[10] == block[10..14][0] && block[11] == block[10..14][1];
    assert block[12] == block[10..14][2] && block[13] == block[10..14][3];
  }
}
