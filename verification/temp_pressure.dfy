/**
 * The temperature and pressure sensor read: wait for DRDY, fetch five bytes
 * (three of pressure, two of temperature), and convert. The pressure bytes
 * go into the low three bytes of a 32-bit union whose top byte is never
 * written; the result is `(i32 * 10) / 4096` in hundredths of kPa (units
 * of 10 Pa), narrowed to int16. The temperature is the raw little-endian int16.
 */
module TempPressure {
  import opened Optional
  import opened MachineInt
  import opened DataReady

  const TempPressureSuccess: int := 0
  const TempPressureError: int := -1

  /** TEMP_PRESSURE_SENSOR_READING_BUFFER_SIZE. */
  const ReadSize: nat := 5

  /** The largest raw pressure that is positive as a 24-bit two's-complement
      reading. */
  const RawPressureMax: nat := 0x7F_FFFF

  /** The pressure conversion as written: `top` is whatever the union's
      uninitialised high byte holds. The product by 10 is taken modulo 2^32
      (it is undefined in C once it overflows), the division truncates. */
  function PressureAsWritten(b0: uint8, b1: uint8, b2: uint8, top: uint8): (p: int16)
    ensures top == 0 && LeValue([b0, b1, b2]) <= RawPressureMax ==>
              0 <= p <= 20479 && p == LeValue([b0, b1, b2]) * 10 / 4096
  {
    var raw := I32(LeValue([b0, b1, b2, top]));
    LeValueSplit3(b0, b1, b2, top);
    I16(CDiv(I32(raw * 10), 4096))
  }

  /** The pressure conversion with the union zeroed first: the 24-bit raw
      reading times 10, divided by 4096. */
  function Pressure(b0: uint8, b1: uint8, b2: uint8): (p: int16)
    ensures LeValue([b0, b1, b2]) <= RawPressureMax ==>
              0 <= p <= 20479 && p == LeValue([b0, b1, b2]) * 10 / 4096
  {
    PressureAsWritten(b0, b1, b2, 0)
  }

  /** Four little-endian bytes are the first three plus the fourth times 2^24. */
  lemma LeValueSplit3(b0: uint8, b1: uint8, b2: uint8, b3: uint8)
    ensures LeValue([b0, b1, b2]) == b0 + 0x100 * b1 + 0x1_0000 * b2
    ensures LeValue([b0, b1, b2, b3]) == LeValue([b0, b1, b2]) + 0x100_0000 * b3
  {
    assert [b0, b1, b2, b3][1..] == [b1, b2, b3];
    assert [b1, b2, b3][1..] == [b2, b3];
    assert [b2, b3][1..] == [b3];
    assert [b0, b1, b2][1..] == [b1, b2];
    assert [b1, b2][1..] == [b2];
    assert [b3][1..] == [] && [b2][1..] == [];
    assert LeValue([b2]) == b2;
    assert LeValue([b3]) == b3;
    assert LeValue([b2, b3]) == b2 + 0x100 * b3;
    assert LeValue([b1, b2]) == b1 + 0x100 * b2;
  }

  /** A higher raw pressure never converts to a lower value, over the
      positive readings. */
  lemma PressureMonotone(a: seq<uint8>, b: seq<uint8>)
    requires |a| == 3 && |b| == 3
    requires LeValue(a) <= LeValue(b) <= RawPressureMax
    ensures Pressure(a[0], a[1], a[2]) <= Pressure(b[0], b[1], b[2])
  {
    assert a == [a[0], a[1], a[2]];
    assert b == [b[0], b[1], b[2]];
    DivMonotone(LeValue(a) * 10, LeValue(b) * 10, 4096);
  }

  lemma DivMonotone(x: nat, y: nat, d: nat)
    requires x <= y && d > 0
    ensures x / d <= y / d
  {
    var qx, qy := x / d, y / d;
    if qx > qy {
      MulAtLeast(d, qx - qy);
      assert false;
    }
  }

  /** With the high byte zero the conversion is the intended one. */
  lemma PressureAsWrittenAgrees(b0: uint8, b1: uint8, b2: uint8)
    ensures PressureAsWritten(b0, b1, b2, 0) == Pressure(b0, b1, b2)
  {
  }

  /** A zero raw pressure with a stray 1 in the high byte converts to
      -24576 rather than 0: 2^24 * 10 / 4096 = 40960, which wraps in int16. */
  lemma PressureAsWrittenStrayByte()
    ensures PressureAsWritten(0, 0, 0, 1) == -24576
    ensures Pressure(0, 0, 0) == 0
  {
    LeValueSplit3(0, 0, 0, 1);
  }

  /** The temperature: bytes 3 and 4 as a little-endian int16, unscaled. */
  function Temperature(lo: uint8, hi: uint8): (t: int16)
    ensures LeBytes(t, 2) == [lo, hi]
  {
    LeI16(lo, hi)
  }

  /** Decoding the two bytes a temperature is stored as gives it back. */
  lemma TemperatureRoundTrip(t: int16)
    ensures Temperature(LeBytes(t, 2)[0], LeBytes(t, 2)[1]) == t
  {
    I16RoundTrip(t);
  }

  datatype Reading = Reading(temp: int16, pressure: int16)

  datatype TempPressureResult = TempPressureResult(status: int, data: Reading)

  /** app_temp_pressure_read under DRDY timeout test `test`. A wait that
      fails or a bus device that is not ready returns before the outputs are
      touched; a failed bus read leaves both at the missing value. `top` is
      what the stack left in the pressure union's unwritten high byte. */
  function TempPressureRead(test: TimeoutTest, busy: nat -> bool, deviceReady: bool, read: Option<seq<uint8>>,
                            top: uint8, prev: Reading): (r: TempPressureResult)
    requires read.Some? ==> |read.value| == ReadSize
    ensures r.status == TempPressureSuccess <==> !WaitFails(test, busy) && deviceReady && read.Some?
    ensures r.status != TempPressureSuccess ==> r.status == TempPressureError
    ensures WaitFails(test, busy) || !deviceReady ==> r.data == prev
    ensures !WaitFails(test, busy) && deviceReady && read.None? ==> r.data == Reading(Missing, Missing)
    ensures r.status == TempPressureSuccess ==>
              LeBytes(r.data.temp, 2) == read.value[3..5] &&
              (top == 0 && LeValue(read.value[..3]) <= RawPressureMax ==>
                 r.data.pressure == LeValue(read.value[..3]) * 10 / 4096)
  {
    if WaitFails(test, busy) || !deviceReady then TempPressureResult(TempPressureError, prev)
    else
      match read
      case None => TempPressureResult(TempPressureError, Reading(Missing, Missing))
      case Some(bytes) =>
        assert bytes[..3] == [bytes[0], bytes[1], bytes[2]];
        assert bytes[3..5] == [bytes[3], bytes[4]];
        TempPressureResult(TempPressureSuccess, Reading(Temperature(bytes[3], bytes[4]), PressureAsWritten(bytes[0], bytes[1], bytes[2], top)))
  }

  /** DRDY never asserts: the firmware's test lets the read go ahead, and it
      succeeds whenever the bus read does; the intended test reports the
      timeout and leaves the outputs alone. */
  lemma TempPressureReadNeverReady(read: Option<seq<uint8>>, top: uint8, prev: Reading)
    requires read.Some? ==> |read.value| == ReadSize
    ensures TempPressureRead(AsWritten, _ => true, true, read, top, prev).status == TempPressureSuccess <==> read.Some?
    ensures TempPressureRead(Intended, _ => true, true, read, top, prev) == TempPressureResult(TempPressureError, prev)
  {
    assert !ReadyAt(_ => true, Polls);
    assert NeverReady(_ => true, Polls);
  }

  /** DRDY first asserts on the last poll: the firmware's test reports a
      timeout and leaves the outputs alone; the intended test reads. */
  lemma TempPressureReadLastPoll(read: Option<seq<uint8>>, top: uint8, prev: Reading)
    requires read.Some? ==> |read.value| == ReadSize
    ensures TempPressureRead(AsWritten, k => k < Polls, true, read, top, prev) == TempPressureResult(TempPressureError, prev)
    ensures TempPressureRead(Intended, k => k < Polls, true, read, top, prev).status == TempPressureSuccess <==> read.Some?
  {
    assert ReadyAt(k => k < Polls, Polls);
    assert !(k => k < Polls)(Polls);
  }

  /** A reading whose pressure bytes are all 0, taken with a stray 1 in the
      union's high byte, reports success with a pressure of -24576. */
  lemma TempPressureReadStrayTop(test: TimeoutTest, busy: nat -> bool, t0: uint8, t1: uint8, prev: Reading)
    requires !WaitFails(test, busy)
    ensures var r := TempPressureRead(test, busy, true, Some([0, 0, 0, t0, t1]), 1, prev);
            r.status == TempPressureSuccess && r.data.pressure == -24576
  {
    PressureAsWrittenStrayByte();
  }
}
