/**
 * The accelerometer driver: the control block written at configuration, and
 * a read that waits for DRDY, fetches six bytes, decodes three little-endian
 * int16 axes and scales each to thousandths of m/s^2 at 2 g full scale.
 *
 * The DRDY polls, whether the bus device is ready and the bytes the bus read
 * returns (None when it fails) are parameters.
 */
module Accel {
  import opened Optional
  import opened MachineInt
  import opened DataReady

  const AccelSuccess: int := 0
  const AccelError: int := -1

  /** ACC_READ_DATA_BUFFER_SIZE. */
  const ReadSize: nat := 6

  /** The four bytes app_accel_config writes from CTRL1 on: 400/200 Hz
      single-conversion mode, the default CTRL2 bits, the trigger source
      (register or INT2 pin) and the DRDY route (register or INT1 pin). */
  function ConfigBlock(i2cTrigger: bool, i2cDrdy: bool): (block: seq<uint8>)
    ensures |block| == 4 && block[0] == 0x78 && block[1] == 0x04
  {
    [0x78, 0x04, if i2cTrigger then 0x02 else 0x00, if i2cDrdy then 0x00 else 0x01]
  }

  /** The block tells the two build options apart: no two configurations
      write the same bytes. */
  lemma ConfigBlockDeterminesOptions(t1: bool, d1: bool, t2: bool, d2: bool)
    ensures ConfigBlock(t1, d1) == ConfigBlock(t2, d2) <==> t1 == t2 && d1 == d2
  {
    if ConfigBlock(t1, d1) == ConfigBlock(t2, d2) {
      assert ConfigBlock(t1, d1)[2] == ConfigBlock(t2, d2)[2];
      assert ConfigBlock(t1, d1)[3] == ConfigBlock(t2, d2)[3];
    }
  }

  /** 19600 times the reading as an int32, shifted right by 15 and
      narrowed to int16 (2 g full scale in thousandths of m/s^2): the
      product fits in an int32, the shift rounds toward minus infinity, and
      the result fits the int16 it is narrowed to. */
  function Scale(raw: int16): (s: int16)
    ensures s * 0x8000 <= 19600 * raw < (s + 1) * 0x8000
    ensures -19600 <= s <= 19599
  {
    var p := 19600 * raw;
    assert -0x8000_0000 <= p < 0x8000_0000;
    assert Pow2(15) == 0x8000;
    var q := Asr(p, 15);
    assert -19600 <= q <= 19599;
    I16(q)
  }

  /** A larger reading never scales to a smaller value. */
  lemma ScaleMonotone(a: int16, b: int16)
    requires a <= b
    ensures Scale(a) <= Scale(b)
  {
  }

  /** The extreme readings scale to the ends of the range, and 0 to 0. */
  lemma ScaleExtremes()
    ensures Scale(0x7FFF) == 19599 && Scale(-0x8000) == -19600 && Scale(0) == 0
  {
  }

  /** No reading scales to the missing-data value, so a consumer can tell a
      decoded axis from a failed read. */
  lemma ScaleNeverMissing(raw: int16)
    ensures Scale(raw) != Missing
  {
  }

  datatype AccelData = AccelData(x: int16, y: int16, z: int16)

  const MissingAxes := AccelData(Missing, Missing, Missing)

  datatype AccelResult = AccelResult(status: int, data: AccelData)

  /** The three axes decoded from the six bytes read from OUT_X_L on. */
  function DecodeAxes(bytes: seq<uint8>): (d: AccelData)
    requires |bytes| == ReadSize
    ensures LeBytes(d.x, 2) == [bytes[0], bytes[1]] && LeBytes(d.y, 2) == [bytes[2], bytes[3]]
    ensures LeBytes(d.z, 2) == [bytes[4], bytes[5]]
  {
    AccelData(LeI16(bytes[0], bytes[1]), LeI16(bytes[2], bytes[3]), LeI16(bytes[4], bytes[5]))
  }

  /** Decoding the little-endian store of three int16 values gives them back. */
  lemma DecodeAxesRoundTrip(x: int16, y: int16, z: int16)
    ensures |LeBytes(x, 2) + LeBytes(y, 2) + LeBytes(z, 2)| == ReadSize
    ensures DecodeAxes(LeBytes(x, 2) + LeBytes(y, 2) + LeBytes(z, 2)) == AccelData(x, y, z)
  {
    I16RoundTrip(x);
    I16RoundTrip(y);
    I16RoundTrip(z);
  }

  function ScaleAxes(d: AccelData): (s: AccelData)
  {
    AccelData(Scale(d.x), Scale(d.y), Scale(d.z))
  }

  /** app_accel_read under DRDY timeout test `test`. A wait that fails or a
      bus device that is not ready leaves the output as it was; after those
      checks the axes are set to the missing value, and only a successful
      bus read replaces them with scaled readings. */
  function AccelRead(test: TimeoutTest, busy: nat -> bool, deviceReady: bool, read: Option<seq<uint8>>, prev: AccelData): (r: AccelResult)
    requires read.Some? ==> |read.value| == ReadSize
    ensures r.status == AccelSuccess <==> !WaitFails(test, busy) && deviceReady && read.Some?
    ensures r.status != AccelSuccess ==> r.status == AccelError
    ensures WaitFails(test, busy) || !deviceReady ==> r.data == prev
    ensures !WaitFails(test, busy) && deviceReady && read.None? ==> r.data == MissingAxes
    ensures r.status == AccelSuccess ==>
              r.data.x != Missing && r.data.y != Missing && r.data.z != Missing
  {
    if WaitFails(test, busy) || !deviceReady then AccelResult(AccelError, prev)
    else
      match read
      case None => AccelResult(AccelError, MissingAxes)
      case Some(bytes) =>
        var d := ScaleAxes(DecodeAxes(bytes));
        ScaleNeverMissing(DecodeAxes(bytes).x);
        ScaleNeverMissing(DecodeAxes(bytes).y);
        ScaleNeverMissing(DecodeAxes(bytes).z);
        AccelResult(AccelSuccess, d)
  }

  /** A successful read of the stored raw values x, y, z reports their
      scaled values. */
  lemma AccelReadScales(test: TimeoutTest, busy: nat -> bool, x: int16, y: int16, z: int16, prev: AccelData)
    requires !WaitFails(test, busy)
    ensures var bytes := LeBytes(x, 2) + LeBytes(y, 2) + LeBytes(z, 2);
            |bytes| == ReadSize &&
            AccelRead(test, busy, true, Some(bytes), prev) == AccelResult(AccelSuccess, AccelData(Scale(x), Scale(y), Scale(z)))
  {
    DecodeAxesRoundTrip(x, y, z);
  }

  /** DRDY never asserts: the firmware's test lets the read go ahead, and it
      succeeds whenever the bus read does; the intended test reports the
      timeout and leaves the output alone. */
  lemma AccelReadNeverReady(read: Option<seq<uint8>>, prev: AccelData)
    requires read.Some? ==> |read.value| == ReadSize
    ensures AccelRead(AsWritten, _ => true, true, read, prev).status == AccelSuccess <==> read.Some?
    ensures AccelRead(Intended, _ => true, true, read, prev) == AccelResult(AccelError, prev)
  {
    assert !ReadyAt(_ => true, Polls);
    assert NeverReady(_ => true, Polls);
  }

  /** DRDY first asserts on the last poll: the firmware's test reports a
      timeout and leaves the output alone; the intended test reads. */
  lemma AccelReadLastPoll(read: Option<seq<uint8>>, prev: AccelData)
    requires read.Some? ==> |read.value| == ReadSize
    ensures AccelRead(AsWritten, k => k < Polls, true, read, prev) == AccelResult(AccelError, prev)
    ensures AccelRead(Intended, k => k < Polls, true, read, prev).status == AccelSuccess <==> read.Some?
  {
    assert ReadyAt(k => k < Polls, Polls);
    assert !(k => k < Polls)(Polls);
  }
}
