/**
 * The FRAM driver: per-field reads and writes addressed through the field
 * table, the bulk transfer of the whole configuration record, the event and
 * polarity counter writes, and the stand-alone counter service.
 *
 * The device contents are a byte sequence. Every bus transaction's outcome
 * (is the I2C controller ready, did the transfer succeed) is a parameter.
 * A failed transfer is modelled as storing nothing.
 */
module FramStore {
  import opened MachineInt
  import opened FramLayout

  type Memory = seq<uint8>

  /** sizeof(fram_data_t): the number of bytes the bulk transfers move. */
  const BulkSize: nat := 56

  /** The FRAM is large enough for every transfer the driver issues. */
  predicate Holds(mem: Memory)
  {
    |mem| >= BulkSize
  }

  lemma BulkSizeIsSizeof()
    ensures BulkSize == StructSize
  {
  }

  /** FRAM_SUCCESS / FRAM_ERROR. */
  datatype Status = Success | Error

  /** The outcome of one bus transaction: whether the I2C controller reported
      ready, and whether the transfer itself succeeded. */
  datatype Bus = Bus(ready: bool, transferOk: bool)

  const BusOk := Bus(true, true)

  datatype ReadResult = ReadOk(bytes: seq<uint8>) | ReadFailed

  datatype WriteResult = WriteResult(status: Status, mem: Memory)

  /** m2 agrees with m1 everywhere except possibly on [at, at + n). */
  predicate SameOutside(m1: Memory, m2: Memory, at: nat, n: nat)
  {
    |m1| == |m2| && at + n <= |m1| &&
    m2[..at] == m1[..at] && m2[at + n..] == m1[at + n..]
  }

  /** The device's side of a write transfer: data stored from address `at`. */
  function Splice(mem: Memory, at: nat, data: seq<uint8>): (r: Memory)
    requires at + |data| <= |mem|
    ensures SameOutside(mem, r, at, |data|)
    ensures r[at..at + |data|] == data
  {
    var r := mem[..at] + data + mem[at + |data|..];
    assert r[..at] == mem[..at];
    assert r[at + |data|..] == mem[at + |data|..];
    r
  }

  /** The address the device decodes from the two bytes sent before the data. */
  function DeviceAddr(addr: uint16): (a: nat)
    ensures a == addr
  {
    var ab := AddrBytes(addr);
    (ab[0] as int) * 0x100 + ab[1]
  }

  /** i2c_fram_write_bytes: address bytes then data in one transfer. */
  function WriteBytes(mem: Memory, addr: uint16, data: seq<uint8>, ok: bool): (r: Memory)
    requires addr + |data| <= |mem|
    ensures |r| == |mem|
    ensures ok ==> r[addr..addr + |data|] == data && SameOutside(mem, r, addr, |data|)
    ensures !ok ==> r == mem
  {
    if ok then Splice(mem, DeviceAddr(addr), data) else mem
  }

  /** i2c_fram_read_bytes: the n bytes stored from `addr` on. */
  function ReadBytes(mem: Memory, addr: uint16, n: nat, ok: bool): (r: ReadResult)
    requires addr + n <= |mem|
    ensures r.ReadOk? <==> ok
    ensures r.ReadOk? ==> r.bytes == mem[addr..addr + n]
  {
    var a := DeviceAddr(addr);
    if ok then ReadOk(mem[a..a + n]) else ReadFailed
  }

  /** app_fram_read_field. */
  function ReadField(mem: Memory, field: uint8, bus: Bus): (r: ReadResult)
    requires Holds(mem)
    ensures r.ReadOk? <==> bus.ready && bus.transferOk
    ensures r.ReadOk? && field < FieldCount ==>
              r.bytes == mem[Addr(FieldAt(field))..Addr(FieldAt(field)) + Width(FieldAt(field))]
    ensures r.ReadOk? && field >= FieldCount ==> r.bytes == []
  {
    if !bus.ready then ReadFailed
    else
      var (addr, len) := Lookup(field);
      LookupField(field);
      ReadBytes(mem, addr, len, bus.transferOk)
  }

  /** app_fram_write_field as written: a failed transfer is only logged and
      the function still reports success. */
  function WriteFieldAsWritten(mem: Memory, field: uint8, data: seq<uint8>, bus: Bus): (r: WriteResult)
    requires Holds(mem) && |data| >= Lookup(field).1
    ensures r.status == Success <==> bus.ready
    ensures r.mem == WriteField(mem, field, data, bus).mem
  {
    if !bus.ready then WriteResult(Error, mem)
    else
      var (addr, len) := Lookup(field);
      WriteResult(Success, WriteBytes(mem, addr, data[..len], bus.transferOk))
  }

  /** app_fram_write_field with the transfer status reported: the field's
      bytes take the first `width` bytes of `data`, nothing else changes, and
      success is reported exactly when the bytes were stored. */
  function WriteField(mem: Memory, field: uint8, data: seq<uint8>, bus: Bus): (r: WriteResult)
    requires Holds(mem) && |data| >= Lookup(field).1
    ensures |r.mem| == |mem|
    ensures r.status == Success <==> bus.ready && bus.transferOk
    ensures r.status == Error ==> r.mem == mem
    ensures SameOutside(mem, r.mem, Lookup(field).0, Lookup(field).1)
    ensures r.status == Success && field < FieldCount ==>
              r.mem[Addr(FieldAt(field))..Addr(FieldAt(field)) + Width(FieldAt(field))]
                == data[..Width(FieldAt(field))]
    ensures field >= FieldCount ==> r.mem == mem
  {
    if !bus.ready then WriteResult(Error, mem)
    else
      var (addr, len) := Lookup(field);
      LookupField(field);
      var m := WriteBytes(mem, addr, data[..len], bus.transferOk);
      WriteResult(if bus.transferOk then Success else Error, m)
  }

  /** A field written successfully reads back as the bytes written. */
  lemma ReadAfterWrite(mem: Memory, field: uint8, data: seq<uint8>)
    requires Holds(mem) && |data| >= Lookup(field).1
    ensures ReadField(WriteField(mem, field, data, BusOk).mem, field, BusOk)
              == ReadOk(data[..Lookup(field).1])
  {
    LookupField(field);
  }

  /** A slice lying wholly outside a changed range is unchanged. */
  lemma SliceOutside(m1: Memory, m2: Memory, at: nat, n: nat, lo: nat, hi: nat)
    requires SameOutside(m1, m2, at, n) && lo <= hi <= |m1|
    requires hi <= at || at + n <= lo
    ensures m2[lo..hi] == m1[lo..hi]
  {
    if hi <= at {
      assert m2[lo..hi] == m2[..at][lo..hi];
      assert m1[lo..hi] == m1[..at][lo..hi];
    } else {
      forall i | lo <= i < hi
        ensures m2[i] == m1[i]
      {
        assert m2[i] == m2[at + n..][i - (at + n)];
        assert m1[i] == m1[at + n..][i - (at + n)];
      }
    }
  }

  /** A change confined to the layout leaves the bytes past it alone. */
  lemma TailKept(m1: Memory, m2: Memory, at: nat, n: nat)
    requires SameOutside(m1, m2, at, n) && at + n <= LayoutSize <= |m1|
    ensures m2[LayoutSize..] == m1[LayoutSize..]
  {
    assert m2[LayoutSize..] == m2[at + n..][LayoutSize - (at + n)..];
    assert m1[LayoutSize..] == m1[at + n..][LayoutSize - (at + n)..];
  }

  /** Two changes confined to adjacent ranges are confined to their union. */
  lemma SameOutsideCompose(m1: Memory, m2: Memory, m3: Memory, at: nat, n: nat, k: nat)
    requires SameOutside(m1, m2, at, n) && SameOutside(m2, m3, at + n, k)
    ensures SameOutside(m1, m3, at, n + k)
  {
    assert m3[..at] == m3[..at + n][..at];
    assert m2[..at] == m2[..at + n][..at];
    assert m3[at + n + k..] == m2[at + n + k..];
    assert m2[at + n + k..] == m2[at + n..][k..];
    assert m1[at + n + k..] == m1[at + n..][k..];
  }

  /** A change to [at, at + n) followed by one to the adjacent range: the
      two are confined to their union and the second leaves the first's
      bytes alone. */
  lemma AdjacentWrites(m1: Memory, m2: Memory, m3: Memory, at: nat, n: nat, k: nat)
    requires SameOutside(m1, m2, at, n) && SameOutside(m2, m3, at + n, k)
    ensures SameOutside(m1, m3, at, n + k)
    ensures m3[at..at + n] == m2[at..at + n]
  {
    SameOutsideCompose(m1, m2, m3, at, n, k);
    assert m3[at..at + n] == m3[..at + n][at..];
    assert m2[at..at + n] == m2[..at + n][at..];
  }

  /** Writing one field never changes what another field reads. */
  lemma WriteLeavesOtherFields(mem: Memory, f: uint8, g: uint8, data: seq<uint8>, wbus: Bus, rbus: Bus)
    requires Holds(mem) && |data| >= Lookup(f).1 && f != g
    ensures ReadField(WriteField(mem, f, data, wbus).mem, g, rbus) == ReadField(mem, g, rbus)
  {
    var m' := WriteField(mem, f, data, wbus).mem;
    LookupField(f);
    LookupField(g);
    if f < FieldCount && g < FieldCount {
      var ff, gg := FieldAt(f), FieldAt(g);
      FieldsDisjoint(ff, gg);
      SliceOutside(mem, m', Addr(ff), Width(ff), Addr(gg), Addr(gg) + Width(gg));
    }
  }

  /** The as-written write reports success for a transfer that stored
      nothing; the corrected write reports the failure. */
  lemma WriteFieldAsWrittenMasksFailure(mem: Memory, field: uint8, data: seq<uint8>)
    requires Holds(mem) && |data| >= Lookup(field).1
    ensures WriteFieldAsWritten(mem, field, data, Bus(true, false)) == WriteResult(Success, mem)
    ensures WriteField(mem, field, data, Bus(true, false)) == WriteResult(Error, mem)
  {
  }

  /** app_fram_read_data: the whole record, 56 bytes from address 0. */
  function ReadData(mem: Memory, bus: Bus): (r: ReadResult)
    requires Holds(mem)
    ensures r.ReadOk? <==> bus.ready && bus.transferOk
    ensures r.ReadOk? ==> r.bytes == mem[..BulkSize]
  {
    if !bus.ready then ReadFailed else ReadBytes(mem, 0, BulkSize, bus.transferOk)
  }

  /** app_fram_write_data: the whole 56-byte record from address 0. */
  function WriteData(mem: Memory, record: seq<uint8>, bus: Bus): (r: WriteResult)
    requires Holds(mem) && |record| == BulkSize
    ensures |r.mem| == |mem|
    ensures r.status == Success <==> bus.ready && bus.transferOk
    ensures r.status == Success ==> r.mem[..BulkSize] == record && r.mem[BulkSize..] == mem[BulkSize..]
    ensures r.status == Error ==> r.mem == mem
  {
    if !bus.ready then WriteResult(Error, mem)
    else if bus.transferOk then WriteResult(Success, WriteBytes(mem, 0, record, true))
    else WriteResult(Error, mem)
  }

  /** A record written in bulk reads back unchanged. */
  lemma BulkRoundTrip(mem: Memory, record: seq<uint8>)
    requires Holds(mem) && |record| == BulkSize
    ensures ReadData(WriteData(mem, record, BusOk).mem, BusOk) == ReadOk(record)
  {
  }

  /** app_fram_read_counter: the four event-counter bytes. */
  function ReadCounter(mem: Memory, bus: Bus): (r: ReadResult)
    requires Holds(mem)
    ensures r.ReadOk? <==> bus.ready && bus.transferOk
    ensures r.ReadOk? ==> r == ReadField(mem, Index(EvCtr) as uint8, bus)
  {
    if !bus.ready then ReadFailed
    else ReadBytes(mem, Addr(EvCtr), Width(EvCtr), bus.transferOk)
  }

  /** The event counter the FRAM holds. */
  function StoredCounter(mem: Memory): uint32
    requires Holds(mem)
  {
    LeValue(mem[Addr(EvCtr)..Addr(EvCtr) + Width(EvCtr)])
  }

  /** Writes a 32-bit counter little-endian at `addr`: the shared body of
      app_fram_write_counter, _pos and _neg. */
  function WriteCounterAt(mem: Memory, addr: uint16, value: uint32, bus: Bus): (r: WriteResult)
    requires addr + 4 <= |mem|
    ensures r.status == Success <==> bus.ready && bus.transferOk
    ensures r.status == Error ==> r.mem == mem
    ensures SameOutside(mem, r.mem, addr, 4)
    ensures r.status == Success ==> r.mem[addr..addr + 4] == LeBytes(value, 4)
    ensures r.status == Success ==> LeValue(r.mem[addr..addr + 4]) == value
  {
    if !bus.ready then WriteResult(Error, mem)
    else
      var m := WriteBytes(mem, addr, LeBytes(value, 4), bus.transferOk);
      LeRoundTrip(value, 4);
      WriteResult(if bus.transferOk then Success else Error, m)
  }

  /** app_fram_write_counter: the RAM event counter into the event-counter
      field; it reads back as the value written. */
  function WriteCounter(mem: Memory, counter: uint32, bus: Bus): (r: WriteResult)
    requires Holds(mem)
    ensures |r.mem| == |mem|
    ensures r.status == Success <==> bus.ready && bus.transferOk
    ensures r.status == Success ==> StoredCounter(r.mem) == counter
    ensures SameOutside(mem, r.mem, Addr(EvCtr), Width(EvCtr))
    ensures r.status == Error ==> r.mem == mem
  {
    WriteCounterAt(mem, Addr(EvCtr), counter, bus)
  }

  /** app_fram_write_counter_neg: the negative-event counter at its field. */
  function WriteCounterNeg(mem: Memory, counter: uint32, bus: Bus): (r: WriteResult)
    requires Holds(mem)
    ensures |r.mem| == |mem|
    ensures r.status == Success <==> bus.ready && bus.transferOk
    ensures r.status == Success ==>
              r.mem[Addr(NegEvtCtr)..Addr(NegEvtCtr) + Width(NegEvtCtr)] == LeBytes(counter, 4)
    ensures SameOutside(mem, r.mem, Addr(NegEvtCtr), Width(NegEvtCtr))
  {
    WriteCounterAt(mem, Addr(NegEvtCtr), counter, bus)
  }

  /** app_fram_write_counter_pos: the positive-event counter at its field. */
  function WriteCounterPos(mem: Memory, counter: uint32, bus: Bus): (r: WriteResult)
    requires Holds(mem)
    ensures |r.mem| == |mem|
    ensures r.status == Success <==> bus.ready && bus.transferOk
    ensures r.status == Success ==>
              r.mem[Addr(PosEvtCtr)..Addr(PosEvtCtr) + Width(PosEvtCtr)] == LeBytes(counter, 4)
    ensures SameOutside(mem, r.mem, Addr(PosEvtCtr), Width(PosEvtCtr))
  {
    WriteCounterAt(mem, Addr(PosEvtCtr), counter, bus)
  }

  /** fram_update_pol_counters: negative counter first, then positive; the
      two statuses are discarded. */
  function UpdatePolCounters(mem: Memory, neg: uint32, pos: uint32, negBus: Bus, posBus: Bus): (r: Memory)
    requires Holds(mem)
    ensures |r| == |mem|
    ensures SameOutside(mem, r, Addr(NegEvtCtr), Width(NegEvtCtr) + Width(PosEvtCtr))
    ensures negBus == BusOk ==> r[Addr(NegEvtCtr)..Addr(NegEvtCtr) + Width(NegEvtCtr)] == LeBytes(neg, 4)
    ensures posBus == BusOk ==> r[Addr(PosEvtCtr)..Addr(PosEvtCtr) + Width(PosEvtCtr)] == LeBytes(pos, 4)
  {
    assert Addr(NegEvtCtr) == 46 && Width(NegEvtCtr) == 4 && Addr(PosEvtCtr) == 50 && Width(PosEvtCtr) == 4;
    var m1 := WriteCounterNeg(mem, neg, negBus).mem;
    var m2 := WriteCounterPos(m1, pos, posBus).mem;
    AdjacentWrites(mem, m1, m2, 46, 4, 4);
    m2
  }

  datatype ServiceResult = ServiceResult(status: Status, mem: Memory, counter: uint32)

  /** app_fram_service: read the stored counter, add one modulo 2^32, store
      it back, and hand the new value to the caller. On any failure the
      caller's counter keeps its old value. */
  function Service(mem: Memory, counter: uint32, ready: bool, readOk: bool, writeOk: bool): (r: ServiceResult)
    requires Holds(mem)
    ensures |r.mem| == |mem|
    ensures r.status == Success <==> ready && readOk && writeOk
    ensures r.status == Success ==>
              r.counter == (StoredCounter(mem) + 1) % 0x1_0000_0000 &&
              StoredCounter(r.mem) == r.counter
    ensures r.status == Error ==> r.counter == counter && r.mem == mem
    ensures SameOutside(mem, r.mem, Addr(EvCtr), Width(EvCtr))
  {
    if !ready then ServiceResult(Error, mem, counter)
    else match ReadBytes(mem, Addr(EvCtr), Width(EvCtr), readOk)
      case ReadFailed => ServiceResult(Error, mem, counter)
      case ReadOk(bytes) =>
        var next := U32(LeValue(bytes) + 1);
        var w := WriteCounterAt(mem, Addr(EvCtr), next, Bus(true, writeOk));
        if w.status == Error then ServiceResult(Error, mem, counter)
        else ServiceResult(Success, w.mem, next)
  }
}
