/**
 * The configuration command processor: the command record the CLI fills in,
 * the GET, SET, CLEAR, RESET, PRESET, DUMP and TESTS handlers, and
 * process_command_fn, which runs one record and zeroes it.
 *
 * The handlers consult FRAM_INFO for a field's format, length and bounds,
 * but write through the FRAM driver, which takes the field number as an
 * unsigned byte and its width from its own table. `Table` selects FRAM_INFO
 * as initialised or with one entry per field; `stray` is whatever an index
 * outside the array reads. Bus outcomes come from `bus(k)`: transaction k of
 * RESET and PRESET writes field k, and the dump that follows uses `bus(15)`.
 */
module ConfigCommands {
  import opened Optional
  import opened MachineInt
  import opened FramLayout
  import opened FramRecord
  import opened FramStore
  import opened ConfigTable
  import opened SelfTest
  import opened FramImage

  /** UART_MSG_SIZE less the type, index and length bytes. */
  const DataCapacity: nat := 509

  /** The transaction the dump after RESET or PRESET uses. */
  const DumpBus: nat := 15

  const Space: uint8 := 0x20

  /** command_data_t. */
  datatype Command = Command(kind: uint8, fieldIndex: int8, dataLen: uint8, data: seq<uint8>)

  predicate ValidCommand(c: Command)
  {
    |c.data| == DataCapacity
  }

  /** n copies of b, as memset leaves them. */
  function Fill(b: uint8, n: nat): (r: seq<uint8>)
    ensures |r| == n
    ensures forall i | 0 <= i < n :: r[i] == b
  {
    seq(n, _ => b)
  }

  /** The record after process_command_fn clears it. */
  function Idle(): (c: Command)
    ensures ValidCommand(c) && c.kind == CommandGet && c.dataLen == 0
  {
    Command(0, 0, 0, Fill(0, DataCapacity))
  }

  datatype Table = InfoAsWrittenTable | InfoTable

  /** The two things the command processor is built with that the firmware
      gets wrong: the FRAM_INFO table SET and CLEAR consult, and the layout
      of the RAM record the dump reads into. */
  datatype Build = Build(table: Table, layout: Placement)

  /** The firmware as written: fourteen table entries, and the padded
      `fram_data_t`. */
  const AsBuilt := Build(InfoAsWrittenTable, CStruct)

  /** One entry per field, and the packed FRAM image. */
  const Corrected := Build(InfoTable, Packed)

  /** FRAM_INFO[i]. */
  function Entry(t: Table, i: int, stray: FramInfo): FramInfo
  {
    if 0 <= i < FieldCount then
      match t
      case InfoAsWrittenTable => InfoAsWritten(i)
      case InfoTable => Info(FieldAt(i))
    else stray
  }

  /** Inside the array, under either table, a numeric entry describes a field
      of at most four bytes, and the string and byte-array entries describe
      the name and the key with their own widths. */
  lemma EntryInTable(t: Table, i: nat, stray: FramInfo)
    requires i < FieldCount
    ensures Entry(t, i, stray).format <= DataByteArray
    ensures Entry(t, i, stray).format == DataNumber ==> Width(FieldAt(i)) <= 4
    ensures Entry(t, i, stray).format == DataString ==>
              FieldAt(i) == Name && Entry(t, i, stray).fieldLength as nat == Width(Name)
    ensures Entry(t, i, stray).format == DataByteArray ==>
              FieldAt(i) == EncryptedKey && Entry(t, i, stray).fieldLength as nat == Width(EncryptedKey)
  {
  }

  /** The driver's field number for a record index: the index itself inside
      the table, and a number past the table otherwise. */
  lemma FieldByte(i: int8)
    ensures 0 <= i < FieldCount ==> U8(i) == i
    ensures !(0 <= i < FieldCount) ==> U8(i) >= FieldCount
  {
  }

  /** A numeric entry's write never needs more than the four bytes of the
      uint32 it is made from. */
  lemma NumberWidth(t: Table, i: int8, stray: FramInfo)
    requires Entry(t, i, stray).format == DataNumber
    ensures Lookup(U8(i)).1 <= 4
  {
    FieldByte(i);
    if 0 <= i < FieldCount {
      EntryInTable(t, i as nat, stray);
      LookupField(U8(i));
    }
  }

  /** The number SET assembles: data[k] shifted left by 8k, summed over the
      first data_len bytes. Bytes from the fifth on are taken to add nothing
      (C leaves shifts of 32 or more undefined). */
  function SetValue(data: seq<uint8>, len: uint8): (v: uint32)
    requires len as nat <= |data|
    ensures v < Pow256(Min(len as int, 4))
    ensures LeBytes(v, Min(len as int, 4)) == data[..Min(len as int, 4)]
  {
    Pow256Values();
    var bs := data[..Min(len as int, 4)];
    LeBytesOfValue(bs);
    LeValue(bs)
  }

  /** The accumulation loop of handle_set_command. */
  method AccumulateValue(data: seq<uint8>, len: uint8) returns (v: uint32)
    requires len as nat <= |data|
    ensures v == SetValue(data, len)
  {
    var acc: nat := 0;
    var k: nat := 0;
    while k < len as nat
      invariant k <= len as nat
      invariant acc == LeValue(data[..Min(k, 4)])
    {
      if k < 4 {
        assert data[..k + 1] == data[..k] + [data[k]];
        LeValueSnoc(data[..k], data[k]);
        acc := acc + data[k] * Pow256(k);
      }
      k := k + 1;
    }
    v := SetValue(data, len);
  }

  /** handle_set_command. A number outside the entry's bounds and a string
      longer than the entry's length are only read back, which leaves the
      store as it was. */
  function SetField(mem: Memory, t: Table, stray: FramInfo, c: Command, bus: Bus): (r: Memory)
    requires Holds(mem) && ValidCommand(c)
    ensures |r| == |mem|
    ensures SameOutside(mem, r, Lookup(U8(c.fieldIndex)).0, Lookup(U8(c.fieldIndex)).1)
    ensures !(0 <= c.fieldIndex < FieldCount) ==> r == mem
  {
    FieldByte(c.fieldIndex);
    var e := Entry(t, c.fieldIndex, stray);
    var field := U8(c.fieldIndex);
    if e.format == DataNumber then
      var v := SetValue(c.data, c.dataLen);
      if v < e.minValue || v > e.maxValue then mem
      else
        NumberWidth(t, c.fieldIndex, stray);
        WriteField(mem, field, LeBytes(v, 4), bus).mem
    else if e.format == DataString then
      if c.dataLen > e.fieldLength then mem
      else WriteField(mem, field, c.data, bus).mem
    else if e.format == DataByteArray then
      WriteField(mem, field, c.data, bus).mem
    else mem
  }

  /** handle_clear_command: a number becomes 0, the name spaces and the key
      zeros. */
  function ClearField(mem: Memory, t: Table, stray: FramInfo, c: Command, bus: Bus): (r: Memory)
    requires Holds(mem) && ValidCommand(c)
    ensures |r| == |mem|
    ensures SameOutside(mem, r, Lookup(U8(c.fieldIndex)).0, Lookup(U8(c.fieldIndex)).1)
    ensures !(0 <= c.fieldIndex < FieldCount) ==> r == mem
  {
    FieldByte(c.fieldIndex);
    var e := Entry(t, c.fieldIndex, stray);
    var field := U8(c.fieldIndex);
    var n := e.fieldLength as nat;
    if e.format == DataNumber then
      NumberWidth(t, c.fieldIndex, stray);
      WriteField(mem, field, LeBytes(0, 4), bus).mem
    else if e.format == DataString then
      WriteField(mem, field, Fill(Space, n) + c.data[n..], bus).mem
    else if e.format == DataByteArray then
      WriteField(mem, field, Fill(0, n) + c.data[n..], bus).mem
    else mem
  }

  /** handle_get_command: the field is read into the record's data buffer,
      and for a numeric entry the value printed is assembled from the first
      `fieldLength` bytes of that buffer (at most four: the copy goes into a
      uint32). None when the read fails or the entry is not numeric. */
  function GetValue(mem: Memory, t: Table, stray: FramInfo, c: Command, bus: Bus): (r: Option<nat>)
    requires Holds(mem) && ValidCommand(c)
    ensures r.Some? ==> bus == BusOk && Entry(t, c.fieldIndex, stray).format == DataNumber
    ensures r.Some? ==> r.value < 0x1_0000_0000
  {
    var e := Entry(t, c.fieldIndex, stray);
    match ReadField(mem, U8(c.fieldIndex), bus)
    case ReadFailed => None
    case ReadOk(bytes) =>
      if e.format != DataNumber then None
      else
        LookupField(U8(c.fieldIndex));
        var buffer := bytes + c.data[|bytes|..];
        var n := Min(e.fieldLength as int, 4);
        Pow256Values();
        assert LeValue(buffer[..n]) < Pow256(n);
        Some(LeValue(buffer[..n]))
  }

  /** What SET does with a numeric entry inside the table: a value within
      the entry's bounds goes to the driver as four little-endian bytes. */
  lemma SetNumberCase(mem: Memory, t: Table, stray: FramInfo, c: Command, bus: Bus)
    requires Holds(mem) && ValidCommand(c) && 0 <= c.fieldIndex < FieldCount
    requires Entry(t, c.fieldIndex, stray).format == DataNumber
    ensures var e, v := Entry(t, c.fieldIndex, stray), SetValue(c.data, c.dataLen);
            (v < e.minValue || v > e.maxValue ==> SetField(mem, t, stray, c, bus) == mem) &&
            (e.minValue <= v <= e.maxValue ==>
               Lookup(c.fieldIndex as uint8).1 <= 4 &&
               SetField(mem, t, stray, c, bus) == WriteField(mem, c.fieldIndex as uint8, LeBytes(v, 4), bus).mem)
  {
    FieldByte(c.fieldIndex);
    NumberWidth(t, c.fieldIndex, stray);
  }

  /** What SET does with a string or byte-array entry inside the table. */
  lemma SetTextCase(mem: Memory, t: Table, stray: FramInfo, c: Command, bus: Bus)
    requires Holds(mem) && ValidCommand(c) && 0 <= c.fieldIndex < FieldCount
    requires Entry(t, c.fieldIndex, stray).format != DataNumber
    ensures var e := Entry(t, c.fieldIndex, stray);
            (e.format == DataString && c.dataLen > e.fieldLength ==> SetField(mem, t, stray, c, bus) == mem) &&
            ((e.format == DataString && c.dataLen <= e.fieldLength) || e.format == DataByteArray ==>
               SetField(mem, t, stray, c, bus) == WriteField(mem, c.fieldIndex as uint8, c.data, bus).mem)
  {
    FieldByte(c.fieldIndex);
    EntryInTable(t, c.fieldIndex as nat, stray);
    LookupField(c.fieldIndex as uint8);
  }

  /** SET of a numeric field: a value within the entry's bounds is stored
      and reads back as that value; a value outside them, or a failed
      transfer, leaves the store as it was. */
  lemma SetStoresNumber(mem: Memory, stray: FramInfo, c: Command, bus: Bus)
    requires Holds(mem) && ValidCommand(c) && 0 <= c.fieldIndex < FieldCount
    requires !IsArrayField(FieldAt(c.fieldIndex))
    ensures var f, v := FieldAt(c.fieldIndex), SetValue(c.data, c.dataLen);
            var r := SetField(mem, InfoTable, stray, c, bus);
            (Info(f).minValue <= v <= Info(f).maxValue && bus == BusOk ==> LeValue(Slot(r, Packed, f)) == v) &&
            (v < Info(f).minValue || v > Info(f).maxValue || bus != BusOk ==> r == mem)
  {
    var i := c.fieldIndex as nat;
    var f, v := FieldAt(i), SetValue(c.data, c.dataLen);
    var e := Info(f);
    assert Entry(InfoTable, c.fieldIndex, stray) == e;
    InfoFormats(f);
    InfoBounds(f);
    SetNumberCase(mem, InfoTable, stray, c, bus);
    if e.minValue <= v <= e.maxValue && bus == BusOk {
      WriteSlot(mem, i, LeBytes(v, 4));
      LeBytesPrefix(v, Width(f), 4);
      LeRoundTrip(v, Width(f));
    }
  }

  /** GET after a SET of a numeric field within bounds shows the value set. */
  lemma GetAfterSet(mem: Memory, stray: FramInfo, c: Command, g: Command)
    requires Holds(mem) && ValidCommand(c) && ValidCommand(g) && 0 <= c.fieldIndex < FieldCount
    requires g.fieldIndex == c.fieldIndex && !IsArrayField(FieldAt(c.fieldIndex))
    requires Info(FieldAt(c.fieldIndex)).minValue <= SetValue(c.data, c.dataLen) <= Info(FieldAt(c.fieldIndex)).maxValue
    ensures GetValue(SetField(mem, InfoTable, stray, c, BusOk), InfoTable, stray, g, BusOk)
              == Some(SetValue(c.data, c.dataLen))
  {
    var i := c.fieldIndex as nat;
    var f := FieldAt(i);
    var r := SetField(mem, InfoTable, stray, c, BusOk);
    SetStoresNumber(mem, stray, c, BusOk);
    assert Entry(InfoTable, g.fieldIndex, stray) == Info(f);
    InfoFormats(f);
    InfoLengthIsWidth(f);
    InfoBounds(f);
    FieldByte(g.fieldIndex);
    LookupField(i);
    var bytes := Slot(r, Packed, f);
    assert ReadField(r, U8(g.fieldIndex), BusOk) == ReadOk(bytes);
    assert (bytes + g.data[|bytes|..])[..Width(f)] == bytes;
  }

  /** SET of the name or the key: the data bytes are stored, except that a
      name longer than its field is refused. */
  lemma SetStoresText(mem: Memory, stray: FramInfo, c: Command)
    requires Holds(mem) && ValidCommand(c) && 0 <= c.fieldIndex < FieldCount
    requires IsArrayField(FieldAt(c.fieldIndex))
    ensures var f, r := FieldAt(c.fieldIndex), SetField(mem, InfoTable, stray, c, BusOk);
            (f == Name && c.dataLen as nat > Width(Name) ==> r == mem) &&
            (f == EncryptedKey || c.dataLen as nat <= Width(Name) ==> Slot(r, Packed, f) == c.data[..Width(f)])
  {
    var i := c.fieldIndex as nat;
    var f := FieldAt(i);
    assert Entry(InfoTable, c.fieldIndex, stray) == Info(f);
    InfoFormats(f);
    InfoLengthIsWidth(f);
    SetTextCase(mem, InfoTable, stray, c, BusOk);
    WriteSlot(mem, i, c.data);
  }

  /** What CLEAR sends the driver for an entry inside the table. */
  lemma ClearCase(mem: Memory, t: Table, stray: FramInfo, c: Command, bus: Bus)
    requires Holds(mem) && ValidCommand(c) && 0 <= c.fieldIndex < FieldCount
    ensures var e, n := Entry(t, c.fieldIndex, stray), Entry(t, c.fieldIndex, stray).fieldLength as nat;
            var i := c.fieldIndex as uint8;
            (e.format == DataNumber ==>
               Lookup(i).1 <= 4 && ClearField(mem, t, stray, c, bus) == WriteField(mem, i, LeBytes(0, 4), bus).mem) &&
            (e.format == DataString ==>
               ClearField(mem, t, stray, c, bus) == WriteField(mem, i, Fill(Space, n) + c.data[n..], bus).mem) &&
            (e.format == DataByteArray ==>
               ClearField(mem, t, stray, c, bus) == WriteField(mem, i, Fill(0, n) + c.data[n..], bus).mem)
  {
    FieldByte(c.fieldIndex);
    EntryInTable(t, c.fieldIndex as nat, stray);
    LookupField(c.fieldIndex as uint8);
    if Entry(t, c.fieldIndex, stray).format == DataNumber {
      NumberWidth(t, c.fieldIndex, stray);
    }
  }

  /** CLEAR with the transfer succeeding, under either table: a number
      reads back 0, the name is all spaces and the key all zeros. The
      shifted entries of the table as written are all numeric, so they too
      clear their fields to 0. */
  lemma ClearStores(mem: Memory, t: Table, stray: FramInfo, c: Command)
    requires Holds(mem) && ValidCommand(c) && 0 <= c.fieldIndex < FieldCount
    ensures var f, r := FieldAt(c.fieldIndex), ClearField(mem, t, stray, c, BusOk);
            (!IsArrayField(f) ==> LeValue(Slot(r, Packed, f)) == 0) &&
            (f == Name ==> Slot(r, Packed, f) == Fill(Space, Width(Name))) &&
            (f == EncryptedKey ==> Slot(r, Packed, f) == Fill(0, Width(EncryptedKey)))
  {
    var i := c.fieldIndex as nat;
    var f := FieldAt(i);
    var n := Width(f);
    assert Entry(t, c.fieldIndex, stray) == Entry(t, i, ZeroInfo);
    EntryDefaults(t, i);
    EntryInTable(t, i, stray);
    InfoFormats(f);
    ClearCase(mem, t, stray, c, BusOk);
    if !IsArrayField(f) {
      WriteSlot(mem, i, LeBytes(0, 4));
      LeBytesPrefix(0, n, 4);
      LeRoundTrip(0, n);
    } else if f == Name {
      WriteSlot(mem, i, Fill(Space, n) + c.data[n..]);
      assert (Fill(Space, n) + c.data[n..])[..n] == Fill(Space, n);
    } else {
      WriteSlot(mem, i, Fill(0, n) + c.data[n..]);
      assert (Fill(0, n) + c.data[n..])[..n] == Fill(0, n);
    }
  }

  /** With FRAM_INFO as written, SET of the positive counter meets the
      zero-filled entry, whose maximum 0 refuses every value but 0. */
  lemma SetPositiveCounterAsWritten(mem: Memory, stray: FramInfo, c: Command)
    requires Holds(mem) && ValidCommand(c) && c.fieldIndex == Index(PosEvtCtr) as int8
    requires SetValue(c.data, c.dataLen) > 0
    ensures SetField(mem, InfoAsWrittenTable, stray, c, BusOk) == mem
  {
    assert Entry(InfoAsWrittenTable, c.fieldIndex, stray) == ZeroInfo;
    SetNumberCase(mem, InfoAsWrittenTable, stray, c, BusOk);
  }

  /** With the per-field table, SET stores any 32-bit value in the positive
      counter. */
  lemma SetPositiveCounter(mem: Memory, stray: FramInfo, c: Command)
    requires Holds(mem) && ValidCommand(c) && c.fieldIndex == Index(PosEvtCtr) as int8
    ensures LeValue(Slot(SetField(mem, InfoTable, stray, c, BusOk), Packed, PosEvtCtr)) == SetValue(c.data, c.dataLen)
  {
    assert FieldAt(c.fieldIndex as nat) == PosEvtCtr;
    SetStoresNumber(mem, stray, c, BusOk);
  }

  /** With FRAM_INFO as written, SET of the VBULK threshold meets the
      four-byte counter entry: any 32-bit value is accepted and its low byte
      stored. The per-field table refuses values past one byte. */
  lemma SetThresholdAsWritten(mem: Memory, stray: FramInfo, c: Command)
    requires Holds(mem) && ValidCommand(c) && c.fieldIndex == Index(VbulkThresh) as int8
    ensures Slot(SetField(mem, InfoAsWrittenTable, stray, c, BusOk), Packed, VbulkThresh)
              == [SetValue(c.data, c.dataLen) % 0x100]
    ensures SetValue(c.data, c.dataLen) > 0xFF ==> SetField(mem, InfoTable, stray, c, BusOk) == mem
  {
    SetStoresNumber(mem, stray, c, BusOk);
    LookupField(c.fieldIndex as uint8);
    LeBytesPrefix(SetValue(c.data, c.dataLen), 1, 4);
  }

  /** A concrete command showing both: SET of the threshold to 256 stores 0
      with the table as written. */
  lemma SetThresholdExample(mem: Memory, stray: FramInfo)
    requires Holds(mem)
    ensures var c := Command(CommandSet, Index(VbulkThresh) as int8, 2, [0, 1] + Fill(0, DataCapacity - 2));
            Slot(SetField(mem, InfoAsWrittenTable, stray, c, BusOk), Packed, VbulkThresh) == [0] &&
            SetField(mem, InfoTable, stray, c, BusOk) == mem
  {
    var c := Command(CommandSet, Index(VbulkThresh) as int8, 2, [0, 1] + Fill(0, DataCapacity - 2));
    assert c.data[..2] == [0, 1];
    assert [0 as uint8, 1][1..] == [1];
    assert SetValue(c.data, c.dataLen) == 256;
    SetThresholdAsWritten(mem, stray, c);
  }

  /** The bytes handle_reset_commmand gives the driver for field i: the
      default as a uint32, spaces over a zeroed buffer, or the ECB key. */
  function ResetBytes(t: Table, i: nat, key: seq<uint8>): (r: seq<uint8>)
    requires i < FieldCount && |key| == Width(EncryptedKey)
    ensures |r| >= Width(FieldAt(i))
  {
    var e := Entry(t, i, ZeroInfo);
    EntryInTable(t, i, ZeroInfo);
    if e.format == DataNumber then LeBytes(e.defaultValue, 4)
    else if e.format == DataString then Fill(Space, e.fieldLength as nat) + Fill(0, 100 - e.fieldLength as nat)
    else key
  }

  /** The reset loop from field i on. */
  function ResetFrom(mem: Memory, t: Table, key: seq<uint8>, bus: nat -> Bus, i: nat): (r: Memory)
    requires Holds(mem) && i <= FieldCount && |key| == Width(EncryptedKey)
    ensures |r| == |mem|
    ensures r[LayoutSize..] == mem[LayoutSize..]
    decreases FieldCount - i
  {
    if i == FieldCount then mem
    else
      var m := WriteField(mem, i, ResetBytes(t, i, key), bus(i)).mem;
      SliceOutside(mem, m, Lookup(i).0, Lookup(i).1, LayoutSize, |mem|);
      ResetFrom(m, t, key, bus, i + 1)
  }

  /** The record a reset leaves: every numeric field at its default, the
      name all spaces and the key the one the firmware encrypts with. */
  function DefaultRecord(key: seq<uint8>): (d: FramData)
    requires |key| == Width(EncryptedKey)
    ensures WellFormed(d)
  {
    FramData(
      eventCounter := 0,
      serialNumber := 1,
      devType := 1,
      packetInterval := 20,
      eventMaxPackets := 254,
      sleepBetweenEvents := 0,
      sleepAfterWake := 0,
      voltsIsl9122 := 0,
      polMethod := 0,
      encryptedKey := key,
      txDbm10 := 80,
      name := Fill(Space, Width(Name)),
      vbulkThresh := 0,
      negativeEventsCounter := 0,
      positiveEventsCounter := 0)
  }

  /** Inside the array both tables agree with the per-field table on
      format, and on the default of every numeric entry: the shifted entries
      of the table as written all default to 0, as do the fields they land
      on. */
  lemma EntryDefaults(t: Table, i: nat)
    requires i < FieldCount
    ensures Entry(t, i, ZeroInfo).format == Info(FieldAt(i)).format
    ensures Entry(t, i, ZeroInfo).format == DataNumber ==>
              Entry(t, i, ZeroInfo).defaultValue == Info(FieldAt(i)).defaultValue
  {
  }

  /** The default record holds every numeric field's FRAM_INFO default. */
  lemma DefaultRecordHoldsDefaults(key: seq<uint8>, f: Field)
    requires |key| == Width(EncryptedKey) && !IsArrayField(f)
    ensures NumericMember(DefaultRecord(key), f) == Info(f).defaultValue
  {
  }

  /** Under either table, the bytes reset writes to each field are that
      field's bytes in the default record. */
  lemma ResetBytesAreDefault(t: Table, i: nat, key: seq<uint8>)
    requires i < FieldCount && |key| == Width(EncryptedKey)
    ensures ResetBytes(t, i, key)[..Width(FieldAt(i))] == MemberBytes(DefaultRecord(key), FieldAt(i))
  {
    var f := FieldAt(i);
    var e := Entry(t, i, ZeroInfo);
    EntryInTable(t, i, ZeroInfo);
    EntryDefaults(t, i);
    InfoFormats(f);
    if e.format == DataNumber {
      LeBytesPrefix(e.defaultValue, Width(f), 4);
      NumericMemberBytes(DefaultRecord(key), f);
      DefaultRecordHoldsDefaults(key, f);
    } else if e.format == DataString {
      assert ResetBytes(t, i, key)[..Width(f)] == Fill(Space, Width(Name));
    }
  }

  /** With every transfer succeeding, the reset loop from field i on
      completes the default image. */
  lemma {:induction false} ResetFromStores(m: Memory, mem: Memory, image: seq<uint8>, t: Table, key: seq<uint8>, d: FramData, bus: nat -> Bus, i: nat)
    requires Holds(m) && Holds(mem) && i <= FieldCount && |key| == Width(EncryptedKey)
    requires forall k :: bus(k) == BusOk
    requires d == DefaultRecord(key) && ImageOf(image, d)
    requires Stored(m, image, mem, WidthsBelow(i))
    ensures Stored(ResetFrom(m, t, key, bus, i), image, mem, WidthsBelow(FieldCount))
    decreases FieldCount - i
  {
    if i < FieldCount {
      assert bus(i) == BusOk;
      var m2 := WriteField(m, i, ResetBytes(t, i, key), BusOk).mem;
      ResetFromUnfold(m, t, key, bus, i);
      ResetWriteStep(m, mem, image, t, key, d, i);
      ResetFromStores(m2, mem, image, t, key, d, bus, i + 1);
    }
  }

  /** One step of the reset loop. */
  lemma ResetFromUnfold(m: Memory, t: Table, key: seq<uint8>, bus: nat -> Bus, i: nat)
    requires Holds(m) && i < FieldCount && |key| == Width(EncryptedKey) && bus(i) == BusOk
    ensures ResetFrom(m, t, key, bus, i) == ResetFrom(WriteField(m, i, ResetBytes(t, i, key), BusOk).mem, t, key, bus, i + 1)
  {
  }

  /** Writing a field's reset bytes extends the stored prefix of the
      default image by that field. */
  lemma ResetWriteStep(m: Memory, mem: Memory, image: seq<uint8>, t: Table, key: seq<uint8>, d: FramData, i: nat)
    requires Holds(m) && Holds(mem) && i < FieldCount && |key| == Width(EncryptedKey)
    requires d == DefaultRecord(key) && ImageOf(image, d)
    requires Stored(m, image, mem, WidthsBelow(i))
    ensures Stored(WriteField(m, i, ResetBytes(t, i, key), BusOk).mem, image, mem, WidthsBelow(i + 1))
  {
    ResetBytesAreDefault(t, i, key);
    WriteNextField(m, image, mem, i, ResetBytes(t, i, key));
  }

  /** RESET under either table: when every transfer succeeds the store holds
      the default record's image. */
  lemma ResetRestoresDefaults(mem: Memory, t: Table, key: seq<uint8>, bus: nat -> Bus)
    requires Holds(mem) && |key| == Width(EncryptedKey)
    requires forall k :: bus(k) == BusOk
    ensures ResetFrom(mem, t, key, bus, 0)[..LayoutSize] == Encode(DefaultRecord(key))
  {
    var image := Encode(DefaultRecord(key));
    EncodeIsImage(DefaultRecord(key));
    StoredStart(mem, image);
    ResetFromStores(mem, mem, image, t, key, DefaultRecord(key), bus, 0);
    StoredAll(ResetFrom(mem, t, key, bus, 0), image, mem);
  }

  /** The preset record as the store holds it after a preset: the preset's
      members, except the VBULK threshold, which preset_fram_by_type never
      writes. */
  function PresetRecord(p: nat, vbulk: uint8): (d: FramData)
    requires p <= PresetGenerator
    ensures WellFormed(d)
  {
    Preset(p).(vbulkThresh := vbulk)
  }

  /** The preset record differs from the preset in the threshold alone. */
  lemma PresetRecordMembers(p: nat, vbulk: uint8, f: Field)
    requires p <= PresetGenerator
    ensures f != VbulkThresh ==> MemberBytes(PresetRecord(p, vbulk), f) == MemberBytes(Preset(p), f)
    ensures f == VbulkThresh ==> MemberBytes(PresetRecord(p, vbulk), f) == [vbulk]
  {
  }

  /** preset_fram_by_type from field i on: every member but the VBULK
      threshold, in field order. */
  function PresetFrom(mem: Memory, d: FramData, bus: nat -> Bus, i: nat): (r: Memory)
    requires Holds(mem) && WellFormed(d) && i <= FieldCount
    ensures |r| == |mem|
    ensures r[LayoutSize..] == mem[LayoutSize..]
    decreases FieldCount - i
  {
    if i == FieldCount then mem
    else if i == Index(VbulkThresh) then PresetFrom(mem, d, bus, i + 1)
    else
      var m := WriteField(mem, i, MemberBytes(d, FieldAt(i)), bus(i)).mem;
      SliceOutside(mem, m, Lookup(i).0, Lookup(i).1, LayoutSize, |mem|);
      PresetFrom(m, d, bus, i + 1)
  }

  /** preset_fram_by_type: a preset number past the generator does nothing. */
  function PresetWrites(mem: Memory, presetType: uint8, bus: nat -> Bus): (r: Memory)
    requires Holds(mem)
    ensures |r| == |mem|
    ensures r[LayoutSize..] == mem[LayoutSize..]
    ensures presetType as nat > PresetGenerator ==> r == mem
  {
    if presetType as nat <= PresetGenerator then PresetFrom(mem, Preset(presetType as nat), bus, 0)
    else mem
  }

  /** Writing a preset member other than the threshold extends the stored
      prefix of the preset image by that field. */
  lemma PresetWriteStep(m: Memory, mem: Memory, image: seq<uint8>, p: nat, i: nat)
    requires Holds(m) && Holds(mem) && p <= PresetGenerator && i < FieldCount && i != Index(VbulkThresh)
    requires ImageOf(image, PresetRecord(p, Threshold(mem)))
    requires Stored(m, image, mem, WidthsBelow(i))
    ensures Stored(WriteField(m, i, MemberBytes(Preset(p), FieldAt(i)), BusOk).mem, image, mem, WidthsBelow(i + 1))
  {
    var f := FieldAt(i);
    PresetRecordMembers(p, Threshold(mem), f);
    assert Slot(image, Packed, f) == MemberBytes(Preset(p), f);
    assert MemberBytes(Preset(p), f)[..Width(f)] == MemberBytes(Preset(p), f);
    WriteNextField(m, image, mem, i, MemberBytes(Preset(p), f));
  }

  /** The preset image's threshold is the store's own, so skipping that
      field still extends the stored prefix. */
  lemma PresetSkipStep(m: Memory, mem: Memory, image: seq<uint8>, p: nat)
    requires Holds(m) && Holds(mem) && p <= PresetGenerator
    requires ImageOf(image, PresetRecord(p, Threshold(mem)))
    requires Stored(m, image, mem, WidthsBelow(Index(VbulkThresh)))
    ensures Stored(m, image, mem, WidthsBelow(Index(VbulkThresh) + 1))
  {
    PresetRecordMembers(p, Threshold(mem), VbulkThresh);
    assert Slot(image, Packed, VbulkThresh) == Slot(mem, Packed, VbulkThresh);
    StoreSkipField(m, image, mem, Index(VbulkThresh));
  }

  /** With every transfer succeeding, the preset writes from field i on
      complete the image of preset p with the store's own threshold byte. */
  lemma {:induction false} PresetFromStores(m: Memory, mem: Memory, image: seq<uint8>, p: nat, bus: nat -> Bus, i: nat)
    requires Holds(m) && Holds(mem) && p <= PresetGenerator && i <= FieldCount
    requires forall k :: bus(k) == BusOk
    requires ImageOf(image, PresetRecord(p, Threshold(mem)))
    requires Stored(m, image, mem, WidthsBelow(i))
    ensures Stored(PresetFrom(m, Preset(p), bus, i), image, mem, WidthsBelow(FieldCount))
    decreases FieldCount - i
  {
    if i == Index(VbulkThresh) {
      PresetSkipStep(m, mem, image, p);
      PresetFromStores(m, mem, image, p, bus, i + 1);
    } else if i < FieldCount {
      assert bus(i) == BusOk;
      var m2 := WriteField(m, i, MemberBytes(Preset(p), FieldAt(i)), BusOk).mem;
      PresetFromUnfold(m, p, bus, i);
      PresetWriteStep(m, mem, image, p, i);
      PresetFromStores(m2, mem, image, p, bus, i + 1);
    }
  }

  /** One step of the preset writes, at a field other than the threshold. */
  lemma PresetFromUnfold(m: Memory, p: nat, bus: nat -> Bus, i: nat)
    requires Holds(m) && p <= PresetGenerator && i < FieldCount && i != Index(VbulkThresh)
    requires bus(i) == BusOk
    ensures PresetFrom(m, Preset(p), bus, i)
            == PresetFrom(WriteField(m, i, MemberBytes(Preset(p), FieldAt(i)), BusOk).mem, Preset(p), bus, i + 1)
  {
  }

  /** PRESET p with every transfer succeeding: the store holds preset p's
      image with its VBULK threshold byte left as it was. */
  lemma PresetStores(mem: Memory, p: uint8, bus: nat -> Bus)
    requires Holds(mem) && p as nat <= PresetGenerator
    requires forall k :: bus(k) == BusOk
    ensures PresetWrites(mem, p, bus)[..LayoutSize] == Encode(PresetRecord(p as nat, Threshold(mem)))
  {
    var d := PresetRecord(p as nat, Threshold(mem));
    var image := Encode(d);
    EncodeIsImage(d);
    StoredStart(mem, image);
    PresetFromStores(mem, mem, image, p as nat, bus, 0);
    StoredAll(PresetWrites(mem, p, bus), image, mem);
  }

  /** A write to any field but the threshold leaves the threshold byte. */
  lemma WriteKeepsThreshold(m: Memory, i: nat, data: seq<uint8>, bus: Bus)
    requires Holds(m) && i < FieldCount && i != Index(VbulkThresh) && |data| >= Width(FieldAt(i))
    ensures |data| >= Lookup(i).1
    ensures Threshold(WriteField(m, i, data, bus).mem) == Threshold(m)
  {
    LookupField(i);
    var f := FieldAt(i);
    var m2 := WriteField(m, i, data, bus).mem;
    FieldsDisjoint(f, VbulkThresh);
    SliceOutside(m, m2, Addr(f), Width(f), Addr(VbulkThresh), Addr(VbulkThresh) + 1);
    assert m2[Addr(VbulkThresh)] == m2[Addr(VbulkThresh)..Addr(VbulkThresh) + 1][0];
    assert m[Addr(VbulkThresh)] == m[Addr(VbulkThresh)..Addr(VbulkThresh) + 1][0];
  }

  /** The preset writes from field i on never touch the threshold byte,
      whatever the transfers do. */
  lemma {:induction false} PresetFromKeepsThreshold(m: Memory, d: FramData, bus: nat -> Bus, i: nat)
    requires Holds(m) && WellFormed(d) && i <= FieldCount
    ensures Threshold(PresetFrom(m, d, bus, i)) == Threshold(m)
    decreases FieldCount - i
  {
    if i == Index(VbulkThresh) {
      PresetFromKeepsThreshold(m, d, bus, i + 1);
    } else if i < FieldCount {
      var m2 := WriteField(m, i, MemberBytes(d, FieldAt(i)), bus(i)).mem;
      assert PresetFrom(m, d, bus, i) == PresetFrom(m2, d, bus, i + 1);
      WriteKeepsThreshold(m, i, MemberBytes(d, FieldAt(i)), bus(i));
      PresetFromKeepsThreshold(m2, d, bus, i + 1);
    }
  }

  /** PRESET leaves the VBULK threshold byte as it was. */
  lemma PresetKeepsThreshold(mem: Memory, p: uint8, bus: nat -> Bus)
    requires Holds(mem)
    ensures Threshold(PresetWrites(mem, p, bus)) == Threshold(mem)
  {
    if p as nat <= PresetGenerator {
      PresetFromKeepsThreshold(mem, Preset(p as nat), bus, 0);
    }
  }

  /** Applying a preset twice is applying it once. */
  lemma PresetIdempotent(mem: Memory, p: uint8, bus: nat -> Bus)
    requires Holds(mem) && p as nat <= PresetGenerator
    requires forall k :: bus(k) == BusOk
    ensures PresetWrites(PresetWrites(mem, p, bus), p, bus) == PresetWrites(mem, p, bus)
  {
    var r := PresetWrites(mem, p, bus);
    PresetKeepsThreshold(mem, p, bus);
    PresetStores(mem, p, bus);
    PresetStores(r, p, bus);
    PrefixAndTail(PresetWrites(r, p, bus), r);
  }

  /** dump_fram: the bulk read fills the RAM record laid out by `p`; a failed
      read leaves the record as it was. */
  function Dump(mem: Memory, ram: FramData, bus: Bus, p: Placement): (r: FramData)
    requires Holds(mem)
    ensures !(bus.ready && bus.transferOk) ==> r == ram
    ensures bus == BusOk && p == Packed ==> WellFormed(r) && Encode(r) == mem[..LayoutSize]
  {
    match ReadData(mem, bus)
    case ReadOk(bytes) =>
      var d := Decode(bytes, p);
      if p == Packed then
        EncodeDecode(bytes);
        assert bytes[..LayoutSize] == mem[..LayoutSize];
        d
      else d
    case ReadFailed => ram
  }

  /** A store holding a record's image dumps to that record. */
  lemma DumpOfImage(mem: Memory, ram: FramData, d: FramData)
    requires Holds(mem) && WellFormed(d) && mem[..LayoutSize] == Encode(d)
    ensures Dump(mem, ram, BusOk, Packed) == d
  {
    var bytes := mem[..BulkSize];
    assert bytes[..LayoutSize] == mem[..LayoutSize];
    DecodeOfImage(bytes, d);
  }

  /** A store holding a record's image dumps, under layout `p`, to what that
      layout loads of it. */
  lemma DumpLoads(mem: Memory, ram: FramData, d: FramData, p: Placement)
    requires Holds(mem) && WellFormed(d) && mem[..LayoutSize] == Encode(d)
    ensures Dump(mem, ram, BusOk, p) == Loaded(d, mem, p)
  {
    var bytes := mem[..BulkSize];
    assert bytes[..LayoutSize] == mem[..LayoutSize];
    DecodeLoads(bytes, d, p);
    LoadedOfPrefix(d, mem, p);
  }

  /** The four bytes two past the negative counter's FRAM address: the
      upper half of that counter and the lower half of the positive one. */
  function ShiftedNegativeCounter(bytes: seq<uint8>): nat
    requires |bytes| >= BulkSize
  {
    LeValue(bytes[Addr(NegEvtCtr) + 2..Addr(PosEvtCtr) + 2])
  }

  /** Those bytes lie within the bulk read. */
  lemma ShiftedWithinBulk(mem: Memory)
    requires Holds(mem)
    ensures ShiftedNegativeCounter(mem[..BulkSize]) == ShiftedNegativeCounter(mem)
  {
    assert mem[..BulkSize][Addr(NegEvtCtr) + 2..Addr(PosEvtCtr) + 2] == mem[Addr(NegEvtCtr) + 2..Addr(PosEvtCtr) + 2];
  }

  /** Decoding with the C struct's layout reads the negative counter from
      the shifted bytes. */
  lemma StructDecodeNegativeCounter(bytes: seq<uint8>)
    requires |bytes| >= BulkSize
    ensures Decode(bytes, CStruct).negativeEventsCounter == ShiftedNegativeCounter(bytes)
  {
    StructSlotOfNegativeCounter(bytes);
    DecodeSlot(bytes, CStruct, NegEvtCtr);
    NumericMemberBytes(Decode(bytes, CStruct), NegEvtCtr);
  }

  /** The dump as written reads the negative counter from those bytes,
      where the C struct's padding puts it. */
  lemma DumpAsWrittenNegativeCounter(mem: Memory, ram: FramData)
    requires Holds(mem)
    ensures Dump(mem, ram, BusOk, CStruct).negativeEventsCounter == ShiftedNegativeCounter(mem)
  {
    StructDecodeNegativeCounter(mem[..BulkSize]);
    ShiftedWithinBulk(mem);
  }

  datatype Outcome = Outcome(mem: Memory, ram: FramData, test: TestOutcome, command: Command)

  /** The store after process_command_fn's switch, with the build's table:
      SET, CLEAR, RESET, PRESET and the FRAM test write it; GET, DUMP and
      unknown kinds leave it alone. */
  function Store(b: Build, c: Command, mem: Memory, key: seq<uint8>, stray: FramInfo, bus: nat -> Bus): (m: Memory)
    requires Holds(mem) && ValidCommand(c) && |key| == Width(EncryptedKey)
    ensures |m| == |mem| && m[LayoutSize..] == mem[LayoutSize..]
    ensures c.kind == CommandGet || c.kind == CommandDump || c.kind > CommandTests ==> m == mem
  {
    if c.kind == CommandSet then
      var m := SetField(mem, b.table, stray, c, bus(0));
      SliceOutside(mem, m, Lookup(U8(c.fieldIndex)).0, Lookup(U8(c.fieldIndex)).1, LayoutSize, |mem|);
      m
    else if c.kind == CommandClear then
      var m := ClearField(mem, b.table, stray, c, bus(0));
      SliceOutside(mem, m, Lookup(U8(c.fieldIndex)).0, Lookup(U8(c.fieldIndex)).1, LayoutSize, |mem|);
      m
    else if c.kind == CommandReset then ResetFrom(mem, b.table, key, bus, 0)
    else if c.kind == CommandPreset then PresetWrites(mem, U8(c.fieldIndex), bus)
    else if c.kind == CommandTests then RunTest(mem, U8(c.fieldIndex), bus).1
    else mem
  }

  /** process_command_fn: the switch, then the record cleared for the next
      command. RESET has no break and runs on into DUMP, so RESET, DUMP and
      PRESET end with a dump of the store into the RAM record, laid out as
      the build lays it out. */
  function Process(b: Build, c: Command, mem: Memory, ram: FramData, key: seq<uint8>, stray: FramInfo, bus: nat -> Bus): (r: Outcome)
    requires Holds(mem) && ValidCommand(c) && |key| == Width(EncryptedKey)
    ensures r.command == Idle()
    ensures |r.mem| == |mem| && r.mem[LayoutSize..] == mem[LayoutSize..]
    ensures c.kind == CommandGet || c.kind == CommandDump || c.kind > CommandTests ==> r.mem == mem
    ensures c.kind == CommandReset || c.kind == CommandDump || c.kind == CommandPreset ==>
              r.ram == Dump(r.mem, ram, bus(DumpBus), b.layout)
    ensures !(c.kind == CommandReset || c.kind == CommandDump || c.kind == CommandPreset) ==> r.ram == ram
    ensures r.test != NoTest ==> c.kind == CommandTests
  {
    var m := Store(b, c, mem, key, stray, bus);
    var dumps := c.kind == CommandReset || c.kind == CommandDump || c.kind == CommandPreset;
    var test := if c.kind == CommandTests then RunTest(mem, U8(c.fieldIndex), bus).0 else NoTest;
    Outcome(m, if dumps then Dump(m, ram, bus(DumpBus), b.layout) else ram, test, Idle())
  }

  /** RESET's and PRESET's writes are the whole of their effect on the store. */
  lemma StoreResetPreset(b: Build, c: Command, mem: Memory, key: seq<uint8>, stray: FramInfo, bus: nat -> Bus)
    requires Holds(mem) && ValidCommand(c) && |key| == Width(EncryptedKey)
    ensures c.kind == CommandReset ==> Store(b, c, mem, key, stray, bus) == ResetFrom(mem, b.table, key, bus, 0)
    ensures c.kind == CommandPreset ==> Store(b, c, mem, key, stray, bus) == PresetWrites(mem, U8(c.fieldIndex), bus)
  {
  }

  /** SET's and CLEAR's handler is the whole of their effect on the store. */
  lemma StoreSetClear(b: Build, c: Command, mem: Memory, key: seq<uint8>, stray: FramInfo, bus: nat -> Bus)
    requires Holds(mem) && ValidCommand(c) && |key| == Width(EncryptedKey)
    ensures c.kind == CommandSet ==> Store(b, c, mem, key, stray, bus) == SetField(mem, b.table, stray, c, bus(0))
    ensures c.kind == CommandClear ==> Store(b, c, mem, key, stray, bus) == ClearField(mem, b.table, stray, c, bus(0))
  {
  }

  /** The store an outcome carries is the switch's. */
  lemma ProcessStore(b: Build, c: Command, mem: Memory, ram: FramData, key: seq<uint8>, stray: FramInfo, bus: nat -> Bus)
    requires Holds(mem) && ValidCommand(c) && |key| == Width(EncryptedKey)
    ensures Process(b, c, mem, ram, key, stray, bus).mem == Store(b, c, mem, key, stray, bus)
  {
  }

  /** The two tables differ only from VBULK_THRESH on, so SET and CLEAR of
      the fields before it, the only ones the shell's setters reach, do the
      same under either table. */
  lemma TablesAgreeBeforeThreshold(mem: Memory, stray: FramInfo, c: Command, bus: Bus)
    requires Holds(mem) && ValidCommand(c) && 0 <= c.fieldIndex < Index(VbulkThresh) as int
    ensures SetField(mem, InfoAsWrittenTable, stray, c, bus) == SetField(mem, InfoTable, stray, c, bus)
    ensures ClearField(mem, InfoAsWrittenTable, stray, c, bus) == ClearField(mem, InfoTable, stray, c, bus)
  {
    InfoAsWrittenShifted(c.fieldIndex as nat);
    assert Entry(InfoAsWrittenTable, c.fieldIndex, stray) == Entry(InfoTable, c.fieldIndex, stray);
  }

  /** Under either build, SET of a field before VBULK_THRESH has the effect
      the corrected table gives it. */
  lemma SetBeforeThreshold(b: Build, c: Command, mem: Memory, ram: FramData, key: seq<uint8>, stray: FramInfo, bus: nat -> Bus)
    requires Holds(mem) && ValidCommand(c) && |key| == Width(EncryptedKey) && c.kind == CommandSet
    requires 0 <= c.fieldIndex < Index(VbulkThresh) as int
    ensures Process(b, c, mem, ram, key, stray, bus).mem == SetField(mem, InfoTable, stray, c, bus(0))
  {
    ProcessStore(b, c, mem, ram, key, stray, bus);
    StoreSetClear(b, c, mem, key, stray, bus);
    if b.table == InfoAsWrittenTable {
      TablesAgreeBeforeThreshold(mem, stray, c, bus(0));
    }
  }

  /** RESET with every transfer succeeding, under either build: the store
      holds the default image, and the dump it runs on into loads that
      image into RAM, which gives the default record back only with the
      packed layout. */
  lemma ProcessReset(b: Build, c: Command, mem: Memory, ram: FramData, key: seq<uint8>, stray: FramInfo, bus: nat -> Bus)
    requires Holds(mem) && ValidCommand(c) && |key| == Width(EncryptedKey) && c.kind == CommandReset
    requires forall k :: bus(k) == BusOk
    ensures var r := Process(b, c, mem, ram, key, stray, bus);
            r.mem[..LayoutSize] == Encode(DefaultRecord(key)) &&
            r.ram == Loaded(DefaultRecord(key), r.mem, b.layout)
    ensures b.layout == Packed ==> Process(b, c, mem, ram, key, stray, bus).ram == DefaultRecord(key)
  {
    StoreResetPreset(b, c, mem, key, stray, bus);
    ProcessStore(b, c, mem, ram, key, stray, bus);
    assert bus(DumpBus) == BusOk;
    ResetDumpsDefaults(mem, ram, key, bus, b.table, b.layout);
  }

  /** The dump after a complete RESET loads the default image. */
  lemma ResetDumpsDefaults(mem: Memory, ram: FramData, key: seq<uint8>, bus: nat -> Bus, t: Table, p: Placement)
    requires Holds(mem) && |key| == Width(EncryptedKey)
    requires forall k :: bus(k) == BusOk
    ensures var m := ResetFrom(mem, t, key, bus, 0);
            m[..LayoutSize] == Encode(DefaultRecord(key)) &&
            Dump(m, ram, BusOk, p) == Loaded(DefaultRecord(key), m, p)
  {
    ResetRestoresDefaults(mem, t, key, bus);
    DumpLoads(ResetFrom(mem, t, key, bus, 0), ram, DefaultRecord(key), p);
  }

  /** The firmware's RESET, every transfer succeeding: its dump reads the
      negative counter as 0, but the positive counter from the default's
      upper half and the two bytes past the layout, which nothing writes;
      so whenever byte 54 is not 0 the RAM record is not the default one. */
  lemma ResetPositiveCounterAsBuilt(c: Command, mem: Memory, ram: FramData, key: seq<uint8>, stray: FramInfo, bus: nat -> Bus)
    requires Holds(mem) && ValidCommand(c) && |key| == Width(EncryptedKey) && c.kind == CommandReset
    requires forall k :: bus(k) == BusOk
    ensures var r := Process(AsBuilt, c, mem, ram, key, stray, bus);
            r.ram.negativeEventsCounter == 0 &&
            r.ram.positiveEventsCounter == mem[LayoutSize] as int * 0x1_0000 + mem[LayoutSize + 1] as int * 0x100_0000
    ensures mem[LayoutSize] != 0 ==> Process(AsBuilt, c, mem, ram, key, stray, bus).ram != DefaultRecord(key)
  {
    var r := Process(AsBuilt, c, mem, ram, key, stray, bus);
    ProcessReset(AsBuilt, c, mem, ram, key, stray, bus);
    DefaultLoadedAsStruct(mem, r.mem, r.ram, key);
  }

  /** What the struct read loads from a store that holds the default image
      and otherwise what `mem` held: a negative counter of 0 and a positive
      counter made of the two bytes past the layout, so not the default
      record when the first of them is not 0. */
  lemma DefaultLoadedAsStruct(mem: Memory, m: Memory, loaded: FramData, key: seq<uint8>)
    requires Holds(mem) && Holds(m) && |key| == Width(EncryptedKey) && m[..LayoutSize] == Encode(DefaultRecord(key))
    requires m[LayoutSize..] == mem[LayoutSize..] && loaded == Loaded(DefaultRecord(key), m, CStruct)
    ensures loaded.negativeEventsCounter == 0 &&
            loaded.positiveEventsCounter == mem[LayoutSize] as int * 0x1_0000 + mem[LayoutSize + 1] as int * 0x100_0000
    ensures mem[LayoutSize] != 0 ==> loaded != DefaultRecord(key)
  {
    DefaultCounterBytes(m, key);
    LeValueFour(0, 0, 0, 0);
    LeValueFour(0, 0, m[LayoutSize], m[LayoutSize + 1]);
    assert m[LayoutSize] == m[LayoutSize..][0] == mem[LayoutSize..][0];
    assert m[LayoutSize + 1] == m[LayoutSize..][1] == mem[LayoutSize..][1];
  }

  /** In a store holding the default image, the struct dump's counter bytes
      are zero but for the two past the layout. */
  lemma DefaultCounterBytes(m: Memory, key: seq<uint8>)
    requires Holds(m) && |key| == Width(EncryptedKey) && m[..LayoutSize] == Encode(DefaultRecord(key))
    ensures StructNegBytes(m) == [0, 0, 0, 0]
    ensures StructPosBytes(m) == [0, 0, m[LayoutSize], m[LayoutSize + 1]]
  {
    assert Addr(NegEvtCtr) == 46 && Addr(PosEvtCtr) == 50;
    DefaultCounterByte(m, key, NegEvtCtr, 2);
    DefaultCounterByte(m, key, NegEvtCtr, 3);
    DefaultCounterByte(m, key, PosEvtCtr, 0);
    DefaultCounterByte(m, key, PosEvtCtr, 1);
    DefaultCounterByte(m, key, PosEvtCtr, 2);
    DefaultCounterByte(m, key, PosEvtCtr, 3);
    assert StructNegBytes(m) == [m[48], m[49], m[50], m[51]];
    assert StructPosBytes(m) == [m[52], m[53], m[LayoutSize], m[LayoutSize + 1]];
  }

  /** Every byte of a polarity counter in the default image is zero. */
  lemma DefaultCounterByte(m: Memory, key: seq<uint8>, f: Field, j: nat)
    requires Holds(m) && |key| == Width(EncryptedKey) && m[..LayoutSize] == Encode(DefaultRecord(key))
    requires (f == NegEvtCtr || f == PosEvtCtr) && j < 4
    ensures Addr(f) + j < LayoutSize && m[Addr(f) + j] == 0
  {
    EncodeByte(DefaultRecord(key), f, j);
    assert LeBytes(0, 4) == [0, 0, 0, 0];
    assert m[Addr(f) + j] == m[..LayoutSize][Addr(f) + j];
  }

  /** The little-endian value of four bytes. */
  lemma LeValueFour(a: uint8, b: uint8, c: uint8, d: uint8)
    ensures LeValue([a, b, c, d]) == a as int + b as int * 0x100 + c as int * 0x1_0000 + d as int * 0x100_0000
  {
    assert [a, b, c, d][1..] == [b, c, d];
    assert [b, c, d][1..] == [c, d];
    assert [c, d][1..] == [d];
    assert [d][1..] == [];
    assert LeValue([d]) == d as int;
    assert LeValue([c, d]) == c as int + 0x100 * d as int;
    assert LeValue([b, c, d]) == b as int + 0x100 * (c as int + 0x100 * d as int);
  }

  /** PRESET with every transfer succeeding, under either build: the dump
      loads the preset's image with the store's threshold byte, which is
      the preset with that byte only with the packed layout. */
  lemma ProcessPreset(b: Build, c: Command, mem: Memory, ram: FramData, key: seq<uint8>, stray: FramInfo, bus: nat -> Bus)
    requires Holds(mem) && ValidCommand(c) && |key| == Width(EncryptedKey) && c.kind == CommandPreset
    requires U8(c.fieldIndex) as nat <= PresetGenerator
    requires forall k :: bus(k) == BusOk
    ensures var r := Process(b, c, mem, ram, key, stray, bus);
            r.ram == Loaded(PresetRecord(U8(c.fieldIndex) as nat, Threshold(mem)), r.mem, b.layout)
    ensures b.layout == Packed ==>
              Process(b, c, mem, ram, key, stray, bus).ram == PresetRecord(U8(c.fieldIndex) as nat, Threshold(mem))
  {
    StoreResetPreset(b, c, mem, key, stray, bus);
    ProcessStore(b, c, mem, ram, key, stray, bus);
    assert bus(DumpBus) == BusOk;
    var m := PresetWrites(mem, U8(c.fieldIndex), bus);
    PresetStores(mem, U8(c.fieldIndex), bus);
    DumpLoads(m, ram, PresetRecord(U8(c.fieldIndex) as nat, Threshold(mem)), b.layout);
  }
}
