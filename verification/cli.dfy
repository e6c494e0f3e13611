/**
 * The UART shell commands: each handler zeroes the command record, fills it
 * from its arguments and either submits it to the command processor or, when
 * the argument is out of bounds, zeroes it again and submits nothing.
 *
 * An argument is modelled by the number its leading decimal digits denote
 * (`value`, 0 when there are none) and by what `atoi` returned for it. C
 * leaves `atoi` undefined when the number does not fit in an `int`, so the
 * model fixes `atoi` only for such numbers (`AtoiAgrees`). `strtoull` is
 * written out: a negative number is negated modulo 2^64, and a magnitude past
 * ULLONG_MAX gives ULLONG_MAX.
 */
module Cli {
  import opened MachineInt
  import opened FramLayout
  import opened FramRecord
  import opened FramStore
  import opened FramImage
  import opened ConfigTable
  import opened ConfigCommands

  const ULongLongMax: nat := 0xFFFF_FFFF_FFFF_FFFF

  /** A shell argument: the number it spells and atoi's result for it. */
  datatype Arg = Arg(value: int, atoi: int32)

  predicate FitsInt(x: int)
  {
    -0x8000_0000 <= x < 0x8000_0000
  }

  /** atoi returns the number whenever the number is an int. */
  predicate AtoiAgrees(a: Arg)
  {
    FitsInt(a.value) ==> a.atoi == a.value
  }

  /** strtoull(s, NULL, 10) for a string spelling `value`. */
  function Strtoull(value: int): (r: nat)
    ensures r <= ULongLongMax
    ensures 0 <= value <= ULongLongMax ==> r == value
    ensures -0x8000_0000_0000_0000 <= value < 0 ==> r >= 0x8000_0000_0000_0000
  {
    if value > ULongLongMax || value < -(ULongLongMax as int) then ULongLongMax
    else value % 0x1_0000_0000_0000_0000
  }

  /** What a handler leaves: the command record, and whether it handed the
      record to the command processor. */
  datatype Submission = Submission(record: Command, submitted: bool)

  /** A refused argument: the record is zeroed and nothing is submitted. */
  function Refused(): (r: Submission)
    ensures !r.submitted && r.record == Idle()
  {
    Submission(Idle(), false)
  }

  /** A SET record for field k carrying `bytes`, the rest of the buffer zero. */
  function SetRecord(k: nat, bytes: seq<uint8>, len: uint8): (c: Command)
    requires k < FieldCount && |bytes| <= DataCapacity
    ensures ValidCommand(c) && c.kind == CommandSet && c.fieldIndex == k && c.dataLen == len
    ensures c.data[..|bytes|] == bytes
    ensures forall j | |bytes| <= j < DataCapacity :: c.data[j] == 0
  {
    var c := Command(CommandSet, k, len, bytes + Fill(0, DataCapacity - |bytes|));
    assert c.data[..|bytes|] == bytes;
    c
  }

  // ---------------------------------------------------------------------
  // Numeric setters: subcommands 0 .. 8 and 10 of `s`
  // ---------------------------------------------------------------------

  predicate IsNumericSetter(k: nat)
  {
    k <= 10 && k != 9
  }

  /** The data_len each numeric setter sends. */
  function SetterWidth(k: nat): (w: nat)
    requires IsNumericSetter(k)
  {
    if k <= 1 then 4
    else if k == 2 || k == 3 || k == 10 then 1
    else 2
  }

  /** The bound each numeric setter checks strtoull's result against. */
  function SetterMax(k: nat): (m: uint32)
    requires IsNumericSetter(k)
  {
    if k == 0 then EventCounterMax
    else if k == 1 then SerialNumberMax
    else if k == 2 then DeviceTypeMaxValue as uint32
    else if k == 3 then AdvIntervalMax
    else if k == 4 then AdvEventsMax
    else if k == 5 then EventSleepMax
    else if k == 6 then PolaritySleepMax
    else if k == 7 then Isl9122VoltsMax
    else if k == 8 then PolarityMethodMax
    else TxPowerMax
  }

  /** Each setter's bound fits in the bytes it sends, which are at most four. */
  lemma SetterMaxFits(k: nat)
    requires IsNumericSetter(k)
    ensures SetterWidth(k) <= 4 && SetterMax(k) < Pow256(SetterWidth(k))
  {
    Pow256Values();
  }

  /** `data[j] = a >> 8j` for j < w, each result narrowed to a byte. */
  function ShiftedBytes(a: int, w: nat): (bs: seq<uint8>)
    ensures |bs| == w
  {
    seq(w, j requires 0 <= j < w => U8(Asr(a, 8 * j)))
  }

  /** The shifted bytes are the little-endian store of a, negative or not. */
  lemma ShiftedBytesAreLe(a: int, w: nat)
    ensures ShiftedBytes(a, w) == LeBytes(a, w)
  {
    forall j | 0 <= j < w
      ensures ShiftedBytes(a, w)[j] == LeBytes(a, w)[j]
    {
      ShiftedByte(a, w, j);
    }
  }

  /** The numeric setter handlers as written: the bytes come from atoi, the
      bound check from strtoull. */
  function NumericSetterAsWritten(k: nat, arg: Arg): (r: Submission)
    requires IsNumericSetter(k)
    ensures r.submitted <==> Strtoull(arg.value) <= SetterMax(k)
    ensures !r.submitted ==> r.record == Idle()
    ensures r.submitted ==> r.record == SetRecord(k, LeBytes(arg.atoi, SetterWidth(k)), SetterWidth(k) as uint8)
  {
    var w := SetterWidth(k);
    ShiftedBytesAreLe(arg.atoi, w);
    if Strtoull(arg.value) <= SetterMax(k) then Submission(SetRecord(k, ShiftedBytes(arg.atoi, w), w as uint8), true)
    else Refused()
  }

  /** The numeric setters with the bytes taken from the value the bound was
      checked on. */
  function NumericSetter(k: nat, arg: Arg): (r: Submission)
    requires IsNumericSetter(k)
    ensures r.submitted <==> Strtoull(arg.value) <= SetterMax(k)
    ensures !r.submitted ==> r.record == Idle()
    ensures r.submitted ==> r.record == SetRecord(k, LeBytes(Strtoull(arg.value), SetterWidth(k)), SetterWidth(k) as uint8)
  {
    var w := SetterWidth(k);
    var v := Strtoull(arg.value);
    ShiftedBytesAreLe(v, w);
    if v <= SetterMax(k) then Submission(SetRecord(k, ShiftedBytes(v, w), w as uint8), true)
    else Refused()
  }

  /** The value SET assembles from a record carrying `bytes` as its data_len
      bytes is the little-endian reading of them. */
  lemma SetValueOfRecord(k: nat, bytes: seq<uint8>)
    requires k < FieldCount && |bytes| <= 4
    ensures SetValue(SetRecord(k, bytes, |bytes| as uint8).data, |bytes| as uint8) == LeValue(bytes)
  {
  }

  /** For an argument atoi can represent, a numeric setter submits exactly
      the values from 0 to its bound, and SET reassembles the value typed. */
  lemma SetterRoundTrip(k: nat, arg: Arg)
    requires IsNumericSetter(k) && FitsInt(arg.value) && AtoiAgrees(arg)
    ensures NumericSetterAsWritten(k, arg).submitted <==> 0 <= arg.value <= SetterMax(k) as int
    ensures var c := NumericSetterAsWritten(k, arg).record;
            NumericSetterAsWritten(k, arg).submitted ==> SetValue(c.data, c.dataLen) == arg.value
  {
    var w := SetterWidth(k);
    SetterMaxFits(k);
    if NumericSetterAsWritten(k, arg).submitted {
      SetValueOfRecord(k, LeBytes(arg.atoi, w));
      LeRoundTrip(arg.value, w);
    }
  }

  /** With the bytes taken from strtoull, SET reassembles the very value the
      bound admitted, for every argument. */
  lemma SetterRoundTripCorrected(k: nat, arg: Arg)
    requires IsNumericSetter(k)
    ensures var c := NumericSetter(k, arg).record;
            NumericSetter(k, arg).submitted ==> SetValue(c.data, c.dataLen) == Strtoull(arg.value)
  {
    var w := SetterWidth(k);
    SetterMaxFits(k);
    if NumericSetter(k, arg).submitted {
      SetValueOfRecord(k, LeBytes(Strtoull(arg.value), w));
      LeRoundTrip(Strtoull(arg.value), w);
    }
  }

  /** The two agree on every argument atoi can represent. */
  lemma SetterAgrees(k: nat, arg: Arg)
    requires IsNumericSetter(k) && FitsInt(arg.value) && AtoiAgrees(arg)
    ensures NumericSetterAsWritten(k, arg) == NumericSetter(k, arg)
  {
  }

  /** `s 1 3000000000`: strtoull admits the serial number, but atoi cannot
      represent it; with a C library whose atoi saturates, as strtol does on
      a 32-bit target, the record carries 0x7FFFFFFF and SET stores
      2147483647. The corrected setter stores 3000000000. */
  lemma SerialAboveIntMax()
    ensures var arg := Arg(3_000_000_000, 0x7FFF_FFFF);
            var c := NumericSetterAsWritten(1, arg).record;
            AtoiAgrees(arg) && NumericSetterAsWritten(1, arg).submitted &&
            SetValue(c.data, c.dataLen) == 0x7FFF_FFFF
    ensures var c := NumericSetter(1, Arg(3_000_000_000, 0x7FFF_FFFF)).record;
            SetValue(c.data, c.dataLen) == 3_000_000_000
  {
    Pow256Values();
    SetValueOfRecord(1, LeBytes(0x7FFF_FFFF, 4));
    LeRoundTrip(0x7FFF_FFFF, 4);
    SetterRoundTripCorrected(1, Arg(3_000_000_000, 0x7FFF_FFFF));
  }

  /** Subcommand k sets field k: the numeric setters check the field's own
      maximum and send at least the field's bytes; 9 is the key and 11 the
      name. Fields 12 .. 14 have no setter. */
  lemma SetterTargetsField(k: nat)
    requires k <= 11
    ensures IsNumericSetter(k) ==>
              Info(FieldAt(k)).format == DataNumber && SetterMax(k) == Info(FieldAt(k)).maxValue &&
              Width(FieldAt(k)) <= SetterWidth(k)
    ensures k == 9 ==> FieldAt(k) == EncryptedKey
    ensures k == 11 ==> FieldAt(k) == Name
  {
  }

  /** A numeric SET typed at the shell, run with every transfer succeeding:
      a value the CLI admits and the table's minimum admits is stored and
      reads back as typed; one below the minimum passes the CLI, which
      checks only the maximum, and leaves the store as it was. */
  lemma CliSetStores(b: Build, k: nat, arg: Arg, mem: Memory, ram: FramData, key: seq<uint8>, stray: FramInfo, bus: nat -> Bus)
    requires IsNumericSetter(k) && Holds(mem) && |key| == Width(EncryptedKey)
    requires NumericSetter(k, arg).submitted
    requires forall n :: bus(n) == BusOk
    ensures var f, v := FieldAt(k), Strtoull(arg.value);
            var r := Process(b, NumericSetter(k, arg).record, mem, ram, key, stray, bus);
            (Info(f).minValue <= v ==> LeValue(Slot(r.mem, Packed, f)) == v) &&
            (v < Info(f).minValue ==> r.mem == mem)
  {
    var c := NumericSetter(k, arg).record;
    SetterTargetsField(k);
    InfoFormats(FieldAt(k));
    SetterRoundTripCorrected(k, arg);
    assert bus(0) == BusOk;
    SetBeforeThreshold(b, c, mem, ram, key, stray, bus);
    SetStoresNumber(mem, stray, c, BusOk);
  }

  /** `s 3 5`: the CLI submits an advertising interval of 5, which the
      handler refuses because the minimum is 10. */
  lemma IntervalBelowMinimum(b: Build, mem: Memory, ram: FramData, key: seq<uint8>, stray: FramInfo, bus: nat -> Bus)
    requires Holds(mem) && |key| == Width(EncryptedKey)
    requires forall n :: bus(n) == BusOk
    ensures NumericSetter(3, Arg(5, 5)).submitted
    ensures Process(b, NumericSetter(3, Arg(5, 5)).record, mem, ram, key, stray, bus).mem == mem
  {
    CliSetStores(b, 3, Arg(5, 5), mem, ram, key, stray, bus);
  }

  // ---------------------------------------------------------------------
  // The key (subcommand 9) and the name (subcommand 11)
  // ---------------------------------------------------------------------

  /** The sixteen key bytes, each argument's atoi narrowed to a byte. */
  function KeyBytes(args: seq<Arg>): (bs: seq<uint8>)
    requires |args| == Width(EncryptedKey)
    ensures |bs| == Width(EncryptedKey)
    ensures forall i | 0 <= i < |args| && AtoiAgrees(args[i]) && 0 <= args[i].value < 0x100 :: bs[i] == args[i].value
  {
    seq(Width(EncryptedKey), i requires 0 <= i < |args| => U8(args[i].atoi))
  }

  /** set_encrypted_key_handler: always submitted, no bound checked. */
  function KeySetter(args: seq<Arg>): (r: Submission)
    requires |args| == Width(EncryptedKey)
    ensures r.submitted && r.record == SetRecord(9, KeyBytes(args), 16)
  {
    Submission(SetRecord(9, KeyBytes(args), 16), true)
  }

  /** The key typed at the shell is stored byte for byte. */
  lemma CliKeyStores(b: Build, args: seq<Arg>, mem: Memory, ram: FramData, key: seq<uint8>, stray: FramInfo, bus: nat -> Bus)
    requires |args| == Width(EncryptedKey) && Holds(mem) && |key| == Width(EncryptedKey)
    requires forall n :: bus(n) == BusOk
    ensures Slot(Process(b, KeySetter(args).record, mem, ram, key, stray, bus).mem, Packed, EncryptedKey) == KeyBytes(args)
  {
    var c := KeySetter(args).record;
    assert bus(0) == BusOk;
    SetBeforeThreshold(b, c, mem, ram, key, stray, bus);
    SetStoresText(mem, stray, c);
  }

  /** set_device_name_handler: the argument's bytes up to its terminator are
      copied and data_len is their count narrowed to a byte. */
  function NameSetter(name: seq<uint8>): (r: Submission)
    requires |name| <= DataCapacity
    ensures r.submitted && r.record == SetRecord(11, name, U8(|name|))
  {
    Submission(SetRecord(11, name, U8(|name|)), true)
  }

  /** A name of at most ten bytes is stored padded with zeros. A longer one
      is refused, unless its length is 256 or more and wraps to ten or less
      in data_len, in which case its first ten bytes are stored. */
  lemma CliNameStores(b: Build, name: seq<uint8>, mem: Memory, ram: FramData, key: seq<uint8>, stray: FramInfo, bus: nat -> Bus)
    requires |name| <= DataCapacity && Holds(mem) && |key| == Width(EncryptedKey)
    requires forall n :: bus(n) == BusOk
    ensures var r := Process(b, NameSetter(name).record, mem, ram, key, stray, bus);
            (|name| <= Width(Name) ==> Slot(r.mem, Packed, Name) == name + Fill(0, Width(Name) - |name|)) &&
            (Width(Name) < |name| < 0x100 ==> r.mem == mem) &&
            (0x100 <= |name| <= 0x100 + Width(Name) ==> Slot(r.mem, Packed, Name) == name[..Width(Name)])
  {
    var c := NameSetter(name).record;
    assert bus(0) == BusOk;
    SetBeforeThreshold(b, c, mem, ram, key, stray, bus);
    SetStoresText(mem, stray, c);
    if |name| <= Width(Name) {
      assert c.data[..Width(Name)] == name + Fill(0, Width(Name) - |name|);
    } else {
      assert c.data[..Width(Name)] == name[..Width(Name)];
    }
  }

  // ---------------------------------------------------------------------
  // g, c, p, d, r, t: one index argument
  // ---------------------------------------------------------------------

  /** The record an index command fills: the kind, and atoi of the argument
      narrowed to the signed byte field_index is. */
  function IndexRecord(kind: uint8, arg: Arg): (c: Command)
    ensures ValidCommand(c) && c.kind == kind && c.fieldIndex == I8(arg.atoi) && c.dataLen == 0
  {
    Command(kind, I8(arg.atoi), 0, Fill(0, DataCapacity))
  }

  /** get_field_index_handler: submitted when the narrowed index is below
      the field count, negative indexes included. */
  function GetCommand(arg: Arg): (r: Submission)
    ensures r.submitted <==> I8(arg.atoi) < FieldCount
    ensures r.record == if r.submitted then IndexRecord(CommandGet, arg) else Idle()
  {
    if I8(arg.atoi) < FieldCount then Submission(IndexRecord(CommandGet, arg), true) else Refused()
  }

  /** clear_fram_handler: the same check as GET. */
  function ClearCommand(arg: Arg): (r: Submission)
    ensures r.submitted <==> I8(arg.atoi) < FieldCount
    ensures r.record == if r.submitted then IndexRecord(CommandClear, arg) else Idle()
  {
    if I8(arg.atoi) < FieldCount then Submission(IndexRecord(CommandClear, arg), true) else Refused()
  }

  /** preset_fram_handler: submitted when the narrowed index is at most the
      generator preset. */
  function PresetCommand(arg: Arg): (r: Submission)
    ensures r.submitted <==> I8(arg.atoi) <= PresetGenerator as int
    ensures r.record == if r.submitted then IndexRecord(CommandPreset, arg) else Idle()
  {
    if I8(arg.atoi) <= PresetGenerator as int then Submission(IndexRecord(CommandPreset, arg), true) else Refused()
  }

  /** dump_fram_handler, reset_fram_handler and test_command_handler:
      always submitted. */
  function AlwaysCommand(kind: uint8, arg: Arg): (r: Submission)
    requires kind == CommandDump || kind == CommandReset || kind == CommandTests
    ensures r.submitted && r.record.kind == kind && r.record.fieldIndex == I8(arg.atoi)
  {
    Submission(IndexRecord(kind, arg), true)
  }

  /** Which numbers `g` and `c` pass on: 0 .. 14 as themselves, 15 .. 127
      not at all, 128 .. 255 as negative indexes, and negative numbers down
      to -128 as themselves. */
  lemma IndexAdmission(arg: Arg)
    ensures 0 <= arg.atoi < FieldCount ==> GetCommand(arg).submitted && GetCommand(arg).record.fieldIndex == arg.atoi
    ensures FieldCount <= arg.atoi < 0x80 ==> !GetCommand(arg).submitted
    ensures 0x80 <= arg.atoi < 0x100 ==>
              GetCommand(arg).submitted && GetCommand(arg).record.fieldIndex == arg.atoi - 0x100 < 0
    ensures -0x80 <= arg.atoi < 0 ==> GetCommand(arg).submitted && GetCommand(arg).record.fieldIndex == arg.atoi
    ensures ClearCommand(arg).submitted == GetCommand(arg).submitted
  {
  }

  /** `c` typed at the shell, every transfer succeeding: a negative index
      passes the CLI and clears nothing; an index naming a numeric field
      clears it to 0. */
  lemma CliClearEffect(b: Build, arg: Arg, mem: Memory, ram: FramData, key: seq<uint8>, stray: FramInfo, bus: nat -> Bus)
    requires Holds(mem) && |key| == Width(EncryptedKey) && ClearCommand(arg).submitted
    requires forall n :: bus(n) == BusOk
    ensures var r := Process(b, ClearCommand(arg).record, mem, ram, key, stray, bus);
            (I8(arg.atoi) < 0 ==> r.mem == mem) &&
            (0 <= I8(arg.atoi) && !IsArrayField(FieldAt(I8(arg.atoi))) ==>
               LeValue(Slot(r.mem, Packed, FieldAt(I8(arg.atoi)))) == 0)
  {
    var c := ClearCommand(arg).record;
    assert bus(0) == BusOk;
    StoreSetClear(b, c, mem, key, stray, bus);
    ProcessStore(b, c, mem, ram, key, stray, bus);
    if 0 <= I8(arg.atoi) {
      ClearStores(mem, b.table, stray, c);
    }
  }

  /** `p` typed at the shell, every transfer succeeding: presets 0 .. 4
      load that preset, and a negative number passes the CLI, becomes a
      preset number of 128 or more, writes nothing and only dumps the store. */
  lemma CliPresetEffect(b: Build, arg: Arg, mem: Memory, ram: FramData, key: seq<uint8>, stray: FramInfo, bus: nat -> Bus)
    requires Holds(mem) && |key| == Width(EncryptedKey) && PresetCommand(arg).submitted
    requires forall n :: bus(n) == BusOk
    ensures var r := Process(b, PresetCommand(arg).record, mem, ram, key, stray, bus);
            (I8(arg.atoi) < 0 ==> r.mem == mem && r.ram == Dump(mem, ram, BusOk, b.layout)) &&
            (0 <= I8(arg.atoi) ==> r.ram == Loaded(PresetRecord(I8(arg.atoi) as nat, Threshold(mem)), r.mem, b.layout))
  {
    var c := PresetCommand(arg).record;
    FieldByte(c.fieldIndex);
    if c.fieldIndex < 0 {
      PresetOutOfRange(b, c, mem, ram, key, stray, bus);
    } else {
      ProcessPreset(b, c, mem, ram, key, stray, bus);
    }
  }

  /** A PRESET record whose preset number is past the generator writes
      nothing and dumps the store as it was. */
  lemma PresetOutOfRange(b: Build, c: Command, mem: Memory, ram: FramData, key: seq<uint8>, stray: FramInfo, bus: nat -> Bus)
    requires Holds(mem) && ValidCommand(c) && |key| == Width(EncryptedKey) && c.kind == CommandPreset
    requires U8(c.fieldIndex) as nat > PresetGenerator && bus(DumpBus) == BusOk
    ensures Process(b, c, mem, ram, key, stray, bus).mem == mem
    ensures Process(b, c, mem, ram, key, stray, bus).ram == Dump(mem, ram, BusOk, b.layout)
  {
    StoreResetPreset(b, c, mem, key, stray, bus);
    ProcessStore(b, c, mem, ram, key, stray, bus);
  }
}
