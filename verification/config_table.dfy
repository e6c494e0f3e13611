/**
 * The configuration tables: the bound constants of each field, the command,
 * device, format and preset enumerations, the FRAM_INFO metadata table that
 * drives the command handlers, and the five preset records.
 *
 * POLARITY_COUNTERS_MIN_VALUE, _MAX_VALUE and _DEFAULT_VALUE are used by the
 * table but defined in no source file of this model; they are taken to be
 * 0, 0xFFFFFFFF and 0.
 */
module ConfigTable {
  import opened MachineInt
  import opened FramLayout
  import opened FramRecord

  /** fram_data_format_t. */
  const DataNumber: uint8 := 0
  const DataString: uint8 := 1
  const DataByteArray: uint8 := 2

  /** device_type_t; DeviceTypeMaxValue counts the types and names none. */
  const DeviceTypeLegacy: uint8 := 0
  const DeviceTypeButton: uint8 := 1
  const DeviceTypeVibrationMonitor: uint8 := 2
  const DeviceTypeTwoWaySwitch: uint8 := 3
  const DeviceTypeReleaseSensor: uint8 := 4
  const DeviceTypeMaxValue: uint8 := 5

  /** command_type_t. */
  const CommandGet: uint8 := 0
  const CommandSet: uint8 := 1
  const CommandReset: uint8 := 2
  const CommandDump: uint8 := 3
  const CommandPreset: uint8 := 4
  const CommandClear: uint8 := 5
  const CommandTests: uint8 := 6

  /** preset_type_t: PRESET_TYPE_BUTTON_0 .. PRESET_TYPE_GENERATOR. */
  const PresetGenerator: nat := 4

  /** The bound constants of config_commands.h. */
  const EventCounterMax: uint32 := 0xFFFF_FFFF
  const SerialNumberMax: uint32 := 0xFFFF_FFFF
  const SerialNumberDefault: uint32 := 1
  const AdvIntervalMin: uint32 := 10
  const AdvIntervalMax: uint32 := 100
  const AdvIntervalDefault: uint32 := 20
  const AdvEventsMin: uint32 := 1
  const AdvEventsMax: uint32 := 0xFE
  const AdvEventsDefault: uint32 := 0xFE
  const EventSleepMax: uint32 := 10000
  const PolaritySleepMax: uint32 := 100
  const TxPowerMax: uint32 := 200
  const TxPowerDefault: uint32 := 80
  const PolarityMethodMax: uint32 := 2
  const Isl9122VoltsMax: uint32 := 0xFF
  const PolarityCountersMin: uint32 := 0
  const PolarityCountersMax: uint32 := 0xFFFF_FFFF
  const PolarityCountersDefault: uint32 := 0

  /** fram_info_t without its name (the name is only printed). */
  datatype FramInfo = FramInfo(
    format: uint8,
    fieldLength: uint8,
    minValue: uint32,
    maxValue: uint32,
    defaultValue: uint32)

  /** The all-zero entry C supplies for an array slot with no initialiser. */
  const ZeroInfo := FramInfo(0, 0, 0, 0, 0)

  /** FRAM_INFO as initialised: fourteen entries for fifteen slots. The
      polarity-counter entries land in slots 12 and 13, and slot 14 is
      zero-filled, so no entry describes VBULK_THRESH. */
  function InfoAsWritten(i: nat): FramInfo
    requires i < FieldCount
  {
    if i == 0 then FramInfo(DataNumber, 4, 0, EventCounterMax, 0)
    else if i == 1 then FramInfo(DataNumber, 4, 0, SerialNumberMax, SerialNumberDefault)
    else if i == 2 then FramInfo(DataNumber, 1, DeviceTypeLegacy as uint32, DeviceTypeMaxValue as uint32, DeviceTypeButton as uint32)
    else if i == 3 then FramInfo(DataNumber, 1, AdvIntervalMin, AdvIntervalMax, AdvIntervalDefault)
    else if i == 4 then FramInfo(DataNumber, 2, AdvEventsMin, AdvEventsMax, AdvEventsDefault)
    else if i == 5 then FramInfo(DataNumber, 2, 0, EventSleepMax, 0)
    else if i == 6 then FramInfo(DataNumber, 2, 0, PolaritySleepMax, 0)
    else if i == 7 then FramInfo(DataNumber, 1, 0, Isl9122VoltsMax, 0)
    else if i == 8 then FramInfo(DataNumber, 1, 0, PolarityMethodMax, 0)
    else if i == 9 then FramInfo(DataByteArray, 16, 0, 0, 0)
    else if i == 10 then FramInfo(DataNumber, 1, 0, TxPowerMax, TxPowerDefault)
    else if i == 11 then FramInfo(DataString, 10, 0, 0, 0)
    else if i == 12 then FramInfo(DataNumber, 4, PolarityCountersMin, PolarityCountersMax, PolarityCountersDefault)
    else if i == 13 then FramInfo(DataNumber, 4, PolarityCountersMin, PolarityCountersMax, PolarityCountersDefault)
    else ZeroInfo
  }

  /** FRAM_INFO with one entry per field, in field order. VBULK_THRESH has no
      bound constants in the source; its entry here accepts any byte and
      defaults to 0. */
  function Info(f: Field): FramInfo
  {
    match f
    case VbulkThresh => FramInfo(DataNumber, 1, 0, 0xFF, 0)
    case NegEvtCtr => InfoAsWritten(12)
    case PosEvtCtr => InfoAsWritten(13)
    case _ => InfoAsWritten(Index(f))
  }

  /** Every entry's length is the width the FRAM driver uses for the field. */
  lemma InfoLengthIsWidth(f: Field)
    ensures Info(f).fieldLength as nat == Width(f)
  {
  }

  /** Exactly the name is a string and exactly the key a byte array; every
      other field is a number. */
  lemma InfoFormats(f: Field)
    ensures Info(f).format == DataString <==> f == Name
    ensures Info(f).format == DataByteArray <==> f == EncryptedKey
    ensures Info(f).format == DataNumber <==> !IsArrayField(f)
  {
  }

  /** Every numeric field's default lies within its bounds, and its maximum
      fits in the field's bytes, so an accepted value is stored without loss. */
  lemma InfoBounds(f: Field)
    requires Info(f).format == DataNumber
    ensures Width(f) <= 4
    ensures Info(f).minValue <= Info(f).defaultValue <= Info(f).maxValue
    ensures Info(f).maxValue < Pow256(Width(f))
  {
    Pow256Values();
  }

  /** The entries as written match the fields up to the name; from slot 12
      on they are shifted by one, so slot 12 (VBULK_THRESH, one byte) has the
      four-byte counter entry and slot 14 (the positive counter) the zero
      entry, whose maximum 0 rejects every value but 0. */
  lemma InfoAsWrittenShifted(i: nat)
    requires i < FieldCount
    ensures i < Index(VbulkThresh) ==> InfoAsWritten(i) == Info(FieldAt(i))
    ensures i == Index(VbulkThresh) ==>
              InfoAsWritten(i) == Info(NegEvtCtr) && InfoAsWritten(i).fieldLength as nat != Width(FieldAt(i))
    ensures i == Index(NegEvtCtr) ==> InfoAsWritten(i) == Info(PosEvtCtr)
    ensures i == Index(PosEvtCtr) ==> InfoAsWritten(i) == ZeroInfo && Info(FieldAt(i)).maxValue > 0
  {
  }

  /** The device-type bound admits DEVICE_TYPE_MAX_VALUE, the count of device
      types, which names no device type. */
  lemma DeviceTypeBoundAdmitsCount()
    ensures Info(DevType).maxValue == DeviceTypeMaxValue as uint32
    ensures DeviceTypeMaxValue > DeviceTypeReleaseSensor
  {
  }

  /** The bytes of an ASCII string. */
  function Ascii(s: string): (r: seq<uint8>)
    requires forall i | 0 <= i < |s| :: s[i] as int < 0x100
    ensures |r| == |s|
    ensures forall i | 0 <= i < |s| :: r[i] == s[i] as int
  {
    seq(|s|, i requires 0 <= i < |s| => s[i] as int as uint8)
  }

  /** The key every preset stores: 0, 1, .., 15. */
  function PresetKey(): (r: seq<uint8>)
    ensures |r| == Width(EncryptedKey)
  {
    [0, 1, 2, 3, 4, 5, 6, 7, 8, 9, 10, 11, 12, 13, 14, 15]
  }

  /** Preset0 .. Preset4. The initialisers give fourteen values for fifteen
      members, so the VBULK threshold takes the first polarity default and
      the positive counter is zero-filled; all three are 0. Preset 0 uses
      PRESET1_DEFAULT_EVT_MAX_PKT, which equals Preset 0's own, 254. */
  function Preset(p: nat): (d: FramData)
    requires p <= PresetGenerator
    ensures WellFormed(d)
  {
    var name := if p <= 1 then Ascii("button    ")
                else if p == 2 then Ascii("vibration ")
                else if p == 3 then Ascii("on-off sw ")
                else Ascii("leak sen  ");
    FramData(
      eventCounter := 0,
      serialNumber := if p <= 2 then 1 else 0,
      devType := p,
      packetInterval := 20,
      eventMaxPackets := if p == 2 then 10 else 254,
      sleepBetweenEvents := if p == 2 then 9800 else 0,
      sleepAfterWake := if p == 3 then 2 else 0,
      voltsIsl9122 := 0,
      polMethod := 0,
      encryptedKey := PresetKey(),
      txDbm10 := 80,
      name := name,
      vbulkThresh := 0,
      negativeEventsCounter := 0,
      positiveEventsCounter := 0)
  }

  /** Preset p configures device type p, and every numeric member of every
      preset lies within its FRAM_INFO bounds, although presets are written
      without the bound check SET applies. */
  lemma PresetWithinBounds(p: nat, f: Field)
    requires p <= PresetGenerator && !IsArrayField(f)
    ensures Preset(p).devType == p
    ensures Info(f).minValue <= NumericMember(Preset(p), f) <= Info(f).maxValue
  {
  }
}
