/**
 * The advertising payload: the 16-byte block `we_power_data_ble_adv_t` (the
 * struct `we_power_data_t` overlaid with a byte array), the 22-byte
 * manufacturer-specific frame `manufacture_data` that carries it, and
 * `encrypt_data`, which fills the frame's data part and its status byte.
 *
 * The cipher (AES-128 in ECB mode with the FRAM key) is a parameter: a
 * function from the 16 clear bytes to the cipher bytes, or None for
 * ENCRYPTION_ERROR.
 */
module Payload {
  import opened Optional
  import opened MachineInt
  import opened FramLayout
  import opened FramStore

  /** DATA_SIZE_BYTES, which PAYLOAD_DATA_SIZE_BYTES repeats. */
  const DataSize: nat := 16

  /** EVENT_COUNTER_NUM_BYTES. */
  const CounterBytes: nat := 3

  const FrameLength: nat := 22
  const DataStart: nat := 2
  const DeviceIdIndex: nat := 18
  const SerialSize: nat := 2
  const StatusIndex: nat := 20
  const RepeatIndex: nat := 21

  /** PAYLOAD_ENCRYPTION_STATUS_ENC and _CLEAR. */
  const StatusEncrypted: uint8 := 0
  const StatusClear: uint8 := 1

  /** TX_REPEAT_COUNTER_DEFAULT_VALUE. */
  const RepeatDefault: uint8 := 1

  /** The frame before the first build: the two company bytes 'P', 'W' and
      twenty zeros. */
  const InitialFrame: seq<uint8> := [0x50, 0x57] + seq(20, _ => 0)

  /** The frame's parts follow one another without gap or overlap: the two
      company bytes, the 16 data bytes, the two id bytes, the status byte and
      the repeat counter. */
  lemma FrameLayoutTiles()
    ensures DataStart == 2 && DataStart + DataSize == DeviceIdIndex
    ensures DeviceIdIndex + SerialSize == StatusIndex && StatusIndex + 1 == RepeatIndex
    ensures RepeatIndex + 1 == FrameLength == |InitialFrame|
  {
  }

  // ---------------------------------------------------------------------
  // The block `we_power_data_t`

  datatype BlockMember = DataType | EventCounter24 | AccelX | AccelY | AccelZ | TempValue | PressureValue | DeviceId

  /** The declared type of each member. The `i16_u8_t` and `u16_u8_t`
      unions have the size and alignment of their 16-bit member. */
  function BlockMemberType(m: BlockMember): CType
  {
    match m
    case DataType => Uint8T
    case EventCounter24 => ByteArrayT(CounterBytes)
    case _ => Uint16T
  }

  function BlockPrev(m: BlockMember): BlockMember
    requires m != DataType
  {
    match m
    case EventCounter24 => DataType
    case AccelX => EventCounter24
    case AccelY => AccelX
    case AccelZ => AccelY
    case TempValue => AccelZ
    case PressureValue => TempValue
    case DeviceId => PressureValue
  }

  /** Where each member sits in the block. */
  function BlockOffset(m: BlockMember): nat
  {
    match m
    case DataType => 0
    case EventCounter24 => 1
    case AccelX => 4
    case AccelY => 6
    case AccelZ => 8
    case TempValue => 10
    case PressureValue => 12
    case DeviceId => 14
  }

  function BlockWidth(m: BlockMember): nat
  {
    SizeOf(BlockMemberType(m))
  }

  /** The offsets are the ones the C layout rule gives (C11 section 6.7.2.1
      with the ARM EABI alignments): no member is preceded by padding, and
      the struct, rounded up to its strictest alignment, is exactly the 16
      bytes of the array it is overlaid with. */
  lemma BlockOffsetsFollowLayoutRule(m: BlockMember)
    ensures m == DataType ==> BlockOffset(m) == 0
    ensures m != DataType ==>
              BlockOffset(m) == AlignUp(BlockOffset(BlockPrev(m)) + BlockWidth(BlockPrev(m)),
                                        AlignOf(BlockMemberType(m)))
    ensures m != DataType ==> BlockOffset(m) == BlockOffset(BlockPrev(m)) + BlockWidth(BlockPrev(m))
    ensures AlignUp(BlockOffset(DeviceId) + BlockWidth(DeviceId), 2) == DataSize
  {
  }

  /** The block read through the struct. */
  datatype WePowerData = WePowerData(
    dataType: uint8,
    counter24: seq<uint8>,
    accelX: int16,
    accelY: int16,
    accelZ: int16,
    temp: int16,
    pressure: int16,
    id: uint16)

  predicate WellFormedData(d: WePowerData)
  {
    |d.counter24| == CounterBytes
  }

  /** The bytes of one member as the little-endian target stores them. */
  function DataMemberBytes(d: WePowerData, m: BlockMember): (r: seq<uint8>)
    requires WellFormedData(d)
    ensures |r| == BlockWidth(m)
  {
    match m
    case DataType => [d.dataType]
    case EventCounter24 => d.counter24
    case AccelX => LeBytes(d.accelX, 2)
    case AccelY => LeBytes(d.accelY, 2)
    case AccelZ => LeBytes(d.accelZ, 2)
    case TempValue => LeBytes(d.temp, 2)
    case PressureValue => LeBytes(d.pressure, 2)
    case DeviceId => LeBytes(d.id, 2)
  }

  /** The bytes of member m within a block. */
  function BlockSlot(bytes: seq<uint8>, m: BlockMember): (r: seq<uint8>)
    requires |bytes| == DataSize
  {
    bytes[BlockOffset(m)..BlockOffset(m) + BlockWidth(m)]
  }

  /** The `data_bytes` view of a struct value. */
  function BlockBytes(d: WePowerData): (bytes: seq<uint8>)
    requires WellFormedData(d)
    ensures |bytes| == DataSize
  {
    [d.dataType] + d.counter24 + LeBytes(d.accelX, 2) + LeBytes(d.accelY, 2) + LeBytes(d.accelZ, 2)
      + LeBytes(d.temp, 2) + LeBytes(d.pressure, 2) + LeBytes(d.id, 2)
  }

  /** The `data_fields` view of sixteen bytes. */
  function BlockFields(bytes: seq<uint8>): (d: WePowerData)
    requires |bytes| == DataSize
    ensures WellFormedData(d)
  {
    WePowerData(bytes[0], bytes[1..4], LeI16(bytes[4], bytes[5]), LeI16(bytes[6], bytes[7]),
                LeI16(bytes[8], bytes[9]), LeI16(bytes[10], bytes[11]), LeI16(bytes[12], bytes[13]),
                LeValue(bytes[14..16]))
  }

  /** Each member's bytes sit at its offset in the byte view. */
  lemma BlockBytesSlot(d: WePowerData, m: BlockMember)
    requires WellFormedData(d)
    ensures BlockSlot(BlockBytes(d), m) == DataMemberBytes(d, m)
  {
    var bs := BlockBytes(d);
    match m
    case DataType => assert bs[0..1] == [d.dataType];
    case EventCounter24 => assert bs[1..4] == d.counter24;
    case AccelX => assert bs[4..6] == LeBytes(d.accelX, 2);
    case AccelY => assert bs[6..8] == LeBytes(d.accelY, 2);
    case AccelZ => assert bs[8..10] == LeBytes(d.accelZ, 2);
    case TempValue => assert bs[10..12] == LeBytes(d.temp, 2);
    case PressureValue => assert bs[12..14] == LeBytes(d.pressure, 2);
    case DeviceId => assert bs[14..16] == LeBytes(d.id, 2);
  }

  /** Reading a struct back through the byte view gives the struct. */
  lemma FieldsOfBytes(d: WePowerData)
    requires WellFormedData(d)
    ensures BlockFields(BlockBytes(d)) == d
  {
    var bs := BlockBytes(d);
    assert bs[1..4] == d.counter24;
    assert bs[14..16] == LeBytes(d.id, 2);
    assert [bs[4], bs[5]] == LeBytes(d.accelX, 2);
    assert [bs[6], bs[7]] == LeBytes(d.accelY, 2);
    assert [bs[8], bs[9]] == LeBytes(d.accelZ, 2);
    assert [bs[10], bs[11]] == LeBytes(d.temp, 2);
    assert [bs[12], bs[13]] == LeBytes(d.pressure, 2);
    I16RoundTrip(d.accelX);
    I16RoundTrip(d.accelY);
    I16RoundTrip(d.accelZ);
    I16RoundTrip(d.temp);
    I16RoundTrip(d.pressure);
    LeRoundTrip(d.id, 2);
  }

  /** Every sixteen bytes are the byte view of the struct they read as. */
  lemma BytesOfFields(bytes: seq<uint8>)
    requires |bytes| == DataSize
    ensures BlockBytes(BlockFields(bytes)) == bytes
  {
    var d := BlockFields(bytes);
    LeBytesOfValue(bytes[14..16]);
    assert bytes == [bytes[0]] + bytes[1..4] + [bytes[4], bytes[5]] + [bytes[6], bytes[7]] + [bytes[8], bytes[9]]
                    + [bytes[10], bytes[11]] + [bytes[12], bytes[13]] + bytes[14..16];
  }

  // ---------------------------------------------------------------------
  // The frame `manufacture_data`

  /** The frame as a receiver splits it. */
  datatype FrameView = FrameView(prefix: seq<uint8>, data: seq<uint8>, serialLow: uint16, status: uint8, repeat: uint8)

  predicate WellFormedView(v: FrameView)
  {
    |v.prefix| == DataStart && |v.data| == DataSize
  }

  function ParseFrame(frame: seq<uint8>): (v: FrameView)
    requires |frame| == FrameLength
    ensures WellFormedView(v)
  {
    FrameView(frame[..DataStart], frame[DataStart..DeviceIdIndex], LeValue(frame[DeviceIdIndex..StatusIndex]),
              frame[StatusIndex], frame[RepeatIndex])
  }

  function BuildFrame(v: FrameView): (frame: seq<uint8>)
    requires WellFormedView(v)
    ensures |frame| == FrameLength
  {
    v.prefix + v.data + LeBytes(v.serialLow, SerialSize) + [v.status, v.repeat]
  }

  /** Parsing a built frame gives back every part. */
  lemma ParseBuild(v: FrameView)
    requires WellFormedView(v)
    ensures ParseFrame(BuildFrame(v)) == v
  {
    var f := BuildFrame(v);
    assert f[..DataStart] == v.prefix;
    assert f[DataStart..DeviceIdIndex] == v.data;
    assert f[DeviceIdIndex..StatusIndex] == LeBytes(v.serialLow, SerialSize);
    LeRoundTrip(v.serialLow, SerialSize);
  }

  /** Every frame is the build of its parts. */
  lemma BuildParse(frame: seq<uint8>)
    requires |frame| == FrameLength
    ensures BuildFrame(ParseFrame(frame)) == frame
  {
    LeBytesOfValue(frame[DeviceIdIndex..StatusIndex]);
    assert frame == frame[..DataStart] + frame[DataStart..DeviceIdIndex] + frame[DeviceIdIndex..StatusIndex]
                    + [frame[StatusIndex], frame[RepeatIndex]];
  }

  // ---------------------------------------------------------------------
  // encrypt_data

  /** app_encrypt_payload over one block: the cipher bytes, or None when it
      reports ENCRYPTION_ERROR. */
  type Cipher = seq<uint8> -> Option<seq<uint8>>

  /** A successful encryption of a block is a block. */
  ghost predicate CipherShape(aes: Cipher)
  {
    forall b :: |b| == DataSize && aes(b).Some? ==> |aes(b).value| == DataSize
  }

  datatype Encrypted = Encrypted(out: seq<uint8>, frame: seq<uint8>)

  /** encrypt_data with `ENCRYPT` defined, the branch the preprocessor always
      selects: on ENCRYPTION_ERROR the clear bytes are copied out and the
      status byte says clear; otherwise the cipher's bytes go out and the
      status byte says encrypted. No other frame byte is touched. */
  function EncryptData(clear: seq<uint8>, result: Option<seq<uint8>>, frame: seq<uint8>): (r: Encrypted)
    requires |clear| == DataSize && |frame| == FrameLength
    requires result.Some? ==> |result.value| == DataSize
    ensures |r.out| == DataSize
    ensures SameOutside(frame, r.frame, StatusIndex, 1)
    ensures r.frame[StatusIndex] == StatusClear <==> result.None?
    ensures r.frame[StatusIndex] == StatusEncrypted <==> result.Some?
    ensures result.None? ==> r.out == clear
    ensures result.Some? ==> r.out == result.value
  {
    match result
    case None => Encrypted(clear, Splice(frame, StatusIndex, [StatusClear]))
    case Some(cipher) => Encrypted(cipher, Splice(frame, StatusIndex, [StatusEncrypted]))
  }

  /** What a receiver reads from the status byte: whenever it says clear,
      the data bytes are the block itself. */
  lemma StatusClearMeansReadable(clear: seq<uint8>, result: Option<seq<uint8>>, frame: seq<uint8>)
    requires |clear| == DataSize && |frame| == FrameLength
    requires result.Some? ==> |result.value| == DataSize
    ensures var r := EncryptData(clear, result, frame);
            ParseFrame(r.frame).status == StatusClear ==> r.out == clear
    ensures var r := EncryptData(clear, result, frame);
            ParseFrame(r.frame).status != StatusClear ==> ParseFrame(r.frame).status == StatusEncrypted
  {
  }
}
