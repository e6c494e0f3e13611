/**
 * `fram_data_t`, the configuration record the firmware keeps in RAM, and its
 * two byte images: the packed image the FRAM stores field by field, and the
 * image the compiler gives the C struct, which a bulk read fills byte for
 * byte.
 */
module FramRecord {
  import opened MachineInt
  import opened FramLayout

  datatype FramData = FramData(
    eventCounter: uint32,
    serialNumber: uint32,
    devType: uint8,
    packetInterval: uint8,
    eventMaxPackets: uint16,
    sleepBetweenEvents: uint16,
    sleepAfterWake: uint16,
    voltsIsl9122: uint8,
    polMethod: uint8,
    encryptedKey: seq<uint8>,
    txDbm10: uint8,
    name: seq<uint8>,
    vbulkThresh: uint8,
    negativeEventsCounter: uint32,
    positiveEventsCounter: uint32)

  /** The two array members have their declared lengths. */
  predicate WellFormed(d: FramData)
  {
    |d.encryptedKey| == Width(EncryptedKey) && |d.name| == Width(Name)
  }

  /** The bytes of the member that mirrors field f, as the little-endian
      target stores them. */
  function MemberBytes(d: FramData, f: Field): (r: seq<uint8>)
    requires WellFormed(d)
    ensures |r| == Width(f)
  {
    match f
    case EvCtr => LeBytes(d.eventCounter, 4)
    case SerNum => LeBytes(d.serialNumber, 4)
    case DevType => [d.devType]
    case EvInt => [d.packetInterval]
    case EvMax => LeBytes(d.eventMaxPackets, 2)
    case EvSlp => LeBytes(d.sleepBetweenEvents, 2)
    case InSlp => LeBytes(d.sleepAfterWake, 2)
    case Isl9122 => [d.voltsIsl9122]
    case PolMet => [d.polMethod]
    case EncryptedKey => d.encryptedKey
    case TxDbm => [d.txDbm10]
    case Name => d.name
    case VbulkThresh => [d.vbulkThresh]
    case NegEvtCtr => LeBytes(d.negativeEventsCounter, 4)
    case PosEvtCtr => LeBytes(d.positiveEventsCounter, 4)
  }

  /** Where each member's bytes sit in an image: at the field's FRAM address
      in the packed image, at the compiler's member offset in the struct. */
  datatype Placement = Packed | CStruct

  function Offset(p: Placement, f: Field): nat
  {
    match p
    case Packed => Addr(f)
    case CStruct => StructOffset(f)
  }

  /** The number of bytes an image spans: 54 packed, 56 for the struct. */
  function ImageSize(p: Placement): nat
  {
    match p
    case Packed => LayoutSize
    case CStruct => StructSize
  }

  /** Every member lies inside the image. */
  lemma OffsetsInside(p: Placement, f: Field)
    ensures Offset(p, f) + Width(f) <= ImageSize(p)
  {
  }

  /** The bytes at member f's place in an image. */
  function Slot(bytes: seq<uint8>, p: Placement, f: Field): (r: seq<uint8>)
    requires |bytes| >= ImageSize(p)
    ensures |r| == Width(f)
  {
    OffsetsInside(p, f);
    bytes[Offset(p, f)..Offset(p, f) + Width(f)]
  }

  /** Four bytes read as a uint32 and two as a uint16. */
  function Le32(s: seq<uint8>): (v: uint32)
    requires |s| == 4
    ensures v == LeValue(s)
  {
    Pow256Values();
    LeValue(s)
  }

  function Le16(s: seq<uint8>): (v: uint16)
    requires |s| == 2
    ensures v == LeValue(s)
  {
    Pow256Values();
    LeValue(s)
  }

  /** The record whose members are read from an image. */
  function Decode(bytes: seq<uint8>, p: Placement): (d: FramData)
    requires |bytes| >= ImageSize(p)
    ensures WellFormed(d)
  {
    FramData(
      Le32(Slot(bytes, p, EvCtr)),
      Le32(Slot(bytes, p, SerNum)),
      Slot(bytes, p, DevType)[0],
      Slot(bytes, p, EvInt)[0],
      Le16(Slot(bytes, p, EvMax)),
      Le16(Slot(bytes, p, EvSlp)),
      Le16(Slot(bytes, p, InSlp)),
      Slot(bytes, p, Isl9122)[0],
      Slot(bytes, p, PolMet)[0],
      Slot(bytes, p, EncryptedKey),
      Slot(bytes, p, TxDbm)[0],
      Slot(bytes, p, Name),
      Slot(bytes, p, VbulkThresh)[0],
      Le32(Slot(bytes, p, NegEvtCtr)),
      Le32(Slot(bytes, p, PosEvtCtr)))
  }

  /** Every member of a decoded record has exactly the bytes at its place in
      the image. */
  lemma DecodeSlot(bytes: seq<uint8>, p: Placement, f: Field)
    requires |bytes| >= ImageSize(p)
    ensures MemberBytes(Decode(bytes, p), f) == Slot(bytes, p, f)
  {
    var s := Slot(bytes, p, f);
    match f
    case EvCtr => LeBytesOfValue(s);
    case SerNum => LeBytesOfValue(s);
    case EvMax => LeBytesOfValue(s);
    case EvSlp => LeBytesOfValue(s);
    case InSlp => LeBytesOfValue(s);
    case NegEvtCtr => LeBytesOfValue(s);
    case PosEvtCtr => LeBytesOfValue(s);
    case _ =>
  }

  /** Reading a numeric member's bytes back gives the member itself. */
  lemma MemberBytesRoundTrip(d: FramData)
    requires WellFormed(d)
    ensures LeValue(MemberBytes(d, EvCtr)) == d.eventCounter
    ensures LeValue(MemberBytes(d, SerNum)) == d.serialNumber
    ensures LeValue(MemberBytes(d, EvMax)) == d.eventMaxPackets
    ensures LeValue(MemberBytes(d, EvSlp)) == d.sleepBetweenEvents
    ensures LeValue(MemberBytes(d, InSlp)) == d.sleepAfterWake
    ensures LeValue(MemberBytes(d, NegEvtCtr)) == d.negativeEventsCounter
    ensures LeValue(MemberBytes(d, PosEvtCtr)) == d.positiveEventsCounter
  {
    Pow256Values();
    LeRoundTrip(d.eventCounter, 4);
    LeRoundTrip(d.serialNumber, 4);
    LeRoundTrip(d.eventMaxPackets, 2);
    LeRoundTrip(d.sleepBetweenEvents, 2);
    LeRoundTrip(d.sleepAfterWake, 2);
    LeRoundTrip(d.negativeEventsCounter, 4);
    LeRoundTrip(d.positiveEventsCounter, 4);
  }

  /** The two byte-array members; every other member is a number. */
  predicate IsArrayField(f: Field)
  {
    f == EncryptedKey || f == Name
  }

  /** The value of a numeric member. */
  function NumericMember(d: FramData, f: Field): nat
    requires !IsArrayField(f)
  {
    match f
    case EvCtr => d.eventCounter
    case SerNum => d.serialNumber
    case DevType => d.devType
    case EvInt => d.packetInterval
    case EvMax => d.eventMaxPackets
    case EvSlp => d.sleepBetweenEvents
    case InSlp => d.sleepAfterWake
    case Isl9122 => d.voltsIsl9122
    case PolMet => d.polMethod
    case TxDbm => d.txDbm10
    case VbulkThresh => d.vbulkThresh
    case NegEvtCtr => d.negativeEventsCounter
    case PosEvtCtr => d.positiveEventsCounter
  }

  /** A numeric member's bytes are its value, little-endian, in the field's
      width. */
  lemma NumericMemberBytes(d: FramData, f: Field)
    requires WellFormed(d) && !IsArrayField(f)
    ensures Width(f) <= 4
    ensures MemberBytes(d, f) == LeBytes(NumericMember(d, f), Width(f))
    ensures LeValue(MemberBytes(d, f)) == NumericMember(d, f)
  {
    Pow256Values();
    LeRoundTrip(NumericMember(d, f), Width(f));
  }

  /** Records whose members have the same bytes are the same record. */
  lemma MemberBytesInjective(d: FramData, e: FramData)
    requires WellFormed(d) && WellFormed(e)
    requires forall f :: MemberBytes(e, f) == MemberBytes(d, f)
    ensures e == d
  {
    MemberBytesRoundTrip(d);
    MemberBytesRoundTrip(e);
    assert MemberBytes(e, EvCtr) == MemberBytes(d, EvCtr);
    assert MemberBytes(e, SerNum) == MemberBytes(d, SerNum);
    assert MemberBytes(e, DevType) == MemberBytes(d, DevType);
    assert MemberBytes(e, EvInt) == MemberBytes(d, EvInt);
    assert MemberBytes(e, EvMax) == MemberBytes(d, EvMax);
    assert MemberBytes(e, EvSlp) == MemberBytes(d, EvSlp);
    assert MemberBytes(e, InSlp) == MemberBytes(d, InSlp);
    assert MemberBytes(e, Isl9122) == MemberBytes(d, Isl9122);
    assert MemberBytes(e, PolMet) == MemberBytes(d, PolMet);
    assert MemberBytes(e, EncryptedKey) == MemberBytes(d, EncryptedKey);
    assert MemberBytes(e, TxDbm) == MemberBytes(d, TxDbm);
    assert MemberBytes(e, Name) == MemberBytes(d, Name);
    assert MemberBytes(e, VbulkThresh) == MemberBytes(d, VbulkThresh);
    assert MemberBytes(e, NegEvtCtr) == MemberBytes(d, NegEvtCtr);
    assert MemberBytes(e, PosEvtCtr) == MemberBytes(d, PosEvtCtr);
  }

  /** An image whose every slot holds the matching member of d reads back as
      d. */
  lemma DecodeOfSlots(bytes: seq<uint8>, p: Placement, d: FramData)
    requires |bytes| >= ImageSize(p) && WellFormed(d)
    requires forall f :: Slot(bytes, p, f) == MemberBytes(d, f)
    ensures Decode(bytes, p) == d
  {
    var e := Decode(bytes, p);
    forall f
      ensures MemberBytes(e, f) == MemberBytes(d, f)
    {
      DecodeSlot(bytes, p, f);
    }
    MemberBytesInjective(d, e);
  }

  /** Byte b of the packed FRAM image of a record: the matching byte of the
      member whose field holds b. */
  function ImageByte(d: FramData, b: nat): uint8
    requires WellFormed(d) && b < LayoutSize
  {
    var f := Owner(b);
    MemberBytes(d, f)[b - Addr(f)]
  }

  /** The packed 54-byte FRAM image of a record. */
  function Encode(d: FramData): (r: seq<uint8>)
    requires WellFormed(d)
    ensures |r| == LayoutSize
  {
    seq(LayoutSize, b requires 0 <= b < LayoutSize => ImageByte(d, b))
  }

  /** The field holding a byte is the field whose range contains it. */
  lemma OwnerUnique(f: Field, b: nat)
    requires Addr(f) <= b < Addr(f) + Width(f) && b < LayoutSize
    ensures Owner(b) == f
  {
  }

  /** Every member of a record sits at its field in the packed image. */
  lemma EncodeSlot(d: FramData, f: Field)
    requires WellFormed(d)
    ensures Slot(Encode(d), Packed, f) == MemberBytes(d, f)
  {
    OffsetsInside(Packed, f);
    var image := Encode(d);
    forall j | 0 <= j < Width(f)
      ensures image[Addr(f) + j] == MemberBytes(d, f)[j]
    {
      EncodeByte(d, f, j);
    }
    assert Slot(image, Packed, f) == image[Addr(f)..Addr(f) + Width(f)];
  }

  /** Byte j of a member is byte Addr(f) + j of the packed image. */
  lemma EncodeByte(d: FramData, f: Field, j: nat)
    requires WellFormed(d) && j < Width(f)
    ensures Addr(f) + j < LayoutSize
    ensures Encode(d)[Addr(f) + j] == MemberBytes(d, f)[j]
  {
    OffsetsInside(Packed, f);
    var b := Addr(f) + j;
    OwnerUnique(f, b);
    assert Encode(d)[b] == ImageByte(d, b);
  }

  /** Decoding the packed image of a record gives the record back. */
  lemma DecodeEncode(d: FramData)
    requires WellFormed(d)
    ensures Decode(Encode(d), Packed) == d
  {
    forall f
      ensures Slot(Encode(d), Packed, f) == MemberBytes(d, f)
    {
      EncodeSlot(d, f);
    }
    DecodeOfSlots(Encode(d), Packed, d);
  }

  /** Images whose slots all agree agree on all 54 bytes. */
  lemma SlotsDetermineImage(x: seq<uint8>, y: seq<uint8>)
    requires |x| >= LayoutSize && |y| >= LayoutSize
    requires forall f :: Slot(x, Packed, f) == Slot(y, Packed, f)
    ensures x[..LayoutSize] == y[..LayoutSize]
  {
    forall b | 0 <= b < LayoutSize
      ensures x[b] == y[b]
    {
      var f := Owner(b);
      assert Slot(x, Packed, f)[b - Addr(f)] == x[b];
      assert Slot(y, Packed, f)[b - Addr(f)] == y[b];
    }
  }

  lemma SliceOfPrefix(s: seq<uint8>, n: nat, lo: nat, hi: nat)
    requires lo <= hi <= n <= |s|
    ensures s[..n][lo..hi] == s[lo..hi]
  {
  }

  /** The slots of a memory are the slots of its first 54 bytes. */
  lemma SlotOfPrefix(bytes: seq<uint8>, f: Field)
    requires |bytes| >= LayoutSize
    ensures Slot(bytes, Packed, f) == Slot(bytes[..LayoutSize], Packed, f)
  {
    OffsetsInside(Packed, f);
    var a, w := Addr(f), Width(f);
    assert a + w <= LayoutSize;
    assert Slot(bytes, Packed, f) == bytes[a..a + w];
    assert Slot(bytes[..LayoutSize], Packed, f) == bytes[..LayoutSize][a..a + w];
    SliceOfPrefix(bytes, LayoutSize, a, a + w);
  }

  /** Encoding the record decoded from a packed image gives the image back. */
  lemma EncodeDecode(bytes: seq<uint8>)
    requires |bytes| >= LayoutSize
    ensures Encode(Decode(bytes, Packed)) == bytes[..LayoutSize]
  {
    var d := Decode(bytes, Packed);
    forall f
      ensures Slot(Encode(d), Packed, f) == Slot(bytes, Packed, f)
    {
      EncodeSlot(d, f);
      DecodeSlot(bytes, Packed, f);
    }
    SlotsDetermineImage(Encode(d), bytes);
  }

  /** A memory whose first 54 bytes are the image of d reads back as d. */
  lemma DecodeOfImage(bytes: seq<uint8>, d: FramData)
    requires WellFormed(d) && |bytes| >= LayoutSize && bytes[..LayoutSize] == Encode(d)
    ensures Decode(bytes, Packed) == d
  {
    forall f
      ensures Slot(bytes, Packed, f) == MemberBytes(d, f)
    {
      SlotOfPrefix(bytes, f);
      EncodeSlot(d, f);
    }
    DecodeOfSlots(bytes, Packed, d);
  }

  /** A bulk read into the C struct fills every member up to the VBULK
      threshold from exactly the bytes of its FRAM field (so, by `DecodeSlot`,
      those members decode as in the packed image). */
  lemma StructSlotsBelowCounters(bytes: seq<uint8>, f: Field)
    requires |bytes| >= StructSize
    requires Index(f) <= Index(VbulkThresh)
    ensures Slot(bytes, CStruct, f) == Slot(bytes, Packed, f)
  {
    StructOffsetsAgainstAddresses(f);
  }

  /** ... but it fills the negative counter from the two bytes past its FRAM
      field: the upper half of that field and the lower half of the
      positive counter's field. */
  lemma StructSlotOfNegativeCounter(bytes: seq<uint8>)
    requires |bytes| >= StructSize
    ensures Slot(bytes, CStruct, NegEvtCtr) == bytes[Addr(NegEvtCtr) + 2..Addr(PosEvtCtr) + 2]
  {
    StructOffsetsAgainstAddresses(NegEvtCtr);
  }

  /** ... and the positive counter from the upper half of its field and the
      two bytes beyond the 54-byte layout. */
  lemma StructSlotOfPositiveCounter(bytes: seq<uint8>)
    requires |bytes| >= StructSize
    ensures Slot(bytes, CStruct, PosEvtCtr) == bytes[Addr(PosEvtCtr) + 2..LayoutSize + 2]
  {
    StructOffsetsAgainstAddresses(PosEvtCtr);
  }

  /** Each counter member is the little-endian value of its slot. */
  lemma CounterMembers(bytes: seq<uint8>, p: Placement)
    requires |bytes| >= ImageSize(p)
    ensures Decode(bytes, p).negativeEventsCounter == LeValue(Slot(bytes, p, NegEvtCtr))
    ensures Decode(bytes, p).positiveEventsCounter == LeValue(Slot(bytes, p, PosEvtCtr))
  {
  }

  /** The four bytes a bulk read into the C struct puts in the negative
      counter: the upper half of its field and the lower half of the next. */
  function StructNegBytes(bytes: seq<uint8>): (r: seq<uint8>)
    requires |bytes| >= StructSize
    ensures |r| == 4
  {
    bytes[Addr(NegEvtCtr) + 2..Addr(PosEvtCtr) + 2]
  }

  /** The four bytes it puts in the positive counter: the upper half of its
      field and the two bytes past the layout. */
  function StructPosBytes(bytes: seq<uint8>): (r: seq<uint8>)
    requires |bytes| >= StructSize
    ensures |r| == 4
  {
    bytes[Addr(PosEvtCtr) + 2..LayoutSize + 2]
  }

  /** The record a bulk read into layout `p` makes of bytes whose first 54
      are d's image: d itself when packed; with the C struct's padding, d
      with both polarity counters taken from the four bytes two past their
      fields. */
  function Loaded(d: FramData, bytes: seq<uint8>, p: Placement): (r: FramData)
    requires WellFormed(d) && |bytes| >= StructSize
    ensures WellFormed(r)
    ensures r == d.(negativeEventsCounter := r.negativeEventsCounter, positiveEventsCounter := r.positiveEventsCounter)
    ensures p == Packed ==> r == d
  {
    match p
    case Packed => d
    case CStruct =>
      d.(negativeEventsCounter := Le32(StructNegBytes(bytes)),
         positiveEventsCounter := Le32(StructPosBytes(bytes)))
  }

  /** Only the first 56 bytes matter to what a struct read loads. */
  lemma LoadedOfPrefix(d: FramData, bytes: seq<uint8>, p: Placement)
    requires WellFormed(d) && |bytes| >= StructSize
    ensures Loaded(d, bytes[..StructSize], p) == Loaded(d, bytes, p)
  {
    assert StructNegBytes(bytes[..StructSize]) == StructNegBytes(bytes);
    assert StructPosBytes(bytes[..StructSize]) == StructPosBytes(bytes);
  }

  /** A bulk read of a record's image: the packed layout gives the record
      back, and the C struct gives it back except for the two polarity
      counters, which are read two bytes late. */
  lemma DecodeLoads(bytes: seq<uint8>, d: FramData, p: Placement)
    requires WellFormed(d) && |bytes| >= StructSize && bytes[..LayoutSize] == Encode(d)
    ensures Decode(bytes, p) == Loaded(d, bytes, p)
  {
    if p == Packed {
      DecodeOfImage(bytes, d);
    } else {
      var e := Loaded(d, bytes, p);
      forall f
        ensures Slot(bytes, CStruct, f) == MemberBytes(e, f)
      {
        if f == NegEvtCtr {
          StructSlotOfNegativeCounter(bytes);
          LeBytesOfValue(StructNegBytes(bytes));
        } else if f == PosEvtCtr {
          StructSlotOfPositiveCounter(bytes);
          LeBytesOfValue(StructPosBytes(bytes));
        } else {
          StructSlotsBelowCounters(bytes, f);
          SlotOfPrefix(bytes, f);
          EncodeSlot(d, f);
        }
      }
      DecodeOfSlots(bytes, CStruct, e);
    }
  }

  /** The two counter values of the concrete image below. */
  lemma CounterExampleValues()
    ensures LeValue([1, 2, 3, 4]) == 0x04030201
    ensures LeValue([3, 4, 0, 0]) == 0x0403
  {
    assert LeValue([4]) == 4;
    assert [3, 4, 0, 0][1..] == [4, 0, 0];
    assert [4, 0, 0][1..] == [0, 0];
    assert [0, 0][1..] == [0];
    assert [1, 2, 3, 4][1..] == [2, 3, 4];
    assert [2, 3, 4][1..] == [3, 4];
    assert [3, 4][1..] == [4];
  }

  /** The concrete image used below: negative counter 0x04030201, positive
      counter 0. */
  function ExampleImage(): (bytes: seq<uint8>)
    ensures |bytes| == StructSize
    ensures Slot(bytes, Packed, NegEvtCtr) == [1, 2, 3, 4]
    ensures Slot(bytes, CStruct, NegEvtCtr) == [3, 4, 0, 0]
  {
    seq(46, _ => 0) + [1, 2, 3, 4] + seq(6, _ => 0)
  }

  /** On that image the packed reading of the negative counter gives
      0x04030201 and the struct reading gives 0x0403. */
  lemma StructImageCounterExample()
    ensures Decode(ExampleImage(), Packed).negativeEventsCounter == 0x04030201
    ensures Decode(ExampleImage(), CStruct).negativeEventsCounter == 0x0403
  {
    CounterMembers(ExampleImage(), Packed);
    CounterMembers(ExampleImage(), CStruct);
    CounterExampleValues();
  }
}
