/**
 * The byte layout of the configuration FRAM: fifteen fields packed one after
 * another from address 0, the FRAM_FIELDS numbering that names them, the
 * field-number lookup the driver uses, the two-byte big-endian address sent on
 * the bus, and the in-RAM `fram_data_t` mirror whose C layout the compiler
 * pads.
 */
module FramLayout {
  import opened MachineInt
  import opened Optional

  datatype Field =
    | EvCtr | SerNum | DevType | EvInt | EvMax | EvSlp | InSlp | Isl9122
    | PolMet | EncryptedKey | TxDbm | Name | VbulkThresh | NegEvtCtr | PosEvtCtr

  /** MAX_FRAM_FIELDS: the number of fields. */
  const FieldCount := 15

  /** The FRAM_FIELDS enumerator of a field. */
  function Index(f: Field): nat
  {
    match f
    case EvCtr => 0
    case SerNum => 1
    case DevType => 2
    case EvInt => 3
    case EvMax => 4
    case EvSlp => 5
    case InSlp => 6
    case Isl9122 => 7
    case PolMet => 8
    case EncryptedKey => 9
    case TxDbm => 10
    case Name => 11
    case VbulkThresh => 12
    case NegEvtCtr => 13
    case PosEvtCtr => 14
  }

  /** The fields in FRAM_FIELDS order. */
  const Fields: seq<Field> :=
    [EvCtr, SerNum, DevType, EvInt, EvMax, EvSlp, InSlp, Isl9122,
     PolMet, EncryptedKey, TxDbm, Name, VbulkThresh, NegEvtCtr, PosEvtCtr]

  /** The field a number names, if it names one: exactly the numbers below
      MAX_FRAM_FIELDS do, and the mapping inverts `Index`. */
  function FieldOf(i: int): (r: Option<Field>)
    ensures r.Some? <==> 0 <= i < FieldCount
    ensures r.Some? ==> Index(r.value) == i
  {
    if 0 <= i < |Fields| then Some(Fields[i]) else None
  }

  /** Every field is named by its own enumerator. */
  lemma IndexRoundTrip(f: Field)
    ensures Index(f) < FieldCount && FieldOf(Index(f)) == Some(f)
  {
  }

  /** The field with a given enumerator; total on 0..14. */
  function FieldAt(i: nat): Field
    requires i < FieldCount
  {
    FieldOf(i).value
  }

  /** The `*_NUM_BYTES` width of each field. */
  function Width(f: Field): nat
  {
    match f
    case EvCtr => 4
    case SerNum => 4
    case DevType => 1
    case EvInt => 1
    case EvMax => 2
    case EvSlp => 2
    case InSlp => 2
    case Isl9122 => 1
    case PolMet => 1
    case EncryptedKey => 16
    case TxDbm => 1
    case Name => 10
    case VbulkThresh => 1
    case NegEvtCtr => 4
    case PosEvtCtr => 4
  }

  /** The `*_ADDR` value of each field. */
  function Addr(f: Field): nat
  {
    match f
    case EvCtr => 0
    case SerNum => 4
    case DevType => 8
    case EvInt => 9
    case EvMax => 10
    case EvSlp => 12
    case InSlp => 14
    case Isl9122 => 16
    case PolMet => 17
    case EncryptedKey => 18
    case TxDbm => 34
    case Name => 35
    case VbulkThresh => 45
    case NegEvtCtr => 46
    case PosEvtCtr => 50
  }

  /** One past the last byte any field occupies. */
  const LayoutSize: nat := 54

  /** The header's own definition of the addresses: the event counter sits at
      address 0 and every other field starts where the field numbered before
      it ends; the last field ends at 54. */
  lemma AddrChain(i: nat)
    requires 0 < i < FieldCount
    ensures Addr(FieldAt(i)) == Addr(FieldAt(i - 1)) + Width(FieldAt(i - 1))
  {
  }

  /** Reference definition: the total width of the fields whose enumerator is
      below i. */
  function WidthsBelow(i: nat): nat
    requires i <= FieldCount
  {
    if i == 0 then 0 else WidthsBelow(i - 1) + Width(FieldAt(i - 1))
  }

  /** The fields are laid out in enumeration order with no gaps: each field's
      address is the total width of the fields numbered before it. */
  lemma {:induction false} AddrIsWidthsBelow(i: nat)
    requires i < FieldCount
    ensures Addr(FieldAt(i)) == WidthsBelow(i)
  {
    if i > 0 {
      AddrIsWidthsBelow(i - 1);
      AddrChain(i);
    }
  }

  /** All fields together fill exactly the 54-byte layout. */
  lemma WidthsBelowTotal()
    ensures WidthsBelow(FieldCount) == LayoutSize
  {
    AddrIsWidthsBelow(FieldCount - 1);
  }

  /** The end of field i is where field i + 1 starts, or the end of the layout. */
  lemma WidthsBelowNext(i: nat)
    requires i < FieldCount
    ensures Addr(FieldAt(i)) + Width(FieldAt(i)) == WidthsBelow(i + 1)
  {
    AddrIsWidthsBelow(i);
  }

  /** Fields numbered further on start no earlier than earlier fields end. */
  lemma {:induction false} WidthsBelowMonotone(i: nat, j: nat)
    requires i <= j <= FieldCount
    ensures WidthsBelow(i) <= WidthsBelow(j)
    decreases j
  {
    if i < j {
      WidthsBelowMonotone(i, j - 1);
    }
  }

  /** A field numbered before another ends no later than the other starts. */
  lemma FieldEndsBefore(f: Field, g: Field)
    requires Index(f) < Index(g)
    ensures Addr(f) + Width(f) <= Addr(g)
  {
    IndexRoundTrip(f);
    IndexRoundTrip(g);
    WidthsBelowNext(Index(f));
    AddrIsWidthsBelow(Index(g));
    WidthsBelowMonotone(Index(f) + 1, Index(g));
  }

  /** Distinct fields never share a byte. */
  lemma FieldsDisjoint(f: Field, g: Field)
    requires f != g
    ensures Addr(f) + Width(f) <= Addr(g) || Addr(g) + Width(g) <= Addr(f)
  {
    if Index(f) < Index(g) {
      FieldEndsBefore(f, g);
    } else {
      assert Index(f) != Index(g) by { IndexRoundTrip(f); IndexRoundTrip(g); }
      FieldEndsBefore(g, f);
    }
  }

  /** The field holding byte b of the layout: every byte below 54 belongs to
      exactly one field (uniqueness by `FieldsDisjoint`). */
  function Owner(b: nat): (f: Field)
    requires b < LayoutSize
    ensures Addr(f) <= b < Addr(f) + Width(f)
  {
    if b < 4 then EvCtr
    else if b < 8 then SerNum
    else if b < 9 then DevType
    else if b < 10 then EvInt
    else if b < 12 then EvMax
    else if b < 14 then EvSlp
    else if b < 16 then InSlp
    else if b < 17 then Isl9122
    else if b < 18 then PolMet
    else if b < 34 then EncryptedKey
    else if b < 35 then TxDbm
    else if b < 45 then Name
    else if b < 46 then VbulkThresh
    else if b < 50 then NegEvtCtr
    else PosEvtCtr
  }

  /** get_field_addr_and_length_based_on_type: the address and width of the
      field a number names; a number naming no field yields address 0 and
      width 0, so the transfer that follows moves no bytes. */
  function Lookup(fieldType: uint8): (r: (nat, nat))
    ensures fieldType >= FieldCount ==> r == (0, 0)
    ensures r.0 + r.1 <= LayoutSize
  {
    match FieldOf(fieldType)
    case Some(f) => (Addr(f), Width(f))
    case None => (0, 0)
  }

  /** A field number below MAX_FRAM_FIELDS is looked up to the bytes the
      packed layout gives its field: after all lower-numbered fields. */
  lemma LookupIsPacked(fieldType: uint8)
    requires fieldType < FieldCount
    ensures Lookup(fieldType) == (WidthsBelow(fieldType), Width(FieldAt(fieldType)))
  {
    AddrIsWidthsBelow(fieldType);
  }

  /** Lookup of a field number yields that field's address and width. */
  lemma LookupField(fieldType: uint8)
    ensures fieldType < FieldCount ==>
              Lookup(fieldType) == (Addr(FieldAt(fieldType)), Width(FieldAt(fieldType)))
  {
  }

  /** The two address bytes sent before every transfer: high byte first. */
  function AddrBytes(addr: uint16): (r: seq<uint8>)
    ensures |r| == 2 && (r[0] as int) * 0x100 + (r[1] as int) == addr
  {
    [(addr / 0x100) % 0x100, addr % 0x100]
  }

  /** The device decodes the address it receives big-endian; every 16-bit
      address survives the encoding. */
  lemma AddrBytesInjective(a: uint16, b: uint16)
    requires AddrBytes(a) == AddrBytes(b)
    ensures a == b
  {
  }

  // ---------------------------------------------------------------------
  // The RAM mirror `fram_data_t`

  /** C types of the members of `fram_data_t`. */
  datatype CType = Uint8T | Uint16T | Uint32T | ByteArrayT(count: nat)

  function SizeOf(t: CType): nat
  {
    match t
    case Uint8T => 1
    case Uint16T => 2
    case Uint32T => 4
    case ByteArrayT(n) => n
  }

  /** The alignment the ARM EABI gives each member type. */
  function AlignOf(t: CType): (a: nat)
    ensures a >= 1
  {
    match t
    case Uint8T => 1
    case Uint16T => 2
    case Uint32T => 4
    case ByteArrayT(_) => 1
  }

  /** The declared type of the member that mirrors each field. */
  function MemberType(f: Field): CType
  {
    match f
    case EvCtr => Uint32T
    case SerNum => Uint32T
    case DevType => Uint8T
    case EvInt => Uint8T
    case EvMax => Uint16T
    case EvSlp => Uint16T
    case InSlp => Uint16T
    case Isl9122 => Uint8T
    case PolMet => Uint8T
    case EncryptedKey => ByteArrayT(16)
    case TxDbm => Uint8T
    case Name => ByteArrayT(10)
    case VbulkThresh => Uint8T
    case NegEvtCtr => Uint32T
    case PosEvtCtr => Uint32T
  }

  /** Every member is exactly as wide as the field it mirrors. */
  lemma MemberSizeIsWidth(f: Field)
    ensures SizeOf(MemberType(f)) == Width(f)
  {
  }

  /** The smallest multiple of a that is at least x. */
  function AlignUp(x: nat, a: nat): (r: nat)
    requires a >= 1
    ensures x <= r < x + a && r % a == 0
  {
    if x % a == 0 then x
    else
      var r := x + (a - x % a);
      DivModUnique(r, a, x / a + 1, 0);
      r
  }

  /** The member declared just before a member. */
  function Prev(f: Field): (p: Field)
    requires f != EvCtr
    ensures Index(p) + 1 == Index(f)
  {
    match f
    case SerNum => EvCtr
    case DevType => SerNum
    case EvInt => DevType
    case EvMax => EvInt
    case EvSlp => EvMax
    case InSlp => EvSlp
    case Isl9122 => InSlp
    case PolMet => Isl9122
    case EncryptedKey => PolMet
    case TxDbm => EncryptedKey
    case Name => TxDbm
    case VbulkThresh => Name
    case NegEvtCtr => VbulkThresh
    case PosEvtCtr => NegEvtCtr
  }

  /** The offset of each member of `fram_data_t`. */
  function StructOffset(f: Field): nat
  {
    match f
    case EvCtr => 0
    case SerNum => 4
    case DevType => 8
    case EvInt => 9
    case EvMax => 10
    case EvSlp => 12
    case InSlp => 14
    case Isl9122 => 16
    case PolMet => 17
    case EncryptedKey => 18
    case TxDbm => 34
    case Name => 35
    case VbulkThresh => 45
    case NegEvtCtr => 48
    case PosEvtCtr => 52
  }

  /** sizeof(fram_data_t). */
  const StructSize: nat := 56

  /** The offsets follow the C layout rule (C11 section 6.7.2.1 with the ARM
      EABI alignments): the first member at 0, every other member at the end
      of the previous member rounded up to its own alignment, and the size is
      the end of the last member rounded up to the strictest alignment, 4. */
  lemma StructOffsetsFollowLayoutRule(f: Field)
    ensures f == EvCtr ==> StructOffset(f) == 0
    ensures f != EvCtr ==>
              StructOffset(f) == AlignUp(StructOffset(Prev(f)) + SizeOf(MemberType(Prev(f))),
                                         AlignOf(MemberType(f)))
    ensures StructSize == AlignUp(StructOffset(PosEvtCtr) + SizeOf(MemberType(PosEvtCtr)), 4)
  {
  }

  /** The struct mirrors the FRAM byte for byte up to the VBULK threshold;
      padding after it moves the two polarity counters two bytes past their
      FRAM addresses, and the struct is 56 bytes where the layout is 54. */
  lemma StructOffsetsAgainstAddresses(f: Field)
    ensures Index(f) <= Index(VbulkThresh) ==> StructOffset(f) == Addr(f)
    ensures f == NegEvtCtr ==> StructOffset(f) == Addr(f) + 2
    ensures f == PosEvtCtr ==> StructOffset(f) == Addr(f) + 2
    ensures StructSize == LayoutSize + 2
  {
  }
}
