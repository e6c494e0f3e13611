/**
 * Field-by-field construction of a packed image in the store: the bookkeeping
 * the RESET and PRESET proofs share. A run of writes in field order is
 * tracked by how many leading bytes of the target image the store already
 * holds; the bytes after them are still the original store's.
 */
module FramImage {
  import opened MachineInt
  import opened FramLayout
  import opened FramRecord
  import opened FramStore

  /** `image` is the packed image of `d`, slot by slot. */
  predicate ImageOf(image: seq<uint8>, d: FramData)
    requires WellFormed(d)
  {
    |image| == LayoutSize && forall f :: Slot(image, Packed, f) == MemberBytes(d, f)
  }

  /** The encoding is an image of its record, and the only one. */
  lemma EncodeIsImage(d: FramData)
    requires WellFormed(d)
    ensures ImageOf(Encode(d), d)
  {
    forall f
      ensures Slot(Encode(d), Packed, f) == MemberBytes(d, f)
    {
      EncodeSlot(d, f);
    }
  }

  /** `m` holds the first w bytes of `image` and, after them, what `mem` held. */
  predicate Stored(m: Memory, image: seq<uint8>, mem: Memory, w: nat)
  {
    w <= |image| && w <= |mem| && m == image[..w] + mem[w..]
  }

  /** Before any write the store holds none of the image. */
  lemma StoredStart(mem: Memory, image: seq<uint8>)
    requires Holds(mem) && |image| == LayoutSize
    ensures Stored(mem, image, mem, WidthsBelow(0))
  {
    assert mem == image[..0] + mem[0..];
  }

  /** Once every field is written the store holds the image, and beyond it
      what it held before. */
  lemma StoredAll(m: Memory, image: seq<uint8>, mem: Memory)
    requires |image| == LayoutSize && Holds(mem) && Stored(m, image, mem, WidthsBelow(FieldCount))
    ensures m[..LayoutSize] == image && m[LayoutSize..] == mem[LayoutSize..]
  {
    WidthsBelowTotal();
  }

  /** Writing field i's bytes of the image extends the stored prefix by
      that field. */
  lemma StoreNextField(m: Memory, m2: Memory, image: seq<uint8>, mem: Memory, i: nat)
    requires i < FieldCount && |image| == LayoutSize && Holds(mem)
    requires Stored(m, image, mem, WidthsBelow(i))
    requires SameOutside(m, m2, Addr(FieldAt(i)), Width(FieldAt(i)))
    requires Slot(m2, Packed, FieldAt(i)) == Slot(image, Packed, FieldAt(i))
    ensures Stored(m2, image, mem, WidthsBelow(i + 1))
  {
    var a, n := Addr(FieldAt(i)), Width(FieldAt(i));
    AddrIsWidthsBelow(i);
    WidthsBelowNext(i);
    assert m[a + n..] == mem[a + n..] by {
      assert m[a..] == mem[a..];
    }
    assert m2 == m2[..a] + m2[a..a + n] + m2[a + n..];
    assert image[..a + n] == image[..a] + image[a..a + n];
  }

  /** A field the image shares with the original store needs no write. */
  lemma StoreSkipField(m: Memory, image: seq<uint8>, mem: Memory, i: nat)
    requires i < FieldCount && |image| == LayoutSize && Holds(mem)
    requires Stored(m, image, mem, WidthsBelow(i))
    requires Slot(image, Packed, FieldAt(i)) == Slot(mem, Packed, FieldAt(i))
    ensures Stored(m, image, mem, WidthsBelow(i + 1))
  {
    var a, n := Addr(FieldAt(i)), Width(FieldAt(i));
    AddrIsWidthsBelow(i);
    WidthsBelowNext(i);
    assert image[a..a + n] == mem[a..a + n];
    SkipSplice(m, image, mem, a, n);
  }

  /** Extending a stored prefix over bytes the image and the original
      already share. */
  lemma SkipSplice(m: Memory, image: seq<uint8>, mem: Memory, a: nat, n: nat)
    requires a + n <= |image| && a + n <= |mem|
    requires m == image[..a] + mem[a..] && image[a..a + n] == mem[a..a + n]
    ensures m == image[..a + n] + mem[a + n..]
  {
    assert image[..a + n] == image[..a] + image[a..a + n];
    assert mem[a..] == mem[a..a + n] + mem[a + n..];
  }

  /** A successful write of field i's bytes of the image extends the stored
      prefix by that field. */
  lemma WriteNextField(m: Memory, image: seq<uint8>, mem: Memory, i: nat, data: seq<uint8>)
    requires i < FieldCount && |image| == LayoutSize && Holds(mem) && Holds(m)
    requires Stored(m, image, mem, WidthsBelow(i))
    requires |data| >= Width(FieldAt(i)) && data[..Width(FieldAt(i))] == Slot(image, Packed, FieldAt(i))
    ensures Stored(WriteField(m, i, data, BusOk).mem, image, mem, WidthsBelow(i + 1))
  {
    LookupField(i);
    StoreNextField(m, WriteField(m, i, data, BusOk).mem, image, mem, i);
  }

  /** A successful write of field i fills that field's slot with the first
      bytes of the data. */
  lemma WriteSlot(mem: Memory, i: nat, data: seq<uint8>)
    requires i < FieldCount && Holds(mem) && |data| >= Width(FieldAt(i))
    ensures |data| >= Lookup(i).1
    ensures Slot(WriteField(mem, i, data, BusOk).mem, Packed, FieldAt(i)) == data[..Width(FieldAt(i))]
  {
    LookupField(i);
  }

  /** The VBULK threshold byte of a store or an image. */
  function Threshold(bytes: seq<uint8>): (r: uint8)
    requires |bytes| >= LayoutSize
    ensures Slot(bytes, Packed, VbulkThresh) == [r]
  {
    bytes[Addr(VbulkThresh)]
  }

  /** Stores that agree on the layout have the same threshold byte. */
  lemma ThresholdOfPrefix(x: seq<uint8>, y: seq<uint8>)
    requires |x| >= LayoutSize && |y| >= LayoutSize && x[..LayoutSize] == y[..LayoutSize]
    ensures Threshold(x) == Threshold(y)
  {
    assert x[Addr(VbulkThresh)] == x[..LayoutSize][Addr(VbulkThresh)];
    assert y[Addr(VbulkThresh)] == y[..LayoutSize][Addr(VbulkThresh)];
  }

  /** Stores that agree on the layout and past it are equal. */
  lemma PrefixAndTail(x: Memory, y: Memory)
    requires |x| == |y| >= LayoutSize
    requires x[..LayoutSize] == y[..LayoutSize] && x[LayoutSize..] == y[LayoutSize..]
    ensures x == y
  {
    assert x == x[..LayoutSize] + x[LayoutSize..];
    assert y == y[..LayoutSize] + y[LayoutSize..];
  }
}
