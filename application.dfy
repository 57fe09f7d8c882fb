// `readIndexItem` (src/application.ts): the index of the items a data
// broadcast carries, read item by item until the declared count is reached.
module Application {
  import opened Js
  import opened Decoding
  import opened Utils

  /** The compression type meaning the item is sent as it is. */
  const ITEM_COMPRESSION_TYPE_UNCOMPRESSED: nat := 0xff

  datatype Item = Item(
    itemId: nat,
    itemSize: nat,
    itemVersion: nat,
    fileName: bytes,
    itemChecksum: Option<nat>,
    itemType: bytes,
    compressionType: nat,
    originalSize: Option<nat>)

  datatype IndexItem = IndexItem(items: seq<Item>)

  /** A byte string after its one-byte length, as the file name and the item type are sent. */
  function LengthPrefixedAt(b: bytes, p: nat): Option<Field<bytes>>
  {
    if |b| < 1 + p then None
    else
      var length := b[p];
      var q := p + 1;
      if |b| < length + q then None
      else Some(Field(Js.Slice(b, q, q + length), q + length))
  }

  /** The flag byte at p and the checksum that follows it when its top bit is set. */
  function ChecksumAt(b: bytes, p: nat): Option<Field<Option<nat>>>
  {
    if |b| < 1 + p then None
    else
      var checksumFlag := b[p] / 0x80 != 0;
      var q := p + 1;
      if checksumFlag && |b| < 4 + q then None
      else Some(Field(if checksumFlag then Some(U32(b, q)) else None, if checksumFlag then q + 4 else q))
  }

  /** The compression type at p, and the original size that follows it unless the type is 0xff. */
  function CompressionAt(b: bytes, p: nat): Option<Field<(nat, Option<nat>)>>
  {
    if |b| < 1 + p then None
    else
      var compressionType := b[p];
      var q := p + 1;
      if compressionType != 0xff && |b| < 4 + q then None
      else Some(Field((compressionType, if compressionType != 0xff then Some(U32(b, q)) else None),
                      if compressionType != 0xff then q + 4 else q))
  }

  /** The string is read whole exactly when its length byte and its bytes fit. */
  lemma {:induction false} LengthPrefixedAtSpec(b: bytes, p: nat)
    ensures var r := LengthPrefixedAt(b, p);
      (r.Some? <==> p < |b| && p + 1 + b[p] <= |b|)
      && (r.Some? ==> r.value.value == b[p + 1..p + 1 + b[p]] && r.value.next == p + 1 + b[p])
  {
  }

  /** A checksum follows the flag exactly when the top bit is set, and fails only when it is cut short. */
  lemma {:induction false} ChecksumAtSpec(b: bytes, p: nat)
    ensures var r := ChecksumAt(b, p);
      (r.Some? ==> p < |b| && (r.value.value.Some? <==> b[p] >= 0x80))
      && (r.Some? ==> r.value.next == p + 1 + (if b[p] >= 0x80 then 4 else 0) <= |b|)
      && (r.Some? && r.value.value.Some? ==> r.value.value.value == U32(b, p + 1))
      && (r.None? <==> p >= |b| || (b[p] >= 0x80 && |b| < p + 5))
  {
  }

  /** An original size follows the compression type exactly when the type is not 0xff. */
  lemma {:induction false} CompressionAtSpec(b: bytes, p: nat)
    ensures var r := CompressionAt(b, p);
      (r.Some? ==> p < |b| && r.value.value.0 == b[p])
      && (r.Some? ==> (r.value.value.1.Some? <==> b[p] != 0xff))
      && (r.Some? ==> r.value.next == p + 1 + (if b[p] != 0xff then 4 else 0) <= |b|)
      && (r.Some? && r.value.value.1.Some? ==> r.value.value.1.value == U32(b, p + 1))
      && (r.None? <==> p >= |b| || (b[p] != 0xff && |b| < p + 5))
  {
  }

  /** An item decoded at some offset, and the offset just after it. */
  datatype ParsedItem = ParsedItem(item: Item, next: nat)

  /**
   * The item whose first byte is at o, or None when any of its parts does not
   * fit: two 32-bit words, the version, the file name, the checksum flag and
   * checksum, the item type, the compression type and the original size.
   */
  function ItemAt(b: bytes, o: nat): Option<ParsedItem>
  {
    if |b| < 4 + 4 + 1 + 1 + o then None
    else
      match LengthPrefixedAt(b, o + 9)
      case None => None
      case Some(fileName) =>
        match ChecksumAt(b, fileName.next)
        case None => None
        case Some(checksum) =>
          match LengthPrefixedAt(b, checksum.next)
          case None => None
          case Some(itemType) =>
            match CompressionAt(b, itemType.next)
            case None => None
            case Some(compression) =>
              Some(ParsedItem(Item(U32(b, o), U32(b, o + 4), b[o + 8], fileName.value, checksum.value,
                                   itemType.value, compression.value.0, compression.value.1), compression.next))
  }

  /**
   * What a decoded item holds: the two words, the version and the file name
   * where the layout puts them, a checksum exactly when the flag's top bit is
   * set, and an original size exactly when the item is compressed.
   */
  lemma {:induction false} ItemAtFields(b: bytes, o: nat)
    requires ItemAt(b, o).Some?
    ensures o + 10 <= |b| && o + 10 + b[o + 9] < |b|
    ensures var r := ItemAt(b, o).value;
      o < r.next <= |b|
      && r.item.itemId == U32(b, o) && r.item.itemSize == U32(b, o + 4)
      && r.item.itemVersion == b[o + 8] && r.item.fileName == b[o + 10..o + 10 + b[o + 9]]
      && (r.item.itemChecksum.Some? <==> b[o + 10 + b[o + 9]] >= 0x80)
      && (r.item.originalSize.Some? <==> r.item.compressionType != 0xff)
      && r.item.compressionType < 0x100 && |r.item.itemType| < 0x100
  {
    LengthPrefixedAtSpec(b, o + 9);
    ChecksumAtSpec(b, o + 10 + b[o + 9]);
    var c := ChecksumAt(b, o + 10 + b[o + 9]).value;
    LengthPrefixedAtSpec(b, c.next);
    CompressionAtSpec(b, LengthPrefixedAt(b, c.next).value.next);
  }

  /** k items read one after the other from o; None when any of them fails. */
  function ItemsFrom(b: bytes, o: nat, k: nat): (r: Option<seq<Item>>)
    ensures r.Some? ==> |r.value| == k
    decreases k, 1
  {
    if k == 0 then Some([]) else ItemsFromAt(b, o, k)
  }

  /** The item at o, then k - 1 more from where it ends. */
  function ItemsFromAt(b: bytes, o: nat, k: nat): (r: Option<seq<Item>>)
    requires k > 0
    ensures r.Some? ==> |r.value| == k
    decreases k, 0
  {
    match ItemAt(b, o)
    case None => None
    case Some(p) =>
      match ItemsFrom(b, p.next, k - 1)
      case None => None
      case Some(rest) => Some([p.item] + rest)
  }

  /** What readIndexItem returns: a 16-bit count, then that many items. */
  function IndexItemOf(b: bytes): (r: Option<IndexItem>)
    ensures r.Some? ==> |b| >= 2 && |r.value.items| == U16(b, 0)
    ensures |b| < 2 ==> r.None?
  {
    if |b| < 2 then None
    else
      match ItemsFrom(b, 2, U16(b, 0))
      case None => None
      case Some(items) => Some(IndexItem(items))
  }

  /** `items` already read, followed by what the rest of the loop reads. */
  function Prepend(items: seq<Item>, rest: Option<seq<Item>>): Option<seq<Item>>
  {
    match rest
    case None => None
    case Some(more) => Some(items + more)
  }

  method ReadIndexItem(buffer: bytes) returns (r: Option<IndexItem>)
    ensures r == IndexItemOf(buffer)
  {
    var reader := new BinaryReader(buffer, 0);
    if !reader.CanRead(2) {
      return None;
    }
    var numOfItems := reader.ReadUint16();
    var items := ReadItems(reader, numOfItems);
    if items.None? {
      return None;
    }
    r := Some(IndexItem(items.value));
  }

  /** readIndexItem's loop: numOfItems items, or None as soon as one fails. */
  method ReadItems(reader: BinaryReader, numOfItems: nat) returns (r: Option<seq<Item>>)
    requires reader.offset >= 0
    modifies reader
    ensures r == ItemsFrom(reader.buffer, old(reader.offset), numOfItems)
  {
    ghost var b, o := reader.buffer, reader.offset;
    var items: seq<Item> := [];
    PrependEmpty(ItemsLeft(b, o, numOfItems));
    var i := 0;
    ghost var left, whole := numOfItems, ItemsFrom(b, o, numOfItems);
    while i < numOfItems
      invariant i <= numOfItems && left == numOfItems - i && reader.buffer == b && reader.offset >= 0
      invariant Prepend(items, ItemsLeft(b, reader.offset, left)) == whole
    {
      var item := ReadNextItem(reader, left);
      if item.None? {
        return None;
      }
      PrependAppend(items, item.value, ItemsFrom(b, reader.offset, left - 1));
      items := items + [item.value];
      i := i + 1;
      left := left - 1;
    }
    assert ItemsFrom(b, reader.offset, 0) == Some([]);
    assert items + [] == items;
    r := Some(items);
  }

  /** One pass of the loop with k items still to read, stated against the list it belongs to. */
  method ReadNextItem(reader: BinaryReader, ghost k: nat) returns (r: Option<Item>)
    requires reader.offset >= 0 && k > 0
    modifies reader
    ensures r.Some? ==> reader.offset >= 0
    ensures r.None? ==> ItemsFrom(reader.buffer, old(reader.offset), k).None?
    ensures r.Some? ==> ItemsFrom(reader.buffer, old(reader.offset), k)
                        == Prepend([r.value], ItemsFrom(reader.buffer, reader.offset, k - 1))
  {
    ghost var start := reader.offset;
    r := ReadItem(reader);
    if r.None? {
      ItemsFromFails(reader.buffer, start, k);
    } else {
      ItemsFromStep(reader.buffer, start, k);
    }
  }

  /** What the loop still has to read: left items from the cursor o. */
  function ItemsLeft(b: bytes, o: int, left: nat): Option<seq<Item>>
  {
    if o >= 0 then ItemsFrom(b, o, left) else None
  }

  /** A later item that does not decode makes the whole list fail. */
  lemma {:induction false} ItemsFromFails(b: bytes, o: nat, k: nat)
    requires k > 0 && ItemAt(b, o).None?
    ensures ItemsFrom(b, o, k).None?
  {
  }

  /** One step of the list: the item at o, then k - 1 more from where it ends. */
  lemma {:induction false} ItemsFromStep(b: bytes, o: nat, k: nat)
    requires k > 0 && ItemAt(b, o).Some?
    ensures ItemsFrom(b, o, k) == Prepend([ItemAt(b, o).value.item], ItemsFrom(b, ItemAt(b, o).value.next, k - 1))
  {
  }

  lemma {:induction false} PrependEmpty(rest: Option<seq<Item>>)
    ensures Prepend([], rest) == rest
  {
    if rest.Some? {
      assert [] + rest.value == rest.value;
    }
  }

  lemma {:induction false} PrependAppend(items: seq<Item>, x: Item, rest: Option<seq<Item>>)
    ensures Prepend(items, Prepend([x], rest)) == Prepend(items + [x], rest)
  {
    if rest.Some? {
      assert items + ([x] + rest.value) == items + [x] + rest.value;
    }
  }

  /** The body of readIndexItem's loop: one item, or None where it returns undefined. */
  method ReadItem(reader: BinaryReader) returns (r: Option<Item>)
    requires reader.offset >= 0
    modifies reader
    ensures var p := ItemAt(reader.buffer, old(reader.offset));
      r.Some? == p.Some? && (r.Some? ==> r.value == p.value.item && reader.offset == p.value.next)
  {
    if !reader.CanRead(4 + 4 + 1 + 1) {
      return None;
    }
    var itemId := reader.ReadUint32();
    var itemSize := reader.ReadUint32();
    var itemVersion := reader.ReadUint8();
    var fileName := ReadLengthPrefixed(reader);
    if fileName.None? {
      return None;
    }
    var itemChecksum := ReadChecksum(reader);
    if itemChecksum.None? {
      return None;
    }
    var itemType := ReadLengthPrefixed(reader);
    if itemType.None? {
      return None;
    }
    var compression := ReadCompression(reader);
    if compression.None? {
      return None;
    }
    r := Some(Item(itemId, itemSize, itemVersion, fileName.value, itemChecksum.value, itemType.value,
                   compression.value.0, compression.value.1));
  }

  /** `readUint8()` for a length, `canRead(length)`, then `slice(length)`. */
  method ReadLengthPrefixed(reader: BinaryReader) returns (r: Option<bytes>)
    requires reader.offset >= 0
    modifies reader
    ensures var f := LengthPrefixedAt(reader.buffer, old(reader.offset));
      r.Some? == f.Some? && (r.Some? ==> r.value == f.value.value && reader.offset == f.value.next)
  {
    if !reader.CanRead(1) {
      return None;
    }
    var length := reader.ReadUint8();
    if !reader.CanRead(length) {
      return None;
    }
    var bytes := reader.Slice(length);
    r := Some(bytes);
  }

  /** The checksum flag byte and, when its top bit is set, the 32-bit checksum. */
  method ReadChecksum(reader: BinaryReader) returns (r: Option<Option<nat>>)
    requires reader.offset >= 0
    modifies reader
    ensures var f := ChecksumAt(reader.buffer, old(reader.offset));
      r.Some? == f.Some? && (r.Some? ==> r.value == f.value.value && reader.offset == f.value.next)
  {
    if !reader.CanRead(1) {
      return None;
    }
    var flags := reader.ReadUint8();
    var checksumFlag := flags / 0x80 != 0;
    var itemChecksum: Option<nat> := None;
    if checksumFlag {
      if !reader.CanRead(4) {
        return None;
      }
      var checksum := reader.ReadUint32();
      itemChecksum := Some(checksum);
    }
    r := Some(itemChecksum);
  }

  /** The compression type and, unless the item is uncompressed, its original size. */
  method ReadCompression(reader: BinaryReader) returns (r: Option<(nat, Option<nat>)>)
    requires reader.offset >= 0
    modifies reader
    ensures var f := CompressionAt(reader.buffer, old(reader.offset));
      r.Some? == f.Some? && (r.Some? ==> r.value == f.value.value && reader.offset == f.value.next)
  {
    if !reader.CanRead(1) {
      return None;
    }
    var compressionType := reader.ReadUint8();
    var originalSize: Option<nat> := None;
    if compressionType != ITEM_COMPRESSION_TYPE_UNCOMPRESSED {
      if !reader.CanRead(4) {
        return None;
      }
      var size := reader.ReadUint32();
      originalSize := Some(size);
    }
    r := Some((compressionType, originalSize));
  }

  /** The fields fit their wire widths, and the optional ones agree with their flags. */
  predicate WellFormedItem(it: Item)
  {
    it.itemId < 0x1_0000_0000 && it.itemSize < 0x1_0000_0000 && it.itemVersion < 0x100
    && |it.fileName| < 0x100 && |it.itemType| < 0x100 && it.compressionType < 0x100
    && (it.itemChecksum.Some? ==> it.itemChecksum.value < 0x1_0000_0000)
    && (it.originalSize.Some? <==> it.compressionType != 0xff)
    && (it.originalSize.Some? ==> it.originalSize.value < 0x1_0000_0000)
  }

  /** A byte string after its one-byte length. */
  ghost function EncodeLengthPrefixed(x: bytes): (r: bytes)
    requires |x| < 0x100
    ensures |r| == 1 + |x|
  {
    [|x| as byte] + x
  }

  /** The flag byte is 0x80 with a checksum and 0 without. */
  ghost function EncodeChecksum(c: Option<nat>): (r: bytes)
    requires c.Some? ==> c.value < 0x1_0000_0000
    ensures |r| == if c.Some? then 5 else 1
  {
    if c.Some? then [0x80] + Be32(c.value) else [0x00]
  }

  ghost function EncodeCompression(compressionType: nat, originalSize: Option<nat>): (r: bytes)
    requires compressionType < 0x100 && (originalSize.Some? <==> compressionType != 0xff)
    requires originalSize.Some? ==> originalSize.value < 0x1_0000_0000
    ensures |r| == if originalSize.Some? then 5 else 1
  {
    [compressionType as byte] + (if originalSize.Some? then Be32(originalSize.value) else [])
  }

  /** The wire form of an item, the inverse of ItemAt. */
  ghost function EncodeItem(it: Item): (r: bytes)
    requires WellFormedItem(it)
    ensures |r| == ItemLength(it)
  {
    Be32(it.itemId) + Be32(it.itemSize) + [it.itemVersion as byte] + EncodeLengthPrefixed(it.fileName)
    + EncodeChecksum(it.itemChecksum) + EncodeLengthPrefixed(it.itemType)
    + EncodeCompression(it.compressionType, it.originalSize)
  }

  function ItemLength(it: Item): nat
  {
    4 + 4 + 1 + 1 + |it.fileName| + 1 + (if it.itemChecksum.Some? then 4 else 0)
    + 1 + |it.itemType| + 1 + (if it.originalSize.Some? then 4 else 0)
  }

  /** A byte string found after its length reads back whole. */
  lemma {:induction false} LengthPrefixedWindow(b: bytes, p: nat, x: bytes)
    requires |x| < 0x100 && At(b, p, EncodeLengthPrefixed(x))
    ensures LengthPrefixedAt(b, p) == Some(Field(x, p + 1 + |x|))
  {
    AtSplit(b, p, [|x| as byte], x);
    assert b[p + 0] == [|x| as byte][0];
    AtSlice(b, p + 1, x);
  }

  /** A flag and checksum found at p read back as that checksum. */
  lemma {:induction false} ChecksumWindow(b: bytes, p: nat, c: Option<nat>)
    requires c.Some? ==> c.value < 0x1_0000_0000
    requires At(b, p, EncodeChecksum(c))
    ensures ChecksumAt(b, p) == Some(Field(c, p + |EncodeChecksum(c)|))
  {
    var e := EncodeChecksum(c);
    assert b[p + 0] == e[0];
    if c.Some? {
      AtSplit(b, p, [0x80], Be32(c.value));
      AtU32(b, p + 1, Be32(c.value));
    }
  }

  /** A compression type and original size found at p read back as those. */
  lemma {:induction false} CompressionWindow(b: bytes, p: nat, compressionType: nat, originalSize: Option<nat>)
    requires compressionType < 0x100 && (originalSize.Some? <==> compressionType != 0xff)
    requires originalSize.Some? ==> originalSize.value < 0x1_0000_0000
    requires At(b, p, EncodeCompression(compressionType, originalSize))
    ensures CompressionAt(b, p)
            == Some(Field((compressionType, originalSize), p + |EncodeCompression(compressionType, originalSize)|))
  {
    var e := EncodeCompression(compressionType, originalSize);
    assert b[p + 0] == e[0];
    if originalSize.Some? {
      AtSplit(b, p, [compressionType as byte], Be32(originalSize.value));
      AtU32(b, p + 1, Be32(originalSize.value));
    }
  }

  /** An encoded item found at o, cut into the wire forms of its seven parts. */
  lemma {:induction false} ItemPeel(b: bytes, o: nat, it: Item)
    requires WellFormedItem(it) && At(b, o, EncodeItem(it))
    ensures var p4 := o + 10 + |it.fileName|;
      var p6 := p4 + |EncodeChecksum(it.itemChecksum)|;
      var p8 := p6 + 1 + |it.itemType|;
      At(b, o, Be32(it.itemId)) && At(b, o + 4, Be32(it.itemSize))
      && At(b, o + 8, [it.itemVersion as byte])
      && At(b, o + 9, EncodeLengthPrefixed(it.fileName))
      && At(b, p4, EncodeChecksum(it.itemChecksum))
      && At(b, p6, EncodeLengthPrefixed(it.itemType))
      && At(b, p8, EncodeCompression(it.compressionType, it.originalSize))
  {
    var w0 := Be32(it.itemId);
    var x2 := w0 + Be32(it.itemSize);
    var x3 := x2 + [it.itemVersion as byte];
    var x4 := x3 + EncodeLengthPrefixed(it.fileName);
    var x5 := x4 + EncodeChecksum(it.itemChecksum);
    var x6 := x5 + EncodeLengthPrefixed(it.itemType);
    AtSplit(b, o, x6, EncodeCompression(it.compressionType, it.originalSize));
    AtSplit(b, o, x5, EncodeLengthPrefixed(it.itemType));
    AtSplit(b, o, x4, EncodeChecksum(it.itemChecksum));
    AtSplit(b, o, x3, EncodeLengthPrefixed(it.fileName));
    AtSplit(b, o, x2, [it.itemVersion as byte]);
    AtSplit(b, o, w0, Be32(it.itemSize));
  }

  /** The fixed header and the file name read back where they were found. */
  lemma {:induction false} ItemHeadStages(b: bytes, o: nat, it: Item)
    requires WellFormedItem(it)
    requires At(b, o, Be32(it.itemId)) && At(b, o + 4, Be32(it.itemSize))
      && At(b, o + 8, [it.itemVersion as byte]) && At(b, o + 9, EncodeLengthPrefixed(it.fileName))
    ensures o + 10 <= |b| && U32(b, o) == it.itemId && U32(b, o + 4) == it.itemSize && b[o + 8] == it.itemVersion
    ensures LengthPrefixedAt(b, o + 9) == Some(Field(it.fileName, o + 10 + |it.fileName|))
  {
    AtU32(b, o, Be32(it.itemId));
    AtU32(b, o + 4, Be32(it.itemSize));
    assert b[o + 8 + 0] == [it.itemVersion as byte][0];
    LengthPrefixedWindow(b, o + 9, it.fileName);
  }

  /** The checksum, the item type and the compression read back where they were found. */
  lemma {:induction false} ItemTailStages(b: bytes, p: nat, it: Item)
    requires WellFormedItem(it)
    requires var p6 := p + |EncodeChecksum(it.itemChecksum)|;
      At(b, p, EncodeChecksum(it.itemChecksum))
      && At(b, p6, EncodeLengthPrefixed(it.itemType))
      && At(b, p6 + 1 + |it.itemType|, EncodeCompression(it.compressionType, it.originalSize))
    ensures var c := EncodeChecksum(it.itemChecksum);
      var t := EncodeLengthPrefixed(it.itemType);
      var z := EncodeCompression(it.compressionType, it.originalSize);
      ChecksumAt(b, p) == Some(Field(it.itemChecksum, p + |c|))
      && LengthPrefixedAt(b, p + |c|) == Some(Field(it.itemType, p + |c| + |t|))
      && CompressionAt(b, p + |c| + |t|) == Some(Field((it.compressionType, it.originalSize), p + |c| + |t| + |z|))
  {
    var p6 := p + |EncodeChecksum(it.itemChecksum)|;
    ChecksumWindow(b, p, it.itemChecksum);
    LengthPrefixedWindow(b, p6, it.itemType);
    CompressionWindow(b, p6 + 1 + |it.itemType|, it.compressionType, it.originalSize);
  }

  /** ItemAt in terms of its parts, each read back where the layout puts it. */
  lemma {:induction false} ItemAtOfParts(b: bytes, o: nat, it: Item)
    requires WellFormedItem(it)
    requires o + 10 <= |b| && U32(b, o) == it.itemId && U32(b, o + 4) == it.itemSize && b[o + 8] == it.itemVersion
    requires LengthPrefixedAt(b, o + 9) == Some(Field(it.fileName, o + 10 + |it.fileName|))
    requires var p := o + 10 + |it.fileName|;
      var c := EncodeChecksum(it.itemChecksum);
      var t := EncodeLengthPrefixed(it.itemType);
      var z := EncodeCompression(it.compressionType, it.originalSize);
      ChecksumAt(b, p) == Some(Field(it.itemChecksum, p + |c|))
      && LengthPrefixedAt(b, p + |c|) == Some(Field(it.itemType, p + |c| + |t|))
      && CompressionAt(b, p + |c| + |t|) == Some(Field((it.compressionType, it.originalSize), p + |c| + |t| + |z|))
    ensures ItemAt(b, o) == Some(ParsedItem(it, o + ItemLength(it)))
  {
  }

  /** An encoded item found at o in any buffer reads back as that item. */
  lemma {:induction false} ItemWindow(b: bytes, o: nat, it: Item)
    requires WellFormedItem(it) && At(b, o, EncodeItem(it))
    ensures ItemAt(b, o) == Some(ParsedItem(it, o + ItemLength(it)))
  {
    ItemPeel(b, o, it);
    ItemHeadStages(b, o, it);
    ItemTailStages(b, o + 10 + |it.fileName|, it);
    ItemAtOfParts(b, o, it);
  }

  ghost function EncodeItems(ys: seq<Item>): bytes
    requires forall i :: 0 <= i < |ys| ==> WellFormedItem(ys[i])
  {
    if ys == [] then [] else EncodeItem(ys[0]) + EncodeItems(ys[1..])
  }

  /** The wire forms of the items of ys lie one after another in b from o on. */
  ghost predicate ItemsLaidOut(b: bytes, o: nat, ys: seq<Item>)
    decreases |ys|
  {
    ys == [] || (WellFormedItem(ys[0]) && At(b, o, EncodeItem(ys[0])) && ItemsLaidOut(b, o + ItemLength(ys[0]), ys[1..]))
  }

  /** An encoded list found at o, cut into its first item and the rest. */
  lemma {:induction false} ItemsSplit(b: bytes, o: nat, ys: seq<Item>)
    requires ys != [] && forall i :: 0 <= i < |ys| ==> WellFormedItem(ys[i])
    requires At(b, o, EncodeItems(ys))
    ensures At(b, o, EncodeItem(ys[0])) && At(b, o + ItemLength(ys[0]), EncodeItems(ys[1..]))
  {
    AtSplitOf(b, o, EncodeItems(ys), EncodeItem(ys[0]), EncodeItems(ys[1..]));
  }

  /** An encoded list found at o is its items' wire forms, one after another. */
  lemma {:induction false} ItemsLaidOutOf(b: bytes, o: nat, ys: seq<Item>)
    requires forall i :: 0 <= i < |ys| ==> WellFormedItem(ys[i])
    requires At(b, o, EncodeItems(ys))
    ensures ItemsLaidOut(b, o, ys)
    decreases |ys|
  {
    if ys != [] {
      ItemsSplit(b, o, ys);
      ItemsLaidOutOf(b, o + ItemLength(ys[0]), ys[1..]);
    }
  }

  /** Items laid out from o: the first reads back, and then the rest as they read from where it ends. */
  lemma {:induction false} ItemsLaidOutCons(b: bytes, o: nat, ys: seq<Item>)
    requires ys != [] && ItemsLaidOut(b, o, ys)
    requires ItemsFrom(b, o + ItemLength(ys[0]), |ys| - 1) == Some(ys[1..])
    ensures ItemsFrom(b, o, |ys|) == Some(ys)
  {
    ItemsLaidOutHead(b, o, ys);
    ItemsStep(b, o, o + ItemLength(ys[0]), ys);
  }

  /** The first of the items laid out from o reads back. */
  lemma {:induction false} ItemsLaidOutHead(b: bytes, o: nat, ys: seq<Item>)
    requires ys != [] && ItemsLaidOut(b, o, ys)
    ensures ItemAt(b, o) == Some(ParsedItem(ys[0], o + ItemLength(ys[0])))
  {
    ItemWindow(b, o, ys[0]);
  }

  /** Items laid out from o read back as those items. */
  lemma {:induction false} ItemsLaidOutRead(b: bytes, o: nat, ys: seq<Item>)
    requires ItemsLaidOut(b, o, ys)
    ensures ItemsFrom(b, o, |ys|) == Some(ys)
    decreases |ys|
  {
    if ys != [] {
      ItemsLaidOutRead(b, o + ItemLength(ys[0]), ys[1..]);
      ItemsLaidOutCons(b, o, ys);
    }
  }

  /** A list read item by item: its first item, then the rest from where that one ends. */
  lemma {:induction false} ItemsStep(b: bytes, o: nat, next: nat, ys: seq<Item>)
    requires ys != []
    requires ItemAt(b, o) == Some(ParsedItem(ys[0], next))
    requires ItemsFrom(b, next, |ys| - 1) == Some(ys[1..])
    ensures ItemsFrom(b, o, |ys|) == Some(ys)
  {
    assert [ys[0]] + ys[1..] == ys;
  }

  /** The items of an encoded list found at o read back as that list. */
  lemma {:induction false} ItemsRoundTrip(b: bytes, o: nat, ys: seq<Item>)
    requires forall i :: 0 <= i < |ys| ==> WellFormedItem(ys[i])
    requires At(b, o, EncodeItems(ys))
    ensures ItemsFrom(b, o, |ys|) == Some(ys)
  {
    ItemsLaidOutOf(b, o, ys);
    ItemsLaidOutRead(b, o, ys);
  }

  /**
   * The index round trip: a buffer that starts with a 16-bit count and the
   * wire forms of that many items, whatever comes after them, reads back as
   * those items.
   */
  lemma {:induction false} IndexItemRoundTrip(b: bytes, ys: seq<Item>)
    requires |ys| < 0x1_0000
    requires forall i :: 0 <= i < |ys| ==> WellFormedItem(ys[i])
    requires At(b, 0, Be16(|ys|) + EncodeItems(ys))
    ensures IndexItemOf(b) == Some(IndexItem(ys))
  {
    AtPrefix16(b, |ys|, EncodeItems(ys));
    ItemsRoundTrip(b, 2, ys);
  }
}
