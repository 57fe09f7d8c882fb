// The two tables a data-transmission message carries (src/mmt-si.ts): the
// data directory management table (DDMT) and the data asset management
// table (DAMT).  Both are counted loops in which any truncation makes the
// whole table undefined, and both read one byte past the length check that
// guards their fixed header.
module MmtSiData {
  import opened Js
  import opened Decoding
  import opened Utils
  import opened Sections
  import opened MmtSiDescriptor

  datatype DataDirectoryNodeFile = DataDirectoryNodeFile(nodeTag: nat, fileName: bytes)

  datatype DataDirectoryNode = DataDirectoryNode(
    nodeTag: nat,
    directoryNodeVersion: nat,
    directoryNodePath: bytes,
    files: seq<DataDirectoryNodeFile>)

  datatype DataAssetMPUItem = DataAssetMPUItem(
    nodeTag: nat,
    itemId: nat,
    itemSize: nat,
    itemVersion: nat,
    itemChecksum: Option<nat>,
    itemInfo: bytes)

  /** With the index item flag set an MPU lists bare node tags, otherwise full items. */
  datatype DataAssetMPUItems = NodeTags(tags: seq<nat>) | Items(items: seq<DataAssetMPUItem>)

  datatype DataAssetMPU = DataAssetMPU(
    mpuSequenceNumber: nat,
    mpuSize: nat,
    indexItemCompressionType: nat,
    indexItemId: Option<nat>,
    items: DataAssetMPUItems,
    mpuInfo: seq<MMTSIDescriptor>)

  datatype DataTransmissionSection =
    | DDMT(dataTransmissionSessionId: nat, header: SectionHeader,
           baseDirectoryPath: bytes, directoryNodes: seq<DataDirectoryNode>)
    | DAMT(dataTransmissionSessionId: nat, header: SectionHeader, transactionId: nat,
           componentTag: nat, downloadId: nat, mpus: seq<DataAssetMPU>, componentInfo: bytes)

  // ---------------------------------------------------------------------
  // DDMT

  /** One file entry: node tag, a length byte and that many bytes of name. */
  function FileAt(b: bytes, o: nat): (r: Decoded<Field<DataDirectoryNodeFile>>)
    ensures !r.Thrown?
    ensures r.Ok? ==> r.value.next == o + 3 + |r.value.value.fileName| <= |b|
  {
    if |b| < 2 + 1 + o then Undefined
    else
      var length := b[o + 2] as nat;
      var p := o + 3;
      if |b| < length + p then Undefined
      else Ok(Field(DataDirectoryNodeFile(U16(b, o), b[p..p + length]), p + length))
  }

  /** The first n files from o, and where they end. */
  function FilesAt(b: bytes, o: nat, n: nat): (r: Decoded<Field<seq<DataDirectoryNodeFile>>>)
    ensures !r.Thrown?
    ensures r.Ok? ==> |r.value.value| == n && r.value.next >= o
  {
    if n == 0 then Ok(Field([], o))
    else
      match FilesAt(b, o, n - 1)
      case Ok(f) =>
        (match FileAt(b, f.next)
         case Ok(x) => Ok(Field(f.value + [x.value], x.next))
         case _ => Undefined)
      case _ => Undefined
  }

  lemma {:induction false} FilesStayFailed(b: bytes, o: nat, j: nat, n: nat)
    requires j <= n && !FilesAt(b, o, j).Ok?
    ensures FilesAt(b, o, n) == FilesAt(b, o, j)
    decreases n
  {
    if j < n {
      FilesStayFailed(b, o, j, n - 1);
    }
  }

  /** One directory node: tag, version, a length-prefixed path, then a counted file list. */
  function NodeAt(b: bytes, o: nat): (r: Decoded<Field<DataDirectoryNode>>)
    ensures !r.Thrown?
    ensures r.Ok? ==> r.value.next >= o + 6 + |r.value.value.directoryNodePath|
  {
    if |b| < 2 + 1 + 1 + o then Undefined
    else
      var length := b[o + 3] as nat;
      var p := o + 4;
      if |b| < length + p then Undefined
      else
        var q := p + length;
        if |b| < 2 + q then Undefined
        else
          var files :- FilesAt(b, q + 2, U16(b, q));
          Ok(Field(DataDirectoryNode(U16(b, o), b[o + 2], b[p..q], files.value), files.next))
  }

  function NodesAt(b: bytes, o: nat, n: nat): (r: Decoded<Field<seq<DataDirectoryNode>>>)
    ensures !r.Thrown?
    ensures r.Ok? ==> |r.value.value| == n && r.value.next >= o
  {
    if n == 0 then Ok(Field([], o))
    else
      match NodesAt(b, o, n - 1)
      case Ok(f) =>
        (match NodeAt(b, f.next)
         case Ok(x) => Ok(Field(f.value + [x.value], x.next))
         case _ => Undefined)
      case _ => Undefined
  }

  lemma {:induction false} NodesStayFailed(b: bytes, o: nat, j: nat, n: nat)
    requires j <= n && !NodesAt(b, o, j).Ok?
    ensures NodesAt(b, o, n) == NodesAt(b, o, j)
    decreases n
  {
    if j < n {
      NodesStayFailed(b, o, j, n - 1);
    }
  }

  /**
   * `readDataDirectoryManagementTable`.  The length check covers the five
   * fixed bytes only, so the base directory path length byte after them is
   * read unguarded: a five-byte body raises a RangeError.
   */
  function DDMTOf(d: bytes): (r: Decoded<DataTransmissionSection>)
    ensures r.Thrown? <==> |d| == 5
    ensures |d| < 5 ==> r.Undefined?
    ensures r.Ok? ==> r.value.DDMT? && 6 + d[5] < |d|
                      && r.value.dataTransmissionSessionId == d[0]
                      && r.value.baseDirectoryPath == d[6..6 + d[5]]
                      && |r.value.directoryNodes| == d[6 + d[5]]
  {
    if |d| < 1 + 1 + 1 + 1 + 1 then Undefined
    else if |d| < 6 then Thrown
    else
      var length := d[5] as nat;
      if |d| < 6 + length then Undefined
      else
        var p := 6 + length;
        if |d| < p + 1 then Undefined
        else
          var nodes :- NodesAt(d, p + 1, d[p]);
          Ok(DDMT(d[0], SectionHeaderAt(d, 2), d[6..p], nodes.value))
  }

  method ReadDataDirectoryManagementTable(buffer: bytes) returns (r: Decoded<DataTransmissionSection>)
    ensures r == DDMTOf(buffer)
  {
    var reader := new BinaryReader(buffer, 0);
    if !reader.CanRead(1 + 1 + 1 + 1 + 1) {
      return Undefined;
    }
    var dataTransmissionSessionId := reader.ReadUint8();
    reader.Skip(1);
    var header := ReadSectionHeader(reader);
    if !reader.InView(1) {
      // DataView.getUint8 past the end
      return Thrown;
    }
    var baseDirectoryPathLength := reader.ReadUint8();
    if !reader.CanRead(baseDirectoryPathLength) {
      return Undefined;
    }
    var baseDirectoryPath := reader.Slice(baseDirectoryPathLength);
    if !reader.CanRead(1) {
      return Undefined;
    }
    var numOfDirectoryNodes := reader.ReadUint8();
    var nodes := ReadDirectoryNodes(reader, numOfDirectoryNodes);
    if !nodes.Ok? {
      return Undefined;
    }
    r := Ok(DDMT(dataTransmissionSessionId, header, baseDirectoryPath, nodes.value));
  }

  method ReadDirectoryNodes(reader: BinaryReader, n: nat) returns (r: Decoded<seq<DataDirectoryNode>>)
    requires reader.offset >= 0
    modifies reader
    ensures reader.offset >= old(reader.offset)
    ensures WithNext(r, reader.offset) == NodesAt(reader.buffer, old(reader.offset), n)
  {
    ghost var o := reader.offset;
    var nodes: seq<DataDirectoryNode> := [];
    for j := 0 to n
      invariant reader.offset >= o
      invariant NodesAt(reader.buffer, o, j) == Ok(Field(nodes, reader.offset))
    {
      var node := ReadDirectoryNode(reader);
      if !node.Ok? {
        NodesStayFailed(reader.buffer, o, j + 1, n);
        return Undefined;
      }
      nodes := nodes + [node.value];
    }
    r := Ok(nodes);
  }

  method ReadDirectoryNode(reader: BinaryReader) returns (r: Decoded<DataDirectoryNode>)
    requires reader.offset >= 0
    modifies reader
    ensures reader.offset >= old(reader.offset)
    ensures WithNext(r, reader.offset) == NodeAt(reader.buffer, old(reader.offset))
  {
    if !reader.CanRead(2 + 1 + 1) {
      return Undefined;
    }
    var nodeTag := reader.ReadUint16();
    var directoryNodeVersion := reader.ReadUint8();
    var directoryNodePathLength := reader.ReadUint8();
    if !reader.CanRead(directoryNodePathLength) {
      return Undefined;
    }
    var directoryNodePath := reader.Slice(directoryNodePathLength);
    if !reader.CanRead(2) {
      return Undefined;
    }
    var numOfFiles := reader.ReadUint16();
    var files := ReadFiles(reader, numOfFiles);
    if !files.Ok? {
      return Undefined;
    }
    r := Ok(DataDirectoryNode(nodeTag, directoryNodeVersion, directoryNodePath, files.value));
  }

  method ReadFiles(reader: BinaryReader, n: nat) returns (r: Decoded<seq<DataDirectoryNodeFile>>)
    requires reader.offset >= 0
    modifies reader
    ensures reader.offset >= old(reader.offset)
    ensures WithNext(r, reader.offset) == FilesAt(reader.buffer, old(reader.offset), n)
  {
    ghost var o := reader.offset;
    var files: seq<DataDirectoryNodeFile> := [];
    for k := 0 to n
      invariant reader.offset >= o
      invariant FilesAt(reader.buffer, o, k) == Ok(Field(files, reader.offset))
    {
      var file := ReadFile(reader);
      if !file.Ok? {
        FilesStayFailed(reader.buffer, o, k + 1, n);
        return Undefined;
      }
      files := files + [file.value];
    }
    r := Ok(files);
  }

  method ReadFile(reader: BinaryReader) returns (r: Decoded<DataDirectoryNodeFile>)
    requires reader.offset >= 0
    modifies reader
    ensures reader.offset >= old(reader.offset)
    ensures WithNext(r, reader.offset) == FileAt(reader.buffer, old(reader.offset))
  {
    if !reader.CanRead(2 + 1) {
      return Undefined;
    }
    var nodeTag := reader.ReadUint16();
    var fileNameLength := reader.ReadUint8();
    if !reader.CanRead(fileNameLength) {
      return Undefined;
    }
    var fileName := reader.Slice(fileNameLength);
    r := Ok(DataDirectoryNodeFile(nodeTag, fileName));
  }

  // ---------------------------------------------------------------------
  // DAMT

  /** A 32-bit field that is there only when its flag is set. */
  function OptionalU32At(b: bytes, o: nat, present: bool): (r: Decoded<Field<Option<nat>>>)
    ensures !r.Thrown?
    ensures r.Undefined? <==> present && |b| < o + 4
    ensures r.Ok? ==> r.value.value.Some? == present && r.value.next == (if present then o + 4 else o)
    ensures r.Ok? && present ==> r.value.value.value == U32(b, o)
  {
    if !present then Ok(Field(None, o))
    else if |b| < 4 + o then Undefined
    else Ok(Field(Some(U32(b, o)), o + 4))
  }

  /** A length byte and that many bytes; undefined when either does not fit. */
  function ByteStringAt(b: bytes, p: nat): (r: Decoded<Field<bytes>>)
    ensures !r.Thrown?
    ensures r.Ok? <==> p + 1 <= |b| && p + 1 + b[p] <= |b|
    ensures r.Ok? ==> r.value == Field(b[p + 1..p + 1 + b[p]], p + 1 + b[p])
  {
    if |b| < 1 + p then Undefined
    else
      var length := b[p] as nat;
      if |b| < length + p + 1 then Undefined
      else Ok(Field(b[p + 1..p + 1 + length], p + 1 + length))
  }

  /** One full item: the 12 fixed bytes, an optional checksum, then a length-prefixed item info. */
  function ItemAt(b: bytes, o: nat): (r: Decoded<Field<DataAssetMPUItem>>)
    ensures !r.Thrown?
    ensures r.Ok? ==> o + 12 <= |b| && r.value.next >= o + 13 + |r.value.value.itemInfo|
                      && r.value.value.itemChecksum.Some? == (b[o + 11] >= 0x80)
  {
    if |b| < 2 + 4 + 4 + 1 + 1 + o then Undefined
    else
      var checksum :- OptionalU32At(b, o + 12, b[o + 11] / 0x80 == 1);
      var info :- ByteStringAt(b, checksum.next);
      Ok(Field(DataAssetMPUItem(U16(b, o), U32(b, o + 2), U32(b, o + 6), b[o + 10], checksum.value, info.value),
               info.next))
  }

  function ItemsAt(b: bytes, o: nat, n: nat): (r: Decoded<Field<seq<DataAssetMPUItem>>>)
    ensures !r.Thrown?
    ensures r.Ok? ==> |r.value.value| == n && r.value.next >= o
  {
    if n == 0 then Ok(Field([], o))
    else
      match ItemsAt(b, o, n - 1)
      case Ok(f) =>
        (match ItemAt(b, f.next)
         case Ok(x) => Ok(Field(f.value + [x.value], x.next))
         case _ => Undefined)
      case _ => Undefined
  }

  lemma {:induction false} ItemsStayFailed(b: bytes, o: nat, j: nat, n: nat)
    requires j <= n && !ItemsAt(b, o, j).Ok?
    ensures ItemsAt(b, o, n) == ItemsAt(b, o, j)
    decreases n
  {
    if j < n {
      ItemsStayFailed(b, o, j, n - 1);
    }
  }

  /** n node tags, two bytes each, from o. */
  function NodeTagsAt(b: bytes, o: nat, n: nat): (r: seq<nat>)
    requires o + 2 * n <= |b|
    ensures |r| == n
    ensures forall i :: 0 <= i < n ==> r[i] == U16(b, o + 2 * i)
  {
    if n == 0 then [] else NodeTagsAt(b, o, n - 1) + [U16(b, o + 2 * (n - 1))]
  }

  /** numOfItems and the list it counts: node tags (checked as a whole) or items (checked one by one). */
  function MPUItemsAt(b: bytes, o: nat, indexItemFlag: bool): (r: Decoded<Field<DataAssetMPUItems>>)
    ensures !r.Thrown?
    ensures r.Ok? ==> r.value.value.NodeTags? == indexItemFlag && r.value.next >= o + 2
  {
    if |b| < 2 + o then Undefined
    else
      var n := U16(b, o);
      var p := o + 2;
      if indexItemFlag then
        if |b| < 2 * n + p then Undefined
        else Ok(Field(NodeTags(NodeTagsAt(b, p, n)), p + 2 * n))
      else
        var items :- ItemsAt(b, p, n);
        Ok(Field(Items(items.value), items.next))
  }

  /** mpu_info: a length-prefixed descriptor list. */
  function MPUInfoAt(b: bytes, p: nat): (r: Decoded<Field<seq<MMTSIDescriptor>>>)
    ensures r.Ok? ==> ByteStringAt(b, p).Ok? && r.value.next == ByteStringAt(b, p).value.next
    ensures r.Undefined? <==> ByteStringAt(b, p).Undefined?
  {
    var info :- ByteStringAt(b, p);
    var descriptors :- DescriptorsFrom(info.value, 0);
    Ok(Field(descriptors, info.next))
  }

  /** One MPU entry of the DAMT. */
  function MPUAt(b: bytes, o: nat): (r: Decoded<Field<DataAssetMPU>>)
    ensures r.Ok? ==> o + 9 <= |b| && r.value.next > o + 9
                      && r.value.value.items.NodeTags? == (b[o + 8] >= 0x80)
                      && r.value.value.indexItemId.Some? == (b[o + 8] >= 0xc0)
  {
    if |b| < 4 + 4 + 1 + o then Undefined
    else
      var h := b[o + 8];
      var indexItemFlag := h / 0x80 == 1;
      var id :- OptionalU32At(b, o + 9, indexItemFlag && h / 0x40 % 2 == 1);
      var items :- MPUItemsAt(b, id.next, indexItemFlag);
      var info :- MPUInfoAt(b, items.next);
      Ok(Field(DataAssetMPU(U32(b, o), U32(b, o + 4), h / 0x10 % 4, id.value, items.value, info.value), info.next))
  }

  function MPUsAt(b: bytes, o: nat, n: nat): (r: Decoded<Field<seq<DataAssetMPU>>>)
    ensures r.Ok? ==> |r.value.value| == n && r.value.next >= o
  {
    if n == 0 then Ok(Field([], o))
    else
      match MPUsAt(b, o, n - 1)
      case Ok(f) =>
        (match MPUAt(b, f.next)
         case Ok(x) => Ok(Field(f.value + [x.value], x.next))
         case Undefined => Undefined
         case Thrown => Thrown)
      case Undefined => Undefined
      case Thrown => Thrown
  }

  lemma {:induction false} MPUsStayFailed(b: bytes, o: nat, j: nat, n: nat)
    requires j <= n && !MPUsAt(b, o, j).Ok?
    ensures MPUsAt(b, o, n) == MPUsAt(b, o, j)
    decreases n
  {
    if j < n {
      MPUsStayFailed(b, o, j, n - 1);
    }
  }

  lemma {:induction false} MPUsNext(b: bytes, o: nat, j: nat, acc: seq<DataAssetMPU>, p: nat)
    requires MPUsAt(b, o, j) == Ok(Field(acc, p))
    ensures MPUsAt(b, o, j + 1) == match MPUAt(b, p)
                                   case Ok(x) => Ok(Field(acc + [x.value], x.next))
                                   case Undefined => Undefined
                                   case Thrown => Thrown
  { }

  /**
   * `readDataAssetManagementTable`.  The length check covers 15 bytes but
   * the fixed part is 16 long: a 15-byte body raises a RangeError at
   * numOfMPUs.
   */
  function DAMTOf(d: bytes): (r: Decoded<DataTransmissionSection>)
    ensures |d| < 15 ==> r.Undefined?
    ensures |d| == 15 ==> r.Thrown?
    ensures r.Ok? ==> r.value.DAMT? && |d| >= 17 && |r.value.mpus| == d[15]
  {
    if |d| < 1 + 1 + 1 + 1 + 4 + 2 + 4 + 1 then Undefined
    else if |d| < 16 then Thrown
    else
      DAMTAfterMPUs(d, MPUsAt(d, 16, d[15]))
  }

  /** The DAMT once its MPU loop has run: the component info follows the last MPU. */
  function DAMTAfterMPUs(d: bytes, mpus: Decoded<Field<seq<DataAssetMPU>>>): (r: Decoded<DataTransmissionSection>)
    requires |d| >= 16
    ensures r.Ok? ==> mpus.Ok? && r.value.DAMT? && r.value.mpus == mpus.value.value
                      && r.value.transactionId == U32(d, 5) && r.value.componentTag == U16(d, 9)
                      && r.value.downloadId == U32(d, 11)
    ensures mpus.Thrown? ==> r.Thrown?
  {
    var m :- mpus;
    var info :- ByteStringAt(d, m.next);
    Ok(DAMT(d[0], SectionHeaderAt(d, 2), U32(d, 5), U16(d, 9), U32(d, 11), m.value, info.value))
  }

  method ReadDataAssetManagementTable(buffer: bytes) returns (r: Decoded<DataTransmissionSection>)
    ensures r == DAMTOf(buffer)
  {
    var reader := new BinaryReader(buffer, 0);
    if !reader.CanRead(1 + 1 + 1 + 1 + 4 + 2 + 4 + 1) {
      return Undefined;
    }
    var dataTransmissionSessionId := reader.ReadUint8();
    reader.Skip(1);
    var header := ReadSectionHeader(reader);
    var transactionId := reader.ReadUint32();
    var componentTag := reader.ReadUint16();
    var downloadId := reader.ReadUint32();
    if !reader.InView(1) {
      // DataView.getUint8 past the end
      return Thrown;
    }
    r := ReadDataAssetMPUsAndInfo(reader, DAMT(dataTransmissionSessionId, header, transactionId, componentTag, downloadId, [], []));
  }

  /** numOfMPUs, the MPU loop and component_info, completing the fixed part in `fixed`. */
  method ReadDataAssetMPUsAndInfo(reader: BinaryReader, fixed: DataTransmissionSection) returns (r: Decoded<DataTransmissionSection>)
    requires reader.offset == 15 && |reader.buffer| >= 16
    requires fixed == DAMT(reader.buffer[0], SectionHeaderAt(reader.buffer, 2), U32(reader.buffer, 5),
                           U16(reader.buffer, 9), U32(reader.buffer, 11), [], [])
    modifies reader
    ensures r == DAMTAfterMPUs(reader.buffer, MPUsAt(reader.buffer, 16, reader.buffer[15]))
  {
    var numOfMPUs := reader.ReadUint8();
    var mpus := ReadDataAssetMPUs(reader, numOfMPUs);
    if !mpus.Ok? {
      return if mpus.Thrown? then Thrown else Undefined;
    }
    var componentInfo := ReadByteString(reader);
    if !componentInfo.Ok? {
      return Undefined;
    }
    r := Ok(fixed.(mpus := mpus.value, componentInfo := componentInfo.value));
  }

  method ReadDataAssetMPUs(reader: BinaryReader, n: nat) returns (r: Decoded<seq<DataAssetMPU>>)
    requires reader.offset >= 0
    modifies reader
    ensures reader.offset >= old(reader.offset)
    ensures WithNext(r, reader.offset) == MPUsAt(reader.buffer, old(reader.offset), n)
  {
    ghost var o := reader.offset;
    var mpus: seq<DataAssetMPU> := [];
    for j := 0 to n
      invariant reader.offset >= o
      invariant MPUsAt(reader.buffer, o, j) == Ok(Field(mpus, reader.offset))
    {
      ghost var p := reader.offset;
      var mpu := ReadDataAssetMPU(reader);
      MPUsNext(reader.buffer, o, j, mpus, p);
      if !mpu.Ok? {
        MPUsStayFailed(reader.buffer, o, j + 1, n);
        return if mpu.Thrown? then Thrown else Undefined;
      }
      mpus := mpus + [mpu.value];
    }
    r := Ok(mpus);
  }

  method ReadDataAssetMPU(reader: BinaryReader) returns (r: Decoded<DataAssetMPU>)
    requires reader.offset >= 0
    modifies reader
    ensures reader.offset >= old(reader.offset)
    ensures WithNext(r, reader.offset) == MPUAt(reader.buffer, old(reader.offset))
  {
    if !reader.CanRead(4 + 4 + 1) {
      return Undefined;
    }
    var mpuSequenceNumber := reader.ReadUint32();
    var mpuSize := reader.ReadUint32();
    var h := reader.ReadUint8();
    var indexItemFlag := h / 0x80 == 1;
    var indexItemIdFlag := h / 0x40 % 2 == 1;
    var indexItemCompressionType := h / 0x10 % 4;
    var indexItemId := ReadOptionalUint32(reader, indexItemFlag && indexItemIdFlag);
    if !indexItemId.Ok? {
      return Undefined;
    }
    var items := ReadMPUItems(reader, indexItemFlag);
    if !items.Ok? {
      return Undefined;
    }
    var mpuInfo := ReadMPUInfo(reader);
    if !mpuInfo.Ok? {
      return mpuInfo.PropagateFailure();
    }
    r := Ok(DataAssetMPU(mpuSequenceNumber, mpuSize, indexItemCompressionType, indexItemId.value,
                         items.value, mpuInfo.value));
  }

  /** `if (flag) { canRead(4) ... readUint32() }`, as a field of its own. */
  method ReadOptionalUint32(reader: BinaryReader, present: bool) returns (r: Decoded<Option<nat>>)
    requires reader.offset >= 0
    modifies reader
    ensures reader.offset >= old(reader.offset)
    ensures WithNext(r, reader.offset) == OptionalU32At(reader.buffer, old(reader.offset), present)
  {
    if !present {
      return Ok(None);
    }
    if !reader.CanRead(4) {
      return Undefined;
    }
    var v := reader.ReadUint32();
    r := Ok(Some(v));
  }

  method ReadMPUItems(reader: BinaryReader, indexItemFlag: bool) returns (r: Decoded<DataAssetMPUItems>)
    requires reader.offset >= 0
    modifies reader
    ensures reader.offset >= old(reader.offset)
    ensures WithNext(r, reader.offset) == MPUItemsAt(reader.buffer, old(reader.offset), indexItemFlag)
  {
    if !reader.CanRead(2) {
      return Undefined;
    }
    var numOfItems := reader.ReadUint16();
    if indexItemFlag {
      if !reader.CanRead(2 * numOfItems) {
        return Undefined;
      }
      var tags := ReadNodeTags(reader, numOfItems);
      r := Ok(NodeTags(tags));
    } else {
      var items := ReadItems(reader, numOfItems);
      if !items.Ok? {
        return Undefined;
      }
      r := Ok(Items(items.value));
    }
  }

  method ReadNodeTags(reader: BinaryReader, n: nat) returns (tags: seq<nat>)
    requires reader.offset >= 0 && reader.CanRead(2 * n)
    modifies reader
    ensures reader.offset == old(reader.offset) + 2 * n
    ensures tags == NodeTagsAt(reader.buffer, old(reader.offset), n)
  {
    ghost var o := reader.offset;
    tags := [];
    for k := 0 to n
      invariant reader.offset == o + 2 * k
      invariant tags == NodeTagsAt(reader.buffer, o, k)
    {
      var nodeTag := reader.ReadUint16();
      tags := tags + [nodeTag];
    }
  }

  method ReadItems(reader: BinaryReader, n: nat) returns (r: Decoded<seq<DataAssetMPUItem>>)
    requires reader.offset >= 0
    modifies reader
    ensures reader.offset >= old(reader.offset)
    ensures WithNext(r, reader.offset) == ItemsAt(reader.buffer, old(reader.offset), n)
  {
    ghost var o := reader.offset;
    var items: seq<DataAssetMPUItem> := [];
    for k := 0 to n
      invariant reader.offset >= o
      invariant ItemsAt(reader.buffer, o, k) == Ok(Field(items, reader.offset))
    {
      var item := ReadItem(reader);
      if !item.Ok? {
        ItemsStayFailed(reader.buffer, o, k + 1, n);
        return Undefined;
      }
      items := items + [item.value];
    }
    r := Ok(items);
  }

  method ReadItem(reader: BinaryReader) returns (r: Decoded<DataAssetMPUItem>)
    requires reader.offset >= 0
    modifies reader
    ensures reader.offset >= old(reader.offset)
    ensures WithNext(r, reader.offset) == ItemAt(reader.buffer, old(reader.offset))
  {
    if !reader.CanRead(2 + 4 + 4 + 1 + 1) {
      return Undefined;
    }
    var nodeTag := reader.ReadUint16();
    var itemId := reader.ReadUint32();
    var itemSize := reader.ReadUint32();
    var itemVersion := reader.ReadUint8();
    var flags := reader.ReadUint8();
    var itemChecksum := ReadOptionalUint32(reader, flags / 0x80 == 1);
    if !itemChecksum.Ok? {
      return Undefined;
    }
    var itemInfo := ReadByteString(reader);
    if !itemInfo.Ok? {
      return Undefined;
    }
    r := Ok(DataAssetMPUItem(nodeTag, itemId, itemSize, itemVersion, itemChecksum.value, itemInfo.value));
  }

  method ReadByteString(reader: BinaryReader) returns (r: Decoded<bytes>)
    requires reader.offset >= 0
    modifies reader
    ensures reader.offset >= old(reader.offset)
    ensures WithNext(r, reader.offset) == ByteStringAt(reader.buffer, old(reader.offset))
  {
    if !reader.CanRead(1) {
      return Undefined;
    }
    var length := reader.ReadUint8();
    if !reader.CanRead(length) {
      return Undefined;
    }
    var content := reader.Slice(length);
    r := Ok(content);
  }

  method ReadMPUInfo(reader: BinaryReader) returns (r: Decoded<seq<MMTSIDescriptor>>)
    requires reader.offset >= 0
    modifies reader
    ensures reader.offset >= old(reader.offset)
    ensures WithNext(r, reader.offset) == MPUInfoAt(reader.buffer, old(reader.offset))
  {
    var info := ReadByteString(reader);
    if !info.Ok? {
      return Undefined;
    }
    r := ReadMMTSIDescriptors(info.value);
  }
}
