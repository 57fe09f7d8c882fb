// The wire forms of the two data-transmission tables (src/mmt-si.ts): the
// bytes a DDMT or a DAMT is written as, and the lemmas that reading those
// bytes back gives the table written.  Each counted loop of the readers is
// taken apart at its last entry, the way it was built.
module MmtSiDataWire {
  import opened Js
  import opened Decoding
  import opened Utils
  import opened Layouts
  import opened Sections
  import opened MmtSiDescriptor
  import opened MmtSiData

  // ---------------------------------------------------------------------
  // DDMT

  /** A file whose node tag and name fit their fields. */
  predicate FileWire(f: DataDirectoryNodeFile)
  {
    f.nodeTag < 0x1_0000 && |f.fileName| < 0x100
  }

  /** Every file of a run fits its fields. */
  predicate FilesWire(fs: seq<DataDirectoryNodeFile>)
  {
    forall f :: f in fs ==> FileWire(f)
  }

  /** One file on the wire: node tag, name length, name. */
  function FileBytes(f: DataDirectoryNodeFile): (r: bytes)
    ensures |r| == 3 + |f.fileName|
  {
    Word(f.nodeTag) + [(|f.fileName| % 0x100) as byte] + f.fileName
  }

  /** A written file reads back, and the next entry starts after it. */
  lemma {:induction false} FileFound(b: bytes, o: nat, f: DataDirectoryNodeFile)
    requires FileWire(f) && At(b, o, FileBytes(f))
    ensures FileAt(b, o) == Ok(Field(f, o + |FileBytes(f)|))
  {
    var w := Word(f.nodeTag) + [(|f.fileName| % 0x100) as byte];
    AtSplit(b, o, w, f.fileName);
    AtSplit(b, o, Word(f.nodeTag), [(|f.fileName| % 0x100) as byte]);
    WordFound(b, o, f.nodeTag);
    assert b[o + 2] == w[2];
    AtSlice(b, o + 3, f.fileName);
  }

  /** A run of written files reads back through the counted file loop. */
  lemma {:induction false} FilesRun(b: bytes, o: nat, fs: seq<DataDirectoryNodeFile>)
    requires FilesWire(fs) && At(b, o, Laid(FileBytes, fs))
    ensures FilesAt(b, o, |fs|) == Ok(Field(fs, o + |Laid(FileBytes, fs)|))
  {
    FilesFind(b, fs);
    FilesGrow(b, o);
    LaidRunAll(b, FilesLoop, FileRead, FileBytes, fs, fs, o);
  }

  /** The file loop and its step as values, for the generic lemmas. */
  ghost function FilesLoop(b: bytes, o: nat, k: nat): Decoded<Field<seq<DataDirectoryNodeFile>>>
  {
    FilesAt(b, o, k)
  }

  ghost function FileRead(b: bytes, o: nat): Decoded<Field<DataDirectoryNodeFile>>
  {
    FileAt(b, o)
  }

  /** Each written file of a run is read wherever it is found. */
  lemma {:induction false} FilesFind(b: bytes, fs: seq<DataDirectoryNodeFile>)
    requires FilesWire(fs)
    ensures Finds(b, FileRead, FileBytes, fs, fs)
  {
    forall j: nat, p: nat
      ensures FoundAt(b, FileRead, FileBytes, fs, fs, j, p)
    {
      if j < |fs| && At(b, p, FileBytes(fs[j])) {
        assert fs[j] in fs;
        FileFound(b, p, fs[j]);
      }
    }
  }

  /** The file loop appends each file its step reads. */
  lemma {:induction false} FilesGrow(b: bytes, o: nat)
    ensures Grows(b, FilesLoop, FileRead, o)
  {
    forall k: nat, acc: seq<DataDirectoryNodeFile>, e: nat
      ensures SnocAt(b, FilesLoop, FileRead, o, k, acc, e)
    {
      FilesSnoc(b, o, k, acc, e);
    }
  }

  /** A file read where the loop's first k files end extends the loop by one. */
  lemma {:induction false} FilesSnoc(b: bytes, o: nat, k: nat, acc: seq<DataDirectoryNodeFile>, e: nat)
    ensures SnocAt(b, FilesLoop, FileRead, o, k, acc, e)
  {
  }

  /** A node whose fields fit their widths and whose files all fit theirs. */
  predicate NodeWire(n: DataDirectoryNode)
  {
    n.nodeTag < 0x1_0000 && n.directoryNodeVersion < 0x100 && |n.directoryNodePath| < 0x100
    && |n.files| < 0x1_0000 && FilesWire(n.files)
  }

  /** Every node of a run fits its fields. */
  predicate NodesWire(ns: seq<DataDirectoryNode>)
  {
    forall n :: n in ns ==> NodeWire(n)
  }

  /** A node's bytes before its files: tag, version, the length-prefixed path and the file count. */
  function NodeHead(n: DataDirectoryNode): (r: bytes)
    ensures |r| == 6 + |n.directoryNodePath|
  {
    Word(n.nodeTag) + [(n.directoryNodeVersion % 0x100) as byte, (|n.directoryNodePath| % 0x100) as byte]
    + n.directoryNodePath + Word(|n.files|)
  }

  /** One node on the wire: its head, then its files. */
  ghost function NodeBytes(n: DataDirectoryNode): (r: bytes)
  {
    NodeHead(n) + Laid(FileBytes, n.files)
  }

  /** The fields of a written node head read back. */
  lemma {:induction false} NodeHeadFound(b: bytes, o: nat, n: DataDirectoryNode)
    requires NodeWire(n) && At(b, o, NodeHead(n))
    ensures var q := o + 4 + |n.directoryNodePath|;
      q + 2 <= |b| && U16(b, o) == n.nodeTag && b[o + 2] as nat == n.directoryNodeVersion
      && b[o + 3] as nat == |n.directoryNodePath| && b[o + 4..q] == n.directoryNodePath && U16(b, q) == |n.files|
  {
    var path := n.directoryNodePath;
    var front := Word(n.nodeTag) + [(n.directoryNodeVersion % 0x100) as byte, (|path| % 0x100) as byte];
    AtSplit(b, o, front + path, Word(|n.files|));
    AtSplit(b, o, front, path);
    AtSplit(b, o, Word(n.nodeTag), [(n.directoryNodeVersion % 0x100) as byte, (|path| % 0x100) as byte]);
    WordFound(b, o, n.nodeTag);
    assert b[o + 2] == front[2] && b[o + 3] == front[3];
    AtSlice(b, o + 4, path);
    WordFound(b, o + 4 + |path|, |n.files|);
  }

  /** A written node reads back, files and all. */
  lemma {:induction false} NodeFound(b: bytes, o: nat, n: DataDirectoryNode)
    requires NodeWire(n) && At(b, o, NodeBytes(n))
    ensures NodeAt(b, o) == Ok(Field(n, o + |NodeBytes(n)|))
  {
    assert |NodeBytes(n)| == |NodeHead(n)| + |Laid(FileBytes, n.files)|;
    AtSplit(b, o, NodeHead(n), Laid(FileBytes, n.files));
    NodePartsFound(b, o, n, o + 4 + |n.directoryNodePath|, o + |NodeBytes(n)|);
  }

  /** A node's head and then its files, found one after the other, read back as that node. */
  lemma {:induction false} NodePartsFound(b: bytes, o: nat, n: DataDirectoryNode, q: nat, e: nat)
    requires NodeWire(n) && q == o + 4 + |n.directoryNodePath| && e == q + 2 + |Laid(FileBytes, n.files)|
    requires At(b, o, NodeHead(n)) && At(b, q + 2, Laid(FileBytes, n.files))
    ensures NodeAt(b, o) == Ok(Field(n, e))
  {
    NodeHeadFound(b, o, n);
    FilesRun(b, q + 2, n.files);
    NodeAtIs(b, o, n, e);
  }

  /** A node whose fields and files are read where its head says yields that node. */
  lemma {:induction false} NodeAtIs(b: bytes, o: nat, n: DataDirectoryNode, e: nat)
    requires var q := o + 4 + |n.directoryNodePath|;
      q + 2 <= |b| && U16(b, o) == n.nodeTag && b[o + 2] as nat == n.directoryNodeVersion
      && b[o + 3] as nat == |n.directoryNodePath| && b[o + 4..q] == n.directoryNodePath && U16(b, q) == |n.files|
      && FilesAt(b, q + 2, |n.files|) == Ok(Field(n.files, e))
    ensures NodeAt(b, o) == Ok(Field(n, e))
  {
  }

  /** A run of written nodes reads back through the counted node loop. */
  lemma {:induction false} NodesRun(b: bytes, o: nat, ns: seq<DataDirectoryNode>)
    requires NodesWire(ns) && At(b, o, Laid(NodeBytes, ns))
    ensures NodesAt(b, o, |ns|) == Ok(Field(ns, o + |Laid(NodeBytes, ns)|))
  {
    NodesFind(b, ns);
    NodesGrow(b, o);
    LaidRunAll(b, NodesLoop, NodeRead, NodeBytes, ns, ns, o);
  }

  /** The node loop and its step as values, for the generic lemmas. */
  ghost function NodesLoop(b: bytes, o: nat, k: nat): Decoded<Field<seq<DataDirectoryNode>>>
  {
    NodesAt(b, o, k)
  }

  ghost function NodeRead(b: bytes, o: nat): Decoded<Field<DataDirectoryNode>>
  {
    NodeAt(b, o)
  }

  /** Each written node of a run is read wherever it is found. */
  lemma {:induction false} NodesFind(b: bytes, ns: seq<DataDirectoryNode>)
    requires NodesWire(ns)
    ensures Finds(b, NodeRead, NodeBytes, ns, ns)
  {
    forall j: nat, p: nat
      ensures FoundAt(b, NodeRead, NodeBytes, ns, ns, j, p)
    {
      if j < |ns| && At(b, p, NodeBytes(ns[j])) {
        assert ns[j] in ns;
        NodeFound(b, p, ns[j]);
      }
    }
  }

  /** The node loop appends each node its step reads. */
  lemma {:induction false} NodesGrow(b: bytes, o: nat)
    ensures Grows(b, NodesLoop, NodeRead, o)
  {
    forall k: nat, acc: seq<DataDirectoryNode>, e: nat
      ensures SnocAt(b, NodesLoop, NodeRead, o, k, acc, e)
    {
      NodesSnoc(b, o, k, acc, e);
    }
  }

  /** A node read where the loop's first k nodes end extends the loop by one. */
  lemma {:induction false} NodesSnoc(b: bytes, o: nat, k: nat, acc: seq<DataDirectoryNode>, e: nat)
    ensures SnocAt(b, NodesLoop, NodeRead, o, k, acc, e)
  {
  }

  /**
   * A DDMT's bytes before its nodes: the session id, a byte the reader skips,
   * the section header, the length-prefixed base directory path and the
   * node count.
   */
  function DDMTHead(sessionId: nat, skipped: byte, h: SectionHeader, base: bytes, count: nat): (r: bytes)
    ensures |r| == 7 + |base|
  {
    [(sessionId % 0x100) as byte, skipped] + EncodeSectionHeader(h) + [(|base| % 0x100) as byte] + base + [(count % 0x100) as byte]
  }

  /** The fixed fields of a DDMT head found at the start of d. */
  lemma {:induction false} DDMTLayout(d: bytes, sessionId: nat, skipped: byte, h: SectionHeader, base: bytes, count: nat, body: bytes)
    requires sessionId < 0x100 && WellFormedHeader(h) && |base| < 0x100 && count < 0x100
    requires d == DDMTHead(sessionId, skipped, h, base, count) + body
    ensures 7 + |base| <= |d| && d[0] as nat == sessionId && SectionHeaderAt(d, 2) == h
    ensures d[5] as nat == |base| && d[6..6 + |base|] == base && d[6 + |base|] as nat == count
    ensures At(d, 7 + |base|, body)
  {
    var front := [sessionId as byte, skipped] + EncodeSectionHeader(h) + [|base| as byte];
    AtPrefix(DDMTHead(sessionId, skipped, h, base, count), body);
    AtSplit(d, 0, front + base, [count as byte]);
    AtSplit(d, 0, front, base);
    AtSplit(d, 0, [sessionId as byte, skipped], EncodeSectionHeader(h) + [|base| as byte]);
    AtSplit(d, 2, EncodeSectionHeader(h), [|base| as byte]);
    SectionHeaderRoundTrip(d, 2, h);
    assert d[0] == front[0] && d[5] == front[5] && d[6 + |base|] == [count as byte][0];
    AtSlice(d, 6, base);
    AtMiddle(DDMTHead(sessionId, skipped, h, base, count), body, []);
    assert DDMTHead(sessionId, skipped, h, base, count) + body + [] == d;
  }

  /** A DDMT whose head reads as given, with its nodes written after the head, reads back. */
  lemma {:induction false} DDMTOfNodes(d: bytes, sessionId: nat, h: SectionHeader, base: bytes, nodes: seq<DataDirectoryNode>)
    requires 7 + |base| <= |d| && d[0] as nat == sessionId && SectionHeaderAt(d, 2) == h
    requires d[5] as nat == |base| && d[6..6 + |base|] == base && d[6 + |base|] as nat == |nodes|
    requires NodesWire(nodes) && At(d, 7 + |base|, Laid(NodeBytes, nodes))
    ensures DDMTOf(d) == Ok(DDMT(sessionId, h, base, nodes))
  {
    NodesRun(d, 7 + |base|, nodes);
  }

  /**
   * Round trip: a DDMT written as its head and its nodes, followed by
   * anything, reads back as the table written.
   */
  lemma {:induction false} DDMTRoundTrip(sessionId: nat, skipped: byte, h: SectionHeader, base: bytes,
                                         nodes: seq<DataDirectoryNode>, rest: bytes)
    requires sessionId < 0x100 && WellFormedHeader(h) && |base| < 0x100 && |nodes| < 0x100
    requires NodesWire(nodes)
    ensures DDMTOf(DDMTHead(sessionId, skipped, h, base, |nodes|) + (Laid(NodeBytes, nodes) + rest))
            == Ok(DDMT(sessionId, h, base, nodes))
  {
    var d := DDMTHead(sessionId, skipped, h, base, |nodes|) + (Laid(NodeBytes, nodes) + rest);
    DDMTLayout(d, sessionId, skipped, h, base, |nodes|, Laid(NodeBytes, nodes) + rest);
    AtSplit(d, 7 + |base|, Laid(NodeBytes, nodes), rest);
    DDMTOfNodes(d, sessionId, h, base, nodes);
  }

  // ---------------------------------------------------------------------
  // DAMT

  /** A length byte and that many bytes. */
  function ByteString(s: bytes): (r: bytes)
    ensures |r| == 1 + |s|
  {
    [(|s| % 0x100) as byte] + s
  }

  /** A written byte string reads back. */
  lemma {:induction false} ByteStringFound(b: bytes, p: nat, s: bytes)
    requires |s| < 0x100 && At(b, p, ByteString(s))
    ensures ByteStringAt(b, p) == Ok(Field(s, p + 1 + |s|))
  {
    AtSplit(b, p, [(|s| % 0x100) as byte], s);
    assert b[p] == ByteString(s)[0];
    AtSlice(b, p + 1, s);
  }

  /** A 32-bit field written only when it is present. */
  function OptionalWord32(v: Option<nat>): (r: bytes)
    ensures |r| == (if v.Some? then 4 else 0)
  {
    if v.Some? then Word32(v.value) else []
  }

  /** A written optional field reads back when its flag says it is there. */
  lemma {:induction false} OptionalFound(b: bytes, p: nat, v: Option<nat>)
    requires (v.Some? ==> v.value < 0x1_0000_0000) && At(b, p, OptionalWord32(v))
    ensures OptionalU32At(b, p, v.Some?) == Ok(Field(v, p + |OptionalWord32(v)|))
  {
    if v.Some? {
      Word32At(b, p, v.value);
    }
  }

  /** An item whose fields fit their widths. */
  predicate ItemWire(i: DataAssetMPUItem)
  {
    i.nodeTag < 0x1_0000 && i.itemId < 0x1_0000_0000 && i.itemSize < 0x1_0000_0000 && i.itemVersion < 0x100
    && (i.itemChecksum.Some? ==> i.itemChecksum.value < 0x1_0000_0000) && |i.itemInfo| < 0x100
  }

  /** Every item of a run fits its fields. */
  predicate ItemsWire(its: seq<DataAssetMPUItem>)
  {
    forall i :: i in its ==> ItemWire(i)
  }

  /** An item's 12 fixed bytes: node tag, id, size, version, and the checksum flag in the top bit. */
  function ItemFixed(i: DataAssetMPUItem): (r: bytes)
    ensures |r| == 12
  {
    Word(i.nodeTag) + Word32(i.itemId) + Word32(i.itemSize)
    + [(i.itemVersion % 0x100) as byte, if i.itemChecksum.Some? then 0x80 else 0]
  }

  /** One item on the wire: its fixed bytes, its checksum when it has one, then its info. */
  function ItemBytes(i: DataAssetMPUItem): (r: bytes)
  {
    ItemFixed(i) + OptionalWord32(i.itemChecksum) + ByteString(i.itemInfo)
  }

  /** The fixed fields of a written item read back. */
  lemma {:induction false} ItemFixedFound(b: bytes, o: nat, i: DataAssetMPUItem)
    requires ItemWire(i) && At(b, o, ItemFixed(i))
    ensures o + 12 <= |b| && U16(b, o) == i.nodeTag && U32(b, o + 2) == i.itemId && U32(b, o + 6) == i.itemSize
    ensures b[o + 10] as nat == i.itemVersion && (b[o + 11] / 0x80 == 1) == i.itemChecksum.Some?
  {
    var w := Word(i.nodeTag) + Word32(i.itemId) + Word32(i.itemSize);
    var t: bytes := [(i.itemVersion % 0x100) as byte, if i.itemChecksum.Some? then 0x80 else 0];
    AtSplit(b, o, w, t);
    AtSplit(b, o, Word(i.nodeTag) + Word32(i.itemId), Word32(i.itemSize));
    AtSplit(b, o, Word(i.nodeTag), Word32(i.itemId));
    WordFound(b, o, i.nodeTag);
    Word32At(b, o + 2, i.itemId);
    Word32At(b, o + 6, i.itemSize);
    assert b[o + 10] == t[0] && b[o + 11] == t[1];
  }

  /** A written item reads back. */
  lemma {:induction false} ItemFound(b: bytes, o: nat, i: DataAssetMPUItem)
    requires ItemWire(i) && At(b, o, ItemBytes(i))
    ensures ItemAt(b, o) == Ok(Field(i, o + |ItemBytes(i)|))
  {
    var p := o + 12 + |OptionalWord32(i.itemChecksum)|;
    AtSplit(b, o, ItemFixed(i) + OptionalWord32(i.itemChecksum), ByteString(i.itemInfo));
    AtSplit(b, o, ItemFixed(i), OptionalWord32(i.itemChecksum));
    ItemFixedFound(b, o, i);
    OptionalFound(b, o + 12, i.itemChecksum);
    ByteStringFound(b, p, i.itemInfo);
    ItemAtIs(b, o, i, p, p + 1 + |i.itemInfo|);
  }

  /** An item whose fields are read where its fixed bytes say yields that item. */
  lemma {:induction false} ItemAtIs(b: bytes, o: nat, i: DataAssetMPUItem, p: nat, e: nat)
    requires o + 12 <= |b| && U16(b, o) == i.nodeTag && U32(b, o + 2) == i.itemId && U32(b, o + 6) == i.itemSize
    requires b[o + 10] as nat == i.itemVersion && (b[o + 11] / 0x80 == 1) == i.itemChecksum.Some?
    requires OptionalU32At(b, o + 12, i.itemChecksum.Some?) == Ok(Field(i.itemChecksum, p))
    requires ByteStringAt(b, p) == Ok(Field(i.itemInfo, e))
    ensures ItemAt(b, o) == Ok(Field(i, e))
  {
  }

  /** A run of written items reads back through the counted item loop. */
  lemma {:induction false} ItemsRun(b: bytes, o: nat, its: seq<DataAssetMPUItem>)
    requires ItemsWire(its) && At(b, o, Laid(ItemBytes, its))
    ensures ItemsAt(b, o, |its|) == Ok(Field(its, o + |Laid(ItemBytes, its)|))
  {
    ItemsFind(b, its);
    ItemsGrow(b, o);
    LaidRunAll(b, ItemsLoop, ItemRead, ItemBytes, its, its, o);
  }

  /** The item loop and its step as values, for the generic lemmas. */
  ghost function ItemsLoop(b: bytes, o: nat, k: nat): Decoded<Field<seq<DataAssetMPUItem>>>
  {
    ItemsAt(b, o, k)
  }

  ghost function ItemRead(b: bytes, o: nat): Decoded<Field<DataAssetMPUItem>>
  {
    ItemAt(b, o)
  }

  /** Each written item of a run its read wherever it its found. */
  lemma {:induction false} ItemsFind(b: bytes, its: seq<DataAssetMPUItem>)
    requires ItemsWire(its)
    ensures Finds(b, ItemRead, ItemBytes, its, its)
  {
    forall j: nat, p: nat
      ensures FoundAt(b, ItemRead, ItemBytes, its, its, j, p)
    {
      if j < |its| && At(b, p, ItemBytes(its[j])) {
        assert its[j] in its;
        ItemFound(b, p, its[j]);
      }
    }
  }

  /** The item loop appends each item its step reads. */
  lemma {:induction false} ItemsGrow(b: bytes, o: nat)
    ensures Grows(b, ItemsLoop, ItemRead, o)
  {
    forall k: nat, acc: seq<DataAssetMPUItem>, e: nat
      ensures SnocAt(b, ItemsLoop, ItemRead, o, k, acc, e)
    {
      ItemsSnoc(b, o, k, acc, e);
    }
  }

  /** A item read where the loop's first k items end extends the loop by one. */
  lemma {:induction false} ItemsSnoc(b: bytes, o: nat, k: nat, acc: seq<DataAssetMPUItem>, e: nat)
    ensures SnocAt(b, ItemsLoop, ItemRead, o, k, acc, e)
  {
  }

  /** A node tag on the wire. */
  function TagBytes(t: nat): (r: bytes)
    ensures |r| == 2
  {
    Word(t)
  }

  /** Node tags take two bytes each. */
  lemma {:induction false} TagsLength(ts: seq<nat>)
    ensures |Laid(TagBytes, ts)| == 2 * |ts|
    decreases |ts|
  {
    if ts != [] {
      TagsLength(ts[1..]);
    }
  }

  /** A run of written node tags reads back. */
  lemma {:induction false} TagsFound(b: bytes, p: nat, ts: seq<nat>)
    requires (forall t :: t in ts ==> t < 0x1_0000) && At(b, p, Laid(TagBytes, ts))
    ensures |Laid(TagBytes, ts)| == 2 * |ts| && p + 2 * |ts| <= |b| && NodeTagsAt(b, p, |ts|) == ts
  {
    TagsLength(ts);
    forall i | 0 <= i < |ts|
      ensures NodeTagsAt(b, p, |ts|)[i] == ts[i]
    {
      LaidAt(b, p, TagBytes, ts, i);
      TagsLength(ts[..i]);
      assert ts[i] in ts;
      WordFound(b, p + 2 * i, ts[i]);
    }
  }

  /** An MPU's list whose count and entries fit their fields. */
  predicate ListWire(l: DataAssetMPUItems)
  {
    match l
    case NodeTags(ts) => |ts| < 0x1_0000 && forall t :: t in ts ==> t < 0x1_0000
    case Items(its) => |its| < 0x1_0000 && ItemsWire(its)
  }

  /** An MPU's list on the wire: a 16-bit count, then the node tags or the full items. */
  ghost function ListBytes(l: DataAssetMPUItems): (r: bytes)
  {
    match l
    case NodeTags(ts) => Word(|ts|) + Laid(TagBytes, ts)
    case Items(its) => Word(|its|) + Laid(ItemBytes, its)
  }

  /** A written list reads back, when the index item flag says which kind it is. */
  lemma {:induction false} ListFound(b: bytes, o: nat, l: DataAssetMPUItems)
    requires ListWire(l) && At(b, o, ListBytes(l))
    ensures MPUItemsAt(b, o, l.NodeTags?) == Ok(Field(l, o + |ListBytes(l)|))
  {
    match l
    case NodeTags(ts) =>
      AtSplit(b, o, Word(|ts|), Laid(TagBytes, ts));
      WordFound(b, o, |ts|);
      TagsFound(b, o + 2, ts);
    case Items(its) =>
      AtSplit(b, o, Word(|its|), Laid(ItemBytes, its));
      WordFound(b, o, |its|);
      ItemsRun(b, o + 2, its);
  }

  /** An MPU paired with the bytes its info descriptors are written as. */
  type WrittenMPU = (DataAssetMPU, bytes)

  /**
   * An MPU whose fields fit their widths, whose index item id comes only
   * with a node tag list (the reader looks for the id only then), and whose
   * info bytes decode to its descriptors.
   */
  predicate MPUWire(w: WrittenMPU)
  {
    var m := w.0;
    m.mpuSequenceNumber < 0x1_0000_0000 && m.mpuSize < 0x1_0000_0000 && m.indexItemCompressionType < 4
    && (m.indexItemId.Some? ==> m.items.NodeTags? && m.indexItemId.value < 0x1_0000_0000)
    && ListWire(m.items) && |w.1| < 0x100 && DescriptorsFrom(w.1, 0) == Ok(m.mpuInfo)
  }

  /** Every MPU of a run fits its fields. */
  predicate MPUsWire(ws: seq<WrittenMPU>)
  {
    forall w :: w in ws ==> MPUWire(w)
  }

  /** The MPU flag byte: index item flag, index item id flag, then the compression type. */
  function MPUFlags(m: DataAssetMPU): (r: nat)
  {
    (if m.items.NodeTags? then 0x80 else 0) + (if m.indexItemId.Some? then 0x40 else 0) + m.indexItemCompressionType % 4 * 0x10
  }

  /** The reader's tests on a written flag byte give back the flags. */
  lemma {:induction false} MPUFlagsRead(h: nat, m: DataAssetMPU)
    requires m.indexItemCompressionType < 4 && (m.indexItemId.Some? ==> m.items.NodeTags?)
    requires h == MPUFlags(m) % 0x100
    ensures (h / 0x80 == 1) == m.items.NodeTags?
    ensures (h / 0x80 == 1 && h / 0x40 % 2 == 1) == m.indexItemId.Some? && h / 0x10 % 4 == m.indexItemCompressionType
  {
  }

  /** An MPU's nine fixed bytes: sequence number, size and flag byte. */
  function MPUFront(m: DataAssetMPU): (r: bytes)
    ensures |r| == 9
  {
    Word32(m.mpuSequenceNumber) + Word32(m.mpuSize) + [(MPUFlags(m) % 0x100) as byte]
  }

  /** One MPU on the wire: fixed bytes, the index item id when present, its list, then its info bytes. */
  ghost function MPUBytes(w: WrittenMPU): (r: bytes)
  {
    MPUFront(w.0) + OptionalWord32(w.0.indexItemId) + ListBytes(w.0.items) + ByteString(w.1)
  }

  /** The fixed fields of a written MPU read back. */
  lemma {:induction false} MPUFrontFound(b: bytes, o: nat, m: DataAssetMPU)
    requires m.mpuSequenceNumber < 0x1_0000_0000 && m.mpuSize < 0x1_0000_0000 && At(b, o, MPUFront(m))
    ensures o + 9 <= |b| && U32(b, o) == m.mpuSequenceNumber && U32(b, o + 4) == m.mpuSize
    ensures b[o + 8] as nat == MPUFlags(m) % 0x100
  {
    AtSplit(b, o, Word32(m.mpuSequenceNumber) + Word32(m.mpuSize), [(MPUFlags(m) % 0x100) as byte]);
    AtSplit(b, o, Word32(m.mpuSequenceNumber), Word32(m.mpuSize));
    Word32At(b, o, m.mpuSequenceNumber);
    Word32At(b, o + 4, m.mpuSize);
    assert b[o + 8] == MPUFront(m)[8];
  }

  /** Written info bytes read back as the descriptors they decode to. */
  lemma {:induction false} MPUInfoFound(b: bytes, p: nat, raw: bytes, ds: seq<MMTSIDescriptor>)
    requires |raw| < 0x100 && DescriptorsFrom(raw, 0) == Ok(ds) && At(b, p, ByteString(raw))
    ensures MPUInfoAt(b, p) == Ok(Field(ds, p + 1 + |raw|))
  {
    ByteStringFound(b, p, raw);
  }

  /** A written MPU reads back. */
  lemma {:induction false} MPUFound(b: bytes, o: nat, w: WrittenMPU)
    requires MPUWire(w) && At(b, o, MPUBytes(w))
    ensures MPUAt(b, o) == Ok(Field(w.0, o + |MPUBytes(w)|))
  {
    var m := w.0;
    var id := OptionalWord32(m.indexItemId);
    var p1 := o + 9 + |id|;
    var p2 := p1 + |ListBytes(m.items)|;
    assert |MPUBytes(w)| == 9 + |id| + |ListBytes(m.items)| + 1 + |w.1|;
    AtSplit(b, o, MPUFront(m) + id + ListBytes(m.items), ByteString(w.1));
    AtSplit(b, o, MPUFront(m) + id, ListBytes(m.items));
    AtSplit(b, o, MPUFront(m), id);
    MPUPartsFound(b, o, w, p1, p2, o + |MPUBytes(w)|);
  }

  /** An MPU's fixed bytes, index item id, list and info bytes found one after the other read back as that MPU. */
  lemma {:induction false} MPUPartsFound(b: bytes, o: nat, w: WrittenMPU, p1: nat, p2: nat, e: nat)
    requires MPUWire(w) && p1 == o + 9 + |OptionalWord32(w.0.indexItemId)| && p2 == p1 + |ListBytes(w.0.items)|
    requires e == p2 + 1 + |w.1|
    requires At(b, o, MPUFront(w.0)) && At(b, o + 9, OptionalWord32(w.0.indexItemId))
    requires At(b, p1, ListBytes(w.0.items)) && At(b, p2, ByteString(w.1))
    ensures MPUAt(b, o) == Ok(Field(w.0, e))
  {
    var m := w.0;
    MPUFrontFound(b, o, m);
    MPUFlagsRead(b[o + 8], m);
    OptionalFound(b, o + 9, m.indexItemId);
    ListFound(b, p1, m.items);
    MPUInfoFound(b, p2, w.1, m.mpuInfo);
    MPUAtIs(b, o, m, p1, p2, e);
  }

  /** An MPU whose fields are read where its fixed bytes say yields that MPU. */
  lemma {:induction false} MPUAtIs(b: bytes, o: nat, m: DataAssetMPU, p1: nat, p2: nat, e: nat)
    requires o + 9 <= |b| && U32(b, o) == m.mpuSequenceNumber && U32(b, o + 4) == m.mpuSize
    requires var h := b[o + 8];
      (h / 0x80 == 1) == m.items.NodeTags? && (h / 0x80 == 1 && h / 0x40 % 2 == 1) == m.indexItemId.Some?
      && h / 0x10 % 4 == m.indexItemCompressionType
    requires OptionalU32At(b, o + 9, m.indexItemId.Some?) == Ok(Field(m.indexItemId, p1))
    requires MPUItemsAt(b, p1, m.items.NodeTags?) == Ok(Field(m.items, p2))
    requires MPUInfoAt(b, p2) == Ok(Field(m.mpuInfo, e))
    ensures MPUAt(b, o) == Ok(Field(m, e))
  {
  }

  /** The MPUs of a run, without their info bytes. */
  function MPUsOf(ws: seq<WrittenMPU>): (r: seq<DataAssetMPU>)
    ensures |r| == |ws| && forall i :: 0 <= i < |ws| ==> r[i] == ws[i].0
  {
    if ws == [] then [] else [ws[0].0] + MPUsOf(ws[1..])
  }

  /** A run of written MPUs reads back through the counted MPU loop. */
  lemma {:induction false} MPUsRun(b: bytes, o: nat, ws: seq<WrittenMPU>)
    requires MPUsWire(ws) && At(b, o, Laid(MPUBytes, ws))
    ensures MPUsAt(b, o, |ws|) == Ok(Field(MPUsOf(ws), o + |Laid(MPUBytes, ws)|))
  {
    MPUsFind(b, ws, MPUsOf(ws));
    MPUsRunAs(b, o, ws, MPUsOf(ws));
  }

  /** MPUsRun, for any list of values the MPU step reads the run's records as. */
  lemma {:induction false} MPUsRunAs(b: bytes, o: nat, ws: seq<WrittenMPU>, vals: seq<DataAssetMPU>)
    requires |vals| == |ws| && At(b, o, Laid(MPUBytes, ws)) && Finds(b, MPURead, MPUBytes, ws, vals)
    ensures MPUsLoop(b, o, |ws|) == Ok(Field(vals, o + |Laid(MPUBytes, ws)|))
  {
    MPUsGrow(b, o);
    MPUsStart(b, o);
    LaidRunAll(b, MPUsLoop, MPURead, MPUBytes, ws, vals, o);
  }

  /** The MPU loop reads nothing in no rounds. */
  lemma {:induction false} MPUsStart(b: bytes, o: nat)
    ensures MPUsLoop(b, o, 0) == Ok(Field([], o))
  {
  }

  /** The MPU loop and its step as values, for the generic lemmas. */
  ghost function MPUsLoop(b: bytes, o: nat, k: nat): Decoded<Field<seq<DataAssetMPU>>>
  {
    MPUsAt(b, o, k)
  }

  ghost function MPURead(b: bytes, o: nat): Decoded<Field<DataAssetMPU>>
  {
    MPUAt(b, o)
  }

  /** Each written MPU of a run is read wherever it is found. */
  lemma {:induction false} MPUsFind(b: bytes, ws: seq<WrittenMPU>, vals: seq<DataAssetMPU>)
    requires MPUsWire(ws) && forall i :: 0 <= i < |ws| && i < |vals| ==> vals[i] == ws[i].0
    ensures Finds(b, MPURead, MPUBytes, ws, vals)
  {
    forall j: nat, p: nat
      ensures FoundAt(b, MPURead, MPUBytes, ws, vals, j, p)
    {
      if j < |ws| {
        assert ws[j] in ws;
      }
      MPUFoundAt(b, ws, vals, j, p);
    }
  }

  /** Record j of a run of written MPUs reads back as value j wherever it is found. */
  lemma {:induction false} MPUFoundAt(b: bytes, ws: seq<WrittenMPU>, vals: seq<DataAssetMPU>, j: nat, p: nat)
    requires j < |ws| ==> MPUWire(ws[j])
    requires j < |ws| && j < |vals| ==> vals[j] == ws[j].0
    ensures FoundAt(b, MPURead, MPUBytes, ws, vals, j, p)
  {
    if j < |ws| && j < |vals| && At(b, p, MPUBytes(ws[j])) {
      MPUReadIs(b, p, ws[j], vals[j]);
    }
  }

  /** A written MPU is what the MPU step reads there. */
  lemma {:induction false} MPUReadIs(b: bytes, p: nat, w: WrittenMPU, v: DataAssetMPU)
    requires MPUWire(w) && v == w.0 && At(b, p, MPUBytes(w))
    ensures MPURead(b, p) == Ok(Field(v, p + |MPUBytes(w)|))
  {
    MPUFound(b, p, w);
  }

  /** The MPU loop appends each MPU its step reads. */
  lemma {:induction false} MPUsGrow(b: bytes, o: nat)
    ensures Grows(b, MPUsLoop, MPURead, o)
  {
    forall k: nat, acc: seq<DataAssetMPU>, e: nat
      ensures SnocAt(b, MPUsLoop, MPURead, o, k, acc, e)
    {
      MPUsSnoc(b, o, k, acc, e);
    }
  }

  /** A MPU read where the loop's first k MPUs end extends the loop by one. */
  lemma {:induction false} MPUsSnoc(b: bytes, o: nat, k: nat, acc: seq<DataAssetMPU>, e: nat)
    ensures SnocAt(b, MPUsLoop, MPURead, o, k, acc, e)
  {
  }

  /**
   * A DAMT's sixteen bytes before its MPUs: the session id, a byte the
   * reader skips, the section header, transaction id, component tag,
   * download id and the MPU count.
   */
  function DAMTHead(sessionId: nat, skipped: byte, h: SectionHeader, transactionId: nat, componentTag: nat, downloadId: nat,
                    count: nat): (r: bytes)
    ensures |r| == 16
  {
    [(sessionId % 0x100) as byte, skipped] + EncodeSectionHeader(h) + Word32(transactionId) + Word(componentTag)
    + Word32(downloadId) + [(count % 0x100) as byte]
  }

  /** The fixed fields of a DAMT head found at the start of d. */
  lemma {:induction false} DAMTLayout(d: bytes, sessionId: nat, skipped: byte, h: SectionHeader, transactionId: nat,
                                      componentTag: nat, downloadId: nat, count: nat, body: bytes)
    requires sessionId < 0x100 && WellFormedHeader(h) && transactionId < 0x1_0000_0000 && componentTag < 0x1_0000
    requires downloadId < 0x1_0000_0000 && count < 0x100
    requires d == DAMTHead(sessionId, skipped, h, transactionId, componentTag, downloadId, count) + body
    ensures 16 <= |d| && d[0] as nat == sessionId && SectionHeaderAt(d, 2) == h && U32(d, 5) == transactionId
    ensures U16(d, 9) == componentTag && U32(d, 11) == downloadId && d[15] as nat == count && At(d, 16, body)
  {
    var x := DAMTHead(sessionId, skipped, h, transactionId, componentTag, downloadId, count);
    var a: bytes := [sessionId as byte, skipped];
    var e := EncodeSectionHeader(h);
    AtPrefix(x, body);
    AtSplit(d, 0, a + e + Word32(transactionId) + Word(componentTag) + Word32(downloadId), [count as byte]);
    AtSplit(d, 0, a + e + Word32(transactionId) + Word(componentTag), Word32(downloadId));
    AtSplit(d, 0, a + e + Word32(transactionId), Word(componentTag));
    AtSplit(d, 0, a + e, Word32(transactionId));
    AtSplit(d, 0, a, e);
    SectionHeaderRoundTrip(d, 2, h);
    Word32At(d, 5, transactionId);
    WordFound(d, 9, componentTag);
    Word32At(d, 11, downloadId);
    assert d[0] == x[0] && d[15] == x[15];
    AtMiddle(x, body, []);
    assert x + body + [] == d;
  }

  /** A DAMT whose head reads as given, with its MPUs and component info written after the head, reads back. */
  lemma {:induction false} DAMTOfBody(d: bytes, sessionId: nat, h: SectionHeader, transactionId: nat, componentTag: nat,
                                      downloadId: nat, ws: seq<WrittenMPU>, info: bytes, rest: bytes)
    requires 16 <= |d| && d[0] as nat == sessionId && SectionHeaderAt(d, 2) == h && U32(d, 5) == transactionId
    requires U16(d, 9) == componentTag && U32(d, 11) == downloadId && d[15] as nat == |ws|
    requires MPUsWire(ws) && |info| < 0x100
    requires At(d, 16, Laid(MPUBytes, ws) + (ByteString(info) + rest))
    ensures DAMTOf(d) == Ok(DAMT(sessionId, h, transactionId, componentTag, downloadId, MPUsOf(ws), info))
  {
    var e := 16 + |Laid(MPUBytes, ws)|;
    AtSplit(d, 16, Laid(MPUBytes, ws), ByteString(info) + rest);
    AtSplit(d, e, ByteString(info), rest);
    DAMTRunsFound(d, ws, info, e);
    DAMTOfParts(d, sessionId, h, transactionId, componentTag, downloadId, |ws|, MPUsOf(ws), e, info);
  }

  /** The MPUs and the component info written one after the other at 16 read back. */
  lemma {:induction false} DAMTRunsFound(d: bytes, ws: seq<WrittenMPU>, info: bytes, e: nat)
    requires MPUsWire(ws) && |info| < 0x100 && e == 16 + |Laid(MPUBytes, ws)|
    requires At(d, 16, Laid(MPUBytes, ws)) && At(d, e, ByteString(info))
    ensures MPUsAt(d, 16, |ws|) == Ok(Field(MPUsOf(ws), e))
    ensures ByteStringAt(d, e) == Ok(Field(info, e + 1 + |info|))
  {
    MPUsRun(d, 16, ws);
    ByteStringFound(d, e, info);
  }

  /** A DAMT whose head, MPU loop and component info read as given reads as that table. */
  lemma {:induction false} DAMTOfParts(d: bytes, sessionId: nat, h: SectionHeader, transactionId: nat, componentTag: nat,
                                       downloadId: nat, count: nat, mpus: seq<DataAssetMPU>, e: nat, info: bytes)
    requires 16 <= |d| && d[0] as nat == sessionId && SectionHeaderAt(d, 2) == h && U32(d, 5) == transactionId
    requires U16(d, 9) == componentTag && U32(d, 11) == downloadId && d[15] as nat == count
    requires MPUsAt(d, 16, count) == Ok(Field(mpus, e)) && ByteStringAt(d, e) == Ok(Field(info, e + 1 + |info|))
    ensures DAMTOf(d) == Ok(DAMT(sessionId, h, transactionId, componentTag, downloadId, mpus, info))
  {
  }

  /**
   * Round trip: a DAMT written as its head, its MPUs and its component
   * info, followed by anything, reads back as the table written.
   */
  lemma {:induction false} DAMTRoundTrip(sessionId: nat, skipped: byte, h: SectionHeader, transactionId: nat, componentTag: nat,
                                         downloadId: nat, ws: seq<WrittenMPU>, info: bytes, rest: bytes)
    requires sessionId < 0x100 && WellFormedHeader(h) && transactionId < 0x1_0000_0000 && componentTag < 0x1_0000
    requires downloadId < 0x1_0000_0000 && |ws| < 0x100 && MPUsWire(ws) && |info| < 0x100
    ensures DAMTOf(DAMTHead(sessionId, skipped, h, transactionId, componentTag, downloadId, |ws|)
                   + (Laid(MPUBytes, ws) + (ByteString(info) + rest)))
            == Ok(DAMT(sessionId, h, transactionId, componentTag, downloadId, MPUsOf(ws), info))
  {
    var body := Laid(MPUBytes, ws) + (ByteString(info) + rest);
    var d := DAMTHead(sessionId, skipped, h, transactionId, componentTag, downloadId, |ws|) + body;
    DAMTLayout(d, sessionId, skipped, h, transactionId, componentTag, downloadId, |ws|, body);
    DAMTOfBody(d, sessionId, h, transactionId, componentTag, downloadId, ws, info, rest);
  }
}
