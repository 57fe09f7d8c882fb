// The tables a PA message carries (src/mmt-si.ts): `readTables`, the MMT
// package table (MPT), the package list table (PLT) and
// `mmtPackageIdToServiceId`.
module MmtSiTables {
  import opened Js
  import opened Decoding
  import opened Utils
  import opened LocationInfo
  import opened MmtSiDescriptor

  const MMT_SI_TABLE_MPT := 0x20
  const MMT_SI_TABLE_PLT := 0x80

  datatype MMTAsset = MMTAsset(
    identifierType: nat,
    assetIdScheme: nat,
    assetId: bytes,
    assetType: nat,
    assetClockRelationFlag: bool,
    locations: seq<MMTGeneralLocationInfo>,
    assetDescriptors: seq<MMTSIDescriptor>)

  datatype Package = Package(mmtPackageId: bytes, locationInfo: MMTGeneralLocationInfo)

  datatype MMTSITable =
    | MPT(version: nat, mptMode: nat, mmtPackageId: bytes, mptDescriptors: seq<MMTSIDescriptor>, assets: seq<MMTAsset>)
    | PLT(version: nat, packages: seq<Package>)

  // ---------------------------------------------------------------------
  // readTables

  /** The header of one table in the list: id, version, and the 16-bit length. */
  datatype TableFrame = TableFrame(tableId: nat, version: nat, body: bytes)

  /**
   * The table at o.  The list runs while four header bytes are left; the
   * body is cut with `subarray`, which clamps a length that overruns.
   */
  function TableFrameAt(b: bytes, o: nat): (r: Option<Field<TableFrame>>)
    ensures r.Some? ==> r.value.next >= o + 4
  {
    if |b| < 1 + 1 + 2 + o then None
    else
      var length := U16(b, o + 2);
      Some(Field(TableFrame(b[o], b[o + 1], Js.Slice(b, o + 4, o + 4 + length)), o + 4 + length))
  }

  /** The MPT and PLT readers by table id; other ids give undefined. */
  function TableOf(f: TableFrame): (r: Decoded<MMTSITable>)
    ensures r.Ok? ==> f.tableId in {MMT_SI_TABLE_MPT, MMT_SI_TABLE_PLT}
    ensures r.Ok? && r.value.MPT? ==> f.tableId == MMT_SI_TABLE_MPT
    ensures r.Ok? && r.value.PLT? ==> f.tableId == MMT_SI_TABLE_PLT
  {
    if f.tableId == MMT_SI_TABLE_MPT then MPTOf(f.version, f.body)
    else if f.tableId == MMT_SI_TABLE_PLT then PLTOf(f.version, f.body)
    else Undefined
  }

  /** `readTables` from o: the defined tables, in order, or the exception a reader raised. */
  function TablesFrom(b: bytes, o: nat): (r: Decoded<seq<MMTSITable>>)
    ensures !r.Undefined?
    decreases |b| - o
  {
    match TableFrameAt(b, o)
    case None => Ok([])
    case Some(f) =>
      match TableOf(f.value)
      case Thrown => Thrown
      case Undefined => if f.next <= |b| then TablesFrom(b, f.next) else Ok([])
      case Ok(t) => Chain([t], if f.next <= |b| then TablesFrom(b, f.next) else Ok([]))
  }

  /** The frames of the table list, before any table is decoded. */
  function TableFrames(b: bytes, o: nat): (r: seq<TableFrame>)
    decreases |b| - o
  {
    match TableFrameAt(b, o)
    case None => []
    case Some(f) => [f.value] + (if f.next <= |b| then TableFrames(b, f.next) else [])
  }

  /** The tables read from a list of frames, keeping the defined ones in order. */
  function CollectTables(fs: seq<TableFrame>): (r: Decoded<seq<MMTSITable>>)
    ensures !r.Undefined?
  {
    if fs == [] then Ok([])
    else
      match TableOf(fs[0])
      case Thrown => Thrown
      case Undefined => CollectTables(fs[1..])
      case Ok(t) => Chain([t], CollectTables(fs[1..]))
  }

  /** `readTables` is framing followed by the MPT/PLT readers: order kept, other ids dropped. */
  lemma {:induction false} TablesFromFrames(b: bytes, o: nat)
    ensures TablesFrom(b, o) == CollectTables(TableFrames(b, o))
    decreases |b| - o
  {
    match TableFrameAt(b, o)
    case None =>
    case Some(f) =>
      var rest := if f.next <= |b| then TableFrames(b, f.next) else [];
      assert TableFrames(b, o) == [f.value] + rest;
      assert TableFrames(b, o)[1..] == rest;
      if f.next <= |b| {
        TablesFromFrames(b, f.next);
      }
  }

  /** A list none of whose tables is an MPT or a PLT decodes to no table. */
  lemma {:induction false} OtherTablesDropped(fs: seq<TableFrame>)
    requires forall i :: 0 <= i < |fs| ==> fs[i].tableId !in {MMT_SI_TABLE_MPT, MMT_SI_TABLE_PLT}
    ensures CollectTables(fs) == Ok([])
  {
    if fs != [] {
      OtherTablesDropped(fs[1..]);
    }
  }

  method ReadTable(f: TableFrame) returns (r: Decoded<MMTSITable>)
    ensures r == TableOf(f)
  {
    if f.tableId == MMT_SI_TABLE_MPT {
      r := ReadMMTPackageTable(f.version, f.body);
    } else if f.tableId == MMT_SI_TABLE_PLT {
      r := ReadPackageListTable(f.version, f.body);
    } else {
      r := Undefined;
    }
  }

  method ReadTables(buffer: bytes) returns (r: Decoded<seq<MMTSITable>>)
    ensures r == TablesFrom(buffer, 0)
  {
    var reader := new BinaryReader(buffer, 0);
    var tables: seq<MMTSITable> := [];
    ChainEmpty(TablesFrom(buffer, 0));
    while reader.CanRead(1 + 1 + 2)
      invariant reader.buffer == buffer && reader.offset >= 0
      invariant reader.offset <= |buffer|
      invariant Chain(tables, TablesFrom(buffer, reader.offset)) == TablesFrom(buffer, 0)
      decreases |buffer| - reader.offset
    {
      var frame := ReadTableFrame(reader);
      var table := ReadTable(frame);
      if table.Thrown? {
        return Thrown;
      }
      if reader.offset > |buffer| {
        // the clamped body was the last one: the loop condition fails
        if table.Ok? {
          ChainAppend(tables, table.value, Ok([]));
          tables := tables + [table.value];
        }
        ChainDone(tables);
        return Ok(tables);
      }
      if table.Ok? {
        ChainAppend(tables, table.value, TablesFrom(buffer, reader.offset));
        tables := tables + [table.value];
      }
    }
    ChainDone(tables);
    r := Ok(tables);
  }

  /** The header and clamped body of one table, four bytes being left. */
  method ReadTableFrame(reader: BinaryReader) returns (frame: TableFrame)
    requires reader.offset >= 0 && reader.CanRead(4)
    modifies reader
    ensures var f := TableFrameAt(reader.buffer, old(reader.offset));
      f.Some? && frame == f.value.value && reader.offset == f.value.next
  {
    var tableId := reader.ReadUint8();
    var version := reader.ReadUint8();
    var length := reader.ReadUint16();
    var tab := reader.Subarray(length);
    frame := TableFrame(tableId, version, tab);
  }

  // ---------------------------------------------------------------------
  // PLT

  /** One package of the PLT loop at o: a length-prefixed package id, then a location. */
  function PackageAt(b: bytes, o: nat): (r: Step<Package>)
    ensures r.Read? ==> r.next > o && r.next <= |b|
    ensures !r.Throw?
  {
    if |b| < 1 + o then Done
    else
      var length := b[o] as nat;
      var p := o + 1;
      if |b| < length + p then Done
      else
        var loc := LocationInfoAt(b, p + length);
        if loc.info.None? then Undef
        else Read(Package(b[p..p + length], loc.info.value), loc.next)
  }

  /** The loop over numOfPackage: a package that does not fit ends it, a bad location fails the table. */
  function Packages(b: bytes, o: nat, n: nat): (r: Decoded<seq<Package>>)
    ensures !r.Thrown?
    ensures r.Ok? ==> |r.value| <= n
    decreases n
  {
    if n == 0 then Ok([])
    else
      match PackageAt(b, o)
      case Done => Ok([])
      case Undef => Undefined
      case Throw => Thrown
      case Read(p, next) => Chain([p], Packages(b, next, n - 1))
  }

  /** `readPackageListTable`: a package count, then the packages. */
  function PLTOf(version: nat, d: bytes): (r: Decoded<MMTSITable>)
    ensures r.Ok? ==> r.value.PLT? && r.value.version == version && |d| >= 1 && |r.value.packages| <= d[0]
    ensures !r.Thrown?
  {
    if |d| < 1 then Undefined
    else
      var packages :- Packages(d, 1, d[0]);
      Ok(PLT(version, packages))
  }

  predicate WellFormedPackage(p: Package)
  {
    |p.mmtPackageId| < 0x100 && WellFormed(p.locationInfo)
  }

  ghost function EncodePackage(p: Package): (r: bytes)
    requires WellFormedPackage(p)
    ensures |r| == 1 + |p.mmtPackageId| + |EncodeLocationInfo(p.locationInfo)|
  {
    [|p.mmtPackageId| as byte] + p.mmtPackageId + EncodeLocationInfo(p.locationInfo)
  }

  /** An encoded package found at o is read back. */
  lemma {:induction false} PackageWindow(b: bytes, o: nat, p: Package)
    requires WellFormedPackage(p)
    requires PackageEncodedAt(b, o, p)
    ensures PackageAt(b, o) == Read(p, o + |EncodePackage(p)|)
  {
    var id := p.mmtPackageId;
    var e := EncodeLocationInfo(p.locationInfo);
    SplitWindow(b, o, [|id| as byte] + id, e);
    SplitWindow(b, o, [|id| as byte], id);
    assert b[o] == b[o..o + 1][0];
    LocationWindow(b, o + 1 + |id|, p.locationInfo);
  }

  /** The wire form of p sits in b at o. */
  ghost predicate PackageEncodedAt(b: bytes, o: nat, p: Package)
    requires WellFormedPackage(p)
  {
    o + |EncodePackage(p)| <= |b| && b[o..o + |EncodePackage(p)|] == EncodePackage(p)
  }

  method ReadPackageListTable(version: nat, buffer: bytes) returns (r: Decoded<MMTSITable>)
    ensures r == PLTOf(version, buffer)
  {
    var reader := new BinaryReader(buffer, 0);
    if !reader.CanRead(1) {
      return Undefined;
    }
    var numOfPackage := reader.ReadUint8();
    var packages :- ReadPackages(reader, numOfPackage);
    r := Ok(PLT(version, packages));
  }

  method ReadPackages(reader: BinaryReader, n: nat) returns (r: Decoded<seq<Package>>)
    requires reader.offset >= 0
    modifies reader
    ensures r == Packages(reader.buffer, old(reader.offset), n)
  {
    ghost var b, o := reader.buffer, reader.offset;
    var packages: seq<Package> := [];
    ChainEmpty(Packages(b, o, n));
    for i := 0 to n
      invariant reader.buffer == b && reader.offset >= 0
      invariant Chain(packages, Packages(b, reader.offset, n - i)) == Packages(b, o, n)
    {
      ghost var start := reader.offset;
      var step := ReadPackage(reader);
      if step.Done? {
        ChainDone(packages);
        return Ok(packages);
      }
      if !step.Read? {
        return Undefined;
      }
      ChainAppend(packages, step.value, Packages(b, reader.offset, n - i - 1));
      packages := packages + [step.value];
    }
    ChainDone(packages);
    r := Ok(packages);
  }

  method ReadPackage(reader: BinaryReader) returns (step: Step<Package>)
    requires reader.offset >= 0
    modifies reader
    ensures step == PackageAt(reader.buffer, old(reader.offset))
    ensures step.Read? ==> reader.offset == step.next
  {
    if !reader.CanRead(1) {
      return Done;
    }
    var mmtPackageIdLength := reader.ReadUint8();
    if !reader.CanRead(mmtPackageIdLength) {
      return Done;
    }
    var mmtPackageId := reader.Slice(mmtPackageIdLength);
    var locationInfo := ReadMMTGeneralLocationInfo(reader);
    if locationInfo.None? {
      return Undef;
    }
    step := Read(Package(mmtPackageId, locationInfo.value), reader.offset);
  }

  // ---------------------------------------------------------------------
  // MPT

  /** The `for` loop over locationCount: a location that does not decode fails the table. */
  function LocationsAt(b: bytes, o: nat, n: nat): (r: Option<Field<seq<MMTGeneralLocationInfo>>>)
    ensures r.Some? ==> |r.value.value| == n && r.value.next >= o
  {
    if n == 0 then Some(Field([], o))
    else
      match LocationsAt(b, o, n - 1)
      case None => None
      case Some(f) =>
        var loc := LocationInfoAt(b, f.next);
        if loc.info.None? then None else Some(Field(f.value + [loc.info.value], loc.next))
  }

  /** An asset's fixed part, before its locations, and how many locations follow. */
  datatype AssetHeader = AssetHeader(asset: MMTAsset, locationCount: nat)

  /** The asset fields before the location loop; None where the loop `break`s. */
  function AssetHeaderAt(b: bytes, o: nat): (r: Option<Field<AssetHeader>>)
    ensures r.Some? ==> r.value.next >= o + 12
  {
    if |b| < 1 + 4 + 1 + o then None
    else
      var assetIdLength := b[o + 5] as nat;
      var p := o + 6;
      if |b| < assetIdLength + p then None
      else
        var q := p + assetIdLength;
        if |b| < 4 + 1 + 1 + q then None
        else Some(Field(AssetHeader(MMTAsset(b[o], U32(b, o + 1), b[p..q], U32(b, q), b[q + 4] % 2 == 1, [], []), b[q + 5]),
                        q + 6))
  }

  /**
   * One asset of the MPT loop at o.  A header, id or descriptor block that
   * does not fit ends the loop (`break`); a location that does not decode
   * fails the table.
   */
  function AssetAt(b: bytes, o: nat): (r: Step<MMTAsset>)
    ensures r.Read? ==> r.next > o
  {
    match AssetHeaderAt(b, o)
    case None => Done
    case Some(h) =>
      match LocationsAt(b, h.next, h.value.locationCount)
      case None => Undef
      case Some(locs) => AssetDescriptorsAt(b, locs.next, h.value.asset.(locations := locs.value))
  }

  /** The rest of an asset at s: its descriptor block, which ends the loop when it does not fit. */
  function AssetDescriptorsAt(b: bytes, s: nat, a: MMTAsset): (r: Step<MMTAsset>)
    ensures r.Read? ==> r.next >= s + 2 && r.value == a.(assetDescriptors := r.value.assetDescriptors)
  {
    if |b| < 2 + s then Done
    else
      var length := U16(b, s);
      if |b| < length + (s + 2) then Done
      else
        var ds := DescriptorsFrom(b[s + 2..s + 2 + length], 0);
        if ds.Thrown? then Throw
        else Read(a.(assetDescriptors := ds.value), s + 2 + length)
  }

  /** Once a location fails, the location loop has failed whatever the count. */
  lemma {:induction false} LocationsFail(b: bytes, o: nat, j: nat, n: nat)
    requires j <= n && LocationsAt(b, o, j).None?
    ensures LocationsAt(b, o, n).None?
    decreases n
  {
    if j < n {
      LocationsFail(b, o, j, n - 1);
    }
  }

  /** The loop over numberOfAssets. */
  function Assets(b: bytes, o: nat, n: nat): (r: Decoded<seq<MMTAsset>>)
    ensures r.Ok? ==> |r.value| <= n
    decreases n, 1
  {
    if n == 0 then Ok([]) else AssetsAt(b, o, n)
  }

  /** The asset at o, then n - 1 more from where it ends. */
  function AssetsAt(b: bytes, o: nat, n: nat): (r: Decoded<seq<MMTAsset>>)
    requires n > 0
    ensures r.Ok? ==> |r.value| <= n
    decreases n, 0
  {
    match AssetAt(b, o)
    case Done => Ok([])
    case Undef => Undefined
    case Throw => Thrown
    case Read(a, next) => Chain([a], Assets(b, next, n - 1))
  }

  /**
   * `readMMTPackageTable`: mode, a length-prefixed package id, the MPT
   * descriptors, then the assets.  Each cut that does not fit before the
   * asset loop gives undefined.
   */
  function MPTOf(version: nat, d: bytes): (r: Decoded<MMTSITable>)
    ensures r.Ok? ==> r.value.MPT? && r.value.version == version && r.value.mptMode < 4
                      && |d| >= 2 && |r.value.mmtPackageId| == d[1] && |r.value.assets| <= 0xff
  {
    if |d| < 1 + 1 then Undefined
    else
      var mmtPackageIdLength := d[1] as nat;
      if |d| < mmtPackageIdLength + 2 then Undefined
      else
        var p := 2 + mmtPackageIdLength;
        MPTDescriptorsOf(d, p, MPT(version, d[0] % 4, d[2..p], [], []))
  }

  /** The MPT descriptor loop at p and the assets after it, completing the table t. */
  function MPTDescriptorsOf(d: bytes, p: nat, t: MMTSITable): (r: Decoded<MMTSITable>)
    requires t.MPT?
    ensures r.Ok? ==> r.value.MPT? && r.value.version == t.version && r.value.mptMode == t.mptMode
                      && r.value.mmtPackageId == t.mmtPackageId && |r.value.assets| <= 0xff
  {
    if |d| < 2 + p then Undefined
    else
      var length := U16(d, p);
      if |d| < length + (p + 2) then Undefined
      else
        var mptDescriptors :- DescriptorsFrom(d[p + 2..p + 2 + length], 0);
        MPTAssetsOf(d, p + 2 + length, t.(mptDescriptors := mptDescriptors))
  }

  /** The asset count at q and the assets after it, completing the table t. */
  function MPTAssetsOf(d: bytes, q: nat, t: MMTSITable): (r: Decoded<MMTSITable>)
    requires t.MPT?
    ensures r.Ok? ==> r.value.MPT? && r.value == t.(assets := r.value.assets) && q < |d|
                      && |r.value.assets| <= d[q]
  {
    if |d| < 1 + q then Undefined
    else
      var assets :- Assets(d, q + 1, d[q]);
      Ok(t.(assets := assets))
  }

  method ReadMMTPackageTable(version: nat, buffer: bytes) returns (r: Decoded<MMTSITable>)
    ensures r == MPTOf(version, buffer)
  {
    var reader := new BinaryReader(buffer, 0);
    if !reader.CanRead(1 + 1) {
      return Undefined;
    }
    var mode := reader.ReadUint8();
    var mptMode := mode % 4;
    var mmtPackageIdLength := reader.ReadUint8();
    if !reader.CanRead(mmtPackageIdLength) {
      return Undefined;
    }
    var mmtPackageId := reader.Slice(mmtPackageIdLength);
    r := ReadMPTDescriptors(reader, MPT(version, mptMode, mmtPackageId, [], []));
  }

  method ReadMPTDescriptors(reader: BinaryReader, t: MMTSITable) returns (r: Decoded<MMTSITable>)
    requires reader.offset >= 0 && t.MPT?
    modifies reader
    ensures r == MPTDescriptorsOf(reader.buffer, old(reader.offset), t)
  {
    ghost var p := reader.offset;
    if !reader.CanRead(2) {
      return Undefined;
    }
    var mptDescriptorsLength := reader.ReadUint16();
    if !reader.CanRead(mptDescriptorsLength) {
      return Undefined;
    }
    var block := reader.Subarray(mptDescriptorsLength);
    assert block == reader.buffer[p + 2..reader.offset];
    var mptDescriptors :- ReadMMTSIDescriptors(block);
    r := ReadMPTAssets(reader, t.(mptDescriptors := mptDescriptors));
  }

  method ReadMPTAssets(reader: BinaryReader, t: MMTSITable) returns (r: Decoded<MMTSITable>)
    requires reader.offset >= 0 && t.MPT?
    modifies reader
    ensures r == MPTAssetsOf(reader.buffer, old(reader.offset), t)
  {
    if !reader.CanRead(1) {
      return Undefined;
    }
    var numberOfAssets := reader.ReadUint8();
    var assets :- ReadAssets(reader, numberOfAssets);
    r := Ok(t.(assets := assets));
  }

  method ReadAssets(reader: BinaryReader, n: nat) returns (r: Decoded<seq<MMTAsset>>)
    requires reader.offset >= 0
    modifies reader
    ensures r == Assets(reader.buffer, old(reader.offset), n)
  {
    ghost var b, whole := reader.buffer, Assets(reader.buffer, reader.offset, n);
    var assets: seq<MMTAsset> := [];
    ChainEmpty(whole);
    ghost var left := n;
    for i := 0 to n
      invariant left == n - i && reader.buffer == b && reader.offset >= 0
      invariant Chain(assets, AssetsLeft(b, reader.offset, left)) == whole
    {
      var step := ReadNextAsset(reader, left);
      if step.Done? {
        ChainDone(assets);
        return Ok(assets);
      }
      if step.Undef? {
        return Undefined;
      }
      if step.Throw? {
        return Thrown;
      }
      ChainAppend(assets, step.value, AssetsLeft(b, reader.offset, left - 1));
      assets := assets + [step.value];
      left := left - 1;
    }
    ChainDone(assets);
    r := Ok(assets);
  }

  /** The assets still to read from the reader's offset. */
  function AssetsLeft(b: bytes, o: int, left: nat): Decoded<seq<MMTAsset>>
  {
    if o >= 0 then Assets(b, o, left) else Undefined
  }

  /** One pass of the asset loop with k assets still to read, stated against the list it belongs to. */
  method ReadNextAsset(reader: BinaryReader, ghost k: nat) returns (step: Step<MMTAsset>)
    requires reader.offset >= 0 && k > 0
    modifies reader
    ensures step.Done? ==> Assets(reader.buffer, old(reader.offset), k) == Ok([])
    ensures step.Undef? ==> Assets(reader.buffer, old(reader.offset), k) == Undefined
    ensures step.Throw? ==> Assets(reader.buffer, old(reader.offset), k) == Thrown
    ensures step.Read? ==> reader.offset >= 0
    ensures step.Read? ==>
      Assets(reader.buffer, old(reader.offset), k) == Chain([step.value], Assets(reader.buffer, reader.offset, k - 1))
  {
    step := ReadAsset(reader);
  }

  method ReadAsset(reader: BinaryReader) returns (step: Step<MMTAsset>)
    requires reader.offset >= 0
    modifies reader
    ensures step == AssetAt(reader.buffer, old(reader.offset))
    ensures step.Read? ==> reader.offset == step.next
  {
    var header := ReadAssetHeader(reader);
    if header.None? {
      return Done;
    }
    var locations := ReadLocations(reader, header.value.locationCount);
    if locations.None? {
      return Undef;
    }
    step := ReadAssetDescriptors(reader, header.value.asset.(locations := locations.value));
  }

  method ReadAssetHeader(reader: BinaryReader) returns (r: Option<AssetHeader>)
    requires reader.offset >= 0
    modifies reader
    ensures var f := AssetHeaderAt(reader.buffer, old(reader.offset));
      r.None? == f.None? && (r.Some? ==> r.value == f.value.value && reader.offset == f.value.next)
  {
    if !reader.CanRead(1 + 4 + 1) {
      return None;
    }
    var identifierType := reader.ReadUint8();
    var assetIdScheme := reader.ReadUint32();
    var assetIdLength := reader.ReadUint8();
    if !reader.CanRead(assetIdLength) {
      return None;
    }
    var assetId := reader.Slice(assetIdLength);
    if !reader.CanRead(4 + 1 + 1) {
      return None;
    }
    var assetType := reader.ReadUint32();
    var flags := reader.ReadUint8();
    var assetClockRelationFlag := flags % 2 == 1;
    var locationCount := reader.ReadUint8();
    r := Some(AssetHeader(MMTAsset(identifierType, assetIdScheme, assetId, assetType, assetClockRelationFlag, [], []),
                          locationCount));
  }

  method ReadAssetDescriptors(reader: BinaryReader, a: MMTAsset) returns (step: Step<MMTAsset>)
    requires reader.offset >= 0
    modifies reader
    ensures step == AssetDescriptorsAt(reader.buffer, old(reader.offset), a)
    ensures step.Read? ==> reader.offset == step.next
  {
    if !reader.CanRead(2) {
      return Done;
    }
    var assetDescriptorsLength := reader.ReadUint16();
    if !reader.CanRead(assetDescriptorsLength) {
      return Done;
    }
    var block := reader.Subarray(assetDescriptorsLength);
    var assetDescriptors := ReadMMTSIDescriptors(block);
    if assetDescriptors.Thrown? {
      return Throw;
    }
    step := Read(a.(assetDescriptors := assetDescriptors.value), reader.offset);
  }

  method ReadLocations(reader: BinaryReader, n: nat) returns (r: Option<seq<MMTGeneralLocationInfo>>)
    requires reader.offset >= 0
    modifies reader
    ensures var f := LocationsAt(reader.buffer, old(reader.offset), n);
      r.None? == f.None? && (r.Some? ==> r.value == f.value.value && reader.offset == f.value.next)
  {
    ghost var o := reader.offset;
    var locations: seq<MMTGeneralLocationInfo> := [];
    for j := 0 to n
      invariant reader.offset >= 0
      invariant LocationsAt(reader.buffer, o, j) == Some(Field(locations, reader.offset))
    {
      var info := ReadMMTGeneralLocationInfo(reader);
      if info.None? {
        LocationsFail(reader.buffer, o, j + 1, n);
        return None;
      }
      locations := locations + [info.value];
    }
    r := Some(locations);
  }

  // ---------------------------------------------------------------------
  // mmtPackageIdToServiceId

  /** `mmtPackageIdToServiceId`: a two-byte package id read as a 16-bit service id. */
  function PackageIdToServiceId(mmtPackageId: bytes): (r: Option<nat>)
    ensures r.Some? <==> |mmtPackageId| == 2
    ensures r.Some? ==> r.value < 0x1_0000 && Be16(r.value) == mmtPackageId
  {
    if |mmtPackageId| != 2 then None
    else
      DivExact(mmtPackageId[0] as int, mmtPackageId[1] as int, 0x100);
      Some((mmtPackageId[0] as int) * 0x100 + mmtPackageId[1])
  }

  /** The service id round-trips through its two-byte package id. */
  lemma {:induction false} PackageIdRoundTrip(serviceId: nat)
    requires serviceId < 0x1_0000
    ensures PackageIdToServiceId(Be16(serviceId)) == Some(serviceId)
  {
  }
}
