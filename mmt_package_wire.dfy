// The wire forms of the PLT's packages and the MPT's assets
// (src/mmt-si.ts), and what the two counted loops make of a run of them:
// the run read back in full, the run cut short by an entry that does not
// fit (the loop `break`s and the table keeps what it read), and the run
// followed by an entry whose location cannot be read (the whole table is
// undefined).
module MmtPackageWire {
  import opened Js
  import opened Decoding
  import opened Layouts
  import opened Sections
  import opened LocationInfo
  import opened MmtSiDescriptor
  import opened MmtSiTables

  // ---------------------------------------------------------------------
  // PLT

  /** The wire form of a package that fits its widths; nothing for one that does not. */
  ghost function PackageBytes(p: Package): bytes
  {
    if WellFormedPackage(p) then EncodePackage(p) else []
  }

  /** A package read stands for itself. */
  function ThePackage(p: Package): Package
  {
    p
  }

  /** Every encoded package of ps is read wherever it is found. */
  lemma {:induction false} PackagesRead(b: bytes, ps: seq<Package>)
    requires forall p :: p in ps ==> WellFormedPackage(p)
    ensures Reads(b, PackageAt, PackageBytes, ThePackage, ps)
  {
    forall w, p: nat | w in ps && At(b, p, PackageBytes(w))
      ensures PackageAt(b, p) == Read(ThePackage(w), p + |PackageBytes(w)|)
    {
      AtSlice(b, p, EncodePackage(w));
      PackageWindow(b, p, w);
    }
  }

  /** The package loop keeps each package it reads while packages are left to count. */
  lemma {:induction false} PackagesCount(b: bytes)
    ensures CountsDown(b, Packages, PackageAt)
  {
    forall p: nat, k: nat, x, next: nat | 0 < k && PackageAt(b, p) == Read(x, next)
      ensures Packages(b, p, k) == Chain([x], Packages(b, next, k - 1))
    {
    }
  }

  /**
   * A run of encoded packages under a count of at least their number is
   * read, and the loop goes on after the run with the count left.
   */
  lemma {:induction false} PackagesRun(b: bytes, o: nat, ps: seq<Package>, n: nat)
    requires |ps| <= n && forall p :: p in ps ==> WellFormedPackage(p)
    requires At(b, o, Laid(PackageBytes, ps))
    ensures Packages(b, o, n) == Chain(ps, Packages(b, o + |Laid(PackageBytes, ps)|, n - |ps|))
  {
    PackagesRead(b, ps);
    PackagesWalk(b, o, ps, n);
    assert Values(ThePackage, ps) == ps;
  }

  /** The counted walk over a run of packages that are each read where they are found. */
  lemma {:induction false} PackagesWalk(b: bytes, o: nat, ps: seq<Package>, n: nat)
    requires |ps| <= n && At(b, o, Laid(PackageBytes, ps)) && Reads(b, PackageAt, PackageBytes, ThePackage, ps)
    ensures Packages(b, o, n) == Chain(Values(ThePackage, ps), Packages(b, o + |Laid(PackageBytes, ps)|, n - |ps|))
  {
    PackagesCount(b);
    LaidCount(b, Packages, PackageAt, PackageBytes, ThePackage, ps, o, n);
  }

  /** What the PLT reader makes of a count byte n and a package loop that reads ps, then rest. */
  lemma {:induction false} PLTOutcome(version: nat, d: bytes, n: nat, ps: seq<Package>, rest: Decoded<seq<Package>>)
    requires 1 <= |d| && d[0] as nat == n && Packages(d, 1, n) == Chain(ps, rest)
    ensures rest == Ok([]) ==> PLTOf(version, d) == Ok(PLT(version, ps))
    ensures rest == Undefined ==> PLTOf(version, d) == Undefined
  {
    ChainDone(ps);
  }

  /** A package whose id does not fit, at the end of the buffer, ends a loop with packages left to count. */
  lemma {:induction false} PackageCutShortAt(d: bytes, e: nat, k: nat)
    requires 0 < k && e <= |d| && (|d| == e || |d| - e < 1 + d[e] as nat)
    ensures Packages(d, e, k) == Ok([])
  {
    assert PackageAt(d, e) == Done;
  }

  /** A package whose location cannot be read, at the end of the buffer, fails a loop with packages left to count. */
  lemma {:induction false} PackageBadLocationAt(d: bytes, e: nat, id: bytes, k: nat)
    requires 0 < k && e + 1 + |id| <= |d| && d[e] as nat == |id| && Unlocatable(d[e + 1 + |id|..])
    ensures Packages(d, e, k) == Undefined
  {
    var p := e + 1 + |id|;
    assert d == d[..p] + d[p..];
    UnlocatableAt(d[..p], d[p..]);
    assert PackageAt(d, e) == Undef;
  }

  /**
   * A PLT written as its package count and exactly that many encoded
   * packages reads back as that table, whatever follows.
   */
  lemma {:induction false} PLTRoundTrip(version: nat, ps: seq<Package>, t: bytes)
    requires |ps| < 0x100 && forall p :: p in ps ==> WellFormedPackage(p)
    ensures PLTOf(version, [|ps| as byte] + Laid(PackageBytes, ps) + t) == Ok(PLT(version, ps))
  {
    var d := [|ps| as byte] + Laid(PackageBytes, ps) + t;
    AtMiddle([|ps| as byte], Laid(PackageBytes, ps), t);
    PLTRoundTripOf(version, d, ps);
  }

  /**
   * The package loop of a PLT whose count byte is n, over a run of encoded
   * packages ending at e, completes the table with those packages when the
   * loop finds nothing more at e, and fails the table when it fails at e.
   */
  lemma {:induction false} PLTEnd(version: nat, d: bytes, n: nat, ps: seq<Package>, e: nat)
    requires |ps| <= n && forall p :: p in ps ==> WellFormedPackage(p)
    requires 1 <= |d| && d[0] as nat == n && At(d, 1, Laid(PackageBytes, ps)) && e == 1 + |Laid(PackageBytes, ps)|
    ensures Packages(d, e, n - |ps|) == Ok([]) ==> PLTOf(version, d) == Ok(PLT(version, ps))
    ensures Packages(d, e, n - |ps|) == Undefined ==> PLTOf(version, d) == Undefined
  {
    PackagesRun(d, 1, ps, n);
    PLTOutcome(version, d, n, ps, Packages(d, e, n - |ps|));
  }

  /** A PLT whose count byte is the number of the encoded packages after it holds those packages. */
  lemma {:induction false} PLTRoundTripOf(version: nat, d: bytes, ps: seq<Package>)
    requires forall p :: p in ps ==> WellFormedPackage(p)
    requires 1 <= |d| && d[0] as nat == |ps| && At(d, 1, Laid(PackageBytes, ps))
    ensures PLTOf(version, d) == Ok(PLT(version, ps))
  {
    PLTEnd(version, d, |ps|, ps, 1 + |Laid(PackageBytes, ps)|);
  }

  /**
   * A PLT announcing more packages than are encoded, whose next package id
   * does not fit, holds exactly the encoded packages: the loop `break`s.
   */
  lemma {:induction false} PLTCutShort(version: nat, ps: seq<Package>, n: nat, t: bytes)
    requires |ps| < n < 0x100 && forall p :: p in ps ==> WellFormedPackage(p)
    requires |t| == 0 || |t| < 1 + t[0] as nat
    ensures PLTOf(version, [n as byte] + Laid(PackageBytes, ps) + t) == Ok(PLT(version, ps))
  {
    var d := [n as byte] + Laid(PackageBytes, ps) + t;
    var e := 1 + |Laid(PackageBytes, ps)|;
    AtMiddle([n as byte], Laid(PackageBytes, ps), t);
    assert |d| == e + |t| && (|t| > 0 ==> d[e] == t[0]);
    PLTCutShortOf(version, d, n, ps, e);
  }

  /** A PLT whose encoded packages are followed by a package whose id does not fit holds those packages. */
  lemma {:induction false} PLTCutShortOf(version: nat, d: bytes, n: nat, ps: seq<Package>, e: nat)
    requires |ps| < n && forall p :: p in ps ==> WellFormedPackage(p)
    requires 1 <= |d| && d[0] as nat == n && At(d, 1, Laid(PackageBytes, ps)) && e == 1 + |Laid(PackageBytes, ps)|
    requires |d| == e || |d| - e < 1 + d[e] as nat
    ensures PLTOf(version, d) == Ok(PLT(version, ps))
  {
    PackageCutShortAt(d, e, n - |ps|);
    PLTEnd(version, d, n, ps, e);
  }

  /**
   * A PLT announcing more packages than are encoded, whose next package's
   * location cannot be read, is undefined as a whole, whatever packages
   * came before.
   */
  lemma {:induction false} PLTBadLocation(version: nat, ps: seq<Package>, n: nat, id: bytes, t: bytes)
    requires |ps| < n < 0x100 && forall p :: p in ps ==> WellFormedPackage(p)
    requires |id| < 0x100 && Unlocatable(t)
    ensures PLTOf(version, [n as byte] + Laid(PackageBytes, ps) + [|id| as byte] + id + t) == Undefined
  {
    var bad := [|id| as byte] + id + t;
    var d := [n as byte] + Laid(PackageBytes, ps) + [|id| as byte] + id + t;
    var e := 1 + |Laid(PackageBytes, ps)|;
    assert d == [n as byte] + Laid(PackageBytes, ps) + bad;
    AtMiddle([n as byte], Laid(PackageBytes, ps), bad);
    assert d[e] == |id| as byte && d[e + 1 + |id|..] == t;
    PLTBadLocationOf(version, d, n, ps, e, id);
  }

  /** A PLT whose encoded packages are followed by a package whose location cannot be read is undefined. */
  lemma {:induction false} PLTBadLocationOf(version: nat, d: bytes, n: nat, ps: seq<Package>, e: nat, id: bytes)
    requires |ps| < n && forall p :: p in ps ==> WellFormedPackage(p)
    requires 1 <= |d| && d[0] as nat == n && At(d, 1, Laid(PackageBytes, ps)) && e == 1 + |Laid(PackageBytes, ps)|
    requires e + 1 + |id| <= |d| && d[e] as nat == |id| && Unlocatable(d[e + 1 + |id|..])
    ensures PLTOf(version, d) == Undefined
  {
    PackageBadLocationAt(d, e, id, n - |ps|);
    PLTEnd(version, d, n, ps, e);
  }

  // ---------------------------------------------------------------------
  // MPT assets

  /** The wire form of a location that fits its widths; nothing for one that does not. */
  ghost function LocationBytes(l: MMTGeneralLocationInfo): bytes
  {
    if WellFormed(l) then EncodeLocationInfo(l) else []
  }

  /**
   * A run of encoded locations is read by the location loop over their
   * number, which ends just after them.
   */
  lemma {:induction false} LocationsRun(b: bytes, o: nat, ls: seq<MMTGeneralLocationInfo>)
    requires LocationsWire(ls)
    requires At(b, o, Laid(LocationBytes, ls))
    ensures LocationsAt(b, o, |ls|) == Some(Field(ls, o + |Laid(LocationBytes, ls)|))
    decreases |ls|
  {
    if ls != [] {
      var init, last := ls[..|ls| - 1], ls[|ls| - 1];
      LocationsLast(b, o, ls);
      LocationsRun(b, o, init);
      LocationFound(b, o + |Laid(LocationBytes, init)|, last);
      LocationsSnoc(b, o, init, last, o + |Laid(LocationBytes, init)|, o + |Laid(LocationBytes, ls)|);
    }
  }

  /** The last location of a run is found after the others. */
  lemma {:induction false} LocationsLast(b: bytes, o: nat, ls: seq<MMTGeneralLocationInfo>)
    requires ls != [] && LocationsWire(ls) && At(b, o, Laid(LocationBytes, ls))
    ensures var init, last := ls[..|ls| - 1], ls[|ls| - 1];
      init + [last] == ls && (forall l :: l in init ==> WellFormed(l)) && WellFormed(last)
      && At(b, o, Laid(LocationBytes, init)) && At(b, o + |Laid(LocationBytes, init)|, EncodeLocationInfo(last))
      && |Laid(LocationBytes, ls)| == |Laid(LocationBytes, init)| + |EncodeLocationInfo(last)|
  {
    var init, last := ls[..|ls| - 1], ls[|ls| - 1];
    assert ls == init + [last];
    assert forall l :: l in init ==> l in ls;
    assert last in ls;
    LaidSnoc(LocationBytes, init, last);
    AtSplit(b, o, Laid(LocationBytes, init), LocationBytes(last));
  }

  /** A location read after the others extends the loop by one. */
  lemma {:induction false} LocationsSnoc(b: bytes, o: nat, init: seq<MMTGeneralLocationInfo>, last: MMTGeneralLocationInfo,
                                         e1: nat, e2: nat)
    requires LocationsAt(b, o, |init|) == Some(Field(init, e1)) && LocationInfoAt(b, e1) == Located(Some(last), e2)
    ensures LocationsAt(b, o, |init + [last]|) == Some(Field(init + [last], e2))
  {
    assert |init + [last]| - 1 == |init|;
  }

  /**
   * A location loop announcing more locations than are encoded, whose next
   * location cannot be read, fails.
   */
  lemma {:induction false} LocationsBad(b: bytes, o: nat, ls: seq<MMTGeneralLocationInfo>, c: nat)
    requires |ls| < c && LocationsWire(ls)
    requires At(b, o, Laid(LocationBytes, ls)) && Unlocatable(b[o + |Laid(LocationBytes, ls)|..])
    ensures LocationsAt(b, o, c).None?
  {
    var e := o + |Laid(LocationBytes, ls)|;
    LocationsRun(b, o, ls);
    assert b == b[..e] + b[e..];
    UnlocatableAt(b[..e], b[e..]);
    assert LocationsAt(b, o, |ls| + 1).None?;
    LocationsFail(b, o, |ls| + 1, c);
  }

  /** Every location of a list is well formed. */
  predicate LocationsWire(ls: seq<MMTGeneralLocationInfo>)
  {
    forall l :: l in ls ==> WellFormed(l)
  }

  /** Every asset of a list is written faithfully. */
  predicate AssetsWire(ws: seq<(MMTAsset, bytes)>)
  {
    forall w :: w in ws ==> AssetWire(w)
  }

  /** An asset whose fields fit their widths, whose locations fit, and whose descriptors a 16-bit length counts. */
  predicate AssetWire(w: (MMTAsset, bytes))
  {
    var a := w.0;
    HeadWire(a) && |a.locations| < 0x100 && LocationsWire(a.locations)
    && |w.1| < 0x1_0000 && DescriptorsFrom(w.1, 0) == Ok(a.assetDescriptors)
  }

  /** An asset whose fixed fields fit their widths. */
  predicate HeadWire(a: MMTAsset)
  {
    a.identifierType < 0x100 && a.assetIdScheme < 0x1_0000_0000 && |a.assetId| < 0x100 && a.assetType < 0x1_0000_0000
  }

  /**
   * An asset's fixed bytes: identifier type, id scheme, the length-prefixed
   * asset id, asset type, the clock relation flag (low bit) and the
   * location count c.
   */
  function AssetHead(a: MMTAsset, c: nat): (r: bytes)
    ensures |r| == 12 + |a.assetId|
  {
    AssetFront(a) + a.assetId + Word32(a.assetType) + [Bit(a.assetClockRelationFlag) as byte, (c % 0x100) as byte]
  }

  /** The six bytes before the asset id. */
  function AssetFront(a: MMTAsset): (r: bytes)
    ensures |r| == 6
  {
    [(a.identifierType % 0x100) as byte] + Word32(a.assetIdScheme) + [(|a.assetId| % 0x100) as byte]
  }

  /** One asset on the wire: its fixed bytes, its locations, then its descriptor length and descriptors. */
  ghost function EncodeAsset(w: (MMTAsset, bytes)): (r: bytes)
  {
    AssetHead(w.0, |w.0.locations|) + Laid(LocationBytes, w.0.locations) + Word(|w.1|) + w.1
  }

  /** The six bytes before the asset id, found at o. */
  lemma {:induction false} AssetFrontFound(b: bytes, o: nat, a: MMTAsset)
    requires HeadWire(a) && At(b, o, AssetFront(a))
    ensures b[o] as nat == a.identifierType && U32(b, o + 1) == a.assetIdScheme && b[o + 5] as nat == |a.assetId|
  {
    var x0: bytes := [(a.identifierType % 0x100) as byte];
    var l: bytes := [(|a.assetId| % 0x100) as byte];
    AtSplit(b, o, x0 + Word32(a.assetIdScheme), l);
    AtSplit(b, o, x0, Word32(a.assetIdScheme));
    assert b[o] == x0[0] && b[o + 5] == l[0];
    Word32At(b, o + 1, a.assetIdScheme);
  }

  /** The fixed bytes of an asset, found at o. */
  lemma {:induction false} AssetHeadBytes(b: bytes, o: nat, a: MMTAsset, c: nat)
    requires HeadWire(a) && c < 0x100 && At(b, o, AssetHead(a, c))
    ensures var q := o + 6 + |a.assetId|;
      q + 6 <= |b| && b[o] as nat == a.identifierType && U32(b, o + 1) == a.assetIdScheme && b[o + 5] as nat == |a.assetId|
      && b[o + 6..q] == a.assetId && U32(b, q) == a.assetType && (b[q + 4] % 2 == 1 <==> a.assetClockRelationFlag)
      && b[q + 5] as nat == c
  {
    var q := o + 6 + |a.assetId|;
    AssetHeadParts(b, o, a, c);
    AssetFrontFound(b, o, a);
    AtSlice(b, o + 6, a.assetId);
    AssetBackFound(b, q, a, c);
  }

  /** The parts of an asset's fixed bytes, each found where it is laid out. */
  lemma {:induction false} AssetHeadParts(b: bytes, o: nat, a: MMTAsset, c: nat)
    requires At(b, o, AssetHead(a, c))
    ensures At(b, o, AssetFront(a)) && At(b, o + 6, a.assetId)
    ensures At(b, o + 6 + |a.assetId|, Word32(a.assetType) + [Bit(a.assetClockRelationFlag) as byte, (c % 0x100) as byte])
  {
    var fc: bytes := [Bit(a.assetClockRelationFlag) as byte, (c % 0x100) as byte];
    assert AssetHead(a, c) == AssetFront(a) + a.assetId + (Word32(a.assetType) + fc);
    AtSplit(b, o, AssetFront(a) + a.assetId, Word32(a.assetType) + fc);
    AtSplit(b, o, AssetFront(a), a.assetId);
  }

  /** The asset type, clock relation flag and location count, found at q. */
  lemma {:induction false} AssetBackFound(b: bytes, q: nat, a: MMTAsset, c: nat)
    requires a.assetType < 0x1_0000_0000 && c < 0x100
    requires At(b, q, Word32(a.assetType) + [Bit(a.assetClockRelationFlag) as byte, (c % 0x100) as byte])
    ensures q + 6 <= |b| && U32(b, q) == a.assetType && (b[q + 4] % 2 == 1 <==> a.assetClockRelationFlag) && b[q + 5] as nat == c
  {
    var fc: bytes := [Bit(a.assetClockRelationFlag) as byte, (c % 0x100) as byte];
    AtSplit(b, q, Word32(a.assetType), fc);
    Word32At(b, q, a.assetType);
    assert b[q + 4] == fc[0] && b[q + 5] == fc[1];
  }

  /** The fixed bytes of an asset found at o are read as its header. */
  lemma {:induction false} AssetHeadFound(b: bytes, o: nat, a: MMTAsset, c: nat)
    requires HeadWire(a) && c < 0x100 && At(b, o, AssetHead(a, c))
    ensures AssetHeaderAt(b, o)
            == Some(Field(AssetHeader(a.(locations := [], assetDescriptors := []), c), o + 12 + |a.assetId|))
  {
    AssetHeadBytes(b, o, a, c);
  }

  /** The parts of an encoded asset found at o. */
  lemma {:induction false} AssetParts(b: bytes, o: nat, w: (MMTAsset, bytes))
    requires At(b, o, EncodeAsset(w))
    ensures var head := AssetHead(w.0, |w.0.locations|); var locs := Laid(LocationBytes, w.0.locations);
      At(b, o, head) && At(b, o + |head|, locs) && At(b, o + |head| + |locs|, Word(|w.1|)) && At(b, o + |head| + |locs| + 2, w.1)
      && |EncodeAsset(w)| == |head| + |locs| + 2 + |w.1|
  {
    var head := AssetHead(w.0, |w.0.locations|);
    var locs := Laid(LocationBytes, w.0.locations);
    AtSplit(b, o, head + locs + Word(|w.1|), w.1);
    AtSplit(b, o, head + locs, Word(|w.1|));
    AtSplit(b, o, head, locs);
  }

  /** The descriptor block of an asset, found at s, completes the asset. */
  lemma {:induction false} AssetDescriptorsFound(b: bytes, s: nat, a: MMTAsset, raw: bytes, ds: seq<MMTSIDescriptor>)
    requires |raw| < 0x1_0000 && DescriptorsFrom(raw, 0) == Ok(ds)
    requires At(b, s, Word(|raw|)) && At(b, s + 2, raw)
    ensures AssetDescriptorsAt(b, s, a) == Read(a.(assetDescriptors := ds), s + 2 + |raw|)
  {
    WordFound(b, s, |raw|);
    AtSlice(b, s + 2, raw);
  }

  /** An encoded asset found at o is read. */
  lemma {:induction false} AssetReadBack(b: bytes, o: nat, w: (MMTAsset, bytes))
    requires AssetWire(w) && At(b, o, EncodeAsset(w))
    ensures AssetAt(b, o) == Read(w.0, o + |EncodeAsset(w)|)
  {
    var a, raw := w.0, w.1;
    var h := o + |AssetHead(a, |a.locations|)|;
    var s := h + |Laid(LocationBytes, a.locations)|;
    AssetParts(b, o, w);
    AssetPartsFound(b, o, a, raw, h, s);
    AssetReadOf(b, o, a, h, s, s + 2 + |raw|);
  }

  /** The parts of an asset, each found where it is laid out, are read as the asset's. */
  lemma {:induction false} AssetPartsFound(b: bytes, o: nat, a: MMTAsset, raw: bytes, h: nat, s: nat)
    requires HeadWire(a) && |a.locations| < 0x100 && LocationsWire(a.locations)
    requires |raw| < 0x1_0000 && DescriptorsFrom(raw, 0) == Ok(a.assetDescriptors)
    requires h == o + |AssetHead(a, |a.locations|)| && s == h + |Laid(LocationBytes, a.locations)|
    requires At(b, o, AssetHead(a, |a.locations|)) && At(b, h, Laid(LocationBytes, a.locations))
    requires At(b, s, Word(|raw|)) && At(b, s + 2, raw)
    ensures AssetHeaderAt(b, o) == Some(Field(AssetHeader(a.(locations := [], assetDescriptors := []), |a.locations|), h))
    ensures LocationsAt(b, h, |a.locations|) == Some(Field(a.locations, s))
    ensures AssetDescriptorsAt(b, s, a.(assetDescriptors := [])) == Read(a, s + 2 + |raw|)
  {
    AssetHeadFound(b, o, a, |a.locations|);
    LocationsRun(b, h, a.locations);
    AssetDescriptorsFound(b, s, a.(assetDescriptors := []), raw, a.assetDescriptors);
  }

  /** An asset whose header, locations and descriptor block read as its own is read. */
  lemma {:induction false} AssetReadOf(b: bytes, o: nat, a: MMTAsset, h: nat, s: nat, next: nat)
    requires AssetHeaderAt(b, o) == Some(Field(AssetHeader(a.(locations := [], assetDescriptors := []), |a.locations|), h))
    requires LocationsAt(b, h, |a.locations|) == Some(Field(a.locations, s))
    requires AssetDescriptorsAt(b, s, a.(assetDescriptors := [])) == Read(a, next)
    ensures AssetAt(b, o) == Read(a, next)
  {
    assert a.(locations := [], assetDescriptors := []).(locations := a.locations) == a.(assetDescriptors := []);
  }
  /** Every encoded asset of ws is read wherever it is found. */
  lemma {:induction false} AssetsRead(b: bytes, ws: seq<(MMTAsset, bytes)>)
    requires AssetsWire(ws)
    ensures Reads(b, AssetAt, EncodeAsset, First, ws)
  {
    forall w, p: nat | w in ws && At(b, p, EncodeAsset(w))
      ensures AssetAt(b, p) == Read(First(w), p + |EncodeAsset(w)|)
    {
      AssetReadBack(b, p, w);
    }
  }

  /** The asset loop keeps each asset it reads while assets are left to count. */
  lemma {:induction false} AssetsCount(b: bytes)
    ensures CountsDown(b, Assets, AssetAt)
  {
    forall p: nat, k: nat, x, next: nat | 0 < k && AssetAt(b, p) == Read(x, next)
      ensures Assets(b, p, k) == Chain([x], Assets(b, next, k - 1))
    {
    }
  }

  /** The same run, with the offset after it given. */
  lemma {:induction false} AssetsRunTo(b: bytes, o: nat, ws: seq<(MMTAsset, bytes)>, n: nat, e: nat)
    requires |ws| <= n && Reads(b, AssetAt, EncodeAsset, First, ws)
    requires At(b, o, Laid(EncodeAsset, ws)) && e == o + |Laid(EncodeAsset, ws)|
    ensures Assets(b, o, n) == Chain(Values(First, ws), Assets(b, e, n - |ws|))
  {
    AssetsWalk(b, o, ws, n);
  }

  /** The counted walk over a run of assets that are each read where they are found. */
  lemma {:induction false} AssetsWalk(b: bytes, o: nat, ws: seq<(MMTAsset, bytes)>, n: nat)
    requires |ws| <= n && At(b, o, Laid(EncodeAsset, ws)) && Reads(b, AssetAt, EncodeAsset, First, ws)
    ensures Assets(b, o, n) == Chain(Values(First, ws), Assets(b, o + |Laid(EncodeAsset, ws)|, n - |ws|))
  {
    AssetsCount(b);
    LaidCount(b, Assets, AssetAt, EncodeAsset, First, ws, o, n);
  }

  /** Bytes at the end of the buffer too few for an asset's fixed part, id included. */
  predicate AssetCutShort(t: bytes)
  {
    |t| < 6 || |t| < 12 + t[5] as nat
  }

  /** An asset cut short at the end of the buffer ends the asset loop with nothing more. */
  lemma {:induction false} AssetCutShortAt(d: bytes, e: nat, k: nat)
    requires e <= |d| && AssetCutShort(d[e..])
    ensures Assets(d, e, k) == Ok([])
  {
    if 6 <= |d| - e {
      assert d[e + 5] == d[e..][5];
    }
    assert AssetHeaderAt(d, e).None?;
  }

  /**
   * An asset announcing more locations than are encoded, whose next
   * location cannot be read, fails the asset loop.
   */
  lemma {:induction false} AssetBadLocationAt(d: bytes, e: nat, a: MMTAsset, c: nat, ls: seq<MMTGeneralLocationInfo>, k: nat)
    requires HeadWire(a) && |ls| < c < 0x100 && LocationsWire(ls) && 0 < k
    requires BadAssetAt(d, e, a, c, ls)
    ensures Assets(d, e, k) == Undefined
  {
    AssetHeadFound(d, e, a, c);
    LocationsBad(d, e + |AssetHead(a, c)|, ls, c);
    AssetFails(d, e, e + |AssetHead(a, c)|, k);
  }

  /** An asset whose header is read but whose locations are not fails the asset loop. */
  lemma {:induction false} AssetFails(d: bytes, e: nat, h: nat, k: nat)
    requires 0 < k && AssetHeaderAt(d, e).Some? && AssetHeaderAt(d, e).value.next == h
    requires LocationsAt(d, h, AssetHeaderAt(d, e).value.value.locationCount).None?
    ensures Assets(d, e, k) == Undefined
  {
  }

  // ---------------------------------------------------------------------
  // MPT

  /** The MPT's bytes before its asset count: mode, the length-prefixed package id and the descriptor length. */
  function MPTHead(mode: nat, id: bytes, descriptorsLength: nat): (r: bytes)
    ensures |r| == 4 + |id|
  {
    [(mode % 0x100) as byte, (|id| % 0x100) as byte] + id + Word(descriptorsLength)
  }

  /** The fields of an MPT laid out before its assets. */
  lemma {:induction false} MPTHeadBytes(mode: nat, id: bytes, raw: bytes, n: nat, rest: bytes)
    requires mode < 4 && |id| < 0x100 && |raw| < 0x1_0000 && n < 0x100
    ensures var d := MPTHead(mode, id, |raw|) + raw + [n as byte] + rest; var p := 2 + |id|;
      p + 3 + |raw| <= |d| && d[0] as nat == mode && d[1] as nat == |id| && d[2..p] == id && U16(d, p) == |raw|
      && d[p + 2..p + 2 + |raw|] == raw && d[p + 2 + |raw|] as nat == n
  {
    var d := MPTHead(mode, id, |raw|) + raw + [n as byte] + rest;
    var p := 2 + |id|;
    assert d[0] == mode as byte && d[1] == |id| as byte;
    assert d[2..p] == id;
    assert d[p] == Word(|raw|)[0] && d[p + 1] == Word(|raw|)[1];
    WordAt(d, p, |raw|);
    assert d[p + 2..p + 2 + |raw|] == raw;
    assert d[p + 2 + |raw|] == n as byte;
  }

  /** The fields of an MPT before its asset count, as laid out by MPTHead. */
  predicate MPTHeadAt(d: bytes, mode: nat, id: bytes, raw: bytes)
  {
    var p := 2 + |id|;
    p + 3 + |raw| <= |d| && d[0] as nat == mode && d[1] as nat == |id| && d[2..p] == id && U16(d, p) == |raw|
    && d[p + 2..p + 2 + |raw|] == raw
  }

  /** An MPT whose fields read as given comes down to its asset loop. */
  lemma {:induction false} MPTOfHead(version: nat, d: bytes, mode: nat, id: bytes, ds: seq<MMTSIDescriptor>, raw: bytes)
    requires mode < 4 && DescriptorsFrom(raw, 0) == Ok(ds) && MPTHeadAt(d, mode, id, raw)
    ensures MPTOf(version, d) == MPTAssetsOf(d, 4 + |id| + |raw|, MPT(version, mode, id, ds, []))
  {
    MPTFront(version, d, mode, id);
    MPTDescriptorsFound(d, 2 + |id|, MPT(version, mode, id, [], []), raw, ds);
  }

  /** An MPT whose fields read as given is what its asset loop makes of it. */
  lemma {:induction false} MPTOfIs(version: nat, d: bytes, mode: nat, id: bytes, ds: seq<MMTSIDescriptor>, raw: bytes,
                                   r: Decoded<MMTSITable>)
    requires mode < 4 && DescriptorsFrom(raw, 0) == Ok(ds) && MPTHeadAt(d, mode, id, raw)
    requires MPTAssetsOf(d, 4 + |id| + |raw|, MPT(version, mode, id, ds, [])) == r
    ensures MPTOf(version, d) == r
  {
    MPTOfHead(version, d, mode, id, ds, raw);
  }

  /** The mode and package id of an MPT, read from its first bytes. */
  lemma {:induction false} MPTFront(version: nat, d: bytes, mode: nat, id: bytes)
    requires mode < 4 && 2 + |id| <= |d| && d[0] as nat == mode && d[1] as nat == |id| && d[2..2 + |id|] == id
    ensures MPTOf(version, d) == MPTDescriptorsOf(d, 2 + |id|, MPT(version, mode, id, [], []))
  {
  }

  /** The MPT descriptor block at p, read as its descriptors. */
  lemma {:induction false} MPTDescriptorsFound(d: bytes, p: nat, t: MMTSITable, raw: bytes, ds: seq<MMTSIDescriptor>)
    requires t.MPT? && p + 2 + |raw| <= |d| && U16(d, p) == |raw| && d[p + 2..p + 2 + |raw|] == raw
    requires DescriptorsFrom(raw, 0) == Ok(ds)
    ensures MPTDescriptorsOf(d, p, t) == MPTAssetsOf(d, p + 2 + |raw|, t.(mptDescriptors := ds))
  {
  }

  /** The table an asset loop outcome completes. */
  lemma {:induction false} MPTAssetsOutcome(d: bytes, q: nat, t: MMTSITable, n: nat, vs: seq<MMTAsset>, rest: Decoded<seq<MMTAsset>>)
    requires t.MPT? && q < |d| && d[q] as nat == n && Assets(d, q + 1, n) == Chain(vs, rest)
    ensures rest == Ok([]) ==> MPTAssetsOf(d, q, t) == Ok(t.(assets := vs))
    ensures rest == Undefined ==> MPTAssetsOf(d, q, t) == Undefined
  {
    ChainDone(vs);
  }

  /** An MPT's fixed fields and asset count, followed by body. */
  lemma {:induction false} MPTLayout(mode: nat, id: bytes, raw: bytes, n: nat, body: bytes)
    requires mode < 4 && |id| < 0x100 && |raw| < 0x1_0000 && n < 0x100
    ensures var d := MPTHead(mode, id, |raw|) + raw + [n as byte] + body; var q := 4 + |id| + |raw|;
      MPTHeadAt(d, mode, id, raw) && d[q] as nat == n && At(d, q + 1, body) && |d| == q + 1 + |body|
  {
    var x := MPTHead(mode, id, |raw|) + raw + [n as byte];
    MPTHeadBytes(mode, id, raw, n, body);
    AtMiddle(x, body, []);
    assert x + body + [] == x + body;
  }

  /** The bytes at the end of a buffer, found there. */
  lemma {:induction false} AtEnd(b: bytes, o: nat, x: bytes)
    requires At(b, o, x) && o + |x| == |b|
    ensures b[o..] == x
  {
    AtSlice(b, o, x);
  }

  /**
   * The asset loop of an MPT whose asset count is n, over a run of encoded
   * assets ending at e, completes the table with those assets when the loop
   * finds nothing more at e, and fails the table when it fails at e.
   */
  lemma {:induction false} MPTAssetsEnd(d: bytes, q: nat, t: MMTSITable, ws: seq<(MMTAsset, bytes)>, n: nat, e: nat)
    requires t.MPT? && q < |d| && d[q] as nat == n && |ws| <= n && At(d, q + 1, Laid(EncodeAsset, ws))
    requires AssetsWire(ws)
    requires e == q + 1 + |Laid(EncodeAsset, ws)|
    ensures Assets(d, e, n - |ws|) == Ok([]) ==> MPTAssetsOf(d, q, t) == Ok(t.(assets := Values(First, ws)))
    ensures Assets(d, e, n - |ws|) == Undefined ==> MPTAssetsOf(d, q, t) == Undefined
  {
    AssetsRead(d, ws);
    AssetsRunTo(d, q + 1, ws, n, e);
    MPTAssetsOutcome(d, q, t, n, Values(First, ws), Assets(d, e, n - |ws|));
  }

  /**
   * An MPT written with its mode, package id, descriptors, asset count and
   * exactly that many encoded assets reads back as that table, whatever
   * follows.
   */
  lemma {:induction false} MPTRoundTrip(version: nat, mode: nat, id: bytes, ds: seq<MMTSIDescriptor>, raw: bytes,
                                        ws: seq<(MMTAsset, bytes)>, rest: bytes)
    requires mode < 4 && |id| < 0x100 && |raw| < 0x1_0000 && DescriptorsFrom(raw, 0) == Ok(ds)
    requires |ws| < 0x100 && AssetsWire(ws)
    ensures MPTOf(version, MPTHead(mode, id, |raw|) + raw + [|ws| as byte] + (Laid(EncodeAsset, ws) + rest))
            == Ok(MPT(version, mode, id, ds, Values(First, ws)))
  {
    var d := MPTHead(mode, id, |raw|) + raw + [|ws| as byte] + (Laid(EncodeAsset, ws) + rest);
    MPTLayout(mode, id, raw, |ws|, Laid(EncodeAsset, ws) + rest);
    AtSplit(d, 5 + |id| + |raw|, Laid(EncodeAsset, ws), rest);
    MPTRoundTripOf(version, d, mode, id, ds, raw, ws);
  }

  /** An MPT whose asset count is the number of the encoded assets after it holds those assets. */
  lemma {:induction false} MPTRoundTripOf(version: nat, d: bytes, mode: nat, id: bytes, ds: seq<MMTSIDescriptor>, raw: bytes,
                                          ws: seq<(MMTAsset, bytes)>)
    requires mode < 4 && DescriptorsFrom(raw, 0) == Ok(ds) && AssetsWire(ws)
    requires MPTHeadAt(d, mode, id, raw) && d[4 + |id| + |raw|] as nat == |ws| && At(d, 5 + |id| + |raw|, Laid(EncodeAsset, ws))
    ensures MPTOf(version, d) == Ok(MPT(version, mode, id, ds, Values(First, ws)))
  {
    var q := 4 + |id| + |raw|;
    MPTAssetsEnd(d, q, MPT(version, mode, id, ds, []), ws, |ws|, q + 1 + |Laid(EncodeAsset, ws)|);
    MPTOfIs(version, d, mode, id, ds, raw, Ok(MPT(version, mode, id, ds, Values(First, ws))));
  }

  /**
   * An MPT announcing more assets than are encoded, whose next asset's
   * fixed part does not fit, holds exactly the encoded assets: the loop
   * `break`s.
   */
  lemma {:induction false} MPTCutShort(version: nat, mode: nat, id: bytes, ds: seq<MMTSIDescriptor>, raw: bytes,
                                       ws: seq<(MMTAsset, bytes)>, n: nat, t: bytes)
    requires mode < 4 && |id| < 0x100 && |raw| < 0x1_0000 && DescriptorsFrom(raw, 0) == Ok(ds)
    requires |ws| < n < 0x100 && AssetsWire(ws)
    requires AssetCutShort(t)
    ensures MPTOf(version, MPTHead(mode, id, |raw|) + raw + [n as byte] + (Laid(EncodeAsset, ws) + t))
            == Ok(MPT(version, mode, id, ds, Values(First, ws)))
  {
    var d := MPTHead(mode, id, |raw|) + raw + [n as byte] + (Laid(EncodeAsset, ws) + t);
    var e := 5 + |id| + |raw| + |Laid(EncodeAsset, ws)|;
    MPTLayout(mode, id, raw, n, Laid(EncodeAsset, ws) + t);
    AtSplit(d, 5 + |id| + |raw|, Laid(EncodeAsset, ws), t);
    AtEnd(d, e, t);
    MPTCutShortOf(version, d, mode, id, ds, raw, ws, n, e);
  }

  /** An MPT whose encoded assets are followed by an asset cut short holds those assets. */
  lemma {:induction false} MPTCutShortOf(version: nat, d: bytes, mode: nat, id: bytes, ds: seq<MMTSIDescriptor>, raw: bytes,
                                         ws: seq<(MMTAsset, bytes)>, n: nat, e: nat)
    requires mode < 4 && DescriptorsFrom(raw, 0) == Ok(ds) && |ws| < n && AssetsWire(ws)
    requires MPTHeadAt(d, mode, id, raw) && d[4 + |id| + |raw|] as nat == n && At(d, 5 + |id| + |raw|, Laid(EncodeAsset, ws))
    requires e == 5 + |id| + |raw| + |Laid(EncodeAsset, ws)| && e <= |d| && AssetCutShort(d[e..])
    ensures MPTOf(version, d) == Ok(MPT(version, mode, id, ds, Values(First, ws)))
  {
    AssetCutShortAt(d, e, n - |ws|);
    MPTAssetsEnd(d, 4 + |id| + |raw|, MPT(version, mode, id, ds, []), ws, n, e);
    MPTOfIs(version, d, mode, id, ds, raw, Ok(MPT(version, mode, id, ds, Values(First, ws))));
  }

  /**
   * An MPT announcing more assets than are encoded, whose next asset
   * announces more locations than it holds and then a location that cannot
   * be read, is undefined as a whole, whatever assets came before.
   */
  lemma {:induction false} MPTBadLocation(version: nat, mode: nat, id: bytes, ds: seq<MMTSIDescriptor>, raw: bytes,
                                          ws: seq<(MMTAsset, bytes)>, n: nat, a: MMTAsset, c: nat,
                                          ls: seq<MMTGeneralLocationInfo>, t: bytes)
    requires mode < 4 && |id| < 0x100 && |raw| < 0x1_0000 && DescriptorsFrom(raw, 0) == Ok(ds)
    requires |ws| < n < 0x100 && AssetsWire(ws)
    requires HeadWire(a) && |ls| < c < 0x100 && LocationsWire(ls) && Unlocatable(t)
    ensures MPTOf(version, MPTHead(mode, id, |raw|) + raw + [n as byte]
                           + (Laid(EncodeAsset, ws) + AssetHead(a, c) + Laid(LocationBytes, ls) + t)) == Undefined
  {
    var body := Laid(EncodeAsset, ws) + AssetHead(a, c) + Laid(LocationBytes, ls) + t;
    var d := MPTHead(mode, id, |raw|) + raw + [n as byte] + body;
    MPTLayout(mode, id, raw, n, body);
    MPTBadLocationOf(version, d, mode, id, ds, raw, ws, n, a, c, ls, t);
  }

  /** The parts of a run of assets followed by an asset whose location cannot be read, found at o. */
  lemma {:induction false} MPTBadBody(d: bytes, o: nat, x: bytes, a: MMTAsset, c: nat, ls: seq<MMTGeneralLocationInfo>, t: bytes, e: nat)
    requires Unlocatable(t) && e == o + |x|
    requires At(d, o, x + AssetHead(a, c) + Laid(LocationBytes, ls) + t) && |d| == o + |x| + |AssetHead(a, c)| + |Laid(LocationBytes, ls)| + |t|
    ensures At(d, o, x) && BadAssetAt(d, e, a, c, ls)
  {
    AtSplit(d, o, x + AssetHead(a, c) + Laid(LocationBytes, ls), t);
    AtSplit(d, o, x + AssetHead(a, c), Laid(LocationBytes, ls));
    AtSplit(d, o, x, AssetHead(a, c));
    AtEnd(d, o + |x| + |AssetHead(a, c)| + |Laid(LocationBytes, ls)|, t);
  }

  /** An asset at e announcing c locations, of which only ls are encoded before one that cannot be read. */
  ghost predicate BadAssetAt(d: bytes, e: nat, a: MMTAsset, c: nat, ls: seq<MMTGeneralLocationInfo>)
  {
    At(d, e, AssetHead(a, c)) && At(d, e + |AssetHead(a, c)|, Laid(LocationBytes, ls))
    && e + |AssetHead(a, c)| + |Laid(LocationBytes, ls)| <= |d|
    && Unlocatable(d[e + |AssetHead(a, c)| + |Laid(LocationBytes, ls)|..])
  }

  /** An MPT whose encoded assets are followed by an asset whose location cannot be read is undefined. */
  lemma {:induction false} MPTBadLocationOf(version: nat, d: bytes, mode: nat, id: bytes, ds: seq<MMTSIDescriptor>, raw: bytes,
                                            ws: seq<(MMTAsset, bytes)>, n: nat, a: MMTAsset, c: nat, ls: seq<MMTGeneralLocationInfo>,
                                            t: bytes)
    requires mode < 4 && DescriptorsFrom(raw, 0) == Ok(ds) && |ws| < n && AssetsWire(ws)
    requires HeadWire(a) && |ls| < c < 0x100 && LocationsWire(ls) && Unlocatable(t)
    requires var q := 4 + |id| + |raw|; var body := Laid(EncodeAsset, ws) + AssetHead(a, c) + Laid(LocationBytes, ls) + t;
      MPTHeadAt(d, mode, id, raw) && d[q] as nat == n && At(d, q + 1, body) && |d| == q + 1 + |body|
    ensures MPTOf(version, d) == Undefined
  {
    var q := 4 + |id| + |raw|;
    var e := q + 1 + |Laid(EncodeAsset, ws)|;
    MPTBadBody(d, q + 1, Laid(EncodeAsset, ws), a, c, ls, t, e);
    MPTBadAssetsOf(version, d, mode, id, ds, raw, ws, n, e, a, c, ls);
  }

  /** An MPT whose asset loop fails at its next asset's location is undefined. */
  lemma {:induction false} MPTBadAssetsOf(version: nat, d: bytes, mode: nat, id: bytes, ds: seq<MMTSIDescriptor>, raw: bytes,
                                          ws: seq<(MMTAsset, bytes)>, n: nat, e: nat, a: MMTAsset, c: nat, ls: seq<MMTGeneralLocationInfo>)
    requires mode < 4 && DescriptorsFrom(raw, 0) == Ok(ds) && |ws| < n && AssetsWire(ws)
    requires HeadWire(a) && |ls| < c < 0x100 && LocationsWire(ls)
    requires MPTHeadAt(d, mode, id, raw) && d[4 + |id| + |raw|] as nat == n && At(d, 5 + |id| + |raw|, Laid(EncodeAsset, ws))
    requires e == 5 + |id| + |raw| + |Laid(EncodeAsset, ws)| && BadAssetAt(d, e, a, c, ls)
    ensures MPTOf(version, d) == Undefined
  {
    MPTBadAssets(d, 4 + |id| + |raw|, MPT(version, mode, id, ds, []), ws, n, e, a, c, ls);
    MPTOfIs(version, d, mode, id, ds, raw, Undefined);
  }

  /** An asset count above the encoded assets, followed by an asset whose location cannot be read, fails the table. */
  lemma {:induction false} MPTBadAssets(d: bytes, q: nat, t: MMTSITable, ws: seq<(MMTAsset, bytes)>, n: nat, e: nat,
                                        a: MMTAsset, c: nat, ls: seq<MMTGeneralLocationInfo>)
    requires t.MPT? && q < |d| && d[q] as nat == n && |ws| < n && At(d, q + 1, Laid(EncodeAsset, ws))
    requires AssetsWire(ws)
    requires HeadWire(a) && |ls| < c < 0x100 && LocationsWire(ls)
    requires e == q + 1 + |Laid(EncodeAsset, ws)| && BadAssetAt(d, e, a, c, ls)
    ensures MPTAssetsOf(d, q, t) == Undefined
  {
    AssetBadLocationAt(d, e, a, c, ls, n - |ws|);
    MPTAssetsFail(d, q, t, ws, n, e);
  }

  /** An asset loop that fails after the encoded assets fails the table. */
  lemma {:induction false} MPTAssetsFail(d: bytes, q: nat, t: MMTSITable, ws: seq<(MMTAsset, bytes)>, n: nat, e: nat)
    requires t.MPT? && q < |d| && d[q] as nat == n && |ws| <= n && At(d, q + 1, Laid(EncodeAsset, ws))
    requires AssetsWire(ws) && e == q + 1 + |Laid(EncodeAsset, ws)| && Assets(d, e, n - |ws|) == Undefined
    ensures MPTAssetsOf(d, q, t) == Undefined
  {
    MPTAssetsEnd(d, q, t, ws, n, e);
  }
}
