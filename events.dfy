// The events the MMT/TLV reader dispatches (src/event.ts) and the MMTP
// header record an MPU event carries (src/mmt-header.ts).  Only the kinds
// the readers actually dispatch are listed.
module Events {
  import opened Decoding
  import opened TlvSi
  import opened MmtSiTables
  import opened MmtSi
  import opened Mpu

  datatype EventType = Nit | Eit | Sdt | Cdt | Tot | Bit | Plt | Mpt | MpuEvent

  /** The MMTP header fields of an MPU event; header extensions are not decoded. */
  datatype MMTHeader = MMTHeader(
    version: nat,
    fecType: nat,
    extensionFlag: bool,
    rapFlag: bool,
    payloadType: nat,
    packetId: nat,
    timestamp: nat,
    packetSequenceNumber: nat,
    packetCounter: Option<nat>)

  /** The table an MMT-SI event carries: a PA table, an M2 section, or the TOT. */
  datatype SITable = PackageTable(pa: MMTSITable) | Section(section: M2Section) | TimeOffset(tot: TimeOffsetTable)

  datatype EventPayload =
    | TLVSIEvent(tlvTable: TLVSITable)
    | MMTSIEvent(packetId: nat, table: SITable)
    | MPUPayloadEvent(mmtHeader: MMTHeader, mpu: MediaProcessingUnit)

  /** One dispatched event: its type and what its listeners receive. */
  datatype Event = Event(eventType: EventType, payload: EventPayload)
}
