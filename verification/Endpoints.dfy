/** Identities, locators and proxies of the endpoints of a participant. */
module Endpoints {
  import opened RtpsTypes

  type GuidPrefix = p: seq<byte> | |p| == 12 witness [0, 0, 0, 0, 0, 0, 0, 0, 0, 0, 0, 0]
  type EntityKey = k: seq<byte> | |k| == 3 witness [0, 0, 0]

  datatype EntityId = EntityId(entityKey: EntityKey, entityKind: byte)

  datatype Guid = Guid(prefix: GuidPrefix, entityId: EntityId)

  const GUIDPREFIX_UNKNOWN: GuidPrefix := [0, 0, 0, 0, 0, 0, 0, 0, 0, 0, 0, 0]

  const ENTITYID_UNKNOWN := EntityId([0, 0, 0], 0)

  datatype LocatorKind = INVALID_LOCATOR | RESERVED | UDPv4 | UDPv6

  datatype Locator = Locator(kind: LocatorKind, address: uint32, port: uint16)

  /** What a writer knows of a matched reader. */
  datatype ReaderProxy = ReaderProxy(
    remoteReaderGuid: Guid,
    remoteLocator: Locator,
    remoteMulticastLocator: Locator,
    useMulticast: bool,
    suppressUnicast: bool,
    unknownEid: bool,
    ackNackCount: int,
    finalFlag: bool,
    lastAckNackSequenceNumber: SN)

  /** What a reader knows of a matched writer. */
  datatype WriterProxy = WriterProxy(
    remoteWriterGuid: Guid,
    remoteLocator: Locator,
    expectedSN: SN,
    ackNackCount: int,
    hbCount: int)
}
