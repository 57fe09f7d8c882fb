// The decoded transport stream packet (src/ts/packet.ts) and the events the
// transport stream reader dispatches (src/ts/event.ts).
module TsEvents {
  import opened Js
  import opened Decoding
  import opened EventTarget
  import opened TsSi

  /** The header fields of one 188-byte transport stream packet and the payload after them. */
  datatype TSPacket = TSPacket(
    transportErrorIndicator: bool,
    payloadUnitStartIndicator: bool,
    transportPriority: bool,
    pid: nat,
    transportScramblingControl: nat,
    adaptationFieldControl: nat,
    continuityCounter: nat,
    payload: bytes)

  datatype TSEventType = Nit | Eit | Sdt | Cdt | Tot | Bit | Pat | Pmt | Dsmcc | Packet

  datatype TSEventPayload =
    | SIEvent(pid: nat, section: Section)
    | PacketEvent(offset: int, packet: TSPacket)

  /** One dispatched event: its type and what its listeners receive. */
  datatype TSEvent = TSEvent(eventType: TSEventType, payload: TSEventPayload)

  type TSTarget = CustomEventTarget<TSEventType, TSEventPayload>

  type TSInvocation = Invocation<TSEventType, TSEventPayload>

  /**
   * The listener calls one `eventTarget?.dispatchEvent(...)` makes: none when
   * there is no event or the target has been deleted from the dispatcher.
   */
  function Dispatched(events: map<TSEventType, seq<Listener>>, attached: bool, e: Option<TSEvent>): (r: seq<TSInvocation>)
    ensures !attached || e.None? ==> r == []
    ensures attached && e.Some? ==>
              r == Calls(ListenersOf(events, e.value.eventType), e.value.eventType, e.value.payload)
  {
    if !attached || e.None? then [] else Calls(ListenersOf(events, e.value.eventType), e.value.eventType, e.value.payload)
  }
}
