/**
 * The native messaging runtime, seen only through the calls the inbox makes
 * on it. Every call is fire-and-forget, so the bridge is modelled as the log
 * of the calls issued, in order.
 */
module NativeBridge {
  import opened InboxMessages

  /** Where a message is shown; the inbox only ever passes the inbox location. */
  datatype InAppLocation = Inbox

  /** Why a message is removed; the inbox only ever deletes by swipe. */
  datatype InAppDeleteSource = InboxSwipe

  datatype BridgeCall =
    | GetInboxMessages
    | SetReadForMessage(messageId: string, read: bool)
    | RemoveMessage(messageId: string, location: InAppLocation, source: InAppDeleteSource)
    | StartSession(visibleRows: seq<ImpressionRowInfo>)
    | EndSession
    | UpdateVisibleRows(visibleRows: seq<ImpressionRowInfo>)
    | TrackInAppOpen(message: Message, location: InAppLocation)
    | AddListener(eventName: string)
    | RemoveAllListeners(eventName: string)

  /** The event the native side emits when the stored inbox changes. */
  const InboxChangedEvent: string := "receivedIterableInboxChanged"

  class Bridge {
    /** Every call issued so far, oldest first. */
    var calls: seq<BridgeCall>

    constructor ()
      ensures calls == []
    {
      calls := [];
    }

    method Issue(call: BridgeCall)
      modifies this
      ensures calls == old(calls) + [call]
    {
      calls := calls + [call];
    }
  }
}
