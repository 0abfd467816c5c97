/**
 * The records the inbox works on: the in-app message as the native runtime
 * delivers it, and the row view-model derived from it for the message list.
 * Only the fields the inbox reads are modelled.
 */
module InboxMessages {
  import opened Wrappers

  /** Display fields of an inbox message; each may be absent. */
  datatype InboxMetadata = InboxMetadata(
    title: Option<string>,
    subtitle: Option<string>,
    icon: Option<string>)

  /**
   * An in-app message. `createdAt` is the creation instant in milliseconds
   * since the epoch, or absent.
   */
  datatype Message = Message(
    messageId: string,
    createdAt: Option<int>,
    read: bool,
    inboxMetadata: Option<InboxMetadata>)

  /**
   * A row of the message list. `last` is absent as the data model produces the
   * row, and is stamped by the inbox after every fetch.
   */
  datatype RowViewModel = RowViewModel(
    title: string,
    subtitle: Option<string>,
    imageUrl: Option<string>,
    createdAt: Option<int>,
    read: bool,
    inAppMessage: Message,
    last: Option<bool>)

  /** One visible row as reported for impression tracking; only its identity matters here. */
  datatype ImpressionRowInfo = ImpressionRowInfo(messageId: string)
}
