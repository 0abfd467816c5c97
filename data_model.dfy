/**
 * The inbox data model: turns the raw message list delivered by the native
 * runtime into row view-models (copy, optional filter, sort by the installed
 * comparator or most recent first, project each message to a row), and
 * forwards read, delete and session calls to the native bridge.
 */
module InboxDataModel {
  import opened Wrappers
  import opened InboxMessages
  import opened NativeBridge
  import opened StableSort

  /** The creation instant used for ordering: a missing one counts as the epoch. */
  function CreatedAtOrEpoch(m: Message): int {
    m.createdAt.GetOr(0)
  }

  /** The default comparator: the more recent message comes first. */
  function SortByMostRecent(message1: Message, message2: Message): (r: int)
    ensures r == 1 <==> CreatedAtOrEpoch(message1) < CreatedAtOrEpoch(message2)
    ensures r == -1 <==> CreatedAtOrEpoch(message1) > CreatedAtOrEpoch(message2)
    ensures r == 0 <==> CreatedAtOrEpoch(message1) == CreatedAtOrEpoch(message2)
  {
    var createdAt1, createdAt2 := CreatedAtOrEpoch(message1), CreatedAtOrEpoch(message2);
    if createdAt1 < createdAt2 then 1
    else if createdAt1 > createdAt2 then -1
    else 0
  }

  /** Swapping the two messages negates the default comparator's answer. */
  lemma SortByMostRecentAntisymmetric(message1: Message, message2: Message)
    ensures SortByMostRecent(message1, message2) == -SortByMostRecent(message2, message1)
  {
  }

  /** The default comparator is consistent, so the sort it drives is well defined. */
  lemma SortByMostRecentConsistent()
    ensures ConsistentComparator(SortByMostRecent)
  {
  }

  /** The comparator the pipeline sorts with: the installed one, else the default. */
  function OrderOf(comparator: Option<(Message, Message) -> int>): (Message, Message) -> int {
    match comparator
    case Some(c) => c
    case None => SortByMostRecent
  }

  /** The messages the pipeline keeps: those the installed filter accepts, else all. */
  function Kept(filter: Option<Message -> bool>, messages: seq<Message>): seq<Message> {
    match filter
    case Some(f) => Filter(f, messages)
    case None => messages
  }

  /** What sortAndFilter returns for the given configuration and input. */
  function SortedFiltered(filter: Option<Message -> bool>, comparator: Option<(Message, Message) -> int>,
                          messages: seq<Message>): seq<Message>
  {
    Sort(OrderOf(comparator), Kept(filter, messages))
  }

  /** The row for one message: metadata title or "", the other fields copied, the message itself attached. */
  function GetInboxRowViewModelForMessage(message: Message): (r: RowViewModel)
    ensures r.title == if message.inboxMetadata.Some? then message.inboxMetadata.value.title.GetOr("") else ""
    ensures r.subtitle == if message.inboxMetadata.Some? then message.inboxMetadata.value.subtitle else None
    ensures r.imageUrl == if message.inboxMetadata.Some? then message.inboxMetadata.value.icon else None
    ensures r.createdAt == message.createdAt && r.read == message.read
    ensures r.inAppMessage == message && r.last == None
  {
    match message.inboxMetadata
    case Some(metadata) =>
      RowViewModel(metadata.title.GetOr(""), metadata.subtitle, metadata.icon,
                   message.createdAt, message.read, message, None)
    case None =>
      RowViewModel("", None, None, message.createdAt, message.read, message, None)
  }

  /** `messages.map(GetInboxRowViewModelForMessage)`. */
  function RowViewModelsFor(messages: seq<Message>): (rows: seq<RowViewModel>)
    ensures |rows| == |messages|
    ensures forall i :: 0 <= i < |rows| ==> rows[i] == GetInboxRowViewModelForMessage(messages[i])
  {
    seq(|messages|, i requires 0 <= i < |messages| => GetInboxRowViewModelForMessage(messages[i]))
  }

  /** The messages behind a list of rows, in row order. */
  function MessagesOf(rows: seq<RowViewModel>): (messages: seq<Message>)
    ensures |messages| == |rows|
    ensures forall i :: 0 <= i < |rows| ==> messages[i] == rows[i].inAppMessage
  {
    seq(|rows|, i requires 0 <= i < |rows| => rows[i].inAppMessage)
  }

  /** Projection loses no message: every row carries its message, in the same order. */
  lemma RowViewModelsRoundTrip(messages: seq<Message>)
    ensures MessagesOf(RowViewModelsFor(messages)) == messages
  {
  }

  /** What processMessages returns for the given configuration and input. */
  function ProcessedRows(filter: Option<Message -> bool>, comparator: Option<(Message, Message) -> int>,
                         messages: seq<Message>): seq<RowViewModel>
  {
    RowViewModelsFor(SortedFiltered(filter, comparator, messages))
  }

  /**
   * With a filter, the pipeline keeps exactly the messages the filter accepts,
   * each as often as it occurs in the input, whatever the comparator.
   */
  lemma {:induction false} FilteredKeepsExactlyAccepted(f: Message -> bool,
                                                        comparator: Option<(Message, Message) -> int>,
                                                        messages: seq<Message>, m: Message)
    ensures forall i :: 0 <= i < |SortedFiltered(Some(f), comparator, messages)| ==>
              f(SortedFiltered(Some(f), comparator, messages)[i])
    ensures multiset(SortedFiltered(Some(f), comparator, messages))[m] ==
              if f(m) then multiset(messages)[m] else 0
  {
    var kept := Filter(f, messages);
    var out := SortedFiltered(Some(f), comparator, messages);
    SortIsPermutation(OrderOf(comparator), kept);
    FilterMultiplicity(f, messages, m);
    forall i | 0 <= i < |out| ensures f(out[i]) {
      assert out[i] in multiset(kept);
    }
  }

  /** Without a filter, the pipeline output is a permutation of its input. */
  lemma {:induction false} UnfilteredIsPermutation(comparator: Option<(Message, Message) -> int>,
                                                   messages: seq<Message>)
    ensures multiset(SortedFiltered(None, comparator, messages)) == multiset(messages)
  {
    SortIsPermutation(OrderOf(comparator), messages);
  }

  /** Without a comparator, the output is ordered most recent first, a missing instant counting as the epoch. */
  lemma {:induction false} DefaultOrderIsMostRecentFirst(filter: Option<Message -> bool>, messages: seq<Message>)
    ensures forall i, j :: 0 <= i < j < |SortedFiltered(filter, None, messages)| ==>
              CreatedAtOrEpoch(SortedFiltered(filter, None, messages)[i]) >=
              CreatedAtOrEpoch(SortedFiltered(filter, None, messages)[j])
  {
    SortByMostRecentConsistent();
    SortIsSorted(SortByMostRecent, Kept(filter, messages));
  }

  /** The kept messages created at instant `t` (a missing instant counting as the epoch), in their order. */
  function CreatedAt(t: int, messages: seq<Message>): seq<Message> {
    Filter(m => CreatedAtOrEpoch(m) == t, messages)
  }

  /**
   * Without a comparator, messages with equal creation instants keep their
   * input order (the sort is stable).
   */
  lemma {:induction false} DefaultOrderKeepsTies(filter: Option<Message -> bool>, messages: seq<Message>, t: int)
    ensures CreatedAt(t, SortedFiltered(filter, None, messages)) == CreatedAt(t, Kept(filter, messages))
  {
    var kept := Kept(filter, messages);
    var sample := Message("", Some(t), false, None);
    SortByMostRecentConsistent();
    SortEquivalents(SortByMostRecent, kept, sample);
    TiesAreEquivalents(sample, t, kept);
    TiesAreEquivalents(sample, t, Sort(SortByMostRecent, kept));
  }

  /** Under the default comparator, the messages equivalent to one created at `t` are those created at `t`. */
  lemma {:induction false} TiesAreEquivalents(sample: Message, t: int, messages: seq<Message>)
    requires CreatedAtOrEpoch(sample) == t
    ensures Equivalents(SortByMostRecent, sample, messages) == CreatedAt(t, messages)
  {
    if messages != [] {
      var head := if CreatedAtOrEpoch(messages[0]) == t then [messages[0]] else [];
      TiesAreEquivalents(sample, t, messages[1..]);
      EquivalentsCons(SortByMostRecent, sample, messages);
      assert SortByMostRecent(sample, messages[0]) == 0 <==> CreatedAtOrEpoch(messages[0]) == t;
      assert CreatedAt(t, messages) == head + CreatedAt(t, messages[1..]);
    }
  }

  /**
   * With a consistent comparator installed, the output is ordered by that
   * comparator alone and keeps input order among messages it calls equal;
   * by StableSortIsSort, no other order satisfies both.
   */
  lemma {:induction false} CustomOrderIsStableSort(filter: Option<Message -> bool>, c: (Message, Message) -> int,
                                                    messages: seq<Message>)
    requires ConsistentComparator(c)
    ensures Sorted(c, SortedFiltered(filter, Some(c), messages))
    ensures Stable(c, Kept(filter, messages), SortedFiltered(filter, Some(c), messages))
  {
    SortIsSorted(c, Kept(filter, messages));
    SortIsStable(c, Kept(filter, messages));
  }

  /** Each row of the pipeline is the projection of the sorted and filtered message at the same position. */
  lemma ProcessedRowsFollowMessages(filter: Option<Message -> bool>, comparator: Option<(Message, Message) -> int>,
                                    messages: seq<Message>)
    ensures |ProcessedRows(filter, comparator, messages)| == |SortedFiltered(filter, comparator, messages)|
    ensures MessagesOf(ProcessedRows(filter, comparator, messages)) == SortedFiltered(filter, comparator, messages)
  {
    RowViewModelsRoundTrip(SortedFiltered(filter, comparator, messages));
  }

  /** The visible rows reported to the bridge: always none, whatever is on screen. */
  function GetCurrentVisibleRows(): (rows: seq<ImpressionRowInfo>)
    ensures |rows| == 0
  {
    []
  }

  class IterableInboxDataModel {
    var filterFn: Option<Message -> bool>
    var comparatorFn: Option<(Message, Message) -> int>
    const bridge: Bridge

    constructor (bridge: Bridge)
      ensures this.bridge == bridge
      ensures filterFn == None && comparatorFn == None
    {
      this.bridge := bridge;
      filterFn := None;
      comparatorFn := None;
    }

    /** Installs both filter and comparator; an omitted one is cleared. */
    method Set(filter: Option<Message -> bool>, comparator: Option<(Message, Message) -> int>)
      modifies this
      ensures filterFn == filter && comparatorFn == comparator
    {
      filterFn := filter;
      comparatorFn := comparator;
    }

    method SetMessageAsRead(id: string)
      modifies bridge
      ensures bridge.calls == old(bridge.calls) + [SetReadForMessage(id, true)]
    {
      bridge.Issue(SetReadForMessage(id, true));
    }

    method DeleteItemById(id: string, deleteSource: InAppDeleteSource)
      modifies bridge
      ensures bridge.calls == old(bridge.calls) + [RemoveMessage(id, Inbox, deleteSource)]
    {
      bridge.Issue(RemoveMessage(id, Inbox, deleteSource));
    }

    /** The request half of refresh: asks the bridge for the stored messages. */
    method Refresh()
      modifies bridge
      ensures bridge.calls == old(bridge.calls) + [GetInboxMessages]
    {
      bridge.Issue(GetInboxMessages);
    }

    /**
     * The settling half of refresh: `response` is the bridge's answer, None
     * when the request was rejected, which yields no rows.
     */
    method RefreshSettled(response: Option<seq<Message>>) returns (rows: seq<RowViewModel>)
      ensures response.None? ==> rows == []
      ensures response.Some? ==> rows == ProcessedRows(filterFn, comparatorFn, response.value)
    {
      match response
      case None =>
        rows := [];
      case Some(messages) =>
        var delivered := new Message[|messages|](i requires 0 <= i < |messages| => messages[i]);
        assert delivered[..] == messages;
        rows := ProcessMessages(delivered);
    }

    method StartSession()
      modifies bridge
      ensures bridge.calls == old(bridge.calls) + [BridgeCall.StartSession(GetCurrentVisibleRows())]
    {
      bridge.Issue(BridgeCall.StartSession(GetCurrentVisibleRows()));
    }

    method EndSession()
      modifies bridge
      ensures bridge.calls == old(bridge.calls) + [BridgeCall.EndSession]
    {
      bridge.Issue(BridgeCall.EndSession);
    }

    method UpdateVisibleRows()
      modifies bridge
      ensures bridge.calls == old(bridge.calls) + [BridgeCall.UpdateVisibleRows(GetCurrentVisibleRows())]
    {
      bridge.Issue(BridgeCall.UpdateVisibleRows(GetCurrentVisibleRows()));
    }

    /** Sorts and filters the messages, then projects each to its row. */
    method ProcessMessages(messages: array<Message>) returns (rows: seq<RowViewModel>)
      ensures rows == ProcessedRows(filterFn, comparatorFn, messages[..])
    {
      var sorted := SortAndFilter(messages);
      rows := RowViewModelsFor(sorted[..]);
    }

    /**
     * Works on a copy of `messages`, which it never changes (it has no
     * modifies clause): filters the copy if a filter is installed, then sorts
     * it in place with the installed comparator or the default one.
     */
    method SortAndFilter(messages: array<Message>) returns (sortedFilteredMessages: array<Message>)
      ensures fresh(sortedFilteredMessages)
      ensures sortedFilteredMessages[..] == SortedFiltered(filterFn, comparatorFn, messages[..])
    {
      sortedFilteredMessages := new Message[messages.Length](i reads messages requires 0 <= i < messages.Length => messages[i]);
      assert sortedFilteredMessages[..] == messages[..];
      if filterFn.Some? {
        var kept := Filter(filterFn.value, sortedFilteredMessages[..]);
        sortedFilteredMessages := new Message[|kept|](i requires 0 <= i < |kept| => kept[i]);
        assert sortedFilteredMessages[..] == kept;
      }
      if comparatorFn.Some? {
        SortInPlace(sortedFilteredMessages, comparatorFn.value);
      } else {
        SortInPlace(sortedFilteredMessages, SortByMostRecent);
      }
    }
  }
}
