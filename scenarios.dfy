/**
 * Client code driving the inbox through short event sequences; each
 * assertion is what the handlers' contracts let a caller conclude.
 */
module InboxScenarios {
  import opened Wrappers
  import opened InboxMessages
  import opened NativeBridge
  import opened InboxDataModel
  import opened Inbox
  import opened StableSort

  /** Under the default order, of two messages the later-created one comes first. */
  lemma NewerFirst(a: Message, b: Message)
    requires CreatedAtOrEpoch(a) < CreatedAtOrEpoch(b)
    ensures SortedFiltered(None, None, [a, b]) == [b, a]
    ensures MessagesOf(StampLast(ProcessedRows(None, None, [a, b]))) == [b, a]
  {
    assert [a, b][..1] == [a] && [a][..0] == [];
    assert Sort(SortByMostRecent, [a]) == [a];
    assert Insert(SortByMostRecent, b, [a]) == Insert(SortByMostRecent, b, []) + [a];
    StampLastMarksExactlyOne(ProcessedRows(None, None, [a, b]));
    ProcessedRowsFollowMessages(None, None, [a, b]);
  }

  /** Under the default order, of three messages the latest-created one comes first. */
  lemma NewestOfThreeFirst(a: Message, b: Message, c: Message)
    requires CreatedAtOrEpoch(a) < CreatedAtOrEpoch(b) < CreatedAtOrEpoch(c)
    ensures MessagesOf(StampLast(ProcessedRows(None, None, [a, b, c])))[0] == c
  {
    NewerFirst(a, b);
    assert [a, b, c][..2] == [a, b] && [b, a][..1] == [b] && [b][..0] == [];
    assert Insert(SortByMostRecent, c, [b, a]) == Insert(SortByMostRecent, c, [b]) + [a];
    assert Insert(SortByMostRecent, c, [b]) == Insert(SortByMostRecent, c, []) + [b];
    StampLastMarksExactlyOne(ProcessedRows(None, None, [a, b, c]));
    ProcessedRowsFollowMessages(None, None, [a, b, c]);
  }

  /** Two messages, no filter or comparator: the newer one comes first, and selecting it opens it. */
  method SortAndSelect() {
    var a := Message("a", Some(100), false, None);
    var b := Message("b", Some(200), false, None);
    assert [a, b][..1] == [a] && [a][..0] == [];
    NewerFirst(a, b);
    var bridge := new Bridge();
    var inbox := new IterableInbox(Ios, Active, true, true, bridge);
    inbox.Mount();
    inbox.FetchInboxMessagesSettled(Some([a, b]));
    assert MessagesOf(inbox.rowViewModels) == [b, a];
    assert inbox.rowViewModels[0].last == Some(false) && inbox.rowViewModels[1].last == Some(true);
    assert !inbox.loading;

    var threw := inbox.HandleMessageSelect("b", 0, inbox.rowViewModels);
    assert !threw;
    assert inbox.selectedRowViewModelIdx == 0 && inbox.isMessageDisplay;
    assert inbox.rowViewModels[0].read && !inbox.rowViewModels[1].read;
    assert bridge.calls == [GetInboxMessages, AddListener(InboxChangedEvent),
                            SetReadForMessage("b", true), TrackInAppOpen(b, Inbox)];
  }

  /**
   * On iOS, a direct active, background, active sequence with no inactive
   * report in between starts a second session without ending the first.
   */
  method DirectBackgroundOnIosStartsTwice() {
    var bridge := new Bridge();
    var inbox := new IterableInbox(Ios, Active, false, true, bridge);
    inbox.OnFocusChange(true);
    inbox.OnAppStateChange(Background);
    inbox.OnAppStateChange(Active);
    assert bridge.calls == [BridgeCall.StartSession([]), BridgeCall.StartSession([])];
  }

  /** The same round trip on Android ends the session in between. */
  method BackgroundOnAndroidEnds() {
    var bridge := new Bridge();
    var inbox := new IterableInbox(Android, Active, false, true, bridge);
    inbox.OnFocusChange(true);
    inbox.OnAppStateChange(Background);
    inbox.OnAppStateChange(Active);
    assert bridge.calls == [BridgeCall.StartSession([]), BridgeCall.EndSession, BridgeCall.StartSession([])];
  }

  /** After a refresh that reorders the rows, the detail pane shows whatever row now has the selected index. */
  method SelectionIsByPosition() {
    var a := Message("a", Some(100), false, None);
    var b := Message("b", Some(200), false, None);
    var c := Message("c", Some(300), false, None);
    assert [a, b][..1] == [a] && [a][..0] == [];
    NewerFirst(a, b);
    var bridge := new Bridge();
    var inbox := new IterableInbox(Ios, Active, true, true, bridge);
    inbox.FetchInboxMessagesSettled(Some([a, b]));
    var threw := inbox.HandleMessageSelect("b", 0, inbox.rowViewModels);
    assert ShowMessageDisplay(inbox.rowViewModels, inbox.selectedRowViewModelIdx).value.inAppMessage == b;

    NewestOfThreeFirst(a, b, c);
    inbox.FetchInboxMessagesSettled(Some([a, b, c]));
    assert inbox.selectedRowViewModelIdx == 0 && inbox.isMessageDisplay;
    assert ShowMessageDisplay(inbox.rowViewModels, inbox.selectedRowViewModelIdx).value.inAppMessage == c;
  }

  /**
   * `deleteRow` on its own fetches again but leaves the pane flag and the
   * selected index alone; once the refetch settles with no rows, the
   * detail pane finds no row at that index.
   */
  method DeleteRowLeavesPaneFlag() {
    var a := Message("a", Some(100), false, None);
    var bridge := new Bridge();
    var inbox := new IterableInbox(Ios, Active, true, true, bridge);
    inbox.FetchInboxMessagesSettled(Some([a]));
    var threw := inbox.HandleMessageSelect("a", 0, inbox.rowViewModels);
    inbox.DeleteRow("a");
    inbox.FetchInboxMessagesSettled(Some([]));
    assert inbox.isMessageDisplay && inbox.selectedRowViewModelIdx == 0;
    assert ShowMessageDisplay(inbox.rowViewModels, inbox.selectedRowViewModelIdx) == None;
  }
}
