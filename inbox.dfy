/**
 * The inbox screen component: its state (the rows, the selected row, list or
 * detail pane, loading, the visible impressions) and the handlers that change
 * it, each taken as one atomic step. The lifecycle handlers are modelled as
 * the source writes them, one handler per signal.
 */
module Inbox {
  import opened Wrappers
  import opened InboxMessages
  import opened NativeBridge
  import opened InboxDataModel

  /** The application state React Native reports. */
  datatype AppState = Active | Background | Inactive | Unknown | Extension

  /** The operating system React Native reports. */
  datatype PlatformOS = Android | Ios | Windows | Macos | Web

  /** A session call a lifecycle handler decides to make. */
  datatype SessionCall = Start | End

  /**
   * What the app-state handler does: while focused, an active app starts a
   * session, and an inactive one, or a backgrounded one on Android, ends it.
   */
  function AppStateSessionCall(isFocused: bool, appState: AppState, os: PlatformOS): (r: Option<SessionCall>)
    ensures r == Some(Start) <==> isFocused && appState == Active
    ensures r == Some(End) <==> isFocused && (appState == Inactive || (appState == Background && os == Android))
  {
    if isFocused then
      if appState == Active then Some(Start)
      else if (appState == Background && os == Android) || appState == Inactive then Some(End)
      else None
    else None
  }

  /** What the focus handler does: only while the app is active, focus starts a session and blur ends it. */
  function FocusSessionCall(appState: AppState, isFocused: bool): (r: Option<SessionCall>)
    ensures r.Some? <==> appState == Active
    ensures r == Some(Start) <==> appState == Active && isFocused
  {
    if appState == Active then
      if isFocused then Some(Start) else Some(End)
    else None
  }

  /** The condition under which a session would be open if the handlers implemented one gate. */
  predicate SessionGate(isFocused: bool, appState: AppState) {
    isFocused && appState == Active
  }

  /**
   * The handlers agree with the gate when they act: a session is started only
   * when the gate holds and ended only when it does not. They do not close
   * every time the gate closes: on any platform but Android, backgrounding a
   * focused app makes no call, and neither do Unknown and Extension.
   */
  lemma HandlersAgainstGate(isFocused: bool, appState: AppState, os: PlatformOS)
    ensures AppStateSessionCall(isFocused, appState, os) == Some(Start) ==> SessionGate(isFocused, appState)
    ensures AppStateSessionCall(isFocused, appState, os) == Some(End) ==> !SessionGate(isFocused, appState)
    ensures FocusSessionCall(appState, isFocused) == Some(Start) ==> SessionGate(isFocused, appState)
    ensures FocusSessionCall(appState, isFocused) == Some(End) ==> !SessionGate(isFocused, appState)
    ensures isFocused && os != Android && appState in {Background, Unknown, Extension} ==>
              !SessionGate(isFocused, appState) && AppStateSessionCall(isFocused, appState, os) == None
  {
  }

  /** The bridge calls a session decision issues; the visible rows sent are always none. */
  function SessionBridgeCalls(call: Option<SessionCall>): (calls: seq<BridgeCall>)
    ensures call.None? <==> calls == []
    ensures call == Some(Start) ==> calls == [BridgeCall.StartSession([])]
    ensures call == Some(End) ==> calls == [BridgeCall.EndSession]
  {
    match call
    case None => []
    case Some(Start) => [BridgeCall.StartSession(GetCurrentVisibleRows())]
    case Some(End) => [BridgeCall.EndSession]
  }

  /** Marks the row at the final position as last and every other row as not last. */
  function StampLast(rows: seq<RowViewModel>): (r: seq<RowViewModel>)
    ensures |r| == |rows|
    ensures forall i :: 0 <= i < |r| ==> r[i] == rows[i].(last := Some(i == |rows| - 1))
  {
    seq(|rows|, i requires 0 <= i < |rows| => rows[i].(last := Some(i == |rows| - 1)))
  }

  /** How many rows are marked last. */
  function LastCount(rows: seq<RowViewModel>): nat {
    if rows == [] then 0
    else (if rows[|rows| - 1].last == Some(true) then 1 else 0) + LastCount(rows[..|rows| - 1])
  }

  lemma {:induction false} NoneMarkedLast(rows: seq<RowViewModel>)
    requires forall i :: 0 <= i < |rows| ==> rows[i].last != Some(true)
    ensures LastCount(rows) == 0
  {
    if rows != [] {
      NoneMarkedLast(rows[..|rows| - 1]);
    }
  }

  /**
   * After stamping, exactly one row is last when there are rows, namely the
   * final one, and none when there are none; the rows keep their messages
   * and order.
   */
  lemma {:induction false} StampLastMarksExactlyOne(rows: seq<RowViewModel>)
    ensures LastCount(StampLast(rows)) == if rows == [] then 0 else 1
    ensures rows != [] ==> StampLast(rows)[|rows| - 1].last == Some(true)
    ensures MessagesOf(StampLast(rows)) == MessagesOf(rows)
  {
    var r := StampLast(rows);
    if rows != [] {
      NoneMarkedLast(r[..|r| - 1]);
    }
  }

  /** Marks read every row whose message has the given id. */
  function MarkRead(rows: seq<RowViewModel>, id: string): (r: seq<RowViewModel>)
    ensures |r| == |rows|
    ensures forall i :: 0 <= i < |r| ==>
              r[i] == if rows[i].inAppMessage.messageId == id then rows[i].(read := true) else rows[i]
  {
    seq(|rows|, i requires 0 <= i < |rows| =>
      if rows[i].inAppMessage.messageId == id then rows[i].(read := true) else rows[i])
  }

  /**
   * Read-marking only sets `read`, on exactly the rows with the id, keeps
   * every row's message in place, and marking twice is marking once.
   */
  lemma MarkReadChangesOnlyRead(rows: seq<RowViewModel>, id: string)
    ensures MessagesOf(MarkRead(rows, id)) == MessagesOf(rows)
    ensures forall i :: 0 <= i < |rows| ==>
              MarkRead(rows, id)[i].read == (rows[i].read || rows[i].inAppMessage.messageId == id)
    ensures forall i :: 0 <= i < |rows| ==> MarkRead(rows, id)[i].(read := rows[i].read) == rows[i]
    ensures MarkRead(MarkRead(rows, id), id) == MarkRead(rows, id)
  {
  }

  /** The row the detail pane shows: the one at `index`, if there is one. */
  function ShowMessageDisplay(rowViewModelList: seq<RowViewModel>, index: int): (r: Option<RowViewModel>)
    ensures r.Some? <==> 0 <= index < |rowViewModelList|
    ensures r.Some? ==> r.value == rowViewModelList[index]
  {
    if 0 <= index < |rowViewModelList| then Some(rowViewModelList[index]) else None
  }

  /** The component's state, gathered to state in one place what a handler changes. */
  datatype InboxState = InboxState(
    selectedRowViewModelIdx: int,
    rowViewModels: seq<RowViewModel>,
    loading: bool,
    isMessageDisplay: bool,
    visibleMessageImpressions: seq<ImpressionRowInfo>,
    appState: AppState,
    isFocused: bool,
    returnToInboxTrigger: bool)

  class IterableInbox {
    const platformOS: PlatformOS
    const bridge: Bridge
    const inboxDataModel: IterableInboxDataModel

    var selectedRowViewModelIdx: int
    var rowViewModels: seq<RowViewModel>
    var loading: bool
    /** True while the detail pane is shown, false while the list is. */
    var isMessageDisplay: bool
    var visibleMessageImpressions: seq<ImpressionRowInfo>
    /** The last app state and focus reported to the component. */
    var appState: AppState
    var isFocused: bool
    var returnToInboxTrigger: bool

    /** The data model talks to the same bridge and, as the component never calls `set`, has no filter or comparator. */
    ghost predicate Valid()
      reads this, inboxDataModel
    {
      && inboxDataModel.bridge == bridge
      && inboxDataModel.filterFn == None
      && inboxDataModel.comparatorFn == None
    }

    function State(): InboxState
      reads this
    {
      InboxState(selectedRowViewModelIdx, rowViewModels, loading, isMessageDisplay,
                 visibleMessageImpressions, appState, isFocused, returnToInboxTrigger)
    }

    /** The initial state: first row selected, no rows, loading, list pane shown, nothing visible. */
    constructor (platformOS: PlatformOS, appState: AppState, isFocused: bool, returnToInboxTrigger: bool,
                 bridge: Bridge)
      ensures Valid() && fresh(inboxDataModel)
      ensures this.platformOS == platformOS && this.bridge == bridge
      ensures State() == InboxState(0, [], true, false, [], appState, isFocused, returnToInboxTrigger)
    {
      this.platformOS := platformOS;
      this.bridge := bridge;
      inboxDataModel := new IterableInboxDataModel(bridge);
      selectedRowViewModelIdx := 0;
      rowViewModels := [];
      loading := true;
      isMessageDisplay := false;
      visibleMessageImpressions := [];
      this.appState := appState;
      this.isFocused := isFocused;
      this.returnToInboxTrigger := returnToInboxTrigger;
    }

    /** On mount: fetch the messages, then listen for inbox changes. */
    method Mount()
      requires Valid()
      modifies bridge
      ensures bridge.calls == old(bridge.calls) + [GetInboxMessages, AddListener(InboxChangedEvent)]
    {
      FetchInboxMessages();
      AddInboxChangedListener();
    }

    /** On unmount: stop listening, then end the session. */
    method Unmount()
      requires Valid()
      modifies bridge
      ensures bridge.calls == old(bridge.calls) + [RemoveAllListeners(InboxChangedEvent), BridgeCall.EndSession]
    {
      RemoveInboxChangedListener();
      inboxDataModel.EndSession();
    }

    method AddInboxChangedListener()
      modifies bridge
      ensures bridge.calls == old(bridge.calls) + [AddListener(InboxChangedEvent)]
    {
      bridge.Issue(AddListener(InboxChangedEvent));
    }

    method RemoveInboxChangedListener()
      modifies bridge
      ensures bridge.calls == old(bridge.calls) + [RemoveAllListeners(InboxChangedEvent)]
    {
      bridge.Issue(RemoveAllListeners(InboxChangedEvent));
    }

    /** The inbox-changed listener: fetch again. */
    method OnInboxChanged()
      requires Valid()
      modifies bridge
      ensures bridge.calls == old(bridge.calls) + [GetInboxMessages]
    {
      FetchInboxMessages();
    }

    /** Starts a fetch; the rows change only when it settles. */
    method FetchInboxMessages()
      requires Valid()
      modifies bridge
      ensures bridge.calls == old(bridge.calls) + [GetInboxMessages]
    {
      inboxDataModel.Refresh();
    }

    /**
     * A fetch settles: the rows become the processed messages (none if the
     * bridge rejected the request) with the final row stamped last, and
     * loading ends. The selected index is left as it was.
     */
    method FetchInboxMessagesSettled(response: Option<seq<Message>>)
      requires Valid()
      modifies this
      ensures Valid()
      ensures State() == old(State()).(
                rowViewModels := StampLast(if response.None? then [] else ProcessedRows(None, None, response.value)),
                loading := false)
    {
      var newMessages := inboxDataModel.RefreshSettled(response);
      rowViewModels := StampLast(newMessages);
      loading := false;
    }

    /** Issues the session call a lifecycle handler chose. */
    method IssueSessionCall(call: Option<SessionCall>)
      requires Valid()
      modifies bridge
      ensures bridge.calls == old(bridge.calls) + SessionBridgeCalls(call)
    {
      match call
      case None =>
      case Some(Start) => inboxDataModel.StartSession();
      case Some(End) => inboxDataModel.EndSession();
    }

    /** The app-state handler; it runs only when the state actually changes. */
    method OnAppStateChange(newState: AppState)
      requires Valid()
      modifies this, bridge
      ensures Valid()
      ensures State() == old(State()).(appState := newState)
      ensures bridge.calls == old(bridge.calls) +
                if newState == old(appState) then []
                else SessionBridgeCalls(AppStateSessionCall(isFocused, newState, platformOS))
    {
      var changed := newState != appState;
      appState := newState;
      if changed {
        IssueSessionCall(AppStateSessionCall(isFocused, appState, platformOS));
      }
    }

    /** The focus handler; it runs only when focus actually changes. */
    method OnFocusChange(focused: bool)
      requires Valid()
      modifies this, bridge
      ensures Valid()
      ensures State() == old(State()).(isFocused := focused)
      ensures bridge.calls == old(bridge.calls) +
                if focused == old(isFocused) then []
                else SessionBridgeCalls(FocusSessionCall(appState, focused))
    {
      var changed := focused != isFocused;
      isFocused := focused;
      if changed {
        IssueSessionCall(FocusSessionCall(appState, isFocused));
      }
    }

    /** The message list reports new visible rows; the bridge is told, though always of no rows. */
    method UpdateVisibleMessageImpressions(messageImpressions: seq<ImpressionRowInfo>)
      requires Valid()
      modifies this, bridge
      ensures Valid()
      ensures State() == old(State()).(visibleMessageImpressions := messageImpressions)
      ensures bridge.calls == old(bridge.calls) + [BridgeCall.UpdateVisibleRows([])]
    {
      visibleMessageImpressions := messageImpressions;
      inboxDataModel.UpdateVisibleRows();
    }

    /** The return-to-inbox trigger was toggled: leave the detail pane if it is shown. */
    method OnReturnToInboxTriggerChange(trigger: bool)
      modifies this
      ensures State() == old(State()).(
                returnToInboxTrigger := trigger,
                isMessageDisplay := old(isMessageDisplay) && trigger == old(returnToInboxTrigger))
    {
      var changed := trigger != returnToInboxTrigger;
      returnToInboxTrigger := trigger;
      if changed && isMessageDisplay {
        ReturnToInbox();
      }
    }

    /**
     * A row was selected from the list `rows` the list was showing. The rows
     * with the id are marked read, the bridge is told, the index is
     * selected, the open is tracked and the detail pane is shown. When
     * `index` is outside `rows` the source throws at the tracking step, after
     * the earlier updates: `threw` reports it, and then nothing is tracked and
     * the pane is left as it was.
     */
    method HandleMessageSelect(id: string, index: int, rows: seq<RowViewModel>) returns (threw: bool)
      requires Valid()
      modifies this, bridge
      ensures Valid()
      ensures threw <==> !(0 <= index < |rows|)
      ensures State() == old(State()).(
                rowViewModels := MarkRead(rows, id),
                selectedRowViewModelIdx := index,
                isMessageDisplay := if threw then old(isMessageDisplay) else true)
      ensures bridge.calls == old(bridge.calls) + [SetReadForMessage(id, true)] +
                if threw then [] else [TrackInAppOpen(rows[index].inAppMessage, Inbox)]
    {
      rowViewModels := MarkRead(rows, id);
      inboxDataModel.SetMessageAsRead(id);
      selectedRowViewModelIdx := index;
      if !(0 <= index < |rows|) {
        return true;
      }
      bridge.Issue(TrackInAppOpen(rows[index].inAppMessage, Inbox));
      SlideLeft();
      threw := false;
    }

    /** A row was swiped away: delete it on the bridge and fetch again; the pane and selection stay. */
    method DeleteRow(messageId: string)
      requires Valid()
      modifies bridge
      ensures bridge.calls == old(bridge.calls) + [RemoveMessage(messageId, Inbox, InboxSwipe), GetInboxMessages]
    {
      inboxDataModel.DeleteItemById(messageId, InboxSwipe);
      FetchInboxMessages();
    }

    /** Back to the list pane. */
    method ReturnToInbox()
      modifies this
      ensures State() == old(State()).(isMessageDisplay := false)
    {
      isMessageDisplay := false;
    }

    /** On to the detail pane. */
    method SlideLeft()
      modifies this
      ensures State() == old(State()).(isMessageDisplay := true)
    {
      isMessageDisplay := true;
    }
  }
}
