# Iterable inbox: data-model pipeline and inbox view state

This project models the message inbox of the Iterable React Native SDK in Dafny and proves properties of the model. It covers two parts.

- **The inbox data model** (`IterableInboxDataModel`). It copies the raw message list that the native runtime delivers. Then it applies the optional filter and sorts stably, either with the installed comparator or most recent first; a missing `createdAt` counts as the epoch. Finally it projects each message to a row view-model. It also forwards read, delete and session calls to the native bridge.
- **The inbox component** (`IterableInbox`). It holds the rows, the selected row index, whether the detail pane or the list is shown, the loading flag and the visible impressions. Its handlers cover fetch completion, row selection, deletion, return to the list, and the app-state, focus and mount lifecycle signals.

Modules:

- `Wrappers` (wrappers.dfy): `Option`. It stands in for the source's `undefined`; `GetOr` plays the part of `??`.
- `InboxMessages` (messages.dfy): the message, metadata, row and impression records.
- `NativeBridge` (bridge.dfy): the calls the inbox makes to the native module `RNIterableAPI`, to the event emitter and to `Iterable.trackInAppOpen`. They are recorded in order in the `calls` log of a `Bridge` object.
- `StableSort` (stable_sort.dfy): `Array.prototype.filter` and `Array.prototype.sort`. The sort is an in-place insertion sort on an array. It is proved sorted, a permutation and stable. For a consistent comparator it is also proved to be the only sorted and stable result, so it can stand for any conforming implementation (section 23.1.3.30 of ECMA-262, 2023 edition, requires stability).
- `InboxDataModel` (data_model.dfy): the pipeline as specification functions, the lemmas about them, and the class `IterableInboxDataModel`. Its methods are proved against those functions.
- `Inbox` (inbox.dfy): the pure decisions of the lifecycle handlers, the row transforms (`last` stamping, read-marking), and the class `IterableInbox`.
- `InboxScenarios` (scenarios.dfy): client methods that drive the component through short event sequences and assert the outcome:
  - the two-message sort-and-select walkthrough;
  - on iOS, a direct active, background, active sequence with no inactive report in between starting a second session without ending the first;
  - the selected index pointing at a different message after a refresh;
  - `deleteRow` on its own leaving the pane flag as it was, so the detail pane then finds no row at the selected index.

Modelling choices:

- The filter is a parameter of type `Message -> bool` and the comparator one of type `(Message, Message) -> int`. Sorting works for any comparator. The order lemmas require `ConsistentComparator`: the sign flips when the arguments are swapped, and "not after" is transitive. Together these make the comparator a total preorder.
- `createdAt` is an optional integer number of milliseconds.
- The asynchronous `refresh` is split at its `await`:
  - `Refresh` issues `getInboxMessages`;
  - `RefreshSettled` takes the bridge's answer as an `Option<seq<Message>>`, where `None` means the request was rejected.
  - In the component, `FetchInboxMessages` and `FetchInboxMessagesSettled` follow the same split.
- Each React handler or effect is one atomic method.
  - The effects keyed on `appState`, `isFocused` and `returnToInboxTrigger` run only when the new value differs from the old one.
  - The visible-impressions effect runs on every update (an assumption; see "## Left out").
- The handlers are modelled as written. There is one handler per signal, and there is no single "focused and active and mounted" gate.
  - The app-state handler acts only while focused. It ends the session when the app becomes inactive, or background on Android only, because the condition parses as `(background && android) || inactive`.
  - The focus handler acts only while the app is active.
  - Nothing in these handlers guarantees exactly-once opening. `HandlersAgainstGate` and the scenario `DirectBackgroundOnIosStartsTwice` show this for a direct active, background, active sequence. On iOS the platform usually reports inactive on the way to the background, and the inactive branch ends the session there.
- `startSession` and `updateVisibleRows` always send the empty list that `getCurrentVisibleRows` returns. The component's argument to `startSession` and `endSession` is ignored.
- In the source, `IterableInbox.tsx` never calls `set`, so the component's data model always has no filter and the default comparator. `IterableInbox.Valid` records this.
- `handleMessageSelect` works on the row list it is passed, as in the source. For an index outside that list, the source throws at `rows[index].inAppMessage` (line 206), after the earlier state updates and the read call. The model reports this as `threw`.
- A refresh does not remap the selected index; the detail pane shows whichever row is at that index afterwards.
- `deleteRow` by itself changes no component state: it issues the delete and a refetch and leaves the pane flag alone.
- Visible impressions are forwarded to the bridge whichever pane is shown (ts/IterableInbox.tsx:157-160); opening the detail pane does not stop them.
- The comment at ts/IterableInbox.tsx:134 says the session ends when the app is in the background; line 139 does so only on Android. The model follows the code.

## Model

| member | source | states |
|---|---|---|
| `InboxDataModel.SortByMostRecent` | ts/IterableInboxDataModel.ts:84-92 | 1 when the first message is older, -1 when it is newer, 0 on equal instants; a missing `createdAt` counts as 0 |
| `InboxDataModel.SortByMostRecentAntisymmetric` | ts/IterableInboxDataModel.ts:88-91 | swapping the arguments negates the result |
| `InboxDataModel.SortByMostRecentConsistent` | ts/IterableInboxDataModel.ts:84-92 | the default comparator is a consistent comparator (total preorder) |
| `InboxDataModel.GetInboxRowViewModelForMessage` | ts/IterableInboxDataModel.ts:114-123 | title is the metadata title or ""; subtitle, image, createdAt and read are copied; the row carries the message; `last` is absent |
| `InboxDataModel.RowViewModelsFor` | ts/IterableInboxDataModel.ts:95 | one row per message, the projection of the message at the same position |
| `InboxDataModel.RowViewModelsRoundTrip` | ts/IterableInboxDataModel.ts:121 | the messages behind the projected rows are the input messages, in order |
| `InboxDataModel.FilteredKeepsExactlyAccepted` | ts/IterableInboxDataModel.ts:101-103 | with a filter, every output message satisfies it, and each message occurs as often as in the input if it satisfies the filter, else never |
| `InboxDataModel.UnfilteredIsPermutation` | ts/IterableInboxDataModel.ts:98-111 | without a filter the output is a permutation of the input |
| `InboxDataModel.DefaultOrderIsMostRecentFirst` | ts/IterableInboxDataModel.ts:107-108 | without a comparator the output is ordered by non-increasing `createdAt`, missing counting as the epoch |
| `InboxDataModel.DefaultOrderKeepsTies` | ts/IterableInboxDataModel.ts:108 | without a comparator, messages with the same instant keep their input order |
| `InboxDataModel.CustomOrderIsStableSort` | ts/IterableInboxDataModel.ts:105-106 | with a consistent comparator installed, the output is sorted by it alone and stable with respect to it |
| `InboxDataModel.ProcessedRowsFollowMessages` | ts/IterableInboxDataModel.ts:94-96 | exactly one row per sorted and filtered message, in the same order |
| `InboxDataModel.GetCurrentVisibleRows` | ts/IterableInboxDataModel.ts:79-82 | always the empty list |
| `InboxDataModel.IterableInboxDataModel.constructor` | ts/IterableInboxDataModel.ts:16-22 | a new data model has no filter and no comparator |
| `InboxDataModel.IterableInboxDataModel.Set` | ts/IterableInboxDataModel.ts:24-28 | replaces both filter and comparator; an omitted one is cleared |
| `InboxDataModel.IterableInboxDataModel.SetMessageAsRead` | ts/IterableInboxDataModel.ts:40-44 | issues exactly `setReadForMessage(id, true)` |
| `InboxDataModel.IterableInboxDataModel.DeleteItemById` | ts/IterableInboxDataModel.ts:46-50 | issues exactly `removeMessage(id, inbox, source)` |
| `InboxDataModel.IterableInboxDataModel.Refresh` | ts/IterableInboxDataModel.ts:52-53 | issues exactly `getInboxMessages` |
| `InboxDataModel.IterableInboxDataModel.RefreshSettled` | ts/IterableInboxDataModel.ts:52-60 | a rejected request yields no rows; a delivered list yields the processed rows of that list |
| `InboxDataModel.IterableInboxDataModel.StartSession` | ts/IterableInboxDataModel.ts:65-67 | issues exactly `startSession([])` |
| `InboxDataModel.IterableInboxDataModel.EndSession` | ts/IterableInboxDataModel.ts:69-71 | issues exactly `endSession` |
| `InboxDataModel.IterableInboxDataModel.UpdateVisibleRows` | ts/IterableInboxDataModel.ts:73-75 | issues exactly `updateVisibleRows([])` |
| `InboxDataModel.IterableInboxDataModel.ProcessMessages` | ts/IterableInboxDataModel.ts:94-96 | returns the projection of the sorted and filtered messages |
| `InboxDataModel.IterableInboxDataModel.SortAndFilter` | ts/IterableInboxDataModel.ts:98-112 | returns a fresh array holding the filtered input sorted by the installed or default comparator; the input array is not modified (no modifies clause) |
| `StableSort.Filter` | ts/IterableInboxDataModel.ts:102 | every kept element satisfies the predicate and comes from the input; never longer than the input |
| `StableSort.FilterMultiplicity` | ts/IterableInboxDataModel.ts:102 | an element satisfying the predicate is kept as often as it occurs; others never |
| `StableSort.SortIsPermutation` | ts/IterableInboxDataModel.ts:106-108 | sorting only reorders: same multiset |
| `StableSort.SortIsSorted` | ts/IterableInboxDataModel.ts:106-108 | with a consistent comparator the output is sorted by it |
| `StableSort.SortIsStable` | ts/IterableInboxDataModel.ts:106-108 | every class of equivalent elements keeps its input order |
| `StableSort.StableSortIsUnique` | ts/IterableInboxDataModel.ts:106-108 | two sorted sequences with the same equivalence classes in the same order are equal |
| `StableSort.StableSortIsSort` | ts/IterableInboxDataModel.ts:106-108 | any sorted and stable result of sorting the input is the model's sort of it |
| `StableSort.SortInPlace` | ts/IterableInboxDataModel.ts:106-108 | sorts the array in place; its new contents are the sort of its old contents |
| `Inbox.AppStateSessionCall` | ts/IterableInbox.tsx:135-143 | while focused: active starts a session; inactive, or background on Android, ends it; nothing otherwise or while unfocused |
| `Inbox.FocusSessionCall` | ts/IterableInbox.tsx:147-155 | while active: focus starts, blur ends; nothing when not active |
| `Inbox.HandlersAgainstGate` | ts/IterableInbox.tsx:133-155 | a start only when focused and active, an end only when not; a focused app backgrounded off Android (or unknown, extension) makes no call |
| `Inbox.SessionBridgeCalls` | ts/IterableInbox.tsx:138-152 | a start sends `startSession([])`, an end `endSession`, no decision nothing |
| `Inbox.StampLast` | ts/IterableInbox.tsx:185-187 | row i gets `last == (i == n - 1)`, otherwise unchanged |
| `Inbox.StampLastMarksExactlyOne` | ts/IterableInbox.tsx:185-189 | exactly one row is last (the final one) when there are rows, none otherwise; rows keep their messages and order |
| `Inbox.MarkRead` | ts/IterableInbox.tsx:198-201 | rows with the id get `read = true`, the others are unchanged, length and order kept |
| `Inbox.MarkReadChangesOnlyRead` | ts/IterableInbox.tsx:198-202 | only `read` changes, exactly on the rows with the id; messages keep their positions; idempotent |
| `Inbox.ShowMessageDisplay` | ts/IterableInbox.tsx:229-242 | a detail row exists exactly when the index is within the current rows, and it is the row at that index |
| `Inbox.IterableInbox.constructor` | ts/IterableInbox.tsx:64-70 | index 0, no rows, loading, list pane, no visible impressions |
| `Inbox.IterableInbox.Mount` | ts/IterableInbox.tsx:122-124 | fetches the messages and adds the inbox-changed listener, in that order |
| `Inbox.IterableInbox.Unmount` | ts/IterableInbox.tsx:127-130 | removes the listener, then ends the session |
| `Inbox.IterableInbox.AddInboxChangedListener` | ts/IterableInbox.tsx:169-176 | subscribes to `receivedIterableInboxChanged` |
| `Inbox.IterableInbox.RemoveInboxChangedListener` | ts/IterableInbox.tsx:178-180 | removes all listeners of `receivedIterableInboxChanged` |
| `Inbox.IterableInbox.OnInboxChanged` | ts/IterableInbox.tsx:172-174 | an inbox-changed event fetches again |
| `Inbox.IterableInbox.FetchInboxMessages` | ts/IterableInbox.tsx:182-183 | requests the messages, changing no state |
| `Inbox.IterableInbox.FetchInboxMessagesSettled` | ts/IterableInbox.tsx:182-191 | rows become the stamped processed rows (none on rejection), loading ends, nothing else changes (the selected index is not remapped) |
| `Inbox.IterableInbox.IssueSessionCall` | ts/IterableInbox.tsx:136-154 | issues the chosen session call through the data model |
| `Inbox.IterableInbox.OnAppStateChange` | ts/IterableInbox.tsx:135-143 | records the new app state; on a change issues the app-state handler's decision |
| `Inbox.IterableInbox.OnFocusChange` | ts/IterableInbox.tsx:147-155 | records the new focus; on a change issues the focus handler's decision |
| `Inbox.IterableInbox.UpdateVisibleMessageImpressions` | ts/IterableInbox.tsx:157-160 | stores the visible impressions (lines 225-227) and issues `updateVisibleRows([])` |
| `Inbox.IterableInbox.OnReturnToInboxTriggerChange` | ts/IterableInbox.tsx:163-167 | a toggle of the trigger returns to the list only while the detail pane is shown |
| `Inbox.IterableInbox.HandleMessageSelect` | ts/IterableInbox.tsx:197-209 | rows become the read-marked list, the index is selected, `setReadForMessage(id)` then `trackInAppOpen(rows[index])` are issued and the detail pane is shown; an index outside the list throws before the tracking |
| `Inbox.IterableInbox.DeleteRow` | ts/IterableInbox.tsx:211-214 | issues a delete with source `inboxSwipe`, then refetches; no state changes |
| `Inbox.IterableInbox.ReturnToInbox` | ts/IterableInbox.tsx:216-223 | shows the list pane; nothing else changes |
| `Inbox.IterableInbox.SlideLeft` | ts/IterableInbox.tsx:284-291 | shows the detail pane; nothing else changes |
| `InboxScenarios.NewerFirst` | ts/IterableInboxDataModel.ts:84-111 | of two messages, the later-created one is the first row |
| `InboxScenarios.NewestOfThreeFirst` | ts/IterableInboxDataModel.ts:84-111 | of three messages, the latest-created one is the first row |

## Left out

- `getHtmlContentForMessageId` and `getHtmlContentForRow`: they fetch the message content asynchronously through the native module, which is foreign I/O.
- The native module and the event emitter have no effects here. Each call appears only as an entry in `Bridge.calls`. The internals of `trackInAppOpen` are not modelled either.
- `Animated.timing`, `interpolate` and the completion callback of `returnToInbox` are animation timing. Only the `isMessageDisplay` toggle is kept.
- Styles, device orientation, headline sizing, `showMessageList`, `renderEmptyState` and all JSX are rendering, as is `ts/IterableInboxEmptyState.tsx`. `ShowMessageDisplay` keeps only the index guard.
- React effect scheduling is left out: effects firing on the first render, batching and asynchronous `setState` ordering. Each handler is one atomic step.
- Two refreshes in flight may settle in either order, and a response may settle after unmount. Each settlement is modelled as its own step, so no interleaving is modelled.
- `console.log` output.
- The component builds a new `IterableInboxDataModel` on every render. Nothing in the files modelled configures it (the component never calls `set`, and the message list it is passed to at ts/IterableInbox.tsx:255 is not modelled), so one unconfigured instance is modelled.
- `createdAt` is a `Date` in the source. An invalid date (NaN), for which every comparison is false, is not modelled.
- `InboxDataModel.CustomOrderIsStableSort`: for a comparator that is not consistent, ECMA-262 leaves the sort order implementation-defined. The model then yields its insertion-sort order, and nothing is claimed about it.
- The fields of the in-app message, metadata and impression-row records beyond those the inbox reads are not part of this model. Their definitions are not in the files modelled.
- No date formatting is done in the files modelled, so none is modelled.
- The message detail view `IterableInboxMessageDisplay` is not part of this model. It receives both `deleteRow` and `returnToInbox(callback)` (ts/IterableInbox.tsx:237-238), so whether a delete from the detail view first returns to the list is decided there; only `deleteRow` on its own is modelled.
- The visible-impressions effect is assumed to run on every call of `updateVisibleMessageImpressions`. That holds when the message list (`IterableInboxMessageList`, not part of this model) passes a new array each time; React skips the effect when the same array is set again.
