# Note board model

A Dafny model of the front end of a small note/task board (the `mvp-handson`
React app). The board shows two lists side by side, one for tasks and one
for notes. Each list shows the non-deleted entries of its kind, sorted by
`order_rank`. A navigation bar at the bottom creates notes. A card is
edited inline after it is selected. Deleting a card shows a toast whose
action undoes the delete. The app talks to a hosted `entries` table through
the gateway `features/entries/api/index.ts`.

Modules, one per source file:

| file | module | source |
|---|---|---|
| `wrappers.dfy` | `Wrappers` | `Option`, `Result`, `Outcome` |
| `entry_types.dfy` | `EntryTypes` | `features/entries/types.ts`, plus `Partial<Entry>` and `{...e, ...p}` |
| `backend.dfy` | `Backend` | the `entries` table as the gateway uses it: snake_case rows and the five queries |
| `entry_api.dfy` | `EntryApi` | `features/entries/api/index.ts` |
| `entry_list.dfy` | `EntryList` | `features/entries/components/EntryList.tsx` (filtering, drag end, selection) |
| `toast.dfy` | `Toast` | `components/ui/toast/ToastContext.tsx` |
| `entry_card.dfy` | `EntryCard` | `features/entries/components/EntryCard.tsx` |
| `navigation_bar.dfy` | `NavigationBar` | `features/entries/components/NavigationBar.tsx` |
| `app.dfy` | `App` | `App.tsx` |

How the model represents the source:

- **The backend is a class.**
  - `Backend.Table` stores its rows as a `seq<Row>` and has one method per query shape the gateway sends.
  - Each request takes a `fail` flag. It stands for a network or server error.
  - The clock value `new Date().toISOString()` and server-assigned ids are parameters (`now`, `freshId`).
- **Components with state are classes.**
  - These are the toast provider, the card, the navigation bar and the app.
  - React state hooks become fields, and event handlers become methods.
  - A callback prop that a handler calls becomes the handler's return value. For example, `HandleBlur` returns the `onUpdate` call it makes, if any.
- **A toast's removal timer is a pending `Timer` in a queue.**
  - Every timer uses the same 4000 ms delay.
  - So timers fire in the order they were scheduled.
  - One timer firing is the `ExpireNext` event.
- **Pure logic stays as functions.** This covers filtering, `arrayMove`, the drag-end decision, the row/entry translation and the request bodies.

Places where comments in the code and the code itself disagree. The model follows the code:

- The listing comment at api/index.ts:25 says "newest update first". The query at line 34 sorts by `order_rank` ascending, and so does `Backend.VisibleByRank`.
- The comment at ToastContext.tsx:40 says toasts close after three seconds. The timer at line 43 is 4000 ms (`Toast.ExpiryMs`).
- App.tsx:94 and App.tsx:107 pass no `onReorder` and no `onResize` to the lists. In the wired app, a drop therefore reorders nothing (`HandleDragEnd` with `hasOnReorder == false` returns `None`), and a resize is drawn but never stored (`ResizeStop` with `hasOnResize == false`). The gateway's `updateEntriesOrder` is modelled on its own.
- EntryList.tsx:81-89 passes no `viewMode` to `SortableEntry`, and `SortableEntry`'s props (SortableEntry.tsx:6-13) have no such field. Every card therefore takes the default `'tile'` (EntryCard.tsx:30) and keeps its resize box after the board switches to the list layout. `EntryCard.Card` keeps `viewMode` as a prop so that both layouts are modelled. In the wired app it is always `Tile`.
- The delete button (EntryCard.tsx:94) sits inside the card's clickable `div`, and `handleDeleteClick` (EntryCard.tsx:84-86) does not stop the click. So deleting an unselected card also calls `onSelect` with that entry (EntryCard.tsx:115). In the app this means `selectedId` becomes the deleted id (App.tsx:50), and a card restored by undo comes back selected. `EntryCard.Card.HandleDeleteClick` returns both calls.

## Model

Functions that only compute have no row of their own. Each is covered by the row of the lemma or method whose contract says what it means:
- `EntryApi.MapToEntry` by `EntryApi.MapToEntryBijective`.
- `EntryApi.CreatePayload` by `EntryApi.CreatePayloadOmits`.
- `EntryApi.UpdatePayloadOf` by `EntryApi.UpdateChangesOnlySentColumns` and `EntryApi.BuildUpdatePayload`.
- `Backend.ApplyUpdate` by `EntryApi.UpdateChangesOnlySentColumns`.
- `Backend.UpsertOne` and `Backend.Upserted` by the `Backend.LookupUpserted…` and `Backend.UpsertOneIds` lemmas.
- `EntryCard.SyncedSize` by `EntryCard.SyncedSizeSpec`.
- `App.Toggled` by `App.ToggleInvolution`.
- `NavigationBar.Trim` by `NavigationBar.TrimEmptyIffBlank`.

The ensures of `EntryApi.MapRows`, `EntryApi.OrderPayload` and `App.MergeUpdate` state them position by position. The lemmas `EntryApi.MapRowsMembership`, `EntryApi.ReorderStoresRanks` and `App.InlineMergeFrame` state what they mean.

| member | source | states |
|---|---|---|
| Backend.Lookup | mvp-handson/src/features/entries/api/index.ts:86-88 | `.eq('id', id)` finds nothing exactly when no row has the id; otherwise it finds a stored row with that id |
| Backend.LookupDistinct | mvp-handson/src/features/entries/api/index.ts:86-88 | with unique ids, looking up a stored row's id finds that very row |
| Backend.Visible | mvp-handson/src/features/entries/api/index.ts:32 | `.is('deleted_at', null)` keeps every non-deleted row with its multiplicity and drops every deleted one |
| Backend.InsertByRank | mvp-handson/src/features/entries/api/index.ts:34 | inserting into a list sorted by rank keeps it sorted; the result is one longer and holds the old rows plus the new one |
| Backend.InsertAfterHead | mvp-handson/src/features/entries/api/index.ts:34 | inserting behind a smaller head keeps the list sorted and keeps the same elements |
| Backend.SortByRank | mvp-handson/src/features/entries/api/index.ts:34 | `.order('order_rank', { ascending: true })` yields a permutation of its input, sorted ascending by rank |
| Backend.VisibleByRankSpec | mvp-handson/src/features/entries/api/index.ts:28-34 | the listing query is sorted ascending by rank and holds no deleted row; a row is listed iff it is stored and not deleted; its length is the number of non-deleted rows |
| Backend.UpdateWhere | mvp-handson/src/features/entries/api/index.ts:83-88 | an update by id applies the body to every row with that id and leaves every other row as it was, in place |
| Backend.WithDeletedAt | mvp-handson/src/features/entries/api/index.ts:97-114 | setting `deleted_at` by id changes only that column of the rows with that id |
| Backend.DeleteRestoreRoundTrip | mvp-handson/src/features/entries/api/index.ts:97-114 | setting `deleted_at` to a timestamp and then back to null restores a table whose rows with that id were not deleted |
| Backend.LookupWithDeletedAt | mvp-handson/src/features/entries/api/index.ts:97-114 | after delete or undo, the row under that id differs only in `deleted_at`, and every other id finds what it found before |
| Backend.LookupUpsertOne | mvp-handson/src/features/entries/api/index.ts:133-135 | upserting one row overwrites the row with its id (or adds it, taking a creation time), and no other id changes |
| Backend.UpsertOneIds | mvp-handson/src/features/entries/api/index.ts:133-135 | upserting one row keeps ids unique, and every row afterwards is either the upserted id or a row that was stored |
| Backend.UpsertedKeepsDistinct | mvp-handson/src/features/entries/api/index.ts:133-135 | a batch upsert keeps the table's ids unique |
| Backend.LookupUpsertedMiss | mvp-handson/src/features/entries/api/index.ts:133-135 | an id that the batch does not name keeps its row |
| Backend.LookupUpsertedHit | mvp-handson/src/features/entries/api/index.ts:133-135 | in a batch with distinct ids, each named id ends up holding that batch row's columns, and a stored row keeps its creation time |
| Backend.Table.SelectVisible | mvp-handson/src/features/entries/api/index.ts:28-34 | the query fails exactly on a backend error; otherwise it answers with the non-deleted rows sorted by rank |
| Backend.Table.Insert | mvp-handson/src/features/entries/api/index.ts:57-61 | an insert appends one row with the sent columns, the server's id, the default rank and timestamps, and not deleted; on error the table is unchanged |
| Backend.Table.Update | mvp-handson/src/features/entries/api/index.ts:83-88 | `.single()` fails on a backend error or when no row has the id; otherwise the matching rows are updated and the updated row is returned |
| Backend.Table.SetDeletedAt | mvp-handson/src/features/entries/api/index.ts:98-101 | setting `deleted_at` by id fails only on a backend error; an unknown id changes nothing and is not an error |
| Backend.Table.Upsert | mvp-handson/src/features/entries/api/index.ts:133-135 | the batch is written together; it fails on a backend error or a duplicate id, and then nothing is written |
| EntryApi.MapToEntryBijective | mvp-handson/src/features/entries/api/index.ts:8-21 | `mapToEntry` only renames: it has an inverse on both sides, so no value is lost or changed |
| EntryApi.MapRows | mvp-handson/src/features/entries/api/index.ts:40 | `data.map(mapToEntry)` keeps length and order, position by position |
| EntryApi.MapRowsMembership | mvp-handson/src/features/entries/api/index.ts:40 | an entry is in the mapped list iff its columns are a row of the data |
| EntryApi.ListEntriesSpec | mvp-handson/src/features/entries/api/index.ts:27-41 | `getEntries` yields entries sorted by `orderRank`, none deleted; an entry is listed iff its row is stored and not deleted; one entry per non-deleted row |
| EntryApi.GetEntries | mvp-handson/src/features/entries/api/index.ts:27-41 | on a backend error the result is the empty list (the error is swallowed); otherwise it is the listing |
| EntryApi.CreatePayloadOmits | mvp-handson/src/features/entries/api/index.ts:49-55 | the insert body carries kind, content, is_done, width and height; the draft's `orderRank` and `deletedAt` are never sent |
| EntryApi.CreateThenList | mvp-handson/src/features/entries/api/index.ts:47-65 | the created entry is in the next listing, with the draft's fields, the server's id and rank, and not deleted |
| EntryApi.CreateEntry | mvp-handson/src/features/entries/api/index.ts:47-65 | a backend error is raised and the table is unchanged; otherwise one row is inserted and the mapped row is returned |
| EntryApi.BuildUpdatePayload | mvp-handson/src/features/entries/api/index.ts:72-81 | the body built field by field from `{}` is the update body: the present kind, content and is_done fields, and `updated_at` always |
| EntryApi.UpdateChangesOnlySentColumns | mvp-handson/src/features/entries/api/index.ts:72-81 | an update changes kind, content and is_done exactly where the patch sets them and stamps `updated_at`; other columns never change, whatever the patch says about them |
| EntryApi.UpdateEntry | mvp-handson/src/features/entries/api/index.ts:70-92 | raises on a backend error or an unknown id, with nothing changed; otherwise it updates the row and returns it as an entry |
| EntryApi.DeleteEntry | mvp-handson/src/features/entries/api/index.ts:97-104 | raises only on a backend error; otherwise it stamps `deleted_at` on the rows with that id |
| EntryApi.UndoDeleteEntry | mvp-handson/src/features/entries/api/index.ts:106-114 | raises only on a backend error; otherwise it clears `deleted_at` on the rows with that id |
| EntryApi.DeletedEntryNotListed | mvp-handson/src/features/entries/api/index.ts:97-104 | after a delete, no entry with that id is listed, and every other id's row is unchanged |
| EntryApi.OrderPayload | mvp-handson/src/features/entries/api/index.ts:121-131 | the batch has one row per entry, in order; row k is entry k's columns with rank k and a fresh `updated_at` |
| EntryApi.OrderPayloadDense | mvp-handson/src/features/entries/api/index.ts:118-131 | the ranks are 0..n-1 in order and the ids are the entries' ids, so the batch has distinct ids iff the entries do |
| EntryApi.ReorderStoresRanks | mvp-handson/src/features/entries/api/index.ts:120-138 | after the batch, entry i is stored with rank i and otherwise as sent, and rows outside the batch are untouched |
| EntryApi.UpdateEntriesOrder | mvp-handson/src/features/entries/api/index.ts:120-138 | raises on a backend error or duplicate ids, with nothing written; otherwise it upserts the whole ranked batch |
| EntryList.FilterByKind | mvp-handson/src/features/entries/components/EntryList.tsx:31 | the filtered list holds exactly the entries of that kind, each as often as before, in their original order |
| EntryList.FilterKeepsUniqueIds | mvp-handson/src/features/entries/components/EntryList.tsx:31 | filtering keeps ids unique |
| EntryList.FindIndex | mvp-handson/src/features/entries/components/EntryList.tsx:45-46 | `findIndex` returns -1 iff no entry has the id; otherwise it returns the first position holding the id |
| EntryList.ArrayMove | mvp-handson/src/features/entries/components/EntryList.tsx:49 | `arrayMove` puts the element from `from` at `to`, keeps the others in their order, and is a permutation |
| EntryList.ArrayMoveAt | mvp-handson/src/features/entries/components/EntryList.tsx:49 | position by position: elements between the two indices shift by one towards `from`, and the rest stay put |
| EntryList.ArrayMoveUndo | mvp-handson/src/features/entries/components/EntryList.tsx:49 | moving back undoes a move, and moving in place changes nothing |
| EntryList.HandleDragEnd | mvp-handson/src/features/entries/components/EntryList.tsx:35-53 | `onReorder` is called iff there is a drop target, it differs from the dragged item, and `onReorder` is given; it receives the filtered list with the dragged entry moved to the target's position |
| EntryList.DragExample | mvp-handson/src/features/entries/components/EntryList.tsx:35-53 | dragging A onto B in [A, B, C] reorders to [B, A, C], which is stored as ranks 0, 1, 2 |
| EntryList.AtMostOneSelected | mvp-handson/src/features/entries/components/EntryList.tsx:84 | with unique ids, at most one card of a list is marked selected, and it is the one with `selectedId` |
| Toast.WithoutId | mvp-handson/src/components/ui/toast/ToastContext.tsx:29-31 | removal keeps exactly the toasts with another id |
| Toast.WithoutIdConcat | mvp-handson/src/components/ui/toast/ToastContext.tsx:29-31 | removal works piecewise, so the remaining toasts keep their order |
| Toast.WithoutAbsentId | mvp-handson/src/components/ui/toast/ToastContext.tsx:41-43 | removing an id that no toast has changes nothing, as when a timer fires for a toast already closed |
| Toast.WithoutIdIdempotent | mvp-handson/src/components/ui/toast/ToastContext.tsx:29-31 | removing twice is removing once |
| Toast.ShowThenRemove | mvp-handson/src/components/ui/toast/ToastContext.tsx:33-44 | showing a toast with a fresh id and then removing that id gives back the queue |
| Toast.UseToast | mvp-handson/src/components/ui/toast/ToastContext.tsx:86-92 | `useToast` yields the context inside a provider, and the "must be used within a ToastProvider" error outside one |
| Toast.ToastQueue.constructor | mvp-handson/src/components/ui/toast/ToastContext.tsx:26 | the provider starts with no toasts and no timers |
| Toast.ToastQueue.ShowToast | mvp-handson/src/components/ui/toast/ToastContext.tsx:33-44 | appends one toast, with variant `default` when none is given, and schedules its removal after 4000 ms |
| Toast.ToastQueue.RemoveToast | mvp-handson/src/components/ui/toast/ToastContext.tsx:29-31 | drops every toast with that id; pending timers stay |
| Toast.ToastQueue.ClickAction | mvp-handson/src/components/ui/toast/ToastContext.tsx:58-67 | the action button hands back that toast's callback to run, then removes the toast |
| Toast.ToastQueue.ClickClose | mvp-handson/src/components/ui/toast/ToastContext.tsx:71-74 | the close button removes the toast without running its action |
| Toast.ToastQueue.ExpireNext | mvp-handson/src/components/ui/toast/ToastContext.tsx:41-43 | the earliest pending timer fires and removes its toast by id; with no timer, nothing happens |
| EntryCard.OrDefault | mvp-handson/src/features/entries/components/EntryCard.tsx:39-40 | a zero width or height falls back to 200, any non-zero dimension is kept, and so the result is never zero |
| EntryCard.SyncedSizeSpec | mvp-handson/src/features/entries/components/EntryCard.tsx:44-58 | after a sync the drawn size is within 2 of the entry's in both dimensions; it is either the old drawn size or the entry's; a near size is kept; syncing again changes nothing |
| EntryCard.ResizedTo | mvp-handson/src/features/entries/components/EntryCard.tsx:159-161 | a resize keeps the width and clamps the height into [40, 2000], taking the requested height when it is in range |
| EntryCard.Card.constructor | mvp-handson/src/features/entries/components/EntryCard.tsx:34-41 | the editor text starts as the content; the drawn size starts as the entry's, with zero dimensions defaulted to 200 |
| EntryCard.Card.ReceiveProps | mvp-handson/src/features/entries/components/EntryCard.tsx:44-62 | a new entry re-syncs the drawn size only when its width or height changed, and resets the editor text only when its content changed |
| EntryCard.Card.HandleChange | mvp-handson/src/features/entries/components/EntryCard.tsx:70-72 | typing replaces the editor text; the entry, the drawn size and the other props stay |
| EntryCard.Card.HandleBlur | mvp-handson/src/features/entries/components/EntryCard.tsx:74-78 | leaving the editor calls `onUpdate(id, text)` iff the text differs from the entry's content |
| EntryCard.Card.HandleCardClick | mvp-handson/src/features/entries/components/EntryCard.tsx:88-90 | a click selects the card iff it is not selected already (the handler is attached at line 115) |
| EntryCard.Card.HandleDeleteClick | mvp-handson/src/features/entries/components/EntryCard.tsx:84-115 | the delete button (line 94) sends this card's id to `onDelete`, selected or not; the click bubbles to the card, so an unselected card is also selected (line 115) |
| EntryCard.Card.ResizeDrag | mvp-handson/src/features/entries/components/EntryCard.tsx:163-168 | a drag step redraws the clamped size, only in the tile layout (the list layout has no resize box, lines 150-152); the entry, the editor text and the props stay |
| EntryCard.Card.ResizeStop | mvp-handson/src/features/entries/components/EntryCard.tsx:169-176 | the end of a drag redraws the clamped size and reports it to `onResize` iff the layout is tile and `onResize` is given; the entry, the editor text and the props stay |
| NavigationBar.TrimStart | mvp-handson/src/features/entries/components/NavigationBar.tsx:34 | stripping leading whitespace leaves a suffix of the input, and what it drops is all whitespace; the result is empty or starts with a non-whitespace character, and it is empty iff the input is all whitespace |
| NavigationBar.TrimEnd | mvp-handson/src/features/entries/components/NavigationBar.tsx:34 | stripping trailing whitespace leaves a prefix of the input, and what it drops is all whitespace; the result is empty or ends with a non-whitespace character, and it is empty iff the input is all whitespace |
| NavigationBar.TrimEmptyIffBlank | mvp-handson/src/features/entries/components/NavigationBar.tsx:34 | `!text.trim()` holds exactly for empty or whitespace-only text; otherwise the trimmed text starts and ends with a non-whitespace character |
| NavigationBar.TrimEndKeepsFirst | mvp-handson/src/features/entries/components/NavigationBar.tsx:34 | trimming the end of a non-blank string keeps its first character |
| NavigationBar.NavBar.constructor | mvp-handson/src/features/entries/components/NavigationBar.tsx:20 | the input starts empty |
| NavigationBar.NavBar.HandleChange | mvp-handson/src/features/entries/components/NavigationBar.tsx:52 | the text becomes the input's value |
| NavigationBar.NavBar.HandleKeyDown | mvp-handson/src/features/entries/components/NavigationBar.tsx:31-38 | the default is prevented iff the key is Enter without Shift; then a non-blank text is sent untrimmed to `onCreate` and the input is cleared; otherwise the text stays |
| App.CreatedNoteShape | mvp-handson/src/App.tsx:32-45 | a note created from the bar is listed next with the typed text, not done, 200 by 60, at the default rank, not deleted |
| App.ToggleInvolution | mvp-handson/src/App.tsx:117 | the view toggle always changes the layout, and two toggles restore it |
| App.MergeUpdate | mvp-handson/src/App.tsx:54 | the local merge keeps length and order; entries with another id are untouched; the matching entry takes the patch and a new `updatedAt` |
| App.InlineMergeFrame | mvp-handson/src/App.tsx:75-77 | the merge after an inline edit changes only the edited card's content and `updatedAt`, and keeps ids unique |
| App.InlineMergeAgreesWithBackend | mvp-handson/src/App.tsx:52-55 | for an inline edit, the card merged locally equals the entry the backend stores for the same edit |
| App.DeleteThenUndoRestores | mvp-handson/src/App.tsx:59-73 | deleting an entry on the board and undoing the delete gives back the table as it was |
| App.Board.constructor | mvp-handson/src/App.tsx:10-13 | the board starts with no entries, nothing selected, in the tile layout |
| App.Board.FetchEntries | mvp-handson/src/App.tsx:20-23 | the board becomes the listing, or empty when the listing fails |
| App.Board.HandleCreateNote | mvp-handson/src/App.tsx:32-48 | a failed create raises with nothing changed; otherwise the note is inserted, the board refetched, and the new note selected and on the board |
| App.Board.HandleSelect | mvp-handson/src/App.tsx:50 | selection is set to the id |
| App.Board.HandleUpdate | mvp-handson/src/App.tsx:52-55 | on success the row is updated and the same patch is merged into the board without a refetch; on failure neither changes |
| App.Board.HandleInlineUpdate | mvp-handson/src/App.tsx:75-77 | an inline edit is a content-only update |
| App.Board.HandleDelete | mvp-handson/src/App.tsx:59-73 | an empty id does nothing; otherwise delete, refetch, and show a toast "メモを削除しました" with the undo action "元に戻す"; the deleted entry is off the board |
| App.Board.RunCallback | mvp-handson/src/App.tsx:66-70 | the undo closure restores the row, refetches and shows "メモを元に戻しました" with no action; a failure raises before the refetch |
| App.Board.ClickToastAction | mvp-handson/src/App.tsx:63-72 | clicking the undo action removes the delete toast and runs the undo closure: on success the row is restored, the board refetched, and the confirmation toast and its timer added; on failure the board and the timers stay |
| App.Board.ToggleView | mvp-handson/src/App.tsx:117 | the layout switches between list and tile |

## Left out

- The hosted database client, the network and the log output are not modelled. A backend error is the `fail` flag of each request. The database's id generator, its column default for `order_rank` and its clock are the parameters `freshId`, `defaultOrderRank` and `now`.
- Numbers are modelled as unbounded integers. Fractional widths, heights and ranks, and `NaN`, are not modelled. A falsy dimension is 0.
- One handler, or one request, uses a single `now` for every clock reading it makes. The browser clock and the server clock are not told apart.
- A `Partial<Entry>` field that is present but holds `undefined` is modelled as absent.
- The order of rows that share an `order_rank` is left unspecified by the database. `Backend.SortByRank` keeps them in storage order.
- dnd-kit's collision detection and pointer geometry are not modelled. A drop is the pair of ids it reports. `EntryList.HandleDragEnd` requires both ids to belong to the list's sortable items, which are the only ids dnd-kit reports.
- `SortableEntry.tsx`, `utils/measureEntry.ts` and `lib/Logger.ts` are not part of this model.
- Rendering, CSS, focus handling, textarea auto-height and the empty-content placeholder are presentation only, and are not modelled.
- The upload button's `alert` is not modelled.
- A React state update is applied at once. Batching and re-render timing are not modelled, and neither is a request that is still in flight when the next event arrives.
- `handleInlineUpdate` does not await or catch its promise, so the rejection of a failed update goes unhandled in the source. `App.Board.HandleInlineUpdate` returns it as an `Outcome` instead.
- The toast id comes from `Math.random` and is the parameter `toastId`. Toast ids are distinct only when the caller passes distinct ones.
