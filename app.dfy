/** The board of App.tsx: the entries on screen, the selected card and the
    layout, and the handlers that call the gateway and the toast queue. Each
    handler awaits its requests in order; a failing request (its `fail` flag)
    raises, so nothing after it in the handler happens. `getEntries` swallows
    its own failure (`fetchFails`) and yields an empty list. */
module App {
  import opened Wrappers
  import opened EntryTypes
  import opened Backend
  import opened EntryApi
  import opened Toast

  /** The undo closure that a delete toast carries: it restores `id`. */
  datatype Callback = UndoDelete(id: string)

  const DeletedMessage := "メモを削除しました"
  const UndoLabel := "元に戻す"
  const RestoredMessage := "メモを元に戻しました"

  /** The fixed size of a note created from the navigation bar. */
  const NoteWidth: int := 200
  const NoteHeight: int := 60

  /** The draft `handleCreateNote` sends for `content`. */
  function NoteDraft(content: string): EntryDraft {
    EntryDraft(Note, content, false, 0, NoteWidth, NoteHeight, None)
  }

  /** A note created from the bar carries the typed text, is not done, is a
      200 by 60 note, and is listed at the table's default rank. */
  lemma CreatedNoteShape(rows: seq<Row>, content: string, freshId: string, rank: int, now: string)
    ensures var e := CreatedEntry(NoteDraft(content), freshId, rank, now);
      && e in ListEntries(rows + [InsertedRow(CreatePayload(NoteDraft(content)), freshId, rank, now)])
      && e.id == freshId && e.kind == Note && e.content == content && !e.isDone
      && e.width == 200 && e.height == 60 && e.orderRank == rank && e.deletedAt.None?
  {
    CreateThenList(rows, NoteDraft(content), freshId, rank, now);
  }

  /** The toggle of `onToggleView`. */
  function Toggled(m: ViewMode): ViewMode {
    if m == List then Tile else List
  }

  /** The toggle always changes the layout, and two toggles restore it. */
  lemma ToggleInvolution(m: ViewMode)
    ensures Toggled(m) != m
    ensures Toggled(Toggled(m)) == m
  {
  }

  /** `prev.map(e => e.id === id ? { ...e, ...updates, updatedAt: now } : e)`. */
  function MergeUpdate(entries: seq<Entry>, id: string, updates: EntryPatch, now: string): (r: seq<Entry>)
    ensures |r| == |entries|
    ensures forall k | 0 <= k < |entries| && entries[k].id != id :: r[k] == entries[k]
    ensures forall k | 0 <= k < |entries| && entries[k].id == id ::
      r[k] == Spread(entries[k], updates).(updatedAt := Some(now))
  {
    seq(|entries|, k requires 0 <= k < |entries| =>
      if entries[k].id == id then Spread(entries[k], updates).(updatedAt := Some(now)) else entries[k])
  }

  /** The local merge of an inline edit keeps the board's order and ids, and
      changes only the content and the update time of the edited card. */
  lemma InlineMergeFrame(entries: seq<Entry>, id: string, content: string, now: string)
    ensures var r := MergeUpdate(entries, id, ContentPatch(content), now);
      forall k | 0 <= k < |entries| ::
        r[k] == if entries[k].id == id then entries[k].(content := content, updatedAt := Some(now)) else entries[k]
    ensures UniqueIds(entries) ==> UniqueIds(MergeUpdate(entries, id, ContentPatch(content), now))
  {
  }

  /** For an inline edit, the card the board merges locally is exactly the
      entry the backend stores for the same edit. */
  lemma InlineMergeAgreesWithBackend(e: Entry, content: string, now: string)
    ensures MapToEntry(ApplyUpdate(EntryColumns(e), UpdatePayloadOf(ContentPatch(content), now)))
         == Spread(e, ContentPatch(content)).(updatedAt := Some(now))
  {
  }

  class Board {
    var entries: seq<Entry>
    var selectedId: Option<string>
    var viewMode: ViewMode
    const db: Table
    const toasts: ToastQueue<Callback>

    ghost predicate Valid()
      reads this, db
    {
      db.Valid()
    }

    /** The first render, before the mount effect fetches. */
    constructor (db: Table, toasts: ToastQueue<Callback>)
      requires db.Valid()
      ensures Valid()
      ensures entries == [] && selectedId == None && viewMode == Tile
      ensures this.db == db && this.toasts == toasts
    {
      entries := [];
      selectedId := None;
      viewMode := Tile;
      this.db := db;
      this.toasts := toasts;
    }

    /** `fetchEntries`, which the mount effect runs once. */
    method FetchEntries(fetchFails: bool)
      modifies this
      ensures entries == if fetchFails then [] else ListEntries(db.rows)
      ensures selectedId == old(selectedId) && viewMode == old(viewMode)
    {
      entries := GetEntries(db, fetchFails);
    }

    /** `handleCreateNote`: create a 200 by 60 note, refetch, select it. On a
        successful fetch the new note is on the board. */
    method HandleCreateNote(content: string, freshId: string, now: string, fail: bool, fetchFails: bool)
      returns (o: Outcome<BackendError>)
      requires Valid() && Lookup(db.rows, freshId).None?
      modifies this, db
      ensures Valid()
      ensures o.Fail? <==> fail
      ensures o.Fail? ==> db.rows == old(db.rows) && entries == old(entries) && selectedId == old(selectedId)
      ensures o.Pass? ==>
        && db.rows == old(db.rows) + [InsertedRow(CreatePayload(NoteDraft(content)), freshId, db.defaultOrderRank, now)]
        && entries == (if fetchFails then [] else ListEntries(db.rows))
        && selectedId == Some(freshId)
      ensures o.Pass? && !fetchFails ==> CreatedEntry(NoteDraft(content), freshId, db.defaultOrderRank, now) in entries
      ensures viewMode == old(viewMode)
    {
      var created := CreateEntry(db, NoteDraft(content), freshId, now, fail);
      if created.Err? {
        o := Fail(created.error);
        return;
      }
      CreatedNoteShape(old(db.rows), content, freshId, db.defaultOrderRank, now);
      FetchEntries(fetchFails);
      selectedId := Some(created.value.id);
      o := Pass;
    }

    /** `handleSelect`. */
    method HandleSelect(id: string)
      modifies this
      ensures selectedId == Some(id)
      ensures entries == old(entries) && viewMode == old(viewMode)
    {
      selectedId := Some(id);
    }

    /** `handleUpdate`: persist, then merge the same patch into the board
        locally without refetching. */
    method HandleUpdate(id: string, updates: EntryPatch, now: string, fail: bool)
      returns (o: Outcome<BackendError>)
      requires Valid()
      modifies this, db
      ensures Valid()
      ensures o.Fail? <==> fail || Lookup(old(db.rows), id).None?
      ensures o.Fail? ==> db.rows == old(db.rows) && entries == old(entries)
      ensures o.Pass? ==>
        && db.rows == UpdateWhere(old(db.rows), id, UpdatePayloadOf(updates, now))
        && entries == MergeUpdate(old(entries), id, updates, now)
      ensures selectedId == old(selectedId) && viewMode == old(viewMode)
    {
      var updated := UpdateEntry(db, id, updates, now, fail);
      if updated.Err? {
        o := Fail(updated.error);
        return;
      }
      entries := MergeUpdate(entries, id, updates, now);
      o := Pass;
    }

    /** `handleInlineUpdate`: an update of the content only. */
    method HandleInlineUpdate(id: string, content: string, now: string, fail: bool)
      returns (o: Outcome<BackendError>)
      requires Valid()
      modifies this, db
      ensures Valid()
      ensures o.Fail? <==> fail || Lookup(old(db.rows), id).None?
      ensures o.Fail? ==> db.rows == old(db.rows) && entries == old(entries)
      ensures o.Pass? ==>
        && db.rows == UpdateWhere(old(db.rows), id, UpdatePayloadOf(ContentPatch(content), now))
        && entries == MergeUpdate(old(entries), id, ContentPatch(content), now)
      ensures selectedId == old(selectedId) && viewMode == old(viewMode)
    {
      o := HandleUpdate(id, ContentPatch(content), now, fail);
    }

    /** `handleDelete`: nothing for an empty id; otherwise delete, refetch and
        show a toast whose action undoes the delete. The deleted entry is not
        on the board afterwards. */
    method HandleDelete(id: string, now: string, toastId: string, fail: bool, fetchFails: bool)
      returns (o: Outcome<BackendError>)
      requires Valid()
      modifies this, db, toasts
      ensures Valid()
      ensures o.Fail? <==> id != "" && fail
      ensures id == "" || fail ==>
        && db.rows == old(db.rows) && entries == old(entries)
        && toasts.toasts == old(toasts.toasts) && toasts.timers == old(toasts.timers)
      ensures id != "" && !fail ==>
        && db.rows == WithDeletedAt(old(db.rows), id, Some(now))
        && entries == (if fetchFails then [] else ListEntries(db.rows))
        && toasts.toasts == old(toasts.toasts) + [Toast(toastId, DeletedMessage, Default, Some(Action(UndoLabel, UndoDelete(id))))]
        && toasts.timers == old(toasts.timers) + [Timer(toastId, ExpiryMs)]
      ensures forall e | e in entries :: id != "" && !fail ==> e.id != id
      ensures selectedId == old(selectedId) && viewMode == old(viewMode)
    {
      if id == "" {
        o := Pass;
        return;
      }
      o := DeleteEntry(db, id, now, fail);
      if o.Fail? {
        return;
      }
      DeletedEntryNotListed(old(db.rows), id, now);
      FetchEntries(fetchFails);
      toasts.ShowToast(DeletedMessage, None, Some(Action(UndoLabel, UndoDelete(id))), toastId);
    }

    /** The undo closure: restore, refetch and confirm with a plain toast. */
    method RunCallback(cb: Callback, toastId: string, fail: bool, fetchFails: bool)
      returns (o: Outcome<BackendError>)
      requires Valid()
      modifies this, db, toasts
      ensures Valid()
      ensures o.Fail? <==> fail
      ensures fail ==>
        && db.rows == old(db.rows) && entries == old(entries)
        && toasts.toasts == old(toasts.toasts) && toasts.timers == old(toasts.timers)
      ensures !fail ==>
        && db.rows == WithDeletedAt(old(db.rows), cb.id, None)
        && entries == (if fetchFails then [] else ListEntries(db.rows))
        && toasts.toasts == old(toasts.toasts) + [Toast(toastId, RestoredMessage, Default, None)]
        && toasts.timers == old(toasts.timers) + [Timer(toastId, ExpiryMs)]
      ensures selectedId == old(selectedId) && viewMode == old(viewMode)
    {
      o := UndoDeleteEntry(db, cb.id, fail);
      if o.Fail? {
        return;
      }
      FetchEntries(fetchFails);
      toasts.ShowToast(RestoredMessage, None, None, toastId);
    }

    /** A click on the action button of toast `i`: the toast is removed and its
        callback runs. */
    method ClickToastAction(i: nat, toastId: string, fail: bool, fetchFails: bool)
      returns (o: Outcome<BackendError>)
      requires Valid()
      requires i < |toasts.toasts| && toasts.toasts[i].action.Some?
      modifies this, db, toasts
      ensures Valid()
      ensures o.Fail? <==> fail
      ensures var cb := old(toasts.toasts[i]).action.value.onClick;
        var remaining := WithoutId(old(toasts.toasts), old(toasts.toasts[i]).id);
        && db.rows == (if fail then old(db.rows) else WithDeletedAt(old(db.rows), cb.id, None))
        && toasts.toasts == (if fail then remaining else remaining + [Toast(toastId, RestoredMessage, Default, None)])
      ensures fail ==> entries == old(entries) && toasts.timers == old(toasts.timers)
      ensures !fail ==>
        && entries == (if fetchFails then [] else ListEntries(db.rows))
        && toasts.timers == old(toasts.timers) + [Timer(toastId, ExpiryMs)]
      ensures selectedId == old(selectedId) && viewMode == old(viewMode)
    {
      var cb := toasts.ClickAction(i);
      o := RunCallback(cb, toastId, fail, fetchFails);
    }

    /** `onToggleView`. */
    method ToggleView()
      modifies this
      ensures viewMode == Toggled(old(viewMode))
      ensures entries == old(entries) && selectedId == old(selectedId)
    {
      viewMode := Toggled(viewMode);
    }
  }

  /** Deleting an entry that is on the board and undoing it gives back the
      table as it was. */
  lemma DeleteThenUndoRestores(rows: seq<Row>, id: string, now: string)
    requires DistinctIds(rows)
    requires exists e | e in ListEntries(rows) :: e.id == id
    ensures WithDeletedAt(WithDeletedAt(rows, id, Some(now)), id, None) == rows
  {
    var e :| e in ListEntries(rows) && e.id == id;
    ListEntriesSpec(rows);
    var row := EntryColumns(e);
    forall k | 0 <= k < |rows| && rows[k].id == id ensures rows[k].deleted_at.None? {
      var j :| 0 <= j < |rows| && rows[j] == row;
      assert rows[k].id == rows[j].id;
    }
    DeleteRestoreRoundTrip(rows, id, now);
  }
}
